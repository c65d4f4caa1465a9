/** The game as script.js runs it: module-level variables updated in place by the
    operations the buttons, keys, swipes and timers call. Each method is proved to
    leave the variables in the state the matching function of module Rules gives. */
module Engine {
  import opened Grid
  import opened Occupancy
  import opened Rules

  class Game {
    var snake: seq<Cell>
    var food: Cell
    var direction: Direction
    var newDirection: Option<Direction>
    var score: nat
    var highScore: nat
    var gameSpeed: int
    var isPaused: bool
    var isGameOver: bool
    var gameInterval: Interval

    /** The variables as one value. */
    function Snapshot(): World
      reads this
    {
      World(snake, food, direction, newDirection, score, highScore, gameSpeed,
            isPaused, isGameOver, gameInterval)
    }

    predicate Valid()
      reads this
    {
      Rules.Valid(Snapshot())
    }

    /** Loading the page: the declarations of script.js:25-37 with the high score read
        from storage, then the initGame() call at script.js:363. */
    constructor (storedHighScore: nat, rolls: seq<Cell>)
      requires FairRolls(InitialSnake, rolls)
      ensures Snapshot() == PageLoad(storedHighScore, rolls)
      ensures Valid()
    {
      snake := [];
      food := Cell(0, 0);
      direction := Right;
      newDirection := None;
      score := 0;
      highScore := storedHighScore;
      gameInterval := Interval(false, false, 0);
      gameSpeed := InitialSpeed;
      isGameOver := true;
      isPaused := false;
      new;
      InitGame(rolls);
    }

    /** generateFood (script.js:69-81): the first draw that misses the snake. */
    method GenerateFood(rolls: seq<Cell>)
      requires FairRolls(snake, rolls)
      modifies this`food
      ensures food == rolls[FirstFree(snake, rolls)]
      ensures InGrid(food) && food !in snake
    {
      food := DrawFood(snake, rolls);
    }

    /** initGame (script.js:43-66). */
    method InitGame(rolls: seq<Cell>)
      requires FairRolls(InitialSnake, rolls)
      modifies this
      ensures Snapshot() == Init(old(Snapshot()), rolls)
    {
      snake := InitialSnake;
      GenerateFood(rolls);
      direction := Right;
      newDirection := Some(Right);
      score := 0;
      isGameOver := false;
      isPaused := false;
    }

    /** gameOver (script.js:224-231). */
    method GameOver()
      modifies this
      ensures Snapshot() == Over(old(Snapshot()))
    {
      isGameOver := true;
      gameInterval := ClearInterval(gameInterval);
    }

    /** updateGame (script.js:136-216), what each timer firing runs. */
    method UpdateGame(rolls: seq<Cell>)
      requires Valid()
      requires Eats(Snapshot()) ==> FairRolls(Grown(Snapshot()), rolls)
      modifies this
      ensures Snapshot() == Tick(old(Snapshot()), rolls)
      ensures Valid()
    {
      if isPaused || isGameOver {
        return;
      }
      ghost var w := Snapshot();
      if newDirection.Some? {
        if TurnAllowed(newDirection.value, direction) {
          direction := newDirection.value;
        }
        newDirection := None;
      }
      assert direction == NextDirection(w);
      ghost var turned := Snapshot();
      assert turned == w.(direction := NextDirection(w), newDirection := None);
      var head := Advance(snake[0], direction);
      assert head == NextHead(w);
      if head.x < 0 || head.x >= Width || head.y < 0 || head.y >= Height {
        GameOver();
        assert Snapshot() == Over(turned);
        return;
      }
      if head in snake {
        GameOver();
        assert Snapshot() == Over(turned);
        return;
      }
      snake := [head] + snake;
      ghost var grown := Snapshot();
      if head == food {
        EatFood(rolls);
        assert Tick(w, rolls) == Feed(grown, rolls);
      } else {
        snake := snake[..|snake| - 1];
        assert Tick(w, rolls) == Slide(grown);
      }
    }

    /** The branch of updateGame taken when the new head, already in front, is on the
        food (script.js:188-208). */
    method EatFood(rolls: seq<Cell>)
      requires FairRolls(snake, rolls)
      modifies this
      ensures Snapshot() == Feed(old(Snapshot()), rolls)
    {
      score := score + FoodPoints;
      if score > highScore {
        highScore := score;
      }
      GenerateFood(rolls);
      if score % SpeedUpEvery == 0 && gameSpeed > MinSpeed {
        gameSpeed := gameSpeed - SpeedStep;
        gameInterval := ClearInterval(gameInterval);
        gameInterval := SetInterval(gameInterval);
      }
    }

    /** startGame (script.js:234-253). */
    method StartGame(rolls: seq<Cell>)
      requires Valid()
      requires !isPaused ==> FairRolls(InitialSnake, rolls)
      modifies this
      ensures Snapshot() == Start(old(Snapshot()), rolls)
      ensures Valid()
    {
      if isPaused {
        isPaused := false;
        gameInterval := SetInterval(gameInterval);
      } else {
        InitGame(rolls);
        gameInterval := SetInterval(gameInterval);
      }
    }

    /** pauseGame (script.js:256-270). */
    method PauseGame()
      requires Valid()
      modifies this
      ensures Snapshot() == Pause(old(Snapshot()))
      ensures Valid()
    {
      if isGameOver || !gameInterval.handle {
        return;
      }
      if isPaused {
        isPaused := false;
        gameInterval := SetInterval(gameInterval);
      } else {
        isPaused := true;
        gameInterval := ClearInterval(gameInterval);
      }
    }

    /** resetGame (script.js:273-278). */
    method ResetGame(rolls: seq<Cell>)
      requires Valid()
      requires FairRolls(InitialSnake, rolls)
      modifies this
      ensures Snapshot() == Reset(old(Snapshot()), rolls)
      ensures Valid()
    {
      gameInterval := ClearInterval(gameInterval);
      InitGame(rolls);
    }

    /** handleKeyPress (script.js:281-308). */
    method HandleKeyPress(key: string, rolls: seq<Cell>)
      requires Valid()
      requires KeyCommand(key) == Confirm && isGameOver ==> FairRolls(InitialSnake, rolls)
      modifies this
      ensures Snapshot() == OnKey(old(Snapshot()), key, rolls)
      ensures Valid()
    {
      match KeyCommand(key)
      case Steer(d) =>
        newDirection := Some(d);
      case TogglePause =>
        if !isGameOver {
          PauseGame();
        }
      case Confirm =>
        if isGameOver {
          StartGame(rolls);
        }
      case Ignore =>
    }

    /** handleSwipe (script.js:327-347) for a swipe of (dx, dy). */
    method HandleSwipe(dx: int, dy: int)
      requires Valid()
      modifies this
      ensures Snapshot() == OnSwipe(old(Snapshot()), dx, dy)
      ensures Valid()
    {
      if Abs(dx) > Abs(dy) {
        if dx > 0 && direction != Left {
          newDirection := Some(Right);
        } else if dx < 0 && direction != Right {
          newDirection := Some(Left);
        }
      } else {
        if dy > 0 && direction != Up {
          newDirection := Some(Down);
        } else if dy < 0 && direction != Down {
          newDirection := Some(Up);
        }
      }
    }
  }
}
