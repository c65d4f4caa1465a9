/** The game state of script.js as one value, and every operation of the game as a
    function from state to state. The class in module Engine performs the same steps
    in place and is proved to agree with these functions. */
module Rules {
  import opened Grid
  import opened Occupancy

  /** gameSpeed starts at 150 ms (script.js:32) and drops by 10 ms, never below 50 ms,
      each time the score reaches a multiple of 50 (script.js:204-205). */
  const InitialSpeed: int := 150
  const MinSpeed: int := 50
  const SpeedStep: int := 10
  const SpeedUpEvery: int := 50

  /** Points for one piece of food (script.js:190). */
  const FoodPoints: int := 10

  /** The snake of a new game, head first (script.js:45-49). */
  const InitialSnake: seq<Cell> := [Cell(10, 10), Cell(9, 10), Cell(8, 10)]

  /** What is known of the timer behind `gameInterval`: whether the variable holds a
      handle at all (it starts as null and is never set back to null), whether the timer
      that handle names is still registered, and how many other timers are still
      registered although their handle was overwritten by a later setInterval. */
  datatype Interval = Interval(handle: bool, live: bool, strays: nat)

  /** How many registered timers call gameLoop. */
  function Registered(t: Interval): nat {
    t.strays + (if t.live then 1 else 0)
  }

  /** `gameInterval = setInterval(gameLoop, gameSpeed)`: a new timer, and the handle of a
      timer still registered is lost. */
  function SetInterval(t: Interval): (r: Interval)
    ensures r.handle && r.live
    ensures Registered(r) == Registered(t) + 1
  {
    Interval(true, true, t.strays + (if t.live then 1 else 0))
  }

  /** `clearInterval(gameInterval)`: only the timer the variable names is stopped. */
  function ClearInterval(t: Interval): (r: Interval)
    ensures !r.live && r.handle == t.handle && r.strays == t.strays
    ensures Registered(r) == Registered(t) - (if t.live then 1 else 0)
  {
    t.(live := false)
  }

  /** The module-level variables of script.js (lines 25-37). `newDirection` is None for
      the empty string. */
  datatype World = World(
    snake: seq<Cell>,
    food: Cell,
    direction: Direction,
    newDirection: Option<Direction>,
    score: nat,
    highScore: nat,
    gameSpeed: int,
    isPaused: bool,
    isGameOver: bool,
    interval: Interval)

  /** The variables as the page declares them, before its closing initGame() call
      (script.js:25-37). `food` starts as an empty object; Cell(0, 0) stands in for it
      and is overwritten before it is read. */
  function Loaded(storedHighScore: nat): (r: World)
    ensures r.isGameOver && !r.isPaused && !r.interval.handle && Registered(r.interval) == 0
    ensures r.score == 0 && r.highScore == storedHighScore && r.gameSpeed == InitialSpeed
  {
    World([], Cell(0, 0), Right, None, 0, storedHighScore, InitialSpeed, false, true,
          Interval(false, false, 0))
  }

  predicate SpeedOk(speed: int) {
    MinSpeed <= speed <= InitialSpeed && speed % SpeedStep == 0
  }

  /** The invariant every operation keeps: the snake is on the board without repeated
      cells, the food is on a free cell, the snake is three cells plus one per 10 points,
      the high score is at least the score, the speed is a multiple of 10 in [50, 150],
      and no referenced timer runs while the game is paused or over. */
  predicate Valid(w: World) {
    && w.score % FoodPoints == 0
    && |w.snake| == |InitialSnake| + w.score / FoodPoints
    && AllInGrid(w.snake)
    && Distinct(w.snake)
    && InGrid(w.food)
    && w.food !in w.snake
    && w.score <= w.highScore
    && SpeedOk(w.gameSpeed)
    && (w.isPaused ==> !w.isGameOver)
    && (!w.interval.handle ==> !w.interval.live && w.interval.strays == 0)
    && (w.isPaused || w.isGameOver ==> !w.interval.live)
  }

  /** initGame (script.js:43-66): a new snake, food, direction right with 'right' pending,
      score 0 and both flags cleared. The speed, the high score and the timer carry over. */
  function Init(w: World, rolls: seq<Cell>): (r: World)
    requires FairRolls(InitialSnake, rolls)
    ensures r.snake == InitialSnake && r.score == 0
    ensures r.direction == Right && r.newDirection == Some(Right)
    ensures !r.isGameOver && !r.isPaused
    ensures InGrid(r.food) && r.food !in r.snake
    ensures r.highScore == w.highScore && r.gameSpeed == w.gameSpeed && r.interval == w.interval
    ensures (SpeedOk(w.gameSpeed) && (!w.interval.handle ==> !w.interval.live && w.interval.strays == 0))
            ==> Valid(r)
  {
    var food := rolls[FirstFree(InitialSnake, rolls)];
    w.(snake := InitialSnake, food := food, direction := Right, newDirection := Some(Right),
       score := 0, isGameOver := false, isPaused := false)
  }

  /** gameOver (script.js:224-231). */
  function Over(w: World): (r: World)
    ensures r.isGameOver && !r.interval.live
    ensures r.interval.handle == w.interval.handle && r.interval.strays == w.interval.strays
    ensures r.(isGameOver := w.isGameOver, interval := w.interval) == w
  {
    w.(isGameOver := true, interval := ClearInterval(w.interval))
  }

  predicate Running(w: World) {
    !w.isPaused && !w.isGameOver
  }

  /** The direction a tick moves in, after the pending request is resolved. */
  function NextDirection(w: World): Direction {
    Resolve(w.direction, w.newDirection)
  }

  function NextHead(w: World): Cell
    requires |w.snake| > 0
  {
    Advance(w.snake[0], NextDirection(w))
  }

  /** The two game-over tests of updateGame: off the board (script.js:173), or onto any
      cell of the snake as it is before the tail moves (script.js:179). */
  predicate Collides(w: World)
    requires |w.snake| > 0
  {
    !InGrid(NextHead(w)) || NextHead(w) in w.snake
  }

  /** With a snake free of repeated cells on the board, a tick collides exactly when
      putting the new head in front would leave the board or repeat a cell; the tail
      cell, still part of the snake at the test, is in the way. */
  lemma {:induction false} CollidesIffGrownBreaks(w: World)
    requires |w.snake| > 0 && AllInGrid(w.snake) && Distinct(w.snake)
    ensures !Collides(w) <==> AllInGrid(Grown(w)) && Distinct(Grown(w))
    ensures NextHead(w) == w.snake[|w.snake| - 1] ==> Collides(w)
  {
    var g := Grown(w);
    if !Collides(w) {
      PrependDistinct(NextHead(w), w.snake);
      forall i | 0 <= i < |g| ensures InGrid(g[i]) {
        if i > 0 {
          assert g[i] == w.snake[i - 1];
        }
      }
    }
    if AllInGrid(g) && Distinct(g) {
      assert InGrid(g[0]) && g[0] !in g[1..];
    }
  }

  predicate Eats(w: World)
    requires |w.snake| > 0
  {
    Running(w) && !Collides(w) && NextHead(w) == w.food
  }

  /** The snake after the new head is put in front (script.js:185); generateFood runs
      on this body when the food is eaten. */
  function Grown(w: World): seq<Cell>
    requires |w.snake| > 0
  {
    [NextHead(w)] + w.snake
  }

  /** updateGame (script.js:136-216), one tick of the game. */
  function Tick(w: World, rolls: seq<Cell>): (r: World)
    requires Valid(w)
    requires Eats(w) ==> FairRolls(Grown(w), rolls)
    ensures Valid(r)
    ensures !Running(w) ==> r == w
  {
    if !Running(w) then w
    else
      var turned := w.(direction := NextDirection(w), newDirection := None);
      var head := NextHead(w);
      if !InGrid(head) then Over(turned)
      else if head in w.snake then Over(turned)
      else if head == w.food then
        FeedKeepsValid(w, rolls);
        Feed(turned.(snake := [head] + w.snake), rolls)
      else
        SlideKeepsValid(w);
        Slide(turned.(snake := [head] + w.snake))
  }

  lemma PrependDistinct(head: Cell, body: seq<Cell>)
    requires Distinct(body) && head !in body
    ensures Distinct([head] + body)
  {
  }

  /** A tick consumes the pending request and never turns the snake around. */
  lemma TickTurns(w: World, rolls: seq<Cell>)
    requires Valid(w)
    requires Eats(w) ==> FairRolls(Grown(w), rolls)
    ensures var r := Tick(w, rolls);
            r.direction != Opposite(w.direction) &&
            (Running(w) ==> r.newDirection == None && r.direction == NextDirection(w))
  {
  }

  /** Leaving the board or running into any cell of the snake, including the tail that
      was about to move away, ends the game and changes nothing else but the turn. */
  lemma TickCollides(w: World, rolls: seq<Cell>)
    requires Valid(w) && Running(w) && Collides(w)
    ensures var r := Tick(w, rolls);
            r.isGameOver && !r.interval.live && r.interval.strays == w.interval.strays &&
            r.snake == w.snake && r.food == w.food && r.score == w.score &&
            r.highScore == w.highScore && r.gameSpeed == w.gameSpeed
  {
  }

  /** Otherwise exactly one new head is put in front, one cell ahead of the old head in
      the new direction, and the tail is dropped unless the food was eaten: the snake
      keeps its length or grows by one. */
  lemma TickMoves(w: World, rolls: seq<Cell>)
    requires Valid(w) && Running(w) && !Collides(w)
    requires Eats(w) ==> FairRolls(Grown(w), rolls)
    ensures var r := Tick(w, rolls);
            !r.isGameOver && !r.isPaused &&
            r.snake[0] == Advance(w.snake[0], r.direction) &&
            r.snake[1..] == (if Eats(w) then w.snake else w.snake[..|w.snake| - 1]) &&
            |r.snake| == |w.snake| + (if Eats(w) then 1 else 0)
  {
  }

  /** Eating is worth 10 points; the high score follows the score up; the food moves
      only when it is eaten. */
  lemma TickScores(w: World, rolls: seq<Cell>)
    requires Valid(w)
    requires Eats(w) ==> FairRolls(Grown(w), rolls)
    ensures var r := Tick(w, rolls);
            r.score == w.score + (if Eats(w) then FoodPoints else 0) &&
            r.highScore == (if r.score > w.highScore then r.score else w.highScore) &&
            (r.food != w.food <==> Eats(w))
  {
  }

  /** The speed drops by 10 exactly when food is eaten, the new score is a multiple of 50
      and the speed is above 50; the timer is then replaced by one at the new speed. */
  lemma TickSpeeds(w: World, rolls: seq<Cell>)
    requires Valid(w)
    requires Eats(w) ==> FairRolls(Grown(w), rolls)
    ensures var r := Tick(w, rolls);
            var faster := Eats(w) && r.score % SpeedUpEvery == 0 && w.gameSpeed > MinSpeed;
            r.gameSpeed == (if faster then w.gameSpeed - SpeedStep else w.gameSpeed) &&
            (faster ==> r.interval.live && r.interval.strays == w.interval.strays)
  {
  }

  /** The rest of a tick once the new head is in front (script.js:188-208) and lies on
      the food: the score and perhaps the high score rise, new food is placed on the grown
      snake's free cells, and every 50 points the speed ramps up with a new timer. */
  function Feed(grown: World, rolls: seq<Cell>): World
    requires FairRolls(grown.snake, rolls)
  {
    var score := grown.score + FoodPoints;
    var faster := score % SpeedUpEvery == 0 && grown.gameSpeed > MinSpeed;
    grown.(score := score,
           highScore := if score > grown.highScore then score else grown.highScore,
           food := rolls[FirstFree(grown.snake, rolls)],
           gameSpeed := if faster then grown.gameSpeed - SpeedStep else grown.gameSpeed,
           interval := if faster then SetInterval(ClearInterval(grown.interval)) else grown.interval)
  }

  /** What eating does: 10 more points, a high score that follows the score, new food on
      the first draw that misses the grown snake, and every 50 points a step down in speed
      on a new timer; nothing else changes. */
  lemma FeedEffects(grown: World, rolls: seq<Cell>)
    requires FairRolls(grown.snake, rolls)
    ensures var r := Feed(grown, rolls);
            r.score == grown.score + FoodPoints &&
            r.highScore >= r.score && r.highScore >= grown.highScore &&
            (r.highScore == grown.highScore || r.highScore == r.score)
    ensures var r := Feed(grown, rolls);
            r.food == rolls[FirstFree(grown.snake, rolls)] && InGrid(r.food) && r.food !in r.snake
    ensures var r := Feed(grown, rolls);
            var faster := r.score % SpeedUpEvery == 0 && grown.gameSpeed > MinSpeed;
            r.gameSpeed == (if faster then grown.gameSpeed - SpeedStep else grown.gameSpeed) &&
            (faster ==> r.interval.live && r.interval.handle &&
                        Registered(r.interval) == Registered(grown.interval) + (if grown.interval.live then 0 else 1)) &&
            (!faster ==> r.interval == grown.interval) &&
            (SpeedOk(grown.gameSpeed) ==> SpeedOk(r.gameSpeed))
    ensures Feed(grown, rolls).(score := grown.score, highScore := grown.highScore, food := grown.food,
                                gameSpeed := grown.gameSpeed, interval := grown.interval) == grown
  {
  }

  /** The rest of a tick once the new head is in front and misses the food: the tail
      is dropped (script.js:211). */
  function Slide(grown: World): (r: World)
    requires |grown.snake| > 0
  {
    grown.(snake := grown.snake[..|grown.snake| - 1])
  }

  /** Without food only the tail cell goes: the rest of the snake, in order, stays. */
  lemma SlideDropsTail(grown: World)
    requires |grown.snake| > 0
    ensures grown.snake == Slide(grown).snake + [grown.snake[|grown.snake| - 1]]
    ensures Slide(grown).(snake := grown.snake) == grown
  {
  }

  /** The state a tick leaves once the food is eaten keeps the invariant. */
  lemma FeedKeepsValid(w: World, rolls: seq<Cell>)
    requires Valid(w) && Eats(w) && FairRolls(Grown(w), rolls)
    ensures Valid(Feed(w.(direction := NextDirection(w), newDirection := None, snake := Grown(w)), rolls))
  {
  }

  /** The state a tick leaves when the snake moves without eating keeps the invariant. */
  lemma SlideKeepsValid(w: World)
    requires Valid(w) && Running(w) && !Collides(w) && NextHead(w) != w.food
    ensures Valid(Slide(w.(direction := NextDirection(w), newDirection := None, snake := Grown(w))))
  {
  }

  /** The food is a free cell, so a snake in a consistent state never covers the board. */
  lemma SnakeShorterThanBoard(w: World)
    requires Valid(w)
    ensures |w.snake| < Area
  {
    FreeCellExistsIffShort(w.snake);
  }

  /** When the snake eats, generateFood can finish exactly when the grown snake still
      leaves a cell free, which fails only for the move that fills the board. */
  lemma FoodPlaceableIffRoom(w: World)
    requires Valid(w) && Eats(w)
    ensures (exists rolls :: FairRolls(Grown(w), rolls)) <==> |w.snake| + 1 < Area
  {
    PrependDistinct(NextHead(w), w.snake);
    FairRollsIffFreeCell(Grown(w));
  }

  /** startGame (script.js:234-253): resume a paused game, otherwise start a new one; in
      both cases a timer is registered without stopping the one already referenced. */
  function Start(w: World, rolls: seq<Cell>): (r: World)
    requires Valid(w)
    requires !w.isPaused ==> FairRolls(InitialSnake, rolls)
    ensures Valid(r) && Running(r) && r.interval.live
    ensures Registered(r.interval) == Registered(w.interval) + 1
    ensures w.isPaused ==> r.(isPaused := true, interval := w.interval) == w
    ensures !w.isPaused ==> r.(interval := w.interval) == Init(w, rolls)
    ensures r.interval == SetInterval(w.interval)
  {
    if w.isPaused then w.(isPaused := false, interval := SetInterval(w.interval))
    else Init(w, rolls).(interval := SetInterval(w.interval))
  }

  /** pauseGame (script.js:256-270): toggles between paused and running; ignored once
      the game is over and before any timer was ever registered. */
  function Pause(w: World): (r: World)
    requires Valid(w)
    ensures Valid(r)
    ensures w.isGameOver || !w.interval.handle ==> r == w
    ensures !w.isGameOver && w.interval.handle ==>
              r.isPaused == !w.isPaused && r.(isPaused := w.isPaused, interval := w.interval) == w
    ensures r.isPaused != w.isPaused ==> r.interval.live == !r.isPaused
  {
    if w.isGameOver || !w.interval.handle then w
    else if w.isPaused then w.(isPaused := false, interval := SetInterval(w.interval))
    else w.(isPaused := true, interval := ClearInterval(w.interval))
  }

  /** resetGame (script.js:273-278): stop the referenced timer and set up a new game,
      without registering a timer; timers whose handle was lost keep running. */
  function Reset(w: World, rolls: seq<Cell>): (r: World)
    requires Valid(w)
    requires FairRolls(InitialSnake, rolls)
    ensures Valid(r) && Running(r) && !r.interval.live
    ensures r.(interval := w.interval) == Init(w, rolls)
    ensures r.interval.handle == w.interval.handle && r.interval.strays == w.interval.strays
    ensures Registered(r.interval) == w.interval.strays
  {
    Init(w.(interval := ClearInterval(w.interval)), rolls)
  }

  /** handleKeyPress (script.js:281-308): arrows only record a request; space toggles
      pause while the game is not over; Enter starts a new game once it is over. */
  function OnKey(w: World, key: string, rolls: seq<Cell>): (r: World)
    requires Valid(w)
    requires KeyCommand(key) == Confirm && w.isGameOver ==> FairRolls(InitialSnake, rolls)
    ensures Valid(r)
    ensures KeyCommand(key).Steer? ==> r == w.(newDirection := Some(KeyCommand(key).toward))
    ensures KeyCommand(key) == TogglePause ==> r == (if w.isGameOver then w else Pause(w))
    ensures KeyCommand(key) == Confirm ==> r == (if w.isGameOver then Start(w, rolls) else w)
    ensures KeyCommand(key) == Ignore ==> r == w
  {
    match KeyCommand(key)
    case Steer(d) => w.(newDirection := Some(d))
    case TogglePause => if !w.isGameOver then Pause(w) else w
    case Confirm => if w.isGameOver then Start(w, rolls) else w
    case Ignore => w
  }

  /** handleSwipe (script.js:327-347) for a swipe of (dx, dy). */
  function OnSwipe(w: World, dx: int, dy: int): (r: World)
    ensures r.(newDirection := w.newDirection) == w
    ensures var g := Gesture(dx, dy);
            r.newDirection == (if g.Some? && g.value != Opposite(w.direction) then g else w.newDirection)
    ensures r.newDirection != w.newDirection ==>
              r.newDirection.Some? && r.newDirection.value != Opposite(w.direction)
    ensures Valid(w) ==> Valid(r)
  {
    SwipeIsFilteredGesture(dx, dy, w.direction);
    match SwipeTurn(dx, dy, w.direction)
    case Some(d) => w.(newDirection := Some(d))
    case None => w
  }

  /** PauseGame twice in a row restores every variable except the timer; the timer comes
      back too when the game was running or paused, but a game that was set up without
      a timer (after resetGame) is left running on a newly registered one. */
  lemma PauseTwice(w: World)
    requires Valid(w)
    ensures Pause(Pause(w)).(interval := w.interval) == w
    ensures Pause(Pause(w)) == w <==>
              w.isGameOver || !w.interval.handle || w.isPaused || w.interval.live
  {
  }

  /** Everything that can happen to the page: a timer firing gameLoop, the buttons
      (the play-again button is wired to startGame like the start button), a key and a
      swipe. Each input that may place food carries the draws generateFood would make. */
  datatype Input =
    | TimerFired(rolls: seq<Cell>)
    | StartClicked(rolls: seq<Cell>)
    | PauseClicked
    | ResetClicked(rolls: seq<Cell>)
    | KeyDown(key: string, rolls: seq<Cell>)
    | Swiped(dx: int, dy: int)

  /** The draws of the input let every generateFood it triggers finish. */
  predicate Supplied(w: World, e: Input)
    requires Valid(w)
  {
    match e
    case TimerFired(rolls) => Registered(w.interval) > 0 && (Eats(w) ==> FairRolls(Grown(w), rolls))
    case StartClicked(rolls) => !w.isPaused ==> FairRolls(InitialSnake, rolls)
    case PauseClicked => true
    case ResetClicked(rolls) => FairRolls(InitialSnake, rolls)
    case KeyDown(key, rolls) => KeyCommand(key) == Confirm && w.isGameOver ==> FairRolls(InitialSnake, rolls)
    case Swiped(_, _) => true
  }

  function Apply(w: World, e: Input): (r: World)
    requires Valid(w) && Supplied(w, e)
    ensures Valid(r)
  {
    match e
    case TimerFired(rolls) => Tick(w, rolls)
    case StartClicked(rolls) => Start(w, rolls)
    case PauseClicked => Pause(w)
    case ResetClicked(rolls) => Reset(w, rolls)
    case KeyDown(key, rolls) => OnKey(w, key, rolls)
    case Swiped(dx, dy) => OnSwipe(w, dx, dy)
  }

  /** Every input of the sequence can be handled in turn. */
  predicate Feasible(w: World, inputs: seq<Input>)
    decreases |inputs|
  {
    inputs == [] ||
    (Valid(w) && Supplied(w, inputs[0]) && Feasible(Apply(w, inputs[0]), inputs[1..]))
  }

  /** The state after a sequence of inputs. */
  function Run(w: World, inputs: seq<Input>): (r: World)
    requires Valid(w) && Feasible(w, inputs)
    ensures Valid(r)
    decreases |inputs|
  {
    if inputs == [] then w else Run(Apply(w, inputs[0]), inputs[1..])
  }

  /** The page's own start: the variables as declared, then initGame. */
  function PageLoad(storedHighScore: nat, rolls: seq<Cell>): (r: World)
    requires FairRolls(InitialSnake, rolls)
    ensures Valid(r) && Running(r) && !r.interval.handle
  {
    Init(Loaded(storedHighScore), rolls)
  }

  /** In every state the page can reach, the snake is on the board without repeated
      cells and away from the food, the high score is at least the score, and the speed
      is a multiple of 10 between 50 and 150 ms. */
  lemma {:induction false} Reachable(storedHighScore: nat, rolls: seq<Cell>, inputs: seq<Input>)
    requires FairRolls(InitialSnake, rolls)
    requires Feasible(PageLoad(storedHighScore, rolls), inputs)
    ensures var r := Run(PageLoad(storedHighScore, rolls), inputs);
            AllInGrid(r.snake) && Distinct(r.snake) && r.food !in r.snake &&
            r.highScore >= r.score &&
            MinSpeed <= r.gameSpeed <= InitialSpeed && r.gameSpeed % SpeedStep == 0
  {
  }
}
