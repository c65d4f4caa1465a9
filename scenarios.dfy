/** Concrete runs of the game, worked out by the verifier from the functions of
    module Rules. */
module Scenarios {
  import opened Grid
  import opened Occupancy
  import opened Rules

  /** A running game with the given snake, heading and score, the food at `food`, and a
      registered timer. */
  function Playing(snake: seq<Cell>, food: Cell, heading: Direction, pending: Option<Direction>,
                   score: nat, speed: int): World
  {
    World(snake, food, heading, pending, score, score, speed, false, false,
          Interval(true, true, 0))
  }

  /** After the start button on the loaded page, the first tick moves the head from
      (10,10) to (11,10) and drops the tail (8,10). */
  lemma FirstTick()
    ensures var w := Start(PageLoad(0, [Cell(3, 3)]), [Cell(3, 3)]);
            Registered(w.interval) == 1 &&
            Tick(w, []).snake == [Cell(11, 10), Cell(10, 10), Cell(9, 10)]
  {
  }

  /** Running off the right edge ends the game; later ticks change nothing. */
  lemma RightEdge()
    ensures var w := Playing([Cell(24, 10), Cell(23, 10), Cell(22, 10)], Cell(0, 0), Right, None, 0, 150);
            var over := Tick(w, []);
            over.isGameOver && over.snake == w.snake && Tick(over, []) == over
  {
  }

  /** A request to reverse is dropped: the snake goes on upwards to (5,4). */
  lemma ReverseRejected()
    ensures var w := Playing([Cell(5, 5), Cell(5, 6), Cell(5, 7)], Cell(0, 0), Up, Some(Down), 0, 150);
            var r := Tick(w, []);
            r.direction == Up && r.newDirection == None && r.snake[0] == Cell(5, 4)
  {
  }

  /** Moving onto the cell the tail is about to leave is a collision. */
  lemma TailIsDeadly()
    ensures var w := Playing([Cell(5, 5), Cell(5, 6), Cell(6, 6), Cell(6, 5)], Cell(0, 0), Right, None, 10, 150);
            Valid(w) && Tick(w, []).isGameOver && Tick(w, []).snake == w.snake
  {
  }

  /** Seven cells long after four pieces of food, the head at (3,3), food just ahead. */
  function FourEaten(): World {
    Playing([Cell(3, 3), Cell(2, 3), Cell(1, 3), Cell(0, 3), Cell(0, 4), Cell(0, 5), Cell(0, 6)],
            Cell(4, 3), Right, None, 40, 150)
  }

  /** The fifth piece of food (score 40 to 50) takes the speed from 150 ms to 140 ms;
      the first draw lands on the snake's new head and is drawn again. */
  lemma FifthFoodSpeedsUp()
    ensures Valid(FourEaten())
    ensures var r := Tick(FourEaten(), [Cell(4, 3), Cell(9, 9)]);
            r.score == 50 && r.gameSpeed == 140 && r.food == Cell(9, 9) && |r.snake| == 8
  {
  }

  /** The first piece of food (score 0 to 10) leaves the speed alone. */
  lemma FirstFoodKeepsSpeed()
    ensures var w := Playing([Cell(3, 3), Cell(2, 3), Cell(1, 3)], Cell(4, 3), Right, None, 0, 150);
            var r := Tick(w, [Cell(9, 9)]);
            r.score == 10 && r.gameSpeed == 150
  {
  }

  /** A new game keeps the speed the last one reached. */
  lemma SpeedCarriesOver()
    ensures var w := Playing([Cell(24, 10), Cell(23, 10), Cell(22, 10)], Cell(0, 0), Right, None, 0, 100);
            var again := Start(Tick(w, []), [Cell(0, 0)]);
            again.snake == InitialSnake && again.score == 0 && again.gameSpeed == 100
  {
  }

  /** Pressing start while a game runs starts a new game and leaves the old timer
      registered: two timers now drive the ticks. */
  lemma StartWhileRunning()
    ensures var w := Playing([Cell(5, 5), Cell(5, 6), Cell(5, 7)], Cell(0, 0), Up, None, 0, 150);
            Registered(Start(w, [Cell(0, 0)]).interval) == 2
  {
  }

  /** After a reset of a game with no lost timer no timer runs, yet pressing space twice
      (pause, then resume) registers one and the game moves again. */
  lemma ResetThenSpaceTwice()
    ensures var w := Playing([Cell(5, 5), Cell(5, 6), Cell(5, 7)], Cell(0, 0), Up, None, 0, 150);
            var reset := Reset(w, [Cell(0, 0)]);
            var resumed := OnKey(OnKey(reset, " ", []), " ", []);
            Registered(reset.interval) == 0 && Running(resumed) && Registered(resumed.interval) == 1
  {
  }

  /** Start pressed twice on the loaded page, then reset: the timer whose handle was
      overwritten is never stopped and still drives the new game. */
  lemma ResetKeepsLostTimer()
    ensures var once := Start(PageLoad(0, [Cell(3, 3)]), [Cell(3, 3)]);
            var reset := Reset(Start(once, [Cell(3, 3)]), [Cell(3, 3)]);
            Running(reset) && !reset.interval.live && Registered(reset.interval) == 1
  {
  }

  /** On the page as loaded no timer was ever registered, so space does nothing and
      Enter does nothing either, since the game is not over. */
  lemma LoadedPageIgnoresKeys()
    ensures var w := PageLoad(0, [Cell(3, 3)]);
            OnKey(w, " ", []) == w && OnKey(w, "Enter", []) == w
  {
  }
}
