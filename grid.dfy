/** The board of the Snake game: cells, directions, the anti-reversal turn rule,
    one-cell moves, and the mapping from keys and swipes to requested turns. */
module Grid {

  /** Canvas side in pixels and the pixel size of one cell (script.js:16-20). */
  const CanvasSize: int := 500
  const CellSize: int := 20

  /** 500 / 20 = 25 cells in each direction (script.js:21-22). */
  const Width: int := CanvasSize / CellSize
  const Height: int := CanvasSize / CellSize

  datatype Option<T> = None | Some(value: T)

  /** A grid cell; the source's `{x, y}` objects. */
  datatype Cell = Cell(x: int, y: int)

  /** The source's direction strings 'up', 'down', 'left', 'right'. */
  datatype Direction = Up | Down | Left | Right

  predicate InGrid(c: Cell) {
    0 <= c.x < Width && 0 <= c.y < Height
  }

  function Opposite(d: Direction): (r: Direction)
    ensures r != d
  {
    match d
    case Up => Down
    case Down => Up
    case Left => Right
    case Right => Left
  }

  /** The four-clause test of updateGame that lets a requested direction replace the
      current one: it holds exactly when the request is not the reverse of the current one. */
  predicate TurnAllowed(requested: Direction, current: Direction)
    ensures TurnAllowed(requested, current) <==> requested != Opposite(current)
  {
    (requested == Up && current != Down) ||
    (requested == Down && current != Up) ||
    (requested == Left && current != Right) ||
    (requested == Right && current != Left)
  }

  /** Direction resolution at the start of a tick: a pending request (`newDirection`,
      None for the empty string) replaces the current direction unless it reverses it. */
  function Resolve(current: Direction, pending: Option<Direction>): (r: Direction)
    ensures r != Opposite(current)
    ensures r == current || (pending.Some? && r == pending.value)
    ensures pending.Some? && pending.value != Opposite(current) ==> r == pending.value
  {
    if pending.Some? && TurnAllowed(pending.value, current) then pending.value else current
  }

  /** The cell one step from `c` in direction `d`; y grows downwards. */
  function Advance(c: Cell, d: Direction): (r: Cell)
    ensures (r.x - c.x) * (r.x - c.x) + (r.y - c.y) * (r.y - c.y) == 1
    ensures (d == Up || d == Down) <==> r.x == c.x
    ensures (d == Down || d == Right) <==> (r.x > c.x || r.y > c.y)
  {
    match d
    case Up => Cell(c.x, c.y - 1)
    case Down => Cell(c.x, c.y + 1)
    case Left => Cell(c.x - 1, c.y)
    case Right => Cell(c.x + 1, c.y)
  }

  /** Stepping back in the opposite direction returns to the start cell. */
  lemma AdvanceBack(c: Cell, d: Direction)
    ensures Advance(Advance(c, d), Opposite(d)) == c
  {
  }

  /** What a key press asks of the game (handleKeyPress, script.js:281-308). */
  datatype Command = Steer(toward: Direction) | TogglePause | Confirm | Ignore

  function KeyCommand(key: string): (r: Command)
    ensures r.Steer? ==> key == KeyFor(r)
    ensures r == TogglePause <==> key == " "
    ensures r == Confirm <==> key == "Enter"
  {
    if key == "ArrowUp" then Steer(Up)
    else if key == "ArrowDown" then Steer(Down)
    else if key == "ArrowLeft" then Steer(Left)
    else if key == "ArrowRight" then Steer(Right)
    else if key == " " then TogglePause
    else if key == "Enter" then Confirm
    else Ignore
  }

  /** The key that issues a command; KeyCommand is its left inverse. */
  function KeyFor(c: Command): (key: string)
    requires c != Ignore
  {
    match c
    case Steer(d) =>
      (match d
       case Up => "ArrowUp"
       case Down => "ArrowDown"
       case Left => "ArrowLeft"
       case Right => "ArrowRight")
    case TogglePause => " "
    case Confirm => "Enter"
  }

  lemma KeyRoundTrip(c: Command)
    requires c != Ignore
    ensures KeyCommand(KeyFor(c)) == c
  {
  }

  function Abs(n: int): nat {
    if n < 0 then -n else n
  }

  /** The direction a swipe points along its dominant axis, None for no movement; a
      tie between the axes counts as vertical. */
  function Gesture(dx: int, dy: int): (r: Option<Direction>)
    ensures r.None? <==> dx == 0 && dy == 0
    ensures r == Some(Right) ==> dx > 0 && Abs(dx) > Abs(dy)
    ensures r == Some(Left) ==> dx < 0 && Abs(dx) > Abs(dy)
    ensures r == Some(Down) ==> dy > 0 && Abs(dy) >= Abs(dx)
    ensures r == Some(Up) ==> dy < 0 && Abs(dy) >= Abs(dx)
  {
    if Abs(dx) > Abs(dy) then (if dx > 0 then Some(Right) else Some(Left))
    else if dy > 0 then Some(Down)
    else if dy < 0 then Some(Up)
    else None
  }

  /** The request handleSwipe makes (script.js:327-347) for a swipe of (dx, dy) while the
      snake moves in `current`: None leaves `newDirection` as it was. */
  function SwipeTurn(dx: int, dy: int, current: Direction): (r: Option<Direction>)
    ensures r.Some? ==> r.value != Opposite(current)
    ensures r.Some? ==> r == Gesture(dx, dy)
  {
    if Abs(dx) > Abs(dy) then
      if dx > 0 && current != Left then Some(Right)
      else if dx < 0 && current != Right then Some(Left)
      else None
    else
      if dy > 0 && current != Up then Some(Down)
      else if dy < 0 && current != Down then Some(Up)
      else None
  }

  /** A swipe requests exactly its gesture's direction, unless that reverses the snake. */
  lemma SwipeIsFilteredGesture(dx: int, dy: int, current: Direction)
    ensures SwipeTurn(dx, dy, current) ==
      (var g := Gesture(dx, dy);
       if g.Some? && g.value != Opposite(current) then g else None)
  {
  }
}
