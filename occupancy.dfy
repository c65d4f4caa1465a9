/** Which cells the snake occupies, food placement by rejection sampling
    (generateFood, script.js:69-81), and the counting argument that says when a
    free cell exists at all. */
module Occupancy {
  import opened Grid

  /** Number of cells on the board (625). */
  const Area: int := Width * Height

  predicate AllInGrid(s: seq<Cell>) {
    forall i :: 0 <= i < |s| ==> InGrid(s[i])
  }

  /** No cell appears twice. */
  predicate Distinct(s: seq<Cell>) {
    forall i, j :: 0 <= i < j < |s| ==> s[i] != s[j]
  }

  /** Math.random is replaced by a stream of draws: each draw is a grid cell (the source
      floors `random * 25` on both axes) and at least one draw misses the body, which is
      what it takes for the source's resampling loop to end. */
  predicate FairRolls(body: seq<Cell>, rolls: seq<Cell>) {
    AllInGrid(rolls) && SomeMiss(body, rolls)
  }

  /** Some draw misses the body. */
  predicate SomeMiss(body: seq<Cell>, rolls: seq<Cell>)
    decreases |rolls|
  {
    |rolls| > 0 && (rolls[0] !in body || SomeMiss(body, rolls[1..]))
  }

  /** Position of the first draw that misses the body: the draw generateFood keeps. */
  function FirstFree(body: seq<Cell>, rolls: seq<Cell>): (i: nat)
    requires SomeMiss(body, rolls)
    ensures i < |rolls| && rolls[i] !in body
    ensures forall j :: 0 <= j < i ==> rolls[j] in body
    decreases |rolls|
  {
    if rolls[0] !in body then 0 else 1 + FirstFree(body, rolls[1..])
  }

  /** The do-while loop of generateFood: draw, and draw again while the draw hits the body. */
  method DrawFood(body: seq<Cell>, rolls: seq<Cell>) returns (food: Cell)
    requires FairRolls(body, rolls)
    ensures food == rolls[FirstFree(body, rolls)]
    ensures InGrid(food) && food !in body
  {
    var i := 0;
    food := rolls[0];
    while food in body
      invariant i <= FirstFree(body, rolls)
      invariant food == rolls[i]
      decreases FirstFree(body, rolls) - i
    {
      i := i + 1;
      food := rolls[i];
    }
  }

  // ---- Counting cells ----

  /** Row-major number of a cell, a bijection between the board and [0, Area). */
  function Index(c: Cell): int {
    c.y * Width + c.x
  }

  function CellAt(i: int): Cell {
    Cell(i % Width, i / Width)
  }

  function Range(n: nat): (r: set<int>)
    ensures forall i :: i in r <==> 0 <= i < n
  {
    if n == 0 then {} else Range(n - 1) + {n - 1}
  }

  /** Every cell of the board, listed through its number. */
  function Board(): set<Cell> {
    set i | 0 <= i < Area :: CellAt(i)
  }

  lemma {:induction false} RangeCard(n: nat)
    ensures |Range(n)| == n
  {
    if n > 0 {
      RangeCard(n - 1);
    }
  }

  lemma BoardSize()
    ensures Width == 25 && Height == 25 && Area == 625
  {
  }

  lemma IndexOfCellAt(i: int)
    requires 0 <= i < Area
    ensures InGrid(CellAt(i)) && Index(CellAt(i)) == i
  {
    BoardSize();
  }

  lemma CellAtIndex(c: Cell)
    requires InGrid(c)
    ensures 0 <= Index(c) < Area && CellAt(Index(c)) == c
  {
    BoardSize();
  }

  /** CellAt is one-to-one on [0, Area), so it does not shrink a set of numbers. */
  lemma {:induction false} CellsOfNumbersCard(s: set<int>)
    requires forall i :: i in s ==> 0 <= i < Area
    ensures |set i | i in s :: CellAt(i)| == |s|
  {
    if s != {} {
      assert exists a :: a in s by {
        if forall a :: a !in s {
          assert false;
        }
      }
      var a :| a in s;
      var rest := s - {a};
      CellsOfNumbersCard(rest);
      assert (set i | i in s :: CellAt(i)) == (set i | i in rest :: CellAt(i)) + {CellAt(a)};
      if CellAt(a) in (set i | i in rest :: CellAt(i)) {
        var b :| b in rest && CellAt(b) == CellAt(a);
        IndexOfCellAt(a);
        IndexOfCellAt(b);
      }
    }
  }

  /** Index is one-to-one on the board, so it does not shrink a set of grid cells. */
  lemma {:induction false} NumbersOfCellsCard(s: set<Cell>)
    requires forall c :: c in s ==> InGrid(c)
    ensures |set c | c in s :: Index(c)| == |s|
  {
    if s != {} {
      var a :| a in s;
      var rest := s - {a};
      NumbersOfCellsCard(rest);
      assert (set c | c in s :: Index(c)) == (set c | c in rest :: Index(c)) + {Index(a)};
      if Index(a) in (set c | c in rest :: Index(c)) {
        var b :| b in rest && Index(b) == Index(a);
        CellAtIndex(a);
        CellAtIndex(b);
      }
    }
  }

  lemma {:induction false} SubsetCard<T>(a: set<T>, b: set<T>)
    requires a <= b
    ensures |a| <= |b|
  {
    if a != {} {
      var x :| x in a;
      SubsetCard(a - {x}, b - {x});
    }
  }

  lemma {:induction false} DistinctCard(s: seq<Cell>)
    requires Distinct(s)
    ensures |set c | c in s| == |s|
  {
    if s != [] {
      DistinctCard(s[1..]);
      assert (set c | c in s) == (set c | c in s[1..]) + {s[0]};
      assert s[0] !in s[1..];
    }
  }

  lemma BoardIsGrid(c: Cell)
    ensures c in Board() <==> InGrid(c)
  {
    if InGrid(c) {
      CellAtIndex(c);
    } else if c in Board() {
      var i :| 0 <= i < Area && CellAt(i) == c;
      IndexOfCellAt(i);
    }
  }

  lemma BoardCard()
    ensures |Board()| == Area
  {
    CellsOfNumbersCard(Range(Area));
    assert Board() == set i | i in Range(Area) :: CellAt(i);
    RangeCard(Area);
  }

  /** At most Area distinct cells fit on the board. */
  lemma GridSetCard(s: set<Cell>)
    requires forall c :: c in s ==> InGrid(c)
    ensures |s| <= Area
  {
    NumbersOfCellsCard(s);
    forall c | c in s ensures Index(c) in Range(Area) {
      CellAtIndex(c);
    }
    SubsetCard(set c | c in s :: Index(c), Range(Area));
    RangeCard(Area);
  }

  /** A body of distinct grid cells leaves a free cell exactly when it is shorter than
      the board: this is why generateFood ends in every reachable state, and why it would
      never end once the snake covered the whole board. */
  lemma FreeCellExistsIffShort(body: seq<Cell>)
    requires AllInGrid(body) && Distinct(body)
    ensures (exists c :: InGrid(c) && c !in body) <==> |body| < Area
  {
    DistinctCard(body);
    if |body| < Area {
      if forall c :: InGrid(c) ==> c in body {
        forall c | c in Board() ensures c in (set d | d in body) {
          BoardIsGrid(c);
        }
        SubsetCard(Board(), set d | d in body);
        BoardCard();
        assert false;
      }
    } else {
      if c :| InGrid(c) && c !in body {
        GridSetCard((set d | d in body) + {c});
        assert false;
      }
    }
  }

  /** A draw stream that lets generateFood finish exists exactly when the body leaves a
      cell free; on a full board every stream leaves the source's loop spinning forever. */
  lemma FairRollsIffFreeCell(body: seq<Cell>)
    requires AllInGrid(body) && Distinct(body)
    ensures (exists rolls :: FairRolls(body, rolls)) <==> |body| < Area
  {
    FreeCellExistsIffShort(body);
    if rolls :| FairRolls(body, rolls) {
      var i := FirstFree(body, rolls);
      assert InGrid(rolls[i]) && rolls[i] !in body;
    }
    if |body| < Area {
      var c :| InGrid(c) && c !in body;
      assert FairRolls(body, [c]);
    }
  }
}
