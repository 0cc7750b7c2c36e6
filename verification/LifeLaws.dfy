/** What the rule of cw09 means: births and survivals told by the neighbours themselves rather than
    by their number, the count as a plain sum, and two patterns whose fate is known for ever. */
module LifeLaws {
  import opened LifeSpec
  import opened Life

  // ---------------------------------------------------------------- births and survivals

  type Cell = (int, int)

  // p is one of the eight cells around (r, c), and alive.
  predicate LiveNear(d: Dim, g: seq<bool>, r: int, c: int, p: Cell) {
    -1 <= p.0 - r <= 1 && -1 <= p.1 - c <= 1 && !(p.0 == r && p.1 == c) && At(d, g, p.0, p.1)
  }

  ghost predicate TwoAre(d: Dim, g: seq<bool>, r: int, c: int, x: Cell, y: Cell) {
    x != y && forall p :: LiveNear(d, g, r, c, p) <==> p == x || p == y
  }

  ghost predicate ThreeAre(d: Dim, g: seq<bool>, r: int, c: int, x: Cell, y: Cell, z: Cell) {
    x != y && x != z && y != z && forall p :: LiveNear(d, g, r, c, p) <==> p == x || p == y || p == z
  }

  lemma LiveNearIs(d: Dim, g: seq<bool>, r: int, c: int)
    ensures forall p :: LiveNear(d, g, r, c, p) <==> p in LiveNeighbours(d, g, r, c)
  {
  }

  lemma SizeOfTwo(s: set<Cell>, x: Cell, y: Cell)
    requires x != y && forall p :: p in s <==> p == x || p == y
    ensures |s| == 2
  {
    assert s == {x, y};
  }

  lemma SizeOfThree(s: set<Cell>, x: Cell, y: Cell, z: Cell)
    requires x != y && x != z && y != z && forall p :: p in s <==> p == x || p == y || p == z
    ensures |s| == 3
  {
    assert s == {x, y, z};
  }

  lemma PickTwo(s: set<Cell>) returns (x: Cell, y: Cell)
    requires |s| == 2
    ensures x != y && forall p :: p in s <==> p == x || p == y
  {
    x :| x in s;
    assert |s - {x}| == 1;
    y :| y in s - {x};
    assert |s - {x} - {y}| == 0;
    assert s == {x, y};
  }

  lemma PickThree(s: set<Cell>) returns (x: Cell, y: Cell, z: Cell)
    requires |s| == 3
    ensures x != y && x != z && y != z && forall p :: p in s <==> p == x || p == y || p == z
  {
    x :| x in s;
    y, z := PickTwo(s - {x});
    forall p ensures p in s <==> p == x || p == y || p == z {
      assert p in s - {x} <==> p in s && p != x;
    }
  }

  lemma TwoExactlyWhen(d: Dim, g: seq<bool>, r: int, c: int)
    ensures |LiveNeighbours(d, g, r, c)| == 2 <==> exists x, y :: TwoAre(d, g, r, c, x, y)
  {
    var s := LiveNeighbours(d, g, r, c);
    LiveNearIs(d, g, r, c);
    if |s| == 2 {
      var x, y := PickTwo(s);
      assert TwoAre(d, g, r, c, x, y);
    }
    if x, y :| TwoAre(d, g, r, c, x, y) {
      SizeOfTwo(s, x, y);
    }
  }

  lemma ThreeExactlyWhen(d: Dim, g: seq<bool>, r: int, c: int)
    ensures |LiveNeighbours(d, g, r, c)| == 3 <==> exists x, y, z :: ThreeAre(d, g, r, c, x, y, z)
  {
    var s := LiveNeighbours(d, g, r, c);
    LiveNearIs(d, g, r, c);
    if |s| == 3 {
      var x, y, z := PickThree(s);
      assert ThreeAre(d, g, r, c, x, y, z);
    }
    if x, y, z :| ThreeAre(d, g, r, c, x, y, z) {
      SizeOfThree(s, x, y, z);
    }
  }

  // A dead cell is born exactly if the live cells around it are some three.
  lemma BornExactlyWhen(d: Dim, g: seq<bool>, r: int, c: int)
    requires !At(d, g, r, c)
    ensures NextCell(d, g, r, c) <==> exists x, y, z :: ThreeAre(d, g, r, c, x, y, z)
  {
    ThreeExactlyWhen(d, g, r, c);
  }

  // A live cell stays exactly if they are some two or some three.
  lemma SurvivesExactlyWhen(d: Dim, g: seq<bool>, r: int, c: int)
    requires At(d, g, r, c)
    ensures NextCell(d, g, r, c) <==>
      (exists x, y :: TwoAre(d, g, r, c, x, y)) || (exists x, y, z :: ThreeAre(d, g, r, c, x, y, z))
  {
    TwoExactlyWhen(d, g, r, c);
    ThreeExactlyWhen(d, g, r, c);
  }

  // ---------------------------------------------------------------- the count as a sum

  function One(d: Dim, g: seq<bool>, r: int, c: int): nat { if At(d, g, r, c) then 1 else 0 }

  function Row(d: Dim, g: seq<bool>, r: int, c: int): nat {
    One(d, g, r, c - 1) + One(d, g, r, c) + One(d, g, r, c + 1)
  }

  // One row of the count, with or without its middle.
  lemma CountRow(d: Dim, g: seq<bool>, r: int, c: int, i: int)
    requires r - 1 <= i <= r + 1
    ensures CountBefore(d, g, r, c, i + 1, c - 1)
         == CountBefore(d, g, r, c, i, c - 1) + Row(d, g, i, c) - (if i == r then One(d, g, r, c) else 0)
  {
    CountNext(d, g, r, c, i, c - 1);
    CountNext(d, g, r, c, i, c);
    CountNext(d, g, r, c, i, c + 1);
    CountNextRow(d, g, r, c, i);
  }

  lemma NeighboursAreSum(d: Dim, g: seq<bool>, r: int, c: int)
    ensures |LiveNeighbours(d, g, r, c)|
         == Row(d, g, r - 1, c) + One(d, g, r, c - 1) + One(d, g, r, c + 1) + Row(d, g, r + 1, c)
  {
    CountStarts(d, g, r, c);
    CountRow(d, g, r, c, r - 1);
    CountRow(d, g, r, c, r);
    CountRow(d, g, r, c, r + 1);
    CountEnds(d, g, r, c);
  }

  // ---------------------------------------------------------------- patterns

  lemma SameCells(d: Dim, g: seq<bool>, h: seq<bool>)
    requires IsGrid(d, g) && IsGrid(d, h)
    requires forall i, j :: Inside(d, i, j) ==> At(d, g, i, j) == At(d, h, i, j)
    ensures g == h
  {
    forall p | 0 <= p < |g| ensures g[p] == h[p] {
      IndexCell(d, p);
      assert At(d, g, p / d.w, p % d.w) == At(d, h, p / d.w, p % d.w);
    }
  }

  // Nothing but a 2 x 2 block whose upper left cell is (r, c).
  ghost predicate Block(d: Dim, g: seq<bool>, r: int, c: int) {
    && IsGrid(d, g) && Inside(d, r, c) && Inside(d, r + 1, c + 1)
    && forall i, j :: At(d, g, i, j) <==> r <= i <= r + 1 && c <= j <= c + 1
  }

  lemma BlockCell(d: Dim, g: seq<bool>, r: int, c: int, i: int, j: int)
    requires Block(d, g, r, c)
    ensures NextCell(d, g, i, j) == At(d, g, i, j)
  {
    NeighboursAreSum(d, g, i, j);
  }

  lemma BlockStays(d: Dim, g: seq<bool>, r: int, c: int)
    requires Block(d, g, r, c)
    ensures NextGrid(d, g) == g
  {
    forall i, j | Inside(d, i, j) ensures At(d, NextGrid(d, g), i, j) == At(d, g, i, j) {
      AtNext(d, g, i, j);
      BlockCell(d, g, r, c, i, j);
    }
    SameCells(d, NextGrid(d, g), g);
  }

  // A lone block never changes, wherever it stands, in a corner too.
  lemma {:induction false} BlockStaysForEver(d: Dim, g: seq<bool>, r: int, c: int, k: nat)
    requires Block(d, g, r, c)
    ensures Generation(LifeRule(d), g, k) == g
  {
    if k > 0 {
      BlockStaysForEver(d, g, r, c, k - 1);
      BlockStays(d, g, r, c);
    }
  }

  // Nothing but three cells in a row, or in a column, around (r, c).
  ghost predicate Lying(d: Dim, g: seq<bool>, r: int, c: int) {
    && IsGrid(d, g) && Inside(d, r - 1, c - 1) && Inside(d, r + 1, c + 1)
    && forall i, j :: At(d, g, i, j) <==> i == r && c - 1 <= j <= c + 1
  }

  ghost predicate Standing(d: Dim, g: seq<bool>, r: int, c: int) {
    && IsGrid(d, g) && Inside(d, r - 1, c - 1) && Inside(d, r + 1, c + 1)
    && forall i, j :: At(d, g, i, j) <==> r - 1 <= i <= r + 1 && j == c
  }

  lemma LyingCell(d: Dim, g: seq<bool>, r: int, c: int, i: int, j: int)
    requires Lying(d, g, r, c)
    ensures NextCell(d, g, i, j) <==> r - 1 <= i <= r + 1 && j == c
  {
    NeighboursAreSum(d, g, i, j);
  }

  lemma StandingCell(d: Dim, g: seq<bool>, r: int, c: int, i: int, j: int)
    requires Standing(d, g, r, c)
    ensures NextCell(d, g, i, j) <==> i == r && c - 1 <= j <= c + 1
  {
    NeighboursAreSum(d, g, i, j);
  }

  lemma LyingStandsUp(d: Dim, g: seq<bool>, r: int, c: int)
    requires Lying(d, g, r, c)
    ensures Standing(d, NextGrid(d, g), r, c)
  {
    forall i, j ensures At(d, NextGrid(d, g), i, j) <==> r - 1 <= i <= r + 1 && j == c {
      LyingCell(d, g, r, c, i, j);
      if Inside(d, i, j) {
        AtNext(d, g, i, j);
      }
    }
  }

  lemma StandingLiesDown(d: Dim, g: seq<bool>, r: int, c: int)
    requires Standing(d, g, r, c)
    ensures Lying(d, NextGrid(d, g), r, c)
  {
    forall i, j ensures At(d, NextGrid(d, g), i, j) <==> i == r && c - 1 <= j <= c + 1 {
      StandingCell(d, g, r, c, i, j);
      if Inside(d, i, j) {
        AtNext(d, g, i, j);
      }
    }
  }

  lemma StandingComesBack(d: Dim, g: seq<bool>, turned: seq<bool>, r: int, c: int)
    requires Lying(d, g, r, c) && Standing(d, turned, r, c)
    ensures NextGrid(d, turned) == g
  {
    StandingLiesDown(d, turned, r, c);
    SameCells(d, NextGrid(d, turned), g);
  }

  lemma GenerationIsNext(d: Dim, g: seq<bool>, k: nat)
    requires d.w > 0 && k > 0
    ensures Generation(LifeRule(d), g, k) == NextGrid(d, Generation(LifeRule(d), g, k - 1))
  {
  }

  ghost predicate Turned(d: Dim, g: seq<bool>, h: seq<bool>, r: int, c: int, k: nat) {
    if k % 2 == 0 then h == g else Standing(d, h, r, c)
  }

  lemma TurnsOn(d: Dim, g: seq<bool>, h: seq<bool>, r: int, c: int, k: nat)
    requires Lying(d, g, r, c) && Turned(d, g, h, r, c, k)
    ensures Turned(d, g, NextGrid(d, h), r, c, k + 1)
  {
    if k % 2 == 0 {
      LyingStandsUp(d, g, r, c);
    } else {
      StandingComesBack(d, g, h, r, c);
    }
  }

  // A lone blinker comes back every second generation and is turned in between.
  lemma {:induction false} BlinkerHasPeriodTwo(d: Dim, g: seq<bool>, r: int, c: int, k: nat)
    requires Lying(d, g, r, c)
    ensures Turned(d, g, Generation(LifeRule(d), g, k), r, c, k)
  {
    if k > 0 {
      BlinkerHasPeriodTwo(d, g, r, c, k - 1);
      GenerationIsNext(d, g, k);
      TurnsOn(d, g, Generation(LifeRule(d), g, k - 1), r, c, k - 1);
    }
  }

  // Both patterns exist, on the smallest grids that hold them.
  lemma PatternsExist()
    ensures Block(Dim(2, 2), [true, true, true, true], 0, 0)
    ensures Lying(Dim(3, 3), [false, false, false, true, true, true, false, false, false], 1, 1)
  {
  }

  // There is nothing beyond the border; in particular the two sides of the grid do not touch.
  lemma NothingBeyond(d: Dim, g: seq<bool>, r: int, c: int)
    requires !Inside(d, r, c)
    ensures !At(d, g, r, c)
  {
  }
}
