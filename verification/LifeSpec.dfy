/** Conway's Game of Life on the bordered grid of cw09: the rule, stated with the set of live
    neighbours of a cell, and the generations it produces. */
module LifeSpec {
  import opened Modular

  // Row-major storage: cell (r, c) is at r * w + c.
  datatype Dim = Dim(h: nat, w: nat)

  predicate Inside(d: Dim, r: int, c: int) { 0 <= r < d.h && 0 <= c < d.w }

  predicate IsGrid(d: Dim, g: seq<bool>) { d.w > 0 && |g| == d.h * d.w }

  predicate At(d: Dim, g: seq<bool>, r: int, c: int) {
    Inside(d, r, c) && 0 <= r * d.w + c < |g| && g[r * d.w + c]
  }

  ghost function LiveNeighbours(d: Dim, g: seq<bool>, r: int, c: int): set<(int, int)> {
    set i, j | r - 1 <= i <= r + 1 && c - 1 <= j <= c + 1 && (i, j) != (r, c) && At(d, g, i, j) :: (i, j)
  }

  // A live cell with two or three live neighbours stays, a dead one with three is born.
  ghost predicate NextCell(d: Dim, g: seq<bool>, r: int, c: int) {
    var n := |LiveNeighbours(d, g, r, c)|;
    n == 3 || (n == 2 && At(d, g, r, c))
  }

  // A rule gives the next value of the cell at an index; a generation applies it everywhere.
  type Rule = (seq<bool>, nat) -> bool

  ghost function Everywhere(rule: Rule, g: seq<bool>): (r: seq<bool>)
    ensures |r| == |g|
    ensures forall i :: 0 <= i < |g| ==> r[i] == rule(g, i)
  {
    seq(|g|, i requires 0 <= i => rule(g, i))
  }

  ghost function Generation(rule: Rule, g: seq<bool>, k: nat): (r: seq<bool>)
    ensures |r| == |g|
  {
    if k == 0 then g else Everywhere(rule, Generation(rule, g, k - 1))
  }

  ghost function LifeRule(d: Dim): Rule
    requires d.w > 0
  {
    (g, i) => NextCell(d, g, i / d.w, i % d.w)
  }

  ghost function NextGrid(d: Dim, g: seq<bool>): (r: seq<bool>)
    requires d.w > 0
    ensures |r| == |g|
    ensures forall i :: 0 <= i < |g| ==> r[i] == NextCell(d, g, i / d.w, i % d.w)
  {
    Everywhere(LifeRule(d), g)
  }

  // ---------------------------------------------------------------- cells and positions

  lemma CellIndex(d: Dim, r: int, c: int)
    requires Inside(d, r, c)
    ensures 0 <= r * d.w + c < d.h * d.w
    ensures (r * d.w + c) / d.w == r && (r * d.w + c) % d.w == c
  {
    DivModUnique(r * d.w + c, r, c, d.w);
    MulBounds(d.w, r);
    MulBounds(d.w, d.h - r);
    assert d.w * (d.h - r) == d.h * d.w - r * d.w;
  }

  lemma IndexCell(d: Dim, i: int)
    requires d.w > 0 && 0 <= i < d.h * d.w
    ensures Inside(d, i / d.w, i % d.w) && i / d.w * d.w + i % d.w == i
  {
    var r := i / d.w;
    assert i == d.w * r + i % d.w;
    assert d.w * r == d.w * d.h + d.w * (r - d.h);
    MulBounds(d.w, r - d.h);
    MulBounds(d.w, r);
  }

  lemma AtNext(d: Dim, g: seq<bool>, r: int, c: int)
    requires IsGrid(d, g) && Inside(d, r, c)
    ensures At(d, NextGrid(d, g), r, c) == NextCell(d, g, r, c)
  {
    CellIndex(d, r, c);
  }

  // ---------------------------------------------------------------- the light cone

  ghost predicate AgreeNear(d: Dim, g: seq<bool>, h: seq<bool>, r: int, c: int, k: nat) {
    forall i, j :: r - k <= i <= r + k && c - k <= j <= c + k ==> At(d, g, i, j) == At(d, h, i, j)
  }

  lemma NextCellIsLocal(d: Dim, g: seq<bool>, h: seq<bool>, r: int, c: int)
    requires AgreeNear(d, g, h, r, c, 1)
    ensures NextCell(d, g, r, c) == NextCell(d, h, r, c)
  {
    assert LiveNeighbours(d, g, r, c) == LiveNeighbours(d, h, r, c);
  }

  // k generations carry information at most k cells far, at the borders as well.
  lemma {:induction false} LightCone(d: Dim, g: seq<bool>, h: seq<bool>, r: int, c: int, k: nat)
    requires IsGrid(d, g) && IsGrid(d, h) && AgreeNear(d, g, h, r, c, k)
    ensures At(d, Generation(LifeRule(d), g, k), r, c) == At(d, Generation(LifeRule(d), h, k), r, c)
    decreases k
  {
    if k > 0 {
      var g', h' := Generation(LifeRule(d), g, k - 1), Generation(LifeRule(d), h, k - 1);
      forall i, j | r - 1 <= i <= r + 1 && c - 1 <= j <= c + 1
        ensures At(d, g', i, j) == At(d, h', i, j)
      {
        LightCone(d, g, h, i, j, k - 1);
      }
      NextCellIsLocal(d, g', h', r, c);
      if Inside(d, r, c) {
        AtNext(d, g', r, c);
        AtNext(d, h', r, c);
      }
    }
  }

  // ---------------------------------------------------------------- slices

  function SliceStart(i: nat, n: nat, size: nat): nat
    requires n > 0
  {
    i * size / n
  }

  function SliceEnd(i: nat, n: nat, size: nat): nat
    requires i < n
  {
    if i == n - 1 then size else (i + 1) * size / n
  }

  // The i-th slice starts at the last whole cell not beyond the fraction i / n of the grid.
  lemma SliceStartIs(i: nat, n: nat, size: nat)
    requires n > 0
    ensures SliceStart(i, n, size) * n <= i * size < (SliceStart(i, n, size) + 1) * n
  {
    var a := i * size;
    assert a == n * (a / n) + a % n;
    assert (a / n + 1) * n == n * (a / n) + n;
  }

  lemma DivGrows(a: nat, b: nat, n: nat)
    requires n > 0
    ensures a / n + b / n <= (a + b) / n <= a / n + b / n + 1
  {
    var q, r := a / n + b / n, a % n + b % n;
    assert a + b == n * q + r;
    if r < n {
      DivModUnique(a + b, q, r, n);
    } else {
      assert a + b == n * (q + 1) + (r - n);
      DivModUnique(a + b, q + 1, r - n, n);
    }
  }

  lemma StepOfSlice(i: nat, n: nat, size: nat)
    requires n > 0
    ensures size / n <= (i + 1) * size / n - i * size / n <= size / n + 1
    ensures 0 * size / n == 0
  {
    assert (i + 1) * size == i * size + size;
    DivGrows(i * size, size, n);
    assert 0 * size == 0;
  }

  // Consecutive slices meet, no slice is empty, and their sizes are size / n or one more.
  lemma SliceSizes(i: nat, n: nat, size: nat)
    requires i < n <= size
    ensures SliceEnd(i, n, size) == SliceStart(i + 1, n, size)
    ensures SliceStart(0, n, size) == 0 && SliceEnd(n - 1, n, size) == size
    ensures var k := SliceEnd(i, n, size) - SliceStart(i, n, size);
      1 <= size / n <= k <= size / n + 1
  {
    DivModUnique(n * size, size, 0, n);
    StepOfSlice(i, n, size);
    assert size == n * (size / n) + size % n;
    MulBounds(n, size / n);
  }

  lemma {:induction false} SlicesAscend(i: nat, j: nat, n: nat, size: nat)
    requires i <= j <= n <= size && n > 0
    ensures SliceStart(i, n, size) <= SliceStart(j, n, size)
    ensures SliceStart(j, n, size) <= size
    decreases n - i
  {
    if i < j {
      SliceSizes(i, n, size);
      SlicesAscend(i + 1, j, n, size);
    } else if j < n {
      SliceSizes(j, n, size);
      SlicesAscend(j + 1, n, n, size);
    } else {
      SliceSizes(n - 1, n, size);
    }
  }

  // Every position lies in exactly one slice.
  lemma {:induction false} SliceOf(p: nat, n: nat, size: nat, upTo: nat) returns (i: nat)
    requires 0 < n <= size && upTo <= n && p < SliceStart(upTo, n, size)
    ensures i < upTo && SliceStart(i, n, size) <= p < SliceEnd(i, n, size)
    ensures forall j :: 0 <= j < n && SliceStart(j, n, size) <= p < SliceEnd(j, n, size) ==> j == i
  {
    SliceSizes(0, n, size);
    SliceSizes(upTo - 1, n, size);
    if SliceStart(upTo - 1, n, size) <= p {
      i := upTo - 1;
      forall j | 0 <= j < n && j != i && SliceStart(j, n, size) <= p < SliceEnd(j, n, size) ensures false {
        SliceSizes(j, n, size);
        if j < i {
          SlicesAscend(j + 1, i, n, size);
        } else {
          SlicesAscend(i + 1, j, n, size);
        }
      }
    } else {
      i := SliceOf(p, n, size, upTo - 1);
    }
  }
}
