/** The grid functions of cw09 over the buffers they read and write, and one thread's round. */
module Life {
  import opened LifeSpec
  import LifeRuns

  ghost function Before(cells: set<(int, int)>, i: int, j: int): set<(int, int)> {
    set p | p in cells && (p.0 < i || (p.0 == i && p.1 < j))
  }

  // How many live neighbours of (r, c) come before position (i, j), row by row.
  ghost function CountBefore(d: Dim, g: seq<bool>, r: int, c: int, i: int, j: int): nat {
    |Before(LiveNeighbours(d, g, r, c), i, j)|
  }

  lemma CountStarts(d: Dim, g: seq<bool>, r: int, c: int)
    ensures CountBefore(d, g, r, c, r - 1, c - 1) == 0
  {
    assert Before(LiveNeighbours(d, g, r, c), r - 1, c - 1) == {};
  }

  lemma CountEnds(d: Dim, g: seq<bool>, r: int, c: int)
    ensures CountBefore(d, g, r, c, r + 2, c - 1) == |LiveNeighbours(d, g, r, c)|
  {
    assert Before(LiveNeighbours(d, g, r, c), r + 2, c - 1) == LiveNeighbours(d, g, r, c);
  }

  lemma CountNextRow(d: Dim, g: seq<bool>, r: int, c: int, i: int)
    ensures CountBefore(d, g, r, c, i + 1, c - 1) == CountBefore(d, g, r, c, i, c + 2)
  {
    var live := LiveNeighbours(d, g, r, c);
    assert Before(live, i + 1, c - 1) == Before(live, i, c + 2);
  }

  lemma BeforeNext(cells: set<(int, int)>, i: int, j: int)
    ensures |Before(cells, i, j + 1)| == |Before(cells, i, j)| + (if (i, j) in cells then 1 else 0)
  {
    if (i, j) in cells {
      assert Before(cells, i, j + 1) == Before(cells, i, j) + {(i, j)};
    } else {
      assert Before(cells, i, j + 1) == Before(cells, i, j);
    }
  }

  // Going one position on adds that cell, if it is a live neighbour.
  lemma CountNext(d: Dim, g: seq<bool>, r: int, c: int, i: int, j: int)
    requires r - 1 <= i <= r + 1 && c - 1 <= j <= c + 1
    ensures CountBefore(d, g, r, c, i, j + 1) ==
      CountBefore(d, g, r, c, i, j) + (if (i, j) != (r, c) && At(d, g, i, j) then 1 else 0)
  {
    BeforeNext(LiveNeighbours(d, g, r, c), i, j);
  }

  // Whether the cell at an offset is a neighbour, on the grid and alive.
  method IsLiveNeighbour(d: Dim, row: int, col: int, i: int, j: int, grid: array<bool>) returns (live: bool)
    requires IsGrid(d, grid[..])
    ensures live == (!(i == 0 && j == 0) && At(d, grid[..], row + i, col + j))
  {
    if i == 0 && j == 0 {
      return false;
    }
    var r, c := row + i, col + j;
    if r < 0 || r >= d.h || c < 0 || c >= d.w {
      return false;
    }
    CellIndex(d, r, c);
    live := grid[d.w * r + c];
  }

  method CountNeighbours(d: Dim, row: nat, col: nat, grid: array<bool>) returns (count: nat)
    requires IsGrid(d, grid[..])
    ensures count == |LiveNeighbours(d, grid[..], row, col)|
  {
    ghost var g := grid[..];
    count := 0;
    CountStarts(d, g, row, col);
    for i := -1 to 2
      invariant count == CountBefore(d, g, row, col, row + i, col - 1)
    {
      for j := -1 to 2
        invariant count == CountBefore(d, g, row, col, row + i, col + j)
      {
        CountNext(d, g, row, col, row + i, col + j);
        var live := IsLiveNeighbour(d, row, col, i, j, grid);
        if live {
          count := count + 1;
        }
      }
      CountNextRow(d, g, row, col, row + i);
    }
    CountEnds(d, g, row, col);
  }

  // is_alive: nested loops over the eight neighbours, skipping those off the grid.
  method IsAlive(d: Dim, row: nat, col: nat, grid: array<bool>) returns (alive: bool)
    requires IsGrid(d, grid[..]) && Inside(d, row, col)
    ensures alive == NextCell(d, grid[..], row, col)
  {
    var count := CountNeighbours(d, row, col, grid);
    CellIndex(d, row, col);
    if grid[row * d.w + col] {
      alive := count == 2 || count == 3;
    } else {
      alive := count == 3;
    }
  }

  method UpdateGrid(d: Dim, src: array<bool>, dst: array<bool>)
    requires IsGrid(d, src[..]) && dst.Length == src.Length && src != dst
    modifies dst
    ensures dst[..] == NextGrid(d, src[..])
  {
    for i := 0 to d.h
      invariant forall r, c :: 0 <= r < i && 0 <= c < d.w ==> At(d, dst[..], r, c) == NextCell(d, src[..], r, c)
    {
      for j := 0 to d.w
        invariant forall r, c :: 0 <= r < i && 0 <= c < d.w ==> At(d, dst[..], r, c) == NextCell(d, src[..], r, c)
        invariant forall c :: 0 <= c < j ==> At(d, dst[..], i, c) == NextCell(d, src[..], i, c)
      {
        CellIndex(d, i, j);
        var alive := IsAlive(d, i, j, src);
        ghost var before := dst[..];
        dst[i * d.w + j] := alive;
        forall r, c | Inside(d, r, c) && (r, c) != (i, j) ensures At(d, dst[..], r, c) == At(d, before, r, c) {
          CellIndex(d, r, c);
        }
      }
    }
    forall p | 0 <= p < dst.Length ensures dst[p] == NextGrid(d, src[..])[p] {
      IndexCell(d, p);
      assert At(d, dst[..], p / d.w, p % d.w) == NextCell(d, src[..], p / d.w, p % d.w);
    }
  }

  method UpdateSubgrid(d: Dim, src: array<bool>, dst: array<bool>, start: nat, end: nat)
    requires IsGrid(d, src[..]) && dst.Length == src.Length && src != dst
    requires start <= end <= src.Length
    modifies dst
    ensures forall i :: start <= i < end ==> dst[i] == NextGrid(d, src[..])[i]
    ensures forall i :: 0 <= i < dst.Length && !(start <= i < end) ==> dst[i] == old(dst[i])
  {
    for i := start to end
      invariant forall k :: start <= k < i ==> dst[k] == NextGrid(d, src[..])[k]
      invariant forall k :: 0 <= k < dst.Length && !(start <= k < i) ==> dst[k] == old(dst[k])
    {
      IndexCell(d, i);
      dst[i] := IsAlive(d, i / d.w, i % d.w, src);
    }
  }

  // One thread, with its own copy of thread_args_t.
  class Worker {
    const d: Dim
    var foreground: array<bool>
    var background: array<bool>
    const start: nat
    const end: nat

    ghost predicate Valid()
      reads this, foreground, background
    {
      && IsGrid(d, foreground[..]) && background.Length == foreground.Length && foreground != background
      && start <= end <= foreground.Length
    }

    // The i-th of n threads, with the bounds main computes for it.
    constructor (d: Dim, foreground: array<bool>, background: array<bool>, i: nat, n: nat)
      requires IsGrid(d, foreground[..]) && background.Length == foreground.Length && foreground != background
      requires i < n <= foreground.Length
      ensures Valid() && this.foreground == foreground && this.background == background && this.d == d
      ensures start == SliceStart(i, n, foreground.Length) && end == SliceEnd(i, n, foreground.Length)
    {
      this.d, this.foreground, this.background := d, foreground, background;
      SliceSizes(i, n, foreground.Length);
      SlicesAscend(i + 1, n, n, foreground.Length);
      start := i * foreground.Length / n;
      end := if i == n - 1 then foreground.Length else (i + 1) * foreground.Length / n;
    }

    // This thread as worker w of the state machine.
    ghost predicate Is(s: LifeRuns.State, w: nat)
      requires Valid()
      reads this, foreground, background
    {
      && LifeRuns.Shape(s) && w < |s.workers| && s.workers[w].start == start && s.workers[w].end == end
      && LifeRuns.Foreground(s, w) == foreground[..] && LifeRuns.Background(s, w) == background[..]
    }

    // What the thread does on a signal. Left to itself it does what worker w does in as many single
    // writes as its slice has cells and one exchange of its pointers.
    method Round(ghost s: LifeRuns.State, ghost w: nat)
      requires Valid()
      requires Is(s, w) && s.workers[w].active && s.workers[w].cursor == start
      modifies this, background
      ensures Valid()
      ensures foreground == old(background) && background == old(foreground)
      ensures forall i :: start <= i < end ==> foreground[i] == NextGrid(d, old(foreground[..]))[i]
      ensures forall i :: 0 <= i < foreground.Length && !(start <= i < end) ==> foreground[i] == old(background[i])
      ensures Is(LifeRuns.AfterRound(LifeRule(d), s, w), w)
    {
      LifeRuns.RoundFills(LifeRule(d), s, w);
      UpdateSubgrid(d, foreground, background, start, end);
      var tmp := foreground;
      foreground := background;
      background := tmp;
      assert foreground[..] == LifeRuns.Foreground(LifeRuns.AfterRound(LifeRule(d), s, w), w);
    }
  }
}
