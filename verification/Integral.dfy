/** The two integration programs of cw06 over exact reals: left Riemann sums of 4 / (1 + x^2), in
    one piece or split over processes, and how far such a sum moves when the grid is refined.
    Points and multiples are defined by repeated addition so that the inductions stay linear. */
module Integral {
  import opened Modular

  function F(x: real): real {
    assert x * x >= 0.0;
    4.0 / (x * x + 1.0)
  }

  // The integrand is the one solution of y (1 + x^2) = 4.
  lemma FIs(x: real, y: real)
    ensures y == F(x) <==> y * (1.0 + x * x) == 4.0
  {
    var u := x * x + 1.0;
    assert x * x >= 0.0;
    assert F(x) * u == 4.0;
    if y * u == 4.0 {
      assert (y - F(x)) * u == 0.0;
    }
  }

  // The i-th grid point, and i times a number.
  function Point(start: real, dx: real, i: nat): real {
    if i == 0 then start else Point(start, dx, i - 1) + dx
  }

  function Times(i: nat, x: real): real { Point(0.0, x, i) }

  // Sum of f over the first n grid points.
  function Samples(f: real -> real, start: real, dx: real, n: nat): real {
    if n == 0 then 0.0 else Samples(f, start, dx, n - 1) + f(Point(start, dx, n - 1))
  }

  // The left Riemann sum with n steps of dx, and the one that divides a range into n steps.
  function Riemann(f: real -> real, start: real, dx: real, n: nat): real { Samples(f, start, dx, n) * dx }

  function LeftSum(start: real, stop: real, n: nat): real
    requires n > 0
  {
    Riemann(F, start, (stop - start) / n as real, n)
  }

  lemma RiemannIs(f: real -> real, start: real, dx: real, n: nat, s: real)
    requires s == Samples(f, start, dx, n)
    ensures Riemann(f, start, dx, n) == s * dx
  {
  }

  lemma Distribute(a: real, b: real, c: real)
    ensures (a + b) * c == a * c + b * c
  {
  }

  lemma {:induction false} PointAdd(start: real, dx: real, m: nat, n: nat)
    ensures Point(Point(start, dx, m), dx, n) == Point(start, dx, m + n)
  {
    if n > 0 {
      PointAdd(start, dx, m, n - 1);
    }
  }

  lemma {:induction false} SamplesSplit(f: real -> real, start: real, dx: real, m: nat, n: nat)
    ensures Samples(f, start, dx, m + n) == Samples(f, start, dx, m) + Samples(f, Point(start, dx, m), dx, n)
  {
    if n > 0 {
      SamplesSplit(f, start, dx, m, n - 1);
      PointAdd(start, dx, m, n - 1);
    }
  }

  lemma RiemannSplit(f: real -> real, start: real, dx: real, m: nat, n: nat)
    ensures Riemann(f, start, dx, m + n) == Riemann(f, start, dx, m) + Riemann(f, Point(start, dx, m), dx, n)
  {
    SamplesSplit(f, start, dx, m, n);
    var s, t := Samples(f, start, dx, m), Samples(f, Point(start, dx, m), dx, n);
    RiemannIs(f, start, dx, m, s);
    RiemannIs(f, Point(start, dx, m), dx, n, t);
    RiemannIs(f, start, dx, m + n, s + t);
    Distribute(s, t, dx);
  }

  lemma RiemannNext(f: real -> real, start: real, dx: real, n: nat, fx: real)
    requires fx == f(Point(start, dx, n))
    ensures Riemann(f, start, dx, n + 1) == Riemann(f, start, dx, n) + fx * dx
  {
    var s := Samples(f, start, dx, n);
    RiemannIs(f, start, dx, n, s);
    RiemannIs(f, start, dx, n + 1, s + fx);
    Distribute(s, fx, dx);
  }

  lemma {:induction false} PointIs(start: real, dx: real, i: nat)
    ensures Point(start, dx, i) == start + i as real * dx
  {
    if i > 0 {
      PointIs(start, dx, i - 1);
      assert i as real * dx == (i - 1) as real * dx + dx;
    }
  }

  lemma {:induction false} PointFrom(start: real, dx: real, i: nat)
    ensures Point(start, dx, i) == start + Times(i, dx)
  {
    if i > 0 {
      PointFrom(start, dx, i - 1);
    }
  }

  // ---------------------------------------------------------------- the programs

  // calculator.c; the caller refuses n <= 0.
  method Integrate(start: real, stop: real, nIntervals: nat) returns (result: real)
    requires nIntervals > 0
    ensures result == LeftSum(start, stop, nIntervals)
  {
    var integral := 0.0;
    var dx := (stop - start) / nIntervals as real;
    for i := 0 to nIntervals
      invariant integral == Samples(F, start, dx, i)
    {
      var x := start + i as real * dx;
      PointIs(start, dx, i);
      var fx := F(x);
      integral := integral + fx;
    }
    RiemannIs(F, start, dx, nIntervals, integral);
    result := integral * dx;
  }

  method CalculatePart(start: real, dx: real, steps: nat) returns (area: real)
    ensures area == Riemann(F, start, dx, steps)
  {
    area := 0.0;
    RiemannIs(F, start, dx, 0, 0.0);
    for i := 0 to steps
      invariant area == Riemann(F, start, dx, i)
    {
      var x := start + i as real * dx;
      PointIs(start, dx, i);
      var fx := F(x);
      RiemannNext(F, start, dx, i, fx);
      area := area + fx * dx;
    }
  }

  function PartSteps(i: nat, n: nat, processes: nat): nat
    requires i < processes
  {
    if i == processes - 1 then n / processes + n % processes else n / processes
  }

  function StepsBefore(i: nat, n: nat, processes: nat): nat
    requires i <= processes && processes > 0
  {
    if i == processes then n else i * (n / processes)
  }

  // Every step is done by exactly one process: the slices follow each other and end at n.
  lemma StepsBeforeNext(i: nat, n: nat, processes: nat)
    requires i < processes
    ensures StepsBefore(i, n, processes) + PartSteps(i, n, processes) == StepsBefore(i + 1, n, processes)
    ensures StepsBefore(i, n, processes) == i * (n / processes)
  {
    var q := n / processes;
    assert n == processes * q + n % processes;
    assert (processes - 1) * q == processes * q - q;
    assert (i + 1) * q == i * q + q;
  }

  // The child process of distribute_calculations.
  method PartOfProcess(i: nat, nProcesses: nat, nIntervals: nat, dx: real) returns (result: real)
    requires i < nProcesses
    ensures
      var start := Point(0.0, dx, StepsBefore(i, nIntervals, nProcesses));
      result == Riemann(F, start, dx, PartSteps(i, nIntervals, nProcesses))
  {
    var stepsPerProcess := nIntervals / nProcesses;
    StepsBeforeNext(i, nIntervals, nProcesses);
    var first := i * stepsPerProcess;
    assert first == StepsBefore(i, nIntervals, nProcesses);
    PointIs(0.0, dx, first);
    var steps := if i == nProcesses - 1 then stepsPerProcess + nIntervals % nProcesses else stepsPerProcess;
    assert steps == PartSteps(i, nIntervals, nProcesses);
    var start := 0.0 + first as real * dx;
    assert start == Point(0.0, dx, first);
    result := CalculatePart(start, dx, steps);
  }

  // The results of all processes are read back and added.
  method SumOverProcesses(nProcesses: nat, nIntervals: nat, dx: real) returns (sum: real)
    requires 0 < nProcesses
    ensures sum == Riemann(F, 0.0, dx, nIntervals)
  {
    sum := 0.0;
    RiemannIs(F, 0.0, dx, 0, 0.0);
    for i := 0 to nProcesses
      invariant sum == Riemann(F, 0.0, dx, StepsBefore(i, nIntervals, nProcesses))
    {
      StepsBeforeNext(i, nIntervals, nProcesses);
      RiemannSplit(F, 0.0, dx, StepsBefore(i, nIntervals, nProcesses), PartSteps(i, nIntervals, nProcesses));
      var result := PartOfProcess(i, nProcesses, nIntervals, dx);
      sum := sum + result;
    }
  }

  function Ceiling(x: real): int { -((-x).Floor) }

  datatype Outcome = Failed | Computed(sum: real, nIntervals: nat)

  // main of zad1: the checks on its arguments, then the distributed sum over [0, 1].
  method DistributedIntegral(dx: real, nProcesses: int) returns (r: Outcome)
    ensures r.Failed? <==> nProcesses <= 0 || dx <= 0.0 || Ceiling(1.0 / dx) < nProcesses
    ensures r.Computed? ==>
      && r.nIntervals == Ceiling(1.0 / dx) > 0
      && r.sum == Riemann(F, 0.0, dx, r.nIntervals)
  {
    if nProcesses <= 0 {
      return Failed;
    }
    if dx <= 0.0 {
      return Failed;
    }
    var nIntervals := Ceiling(1.0 / dx);
    if nIntervals < nProcesses {
      return Failed;
    }
    var sum := SumOverProcesses(nProcesses, nIntervals, dx);
    r := Computed(sum, nIntervals);
  }

  // ---------------------------------------------------------------- covering the range

  lemma Scale(x: real, y: real, c: real)
    requires c >= 0.0
    ensures x <= y ==> x * c <= y * c
    ensures x < y && c > 0.0 ==> x * c < y * c
  {
    assert (y - x) * c == y * c - x * c;
    if x <= y {
      assert (y - x) * c >= 0.0;
    }
  }

  lemma FloorIs(x: real)
    ensures x.Floor as real <= x < x.Floor as real + 1.0
  {
  }

  lemma FloorOfWhole(x: real, k: int)
    requires x == k as real
    ensures x.Floor == k
  {
  }

  lemma CeilingIs(x: real)
    ensures Ceiling(x) as real - 1.0 < x <= Ceiling(x) as real
    ensures Ceiling(x) as real == x <==> x.Floor as real == x
  {
    FloorIs(-x);
    if x.Floor as real == x {
      FloorOfWhole(-x, -x.Floor);
    }
    if Ceiling(x) as real == x {
      FloorOfWhole(x, Ceiling(x));
    }
  }

  lemma Positive(x: real, y: real)
    requires x > 0.0 && y > 0.0
    ensures x * y > 0.0
  {
  }

  lemma RoundedUp(x: real, dx: real, n: real)
    requires dx > 0.0 && x * dx == 1.0 && n - 1.0 < x <= n
    ensures 1.0 <= n * dx < 1.0 + dx
    ensures n * dx == 1.0 <==> n == x
  {
    var below, above := n - x, x + 1.0 - n;
    if below > 0.0 {
      Positive(below, dx);
    }
    assert below * dx == n * dx - x * dx;
    Positive(above, dx);
    assert above * dx == x * dx + dx - n * dx;
    assert n * dx < x * dx + dx;
    assert n * dx < 1.0 + dx;
  }

  // The steps reach from 0 to the end of the range or less than one step beyond it, and meet
  // the end exactly when dx divides 1.
  lemma RangeCovered(dx: real)
    requires dx > 0.0
    ensures var n := Ceiling(1.0 / dx);
      && n > 0 && 1.0 <= n as real * dx < 1.0 + dx
      && (n as real * dx == 1.0 <==> (1.0 / dx).Floor as real == 1.0 / dx)
  {
    var x := 1.0 / dx;
    assert x * dx == 1.0 && x > 0.0;
    CeilingIs(x);
    RoundedUp(x, dx, Ceiling(x) as real);
  }

  // With dx = 1/n, the distributed program and the calculator agree, whatever the number of processes.
  lemma ProgramsAgree(n: nat)
    requires n > 0
    ensures Ceiling(1.0 / (1.0 / n as real)) == n
    ensures Riemann(F, 0.0, 1.0 / n as real, n) == LeftSum(0.0, 1.0, n)
  {
    assert 1.0 / (1.0 / n as real) == n as real;
  }

  // ---------------------------------------------------------------- multiples

  lemma {:induction false} TimesPlus(k: nat, x: real, y: real)
    ensures Times(k, x + y) == Times(k, x) + Times(k, y)
  {
    if k > 0 {
      TimesPlus(k - 1, x, y);
    }
  }

  lemma {:induction false} TimesZero(k: nat)
    ensures Times(k, 0.0) == 0.0
  {
    if k > 0 {
      TimesZero(k - 1);
    }
  }

  lemma {:induction false} TimesGrows(k: nat, x: real, y: real)
    requires x <= y
    ensures Times(k, x) <= Times(k, y)
  {
    if k > 0 {
      TimesGrows(k - 1, x, y);
    }
  }

  // n coarse steps of k fine ones.
  function Blocks(k: nat, n: nat): nat { if n == 0 then 0 else Blocks(k, n - 1) + k }

  lemma {:induction false} BlocksIs(k: nat, n: nat)
    ensures Blocks(k, n) == k * n
  {
    if n > 0 {
      BlocksIs(k, n - 1);
      assert k * n == k * (n - 1) + k;
    }
  }

  // Coarse grid points are fine grid points.
  lemma {:induction false} PointOfBlocks(a: real, e: real, k: nat, n: nat)
    ensures Point(a, Times(k, e), n) == Point(a, e, Blocks(k, n))
  {
    if n > 0 {
      PointOfBlocks(a, e, k, n - 1);
      PointAdd(a, e, Blocks(k, n - 1), k);
      PointFrom(Point(a, e, Blocks(k, n - 1)), e, k);
    }
  }

  lemma {:induction false} PointGrows(a: real, dx: real, i: nat, j: nat)
    requires dx >= 0.0 && i <= j
    ensures Point(a, dx, i) <= Point(a, dx, j)
    decreases j
  {
    if i < j {
      PointGrows(a, dx, i, j - 1);
    }
  }

  // ---------------------------------------------------------------- refining under a falling integrand

  predicate Ordered(a: real, x: real, y: real) { a <= x <= y }

  ghost predicate FallsFrom(f: real -> real, a: real) {
    forall x, y {:trigger Ordered(a, x, y)} :: Ordered(a, x, y) ==> f(y) <= f(x)
  }

  // Samples of one coarse interval, taken k times as densely, stay between the values at its ends.
  lemma {:induction false} SamplesBetween(f: real -> real, a: real, x: real, e: real, k: nat, bottom: real)
    requires FallsFrom(f, a) && a <= x && e >= 0.0 && bottom <= f(Point(x, e, k))
    ensures Times(k, bottom) <= Samples(f, x, e, k) <= Times(k, f(x))
  {
    if k > 0 {
      PointGrows(x, e, 0, k - 1);
      PointGrows(x, e, k - 1, k);
      assert Ordered(a, Point(x, e, k - 1), Point(x, e, k)) && Ordered(a, x, Point(x, e, k - 1));
      SamplesBetween(f, a, x, e, k - 1, bottom);
    }
  }

  // The n-th coarse interval among the fine samples.
  lemma FineSplit(f: real -> real, a: real, e: real, h: real, k: nat, n: nat)
    requires n > 0 && h == Times(k, e)
    ensures Samples(f, a, e, Blocks(k, n)) ==
            Samples(f, a, e, Blocks(k, n - 1)) + Samples(f, Point(a, h, n - 1), e, k)
  {
    SamplesSplit(f, a, e, Blocks(k, n - 1), k);
    PointOfBlocks(a, e, k, n - 1);
  }

  lemma CoarseSplit(f: real -> real, a: real, h: real, k: nat, n: nat)
    requires n > 0
    ensures Times(k, Samples(f, a, h, n)) == Times(k, Samples(f, a, h, n - 1)) + Times(k, f(Point(a, h, n - 1)))
  {
    TimesPlus(k, Samples(f, a, h, n - 1), f(Point(a, h, n - 1)));
  }

  lemma BlockBetween(f: real -> real, a: real, e: real, h: real, k: nat, n: nat)
    requires FallsFrom(f, a) && e >= 0.0 && h == Times(k, e)
    ensures Times(k, f(Point(a + h, h, n))) <= Samples(f, Point(a, h, n), e, k) <= Times(k, f(Point(a, h, n)))
  {
    PointGrows(0.0, e, 0, k);
    PointGrows(a, h, 0, n);
    PointFrom(Point(a, h, n), e, k);
    PointAdd(a, h, 1, n);
    assert Point(a, h, 1) == a + h;
    SamplesBetween(f, a, Point(a, h, n), e, k, f(Point(a + h, h, n)));
  }

  lemma RefineStep(f: real -> real, a: real, e: real, h: real, k: nat, n: nat)
    requires n > 0 && h == Times(k, e)
    requires Times(k, Samples(f, a + h, h, n - 1)) <= Samples(f, a, e, Blocks(k, n - 1))
    requires Samples(f, a, e, Blocks(k, n - 1)) <= Times(k, Samples(f, a, h, n - 1))
    requires Times(k, f(Point(a + h, h, n - 1))) <= Samples(f, Point(a, h, n - 1), e, k)
    requires Samples(f, Point(a, h, n - 1), e, k) <= Times(k, f(Point(a, h, n - 1)))
    ensures Times(k, Samples(f, a + h, h, n)) <= Samples(f, a, e, Blocks(k, n)) <= Times(k, Samples(f, a, h, n))
  {
    FineSplit(f, a, e, h, k, n);
    CoarseSplit(f, a, h, k, n);
    CoarseSplit(f, a + h, h, k, n);
  }

  lemma {:induction false} Refine(f: real -> real, a: real, e: real, h: real, k: nat, n: nat)
    requires FallsFrom(f, a) && e >= 0.0 && h == Times(k, e)
    ensures Times(k, Samples(f, a + h, h, n)) <= Samples(f, a, e, Blocks(k, n)) <= Times(k, Samples(f, a, h, n))
  {
    if n == 0 {
      TimesZero(k);
    } else {
      Refine(f, a, e, h, k, n - 1);
      BlockBetween(f, a, e, h, k, n - 1);
      RefineStep(f, a, e, h, k, n);
    }
  }

  // Moving the whole grid one step to the right drops the first sample and adds one at the end.
  lemma Shift(f: real -> real, a: real, h: real, n: nat)
    ensures Samples(f, a + h, h, n) == Samples(f, a, h, n) - f(a) + f(Point(a, h, n))
  {
    SamplesSplit(f, a, h, 1, n);
    assert Point(a, h, 1) == a + h;
    assert Samples(f, a, h, 1) == Samples(f, a, h, 0) + f(Point(a, h, 0));
    assert Samples(f, a, h, n + 1) == Samples(f, a, h, n) + f(Point(a, h, n));
  }

  lemma SquareGrows(x: real, y: real)
    requires 0.0 <= x <= y
    ensures 0.0 <= x * x <= y * y
  {
    Scale(x, y, x);
    Scale(x, y, y);
  }

  lemma Quotients(u: real, v: real)
    requires 0.0 < u <= v
    ensures 4.0 / v <= 4.0 / u
  {
    var p, q := 4.0 / u, 4.0 / v;
    assert p * u == 4.0 && q * v == 4.0;
    Scale(u, v, q);
    if p < q {
      Scale(p, q, u);
    }
  }

  lemma FFalls(a: real)
    requires a >= 0.0
    ensures FallsFrom(F, a)
  {
    forall x, y | Ordered(a, x, y) ensures F(y) <= F(x) {
      SquareGrows(x, y);
      Quotients(x * x + 1.0, y * y + 1.0);
    }
  }

  lemma FineStep(width: real, n: real, k: real)
    requires width > 0.0 && n > 0.0 && k > 0.0
    ensures k * n > 0.0 && width / (k * n) > 0.0
    ensures k * (width / (k * n)) == width / n && n * (width / n) == width
  {
    var e := width / (k * n);
    assert e * (k * n) == width;
    assert e * (k * n) == (k * e) * n;
  }

  lemma TimesIs(k: nat, x: real)
    ensures Times(k, x) == k as real * x
  {
    PointIs(0.0, x, k);
  }

  lemma CastProduct(k: nat, n: nat)
    ensures (k * n) as real == k as real * n as real
  {
  }

  lemma Grids(width: real, n: nat, k: nat)
    requires width > 0.0 && n > 0 && k > 0
    ensures k * n > 0
    ensures width / (k * n) as real > 0.0
    ensures Times(k, width / (k * n) as real) == width / n as real
    ensures Times(n, width / n as real) == width
  {
    MulBounds(k, n);
    CastProduct(k, n);
    FineStep(width, n as real, k as real);
    TimesIs(k, width / (k * n) as real);
    TimesIs(n, width / n as real);
  }

  // Comparing k coarse samples to the fine ones, and scaling by the fine step.
  lemma ScaleTimes(k: nat, coarse: real, fine: real, e: real, h: real)
    requires e >= 0.0 && h == Times(k, e)
    ensures Times(k, coarse) <= fine ==> coarse * h <= fine * e
    ensures fine <= Times(k, coarse) ==> fine * e <= coarse * h
  {
    PointIs(0.0, coarse, k);
    PointIs(0.0, e, k);
    Scale(Times(k, coarse), fine, e);
    Scale(fine, Times(k, coarse), e);
    assert k as real * coarse * e == coarse * (k as real * e);
  }

  lemma ScaleBracket(k: nat, lower: real, fine: real, upper: real, drop: real, e: real, h: real)
    requires e >= 0.0 && h == Times(k, e) && Times(k, lower) <= fine <= Times(k, upper) && lower == upper - drop
    ensures upper * h - drop * h <= fine * e <= upper * h
  {
    ScaleTimes(k, lower, fine, e, h);
    ScaleTimes(k, upper, fine, e, h);
    Distribute(lower, drop, h);
  }

  // The bracket on grids given by their steps.
  lemma BracketBySteps(f: real -> real, a: real, b: real, n: nat, k: nat, h: real, e: real)
    requires FallsFrom(f, a) && e >= 0.0 && h == Times(k, e) && a + Times(n, h) == b
    ensures Riemann(f, a, h, n) - (f(a) - f(b)) * h <= Riemann(f, a, e, Blocks(k, n)) <= Riemann(f, a, h, n)
  {
    Refine(f, a, e, h, k, n);
    Shift(f, a, h, n);
    PointFrom(a, h, n);
    var fine, upper, lower := Samples(f, a, e, Blocks(k, n)), Samples(f, a, h, n), Samples(f, a + h, h, n);
    RiemannIs(f, a, e, Blocks(k, n), fine);
    RiemannIs(f, a, h, n, upper);
    ScaleBracket(k, lower, fine, upper, f(a) - f(b), e, h);
  }

  // On a range right of 0 a k times finer grid lowers the sum, by at most the drop of the
  // integrand times one coarse step.
  lemma RefinementBracket(a: real, b: real, n: nat, k: nat)
    requires 0.0 <= a < b && n > 0 && k > 0
    ensures k * n > 0
    ensures LeftSum(a, b, n) - (F(a) - F(b)) * ((b - a) / n as real) <= LeftSum(a, b, k * n) <= LeftSum(a, b, n)
  {
    Grids(b - a, n, k);
    BlocksIs(k, n);
    FFalls(a);
    BracketBySteps(F, a, b, n, k, (b - a) / n as real, (b - a) / (k * n) as real);
  }

  // The calculator on [0, 1].
  lemma UnitBracket(n: nat, k: nat)
    requires n > 0 && k > 0
    ensures k * n > 0
    ensures LeftSum(0.0, 1.0, n) - 2.0 / n as real <= LeftSum(0.0, 1.0, k * n) <= LeftSum(0.0, 1.0, n)
  {
    RefinementBracket(0.0, 1.0, n, k);
    assert F(0.0) == 4.0 && F(1.0) == 2.0;
    assert 2.0 * (1.0 / n as real) == 2.0 / n as real;
  }

  // ---------------------------------------------------------------- refining on any range

  function Abs(x: real): real { if x < 0.0 then -x else x }

  // Moving the argument by at most h moves the value by at most drift.
  predicate Near(x: real, y: real, d: real) { Abs(x - y) <= d }

  ghost predicate Steady(f: real -> real, h: real, drift: real) {
    forall x, y {:trigger Near(x, y, h)} :: Near(x, y, h) ==> Near(f(x), f(y), drift)
  }

  lemma {:induction false} SamplesNear(f: real -> real, x: real, e: real, h: real, k: nat, drift: real)
    requires Steady(f, h, drift) && e >= 0.0 && Times(k, e) <= h
    ensures Abs(Samples(f, x, e, k) - Times(k, f(x))) <= Times(k, drift)
  {
    if k > 0 {
      SamplesNear(f, x, e, h, k - 1, drift);
      PointFrom(x, e, k - 1);
      PointGrows(0.0, e, 0, k - 1);
      assert Near(Point(x, e, k - 1), x, h);
    }
  }

  lemma RefineAnywhereStep(f: real -> real, a: real, e: real, h: real, k: nat, n: nat, error: real, drift: real)
    requires n > 0 && h == Times(k, e)
    requires Abs(Samples(f, a, e, Blocks(k, n - 1)) - Times(k, Samples(f, a, h, n - 1))) <= error
    requires Abs(Samples(f, Point(a, h, n - 1), e, k) - Times(k, f(Point(a, h, n - 1)))) <= drift
    ensures Abs(Samples(f, a, e, Blocks(k, n)) - Times(k, Samples(f, a, h, n))) <= error + drift
  {
    FineSplit(f, a, e, h, k, n);
    CoarseSplit(f, a, h, k, n);
  }

  lemma {:induction false} RefineAnywhere(f: real -> real, a: real, e: real, h: real, k: nat, n: nat, drift: real)
    requires Steady(f, h, drift) && e >= 0.0 && h == Times(k, e)
    ensures Abs(Samples(f, a, e, Blocks(k, n)) - Times(k, Samples(f, a, h, n))) <= Times(n, Times(k, drift))
  {
    if n == 0 {
      TimesZero(k);
    } else {
      RefineAnywhere(f, a, e, h, k, n - 1, drift);
      SamplesNear(f, Point(a, h, n - 1), e, h, k, drift);
      RefineAnywhereStep(f, a, e, h, k, n, Times(n - 1, Times(k, drift)), Times(k, drift));
    }
  }

  lemma SquareOfAbs(x: real)
    ensures Abs(x) * Abs(x) == x * x >= 0.0
  {
  }

  lemma DifferenceOfSquares(p: real, q: real, w: real, d: real)
    requires p >= 0.0 && q >= 0.0 && d >= 0.0 && q - p <= d && p + q <= w
    ensures q * q - p * p <= w * d
  {
    assert q * q - p * p == (q - p) * (p + q);
    Scale(q - p, d, p + q);
    Scale(p + q, w, d);
    assert d * (p + q) == (p + q) * d;
  }

  lemma BelowSquare(p: real)
    ensures p <= p * p + 0.5 && p * p >= 0.0
  {
    SquareOfAbs(p);
    SquareOfAbs(p - 0.5);
    assert (p - 0.5) * (p - 0.5) == p * p - p + 0.25;
  }

  lemma ProductOfSums(s: real, t: real)
    requires s >= 0.0 && t >= 0.0
    ensures (s + 1.0) * (t + 1.0) >= s + t + 1.0
  {
    assert (s + 1.0) * (t + 1.0) == s * t + s + t + 1.0;
    assert s * t >= 0.0;
  }

  lemma SumBelowProduct(p: real, q: real)
    requires p >= 0.0 && q >= 0.0
    ensures p + q <= (p * p + 1.0) * (q * q + 1.0)
  {
    BelowSquare(p);
    BelowSquare(q);
    ProductOfSums(p * p, q * q);
  }

  lemma SquaresApart(x: real, y: real)
    ensures y * y - x * x <= (x * x + 1.0) * (y * y + 1.0) * Abs(x - y)
  {
    SquareOfAbs(x);
    SquareOfAbs(y);
    SumBelowProduct(Abs(x), Abs(y));
    DifferenceOfSquares(Abs(x), Abs(y), (x * x + 1.0) * (y * y + 1.0), Abs(x - y));
  }

  lemma Bound(u: real, v: real, d: real)
    requires u >= 1.0 && v >= 1.0 && d >= 0.0 && v - u <= u * v * d
    ensures 4.0 / u - 4.0 / v <= 4.0 * d
  {
    var g := 4.0 / u - 4.0 / v;
    assert u * v > 0.0;
    assert 4.0 / u * u == 4.0 && 4.0 / v * v == 4.0;
    assert g * (u * v) == (4.0 / u * u) * v - (4.0 / v * v) * u;
    assert g * (u * v) <= (4.0 * d) * (u * v);
    Scale(4.0 * d, g, u * v);
  }

  lemma OneWay(x: real, y: real)
    ensures F(x) - F(y) <= 4.0 * Abs(x - y)
  {
    SquareOfAbs(x);
    SquareOfAbs(y);
    SquaresApart(x, y);
    Bound(x * x + 1.0, y * y + 1.0, Abs(x - y));
  }

  // The integrand changes at most 4 times as fast as its argument.
  lemma FIsSteady(h: real)
    ensures Steady(F, h, 4.0 * h)
  {
    forall x, y | Near(x, y, h) ensures Near(F(x), F(y), 4.0 * h) {
      OneWay(x, y);
      OneWay(y, x);
    }
  }

  lemma ScaleGap(k: real, n: real, fine: real, coarse: real, e: real, drift: real)
    requires e >= 0.0 && Abs(fine - k * coarse) <= n * (k * drift)
    ensures Abs(fine * e - coarse * (k * e)) <= n * (k * e) * drift
  {
    var gap, bound := fine - k * coarse, n * (k * drift);
    Scale(gap, bound, e);
    Scale(-bound, gap, e);
    assert gap * e == fine * e - coarse * (k * e);
    assert bound * e == n * (k * e) * drift;
    assert -bound * e == -(bound * e);
  }

  lemma ScaleError(k: nat, n: nat, fine: real, coarse: real, e: real, h: real, width: real, drift: real)
    requires e >= 0.0 && h == Times(k, e) && width == Times(n, h)
    requires Abs(fine - Times(k, coarse)) <= Times(n, Times(k, drift))
    ensures Near(fine * e, coarse * h, width * drift)
  {
    TimesIs(k, coarse);
    TimesIs(k, e);
    TimesIs(k, drift);
    TimesIs(n, Times(k, drift));
    TimesIs(n, h);
    ScaleGap(k as real, n as real, fine, coarse, e, drift);
  }

  lemma DriftBySteps(f: real -> real, a: real, n: nat, k: nat, h: real, e: real, width: real, drift: real)
    requires Steady(f, h, drift) && e >= 0.0 && h == Times(k, e) && width == Times(n, h)
    ensures Near(Riemann(f, a, e, Blocks(k, n)), Riemann(f, a, h, n), width * drift)
  {
    RefineAnywhere(f, a, e, h, k, n, drift);
    var fine, coarse := Samples(f, a, e, Blocks(k, n)), Samples(f, a, h, n);
    RiemannIs(f, a, e, Blocks(k, n), fine);
    RiemannIs(f, a, h, n, coarse);
    ScaleError(k, n, fine, coarse, e, h, width, drift);
  }

  lemma LeftSumIs(start: real, stop: real, n: nat, dx: real)
    requires n > 0 && dx == (stop - start) / n as real
    ensures LeftSum(start, stop, n) == Riemann(F, start, dx, n)
  {
  }

  // How far a sum over a range of this width moves when a grid of step h is refined.
  function Movement(width: real, h: real): real { width * (4.0 * h) }

  lemma DriftOfF(a: real, n: nat, k: nat, h: real, e: real, width: real)
    requires e >= 0.0 && h == Times(k, e) && width == Times(n, h)
    ensures Near(Riemann(F, a, e, Blocks(k, n)), Riemann(F, a, h, n), Movement(width, h))
  {
    FIsSteady(h);
    DriftBySteps(F, a, n, k, h, e, width, 4.0 * h);
  }

  lemma MovesBySteps(a: real, b: real, n: nat, k: nat, m: nat, h: real, e: real)
    requires n > 0 && m > 0 && m == Blocks(k, n) && e >= 0.0 && h == Times(k, e) && b - a == Times(n, h)
    requires h == (b - a) / n as real && e == (b - a) / m as real
    ensures Near(LeftSum(a, b, m), LeftSum(a, b, n), Movement(b - a, h))
  {
    DriftOfF(a, n, k, h, e, b - a);
    LeftSumIs(a, b, n, h);
    LeftSumIs(a, b, m, e);
  }

  lemma GridSteps(width: real, n: nat, k: nat, m: nat, h: real, e: real)
    requires width > 0.0 && n > 0 && k > 0 && m == k * n && h == width / n as real
    requires m > 0 && e == width / m as real
    ensures m == Blocks(k, n) && e >= 0.0 && h == Times(k, e) && width == Times(n, h)
  {
    Grids(width, n, k);
    BlocksIs(k, n);
  }

  // On every range the caller accepts, refining the grid moves the sum by at most 4 (b-a)^2 / n:
  // the sums converge, at a rate that does not depend on where the range lies.
  lemma RefinementMovesLittle(a: real, b: real, n: nat, k: nat)
    requires a < b && n > 0 && k > 0
    ensures k * n > 0
    ensures Near(LeftSum(a, b, k * n), LeftSum(a, b, n), Movement(b - a, (b - a) / n as real))
  {
    MulBounds(k, n);
    var m, h := k * n, (b - a) / n as real;
    var e := (b - a) / m as real;
    GridSteps(b - a, n, k, m, h, e);
    MovesBySteps(a, b, n, k, m, h, e);
  }
}
