// Sums of a weight over a sequence of threads. A 0/1 weight counts the threads in some set of
// program points; larger weights add up distances in a termination measure.
module Totals {
  function Total<T>(s: seq<T>, w: T -> nat): nat {
    if s == [] then 0 else Total(s[..|s| - 1], w) + w(s[|s| - 1])
  }

  lemma TotalNext<T>(s: seq<T>, i: nat, w: T -> nat)
    requires i < |s|
    ensures Total(s[..i + 1], w) == Total(s[..i], w) + w(s[i])
  {
    assert s[..i + 1][..i] == s[..i];
  }

  lemma {:induction false} TotalUpdate<T>(s: seq<T>, i: nat, x: T, w: T -> nat)
    requires i < |s|
    ensures Total(s[i := x], w) + w(s[i]) == Total(s, w) + w(x)
  {
    var n := |s| - 1;
    if i == n {
      assert s[i := x][..n] == s[..n];
    } else {
      assert s[i := x][..n] == s[..n][i := x];
      TotalUpdate(s[..n], i, x, w);
    }
  }

  lemma {:induction false} TotalAtLeast<T>(s: seq<T>, i: nat, w: T -> nat)
    requires i < |s|
    ensures w(s[i]) <= Total(s, w)
  {
    if i < |s| - 1 {
      TotalAtLeast(s[..|s| - 1], i, w);
    }
  }

  // Two different threads contribute separately.
  lemma {:induction false} TotalAtLeastTwo<T>(s: seq<T>, i: nat, j: nat, w: T -> nat)
    requires i < j < |s|
    ensures w(s[i]) + w(s[j]) <= Total(s, w)
  {
    if j < |s| - 1 {
      TotalAtLeastTwo(s[..|s| - 1], i, j, w);
    } else {
      TotalAtLeast(s[..|s| - 1], i, w);
    }
  }

  // When every weight is k, so is the average.
  lemma {:induction false} TotalUniform<T>(s: seq<T>, k: nat, w: T -> nat)
    requires forall i :: 0 <= i < |s| ==> w(s[i]) == k
    ensures Total(s, w) == k * |s|
  {
    if s != [] {
      TotalUniform(s[..|s| - 1], k, w);
    }
  }

  // A total is bounded by the largest weight, and reaches the bound only if every weight does.
  lemma {:induction false} TotalAtMost<T>(s: seq<T>, k: nat, w: T -> nat)
    requires forall i :: 0 <= i < |s| ==> w(s[i]) <= k
    ensures Total(s, w) <= k * |s|
    ensures Total(s, w) == k * |s| ==> forall i :: 0 <= i < |s| ==> w(s[i]) == k
  {
    if s != [] {
      var t := s[..|s| - 1];
      TotalAtMost(t, k, w);
      assert k * |s| == k * |t| + k;
      assert forall i :: 0 <= i < |t| ==> t[i] == s[i];
    }
  }

  // k times per, by repeated addition, so that proofs about it stay linear.
  function Times(k: nat, per: nat): nat { if k == 0 then 0 else Times(k - 1, per) + per }

  lemma {:induction false} TimesIs(k: nat, per: nat)
    ensures Times(k, per) == k * per
  {
    if k > 0 {
      TimesIs(k - 1, per);
      assert k * per == (k - 1) * per + per;
    }
  }

  lemma {:induction false} TimesPlus(k: nat, l: nat, per: nat)
    ensures Times(k + l, per) == Times(k, per) + Times(l, per)
  {
    if l > 0 {
      TimesPlus(k, l - 1, per);
    }
  }

  lemma {:induction false} TotalWithin<T>(s: seq<T>, per: nat, w: T -> nat)
    requires forall i :: 0 <= i < |s| ==> w(s[i]) <= per
    ensures Total(s, w) <= Times(|s|, per)
  {
    if s != [] {
      TotalWithin(s[..|s| - 1], per, w);
    }
  }
}
