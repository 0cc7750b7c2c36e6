/** The threads of cw09: each owns a slice of the grid and writes it cell by cell into the other of
    two buffers, then exchanges its own two pointers. A round starts when the main thread signals;
    it is assumed to signal only when every thread has finished, which the original leaves to a
    sleep. Within a round the threads interleave freely. Nothing here depends on the rule of the
    game, so it is a parameter; the last lemmas are about the rule of Life. */
module LifeRuns {
  import opened Basics
  import opened LifeSpec

  // A thread's copy of thread_args_t, its loop index while it is at work, and whether it is.
  // `swapped` says that its foreground pointer is the second buffer.
  datatype Worker = Worker(start: nat, end: nat, cursor: nat, active: bool, swapped: bool)

  datatype State = State(first: seq<bool>, second: seq<bool>, workers: seq<Worker>, signals: nat)

  datatype Label = SignalAll | Write(w: nat) | Finish(w: nat)

  predicate WorkerShape(me: Worker, size: nat) {
    me.start <= me.end <= size && (me.active ==> me.cursor <= me.end)
  }

  ghost predicate Shape(s: State) {
    && |s.second| == |s.first|
    && forall w :: 0 <= w < |s.workers| ==> WorkerShape(s.workers[w], |s.first|)
  }

  predicate Quiescent(s: State) { forall w :: 0 <= w < |s.workers| ==> !s.workers[w].active }

  predicate Enabled(s: State, l: Label) {
    match l
    case SignalAll => Quiescent(s)
    case Write(w) => w < |s.workers| && s.workers[w].active && s.workers[w].cursor < s.workers[w].end
    case Finish(w) => w < |s.workers| && s.workers[w].active && s.workers[w].cursor == s.workers[w].end
  }

  function Restart(me: Worker): Worker { me.(cursor := me.start, active := true) }

  function SignalStep(s: State): State {
    s.(signals := s.signals + 1,
       workers := seq(|s.workers|, w requires 0 <= w < |s.workers| => Restart(s.workers[w])))
  }

  function WriteStep(rule: Rule, s: State, w: nat): State
    requires Shape(s) && Enabled(s, Write(w))
  {
    var me := s.workers[w];
    assert WorkerShape(me, |s.first|);
    var src := if me.swapped then s.second else s.first;
    var cell := rule(src, me.cursor);
    var s' := s.(workers := s.workers[w := me.(cursor := me.cursor + 1)]);
    if me.swapped then s'.(first := s.first[me.cursor := cell])
    else s'.(second := s.second[me.cursor := cell])
  }

  function FinishStep(s: State, w: nat): State
    requires w < |s.workers|
  {
    s.(workers := s.workers[w := s.workers[w].(active := false, swapped := !s.workers[w].swapped)])
  }

  ghost function Step(rule: Rule, s: State, l: Label): State
    requires Shape(s) && Enabled(s, l)
  {
    match l
    case SignalAll => SignalStep(s)
    case Write(w) => WriteStep(rule, s, w)
    case Finish(w) => FinishStep(s, w)
  }

  // ---------------------------------------------------------------- one thread's round

  // The buffers behind a thread's two pointers.
  function Foreground(s: State, w: nat): seq<bool>
    requires w < |s.workers|
  {
    if s.workers[w].swapped then s.second else s.first
  }

  function Background(s: State, w: nat): seq<bool>
    requires w < |s.workers|
  {
    if s.workers[w].swapped then s.first else s.second
  }

  lemma WriteKeepsShape(rule: Rule, s: State, w: nat)
    requires Shape(s) && Enabled(s, Write(w))
    ensures Shape(Step(rule, s, Write(w)))
  {
    assert WorkerShape(s.workers[w], |s.first|);
    forall v | 0 <= v < |s.workers| ensures WorkerShape(WriteStep(rule, s, w).workers[v], |s.first|) {
      assert WorkerShape(s.workers[v], |s.first|);
    }
  }

  // The state after k writes by worker w alone.
  ghost function AfterWrites(rule: Rule, s: State, w: nat, k: nat): (r: State)
    requires Shape(s) && w < |s.workers| && s.workers[w].active && s.workers[w].cursor + k <= s.workers[w].end
    ensures Shape(r) && r.signals == s.signals
    ensures r.workers == s.workers[w := s.workers[w].(cursor := s.workers[w].cursor + k)]
  {
    if k == 0 then s
    else
      var t := AfterWrites(rule, s, w, k - 1);
      WriteKeepsShape(rule, t, w);
      Step(rule, t, Write(w))
  }

  // All writes that are left to worker w, and the exchange of its pointers.
  ghost function AfterRound(rule: Rule, s: State, w: nat): State
    requires Shape(s) && w < |s.workers| && s.workers[w].active
  {
    assert WorkerShape(s.workers[w], |s.first|);
    Step(rule, AfterWrites(rule, s, w, s.workers[w].end - s.workers[w].cursor), Finish(w))
  }

  lemma {:induction false} WritesFill(rule: Rule, s: State, w: nat, k: nat)
    requires Shape(s) && w < |s.workers| && s.workers[w].active && s.workers[w].cursor + k <= s.workers[w].end
    ensures var r, c := AfterWrites(rule, s, w, k), s.workers[w].cursor;
      && Foreground(r, w) == Foreground(s, w) && |Background(r, w)| == |Background(s, w)|
      && forall i :: 0 <= i < |Background(s, w)| ==>
           Background(r, w)[i] == if c <= i < c + k then rule(Foreground(s, w), i) else Background(s, w)[i]
  {
    if k > 0 {
      WritesFill(rule, s, w, k - 1);
    }
  }

  // A thread's round, run on its own: its slice of the background becomes what the rule makes of
  // the foreground, all other cells stay, and the pointers are exchanged.
  lemma RoundFills(rule: Rule, s: State, w: nat)
    requires Shape(s) && w < |s.workers| && s.workers[w].active
    ensures var r, me := AfterRound(rule, s, w), s.workers[w];
      && Shape(r) && r.workers == s.workers[w := me.(cursor := me.end, active := false, swapped := !me.swapped)]
      && Background(r, w) == Foreground(s, w) && |Foreground(r, w)| == |Background(s, w)|
      && forall i :: 0 <= i < |Background(s, w)| ==>
           Foreground(r, w)[i] ==
             if me.cursor <= i < me.end then rule(Foreground(s, w), i) else Background(s, w)[i]
  {
    var me := s.workers[w];
    assert WorkerShape(me, |s.first|);
    WritesFill(rule, s, w, me.end - me.cursor);
    var t := AfterWrites(rule, s, w, me.end - me.cursor);
    forall v | 0 <= v < |t.workers| ensures WorkerShape(FinishStep(t, w).workers[v], |t.first|) {
      assert WorkerShape(t.workers[v], |t.first|);
    }
  }

  // ---------------------------------------------------------------- the invariant

  // The buffers read and written in the current, or last, round.
  ghost function Source(s: State): seq<bool> { if s.signals % 2 == 0 then s.second else s.first }
  ghost function Target(s: State): seq<bool> { if s.signals % 2 == 0 then s.first else s.second }

  // The slices main handed out.
  ghost predicate Sliced(s: State) {
    && 1 <= |s.workers| <= |s.first|
    && forall w :: 0 <= w < |s.workers| ==>
         && s.workers[w].start == SliceStart(w, |s.workers|, |s.first|)
         && s.workers[w].end == SliceEnd(w, |s.workers|, |s.first|)
  }

  ghost predicate SourceOk(rule: Rule, s: State, g: seq<bool>)
    requires Shape(s)
  {
    if s.signals == 0 then s.first == g && Quiescent(s)
    else Source(s) == Generation(rule, g, s.signals - 1)
  }

  ghost predicate WorkerOk(rule: Rule, s: State, w: nat)
    requires Shape(s) && w < |s.workers|
  {
    var me := s.workers[w];
    && me.swapped == (if me.active then s.signals % 2 == 0 else s.signals % 2 == 1)
    && (s.signals > 0 ==>
          && (!me.active ==> me.cursor == me.end)
          && forall i :: me.start <= i < me.cursor && i < |s.first| ==> Target(s)[i] == Everywhere(rule, Source(s))[i])
  }

  ghost predicate Inv(rule: Rule, s: State, g: seq<bool>) {
    && Shape(s) && |g| == |s.first| && Sliced(s) && SourceOk(rule, s, g)
    && forall w :: 0 <= w < |s.workers| ==> WorkerOk(rule, s, w)
  }

  // When all threads have finished, the target is the whole next generation.
  lemma RoundIsComplete(rule: Rule, s: State, g: seq<bool>)
    requires Inv(rule, s, g) && Quiescent(s) && s.signals > 0
    ensures Target(s) == Generation(rule, g, s.signals)
  {
    var n, size := |s.workers|, |s.first|;
    SliceSizes(n - 1, n, size);
    forall i | 0 <= i < size ensures Target(s)[i] == Everywhere(rule, Source(s))[i] {
      var w := SliceOf(i, n, size, n);
      assert WorkerOk(rule, s, w);
    }
  }

  // The target of a complete round is the source of the next.
  lemma SignalKeepsSource(rule: Rule, s: State, g: seq<bool>)
    requires Shape(s) && SourceOk(rule, s, g) && Enabled(s, SignalAll)
    requires s.signals > 0 ==> Target(s) == Generation(rule, g, s.signals)
    ensures Shape(SignalStep(s)) && SourceOk(rule, SignalStep(s), g)
  {
    forall w | 0 <= w < |s.workers| ensures WorkerShape(Restart(s.workers[w]), |s.first|) {
      assert WorkerShape(s.workers[w], |s.first|);
    }
  }

  lemma SignalKeepsInv(rule: Rule, s: State, g: seq<bool>)
    requires Inv(rule, s, g) && Enabled(s, SignalAll)
    ensures Inv(rule, SignalStep(s), g)
  {
    if s.signals > 0 {
      RoundIsComplete(rule, s, g);
    }
    SignalKeepsSource(rule, s, g);
    forall w | 0 <= w < |s.workers| ensures WorkerOk(rule, SignalStep(s), w) {
      assert WorkerOk(rule, s, w);
    }
  }

  // A write leaves the source alone and puts the right value into the target.
  lemma WriteIsRight(rule: Rule, s: State, w: nat)
    requires Shape(s) && Enabled(s, Write(w)) && WorkerOk(rule, s, w)
    ensures var s' := WriteStep(rule, s, w);
      var c := s.workers[w].cursor;
      && Shape(s') && c < |s.first| && Source(s') == Source(s)
      && Target(s') == Target(s)[c := Everywhere(rule, Source(s))[c]]
  {
    WriteKeepsShape(rule, s, w);
  }

  lemma WriteKeepsWorker(rule: Rule, s: State, s': State, c: nat, w: nat, v: nat)
    requires Shape(s) && Shape(s') && c < |s.first| && v < |s.workers| && w < |s.workers|
    requires WorkerOk(rule, s, v) && s.workers[w].cursor == c
    requires s'.workers == s.workers[w := s.workers[w].(cursor := c + 1)] && s'.signals == s.signals
    requires s.workers[w].active && Source(s') == Source(s)
    requires Target(s') == Target(s)[c := Everywhere(rule, Source(s))[c]]
    ensures WorkerOk(rule, s', v)
  {
  }

  lemma WriteKeepsRest(rule: Rule, s: State, s': State, g: seq<bool>, w: nat)
    requires Inv(rule, s, g) && w < |s.workers| && s.workers[w].active && Shape(s')
    requires var c := s.workers[w].cursor;
      && c < |s.first| && Source(s') == Source(s) && Target(s') == Target(s)[c := Everywhere(rule, Source(s))[c]]
      && s'.workers == s.workers[w := s.workers[w].(cursor := c + 1)] && s'.signals == s.signals
    ensures Inv(rule, s', g)
  {
    forall v | 0 <= v < |s'.workers| ensures WorkerOk(rule, s', v) {
      assert WorkerOk(rule, s, v);
      WriteKeepsWorker(rule, s, s', s.workers[w].cursor, w, v);
    }
  }

  lemma WriteKeepsInv(rule: Rule, s: State, g: seq<bool>, w: nat)
    requires Inv(rule, s, g) && Enabled(s, Write(w))
    ensures Inv(rule, WriteStep(rule, s, w), g)
  {
    assert WorkerOk(rule, s, w);
    WriteIsRight(rule, s, w);
    WriteKeepsRest(rule, s, WriteStep(rule, s, w), g, w);
  }

  lemma FinishKeepsInv(rule: Rule, s: State, g: seq<bool>, w: nat)
    requires Inv(rule, s, g) && Enabled(s, Finish(w))
    ensures Inv(rule, FinishStep(s, w), g)
  {
    var s' := FinishStep(s, w);
    assert WorkerOk(rule, s, w);
    forall v | 0 <= v < |s'.workers| ensures WorkerShape(s'.workers[v], |s.first|) {
      assert WorkerShape(s.workers[v], |s.first|);
    }
    forall v | 0 <= v < |s'.workers| ensures WorkerOk(rule, s', v) {
      assert WorkerOk(rule, s, v);
    }
  }

  lemma StepKeepsInv(rule: Rule, s: State, g: seq<bool>, l: Label)
    requires Inv(rule, s, g) && Enabled(s, l)
    ensures Inv(rule, Step(rule, s, l), g)
  {
    match l
    case SignalAll => SignalKeepsInv(rule, s, g);
    case Write(w) => WriteKeepsInv(rule, s, g, w);
    case Finish(w) => FinishKeepsInv(rule, s, g, w);
  }

  // A thread at work can always go on, by a write as long as cells of its slice are left and by the
  // exchange of its pointers after that; so a round never hangs.
  lemma ActiveExactlyWhen(rule: Rule, s: State, g: seq<bool>, w: nat)
    requires Inv(rule, s, g) && w < |s.workers|
    ensures s.workers[w].active <==> Enabled(s, Write(w)) || Enabled(s, Finish(w))
    ensures !(Enabled(s, Write(w)) && Enabled(s, Finish(w)))
  {
    assert WorkerShape(s.workers[w], |s.first|);
  }

  // ---------------------------------------------------------------- runs

  function Init(g: seq<bool>, other: seq<bool>, n: nat): State {
    State(g, other,
          seq(n, i requires 0 <= i < n => Worker(SliceStart(i, n, |g|), SliceEnd(i, n, |g|), 0, false, false)), 0)
  }

  lemma InitInv(rule: Rule, g: seq<bool>, other: seq<bool>, n: nat)
    requires |other| == |g| && 1 <= n <= |g|
    ensures Inv(rule, Init(g, other, n), g)
  {
    forall w | 0 <= w < n ensures WorkerShape(Init(g, other, n).workers[w], |g|) {
      SliceSizes(w, n, |g|);
      SlicesAscend(w + 1, n, n, |g|);
    }
  }

  ghost function Exec(rule: Rule, g: seq<bool>, other: seq<bool>, n: nat, ls: seq<Label>): (r: Option<State>)
    requires |other| == |g| && 1 <= n <= |g|
    ensures r.Some? ==> Inv(rule, r.value, g)
  {
    if ls == [] then
      InitInv(rule, g, other, n);
      Some(Init(g, other, n))
    else
      match Exec(rule, g, other, n, ls[..|ls| - 1])
      case None => None
      case Some(s) =>
        if Enabled(s, ls[|ls| - 1]) then
          StepKeepsInv(rule, s, g, ls[|ls| - 1]);
          Some(Step(rule, s, ls[|ls| - 1]))
        else None
  }

  lemma BuffersAfterRounds(rule: Rule, s: State, g: seq<bool>)
    requires Inv(rule, s, g) && Quiescent(s)
    ensures s.first == Generation(rule, g, 2 * (s.signals / 2))
    ensures s.signals >= 1 ==> s.second == Generation(rule, g, 2 * ((s.signals + 1) / 2) - 1)
  {
    var k := s.signals;
    if k > 0 {
      RoundIsComplete(rule, s, g);
      if k % 2 == 0 {
        assert 2 * (k / 2) == k && 2 * ((k + 1) / 2) - 1 == k - 1;
      } else {
        assert 2 * (k / 2) == k - 1 && 2 * ((k + 1) / 2) - 1 == k;
      }
    }
  }

  // However the threads interleave, whatever their number and whatever the second buffer held at
  // first: after k complete rounds the first buffer, which is the one drawn, holds generation
  // 2 * floor(k / 2), and the second one, once written, generation 2 * ceil(k / 2) - 1.
  lemma CompleteRounds(d: Dim, g: seq<bool>, other: seq<bool>, n: nat, ls: seq<Label>, s: State)
    requires d.w > 0 && |other| == |g| && 1 <= n <= |g|
    requires Exec(LifeRule(d), g, other, n, ls) == Some(s) && Quiescent(s)
    ensures s.first == Generation(LifeRule(d), g, 2 * (s.signals / 2))
    ensures s.signals >= 1 ==> s.second == Generation(LifeRule(d), g, 2 * ((s.signals + 1) / 2) - 1)
  {
    BuffersAfterRounds(LifeRule(d), s, g);
  }

  // Each complete round writes what update_grid would have written from the buffer read.
  lemma RoundEqualsSequentialUpdate(d: Dim, g: seq<bool>, other: seq<bool>, n: nat, ls: seq<Label>, s: State)
    requires d.w > 0 && |other| == |g| && 1 <= n <= |g|
    requires Exec(LifeRule(d), g, other, n, ls) == Some(s) && Quiescent(s) && s.signals > 0
    ensures Target(s) == NextGrid(d, Source(s))
  {
    RoundIsComplete(LifeRule(d), s, g);
  }

  // Inside a round every cell already written is final, and the buffer being read does not change.
  lemma {:induction false} MidRound(rule: Rule, s: State, g: seq<bool>, w: nat, i: nat)
    requires Inv(rule, s, g) && s.signals > 0
    requires w < |s.workers| && s.workers[w].start <= i < s.workers[w].cursor
    ensures Source(s) == Generation(rule, g, s.signals - 1)
    ensures i < |g| == |Target(s)| && Target(s)[i] == Generation(rule, g, s.signals)[i]
  {
    assert WorkerShape(s.workers[w], |g|) && WorkerOk(rule, s, w);
  }
}
