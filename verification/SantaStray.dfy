/** Spurious wake-ups of a reindeer. Its wait is not in a loop, so one that returns unsignalled sends
    the reindeer off again although nobody has delivered. Santa is misled exactly by those that fall
    while he collects the herd. */
module SantaStray {
  import opened SantaSpec
  import opened SantaRuns

  // The same system with one more kind of step, which the reindeer's wait, not being in a loop,
  // does not guard against.
  datatype Event = Regular(l: Label) | Stray(j: nat)

  ghost predicate Follows(s: State, e: Event, s': State) {
    match e
    case Regular(l) => |s.arrivals| == |s.herd| && Enabled(s, l) && Step(s, l) == s'
    case Stray(j) => j < |s.herd| && s.herd[j].Blocked? && s' == s.(herd := s.herd[j := Woken])
  }

  ghost predicate Trace(es: seq<Event>, ss: seq<State>) {
    |ss| == |es| + 1 && forall i :: 0 <= i < |es| ==> Follows(ss[i], es[i], ss[i + 1])
  }

  // Two reindeer. The second goes on holiday; the first arrives, is woken by nobody, and arrives
  // a second time.
  function StrayEvents(): seq<Event> {
    var r := Regular(Reindeer(0));
    [Regular(Reindeer(1)), Regular(Reindeer(1)), r, r, r, r, r, r, Stray(0), r, r, r, r, r, r, r,
     Regular(Label.Santa), Regular(Label.Santa)]
  }

  function StrayState(deliveries: nat, i: nat): State {
    var count := if i < 6 then 0 else if i < 13 then 1 else 2;
    var owner :=
      if i == 1 then ReindeerOwns(1)
      else if i in {3, 5, 6, 7, 10, 12, 13, 14, 15} then ReindeerOwns(0)
      else if i >= 17 then SantaOwns else Nobody;
    var santa := if i < 17 then Lock else if i == 17 then Test else Deliver;
    var first :=
      match i
      case 3 => Holiday
      case 4 => Away
      case 5 => Increment
      case 6 => Check
      case 7 => Wait
      case 8 => Blocked
      case 9 => Woken
      case 10 => Holiday
      case 11 => Away
      case 12 => Increment
      case 13 => Check
      case 14 => Signal
      case 15 => Wait
      case _ => if i < 3 then First else Blocked;
    var second := if i == 0 then First else if i == 1 then Holiday else Away;
    State(deliveries, count, owner, 0, santa, [first, second], [count, 0], 0)
  }

  lemma StrayFollows(deliveries: nat, i: nat)
    requires i < 18
    ensures Follows(StrayState(deliveries, i), StrayEvents()[i], StrayState(deliveries, i + 1))
  {
  }

  // So with spurious wake-ups of a reindeer Santa delivers to a herd that is not there: the counter
  // says that both have arrived, and one is still away and has never arrived.
  lemma StrayWakeUpMisleadsSanta(deliveries: nat) returns (ss: seq<State>)
    ensures Trace(StrayEvents(), ss) && ss[0] == Init(2, deliveries)
    ensures var s := ss[18];
      s.santa.Deliver? && s.count == 2 && |s.herd| == 2 && s.herd[1].Away? && s.arrivals == [2, 0]
  {
    ss := seq(19, i requires 0 <= i => StrayState(deliveries, i));
    forall i | 0 <= i < 18 ensures Follows(ss[i], StrayEvents()[i], ss[i + 1]) {
      StrayFollows(deliveries, i);
    }
  }

  // ---------------------------------------------------------------- when Santa is not misled

  // Santa has not yet accepted the herd of this round, or is delivering to it.
  predicate Collecting(s: State) {
    s.santa.Lock? || s.santa.Test? || s.santa.Sleep? || s.santa.Asleep? || s.santa.Roused? || s.santa.Deliver?
  }

  ghost predicate Whole(s: State) {
    s.santa.Deliver? ==>
      |s.arrivals| == |s.herd| &&
      forall j :: 0 <= j < |s.herd| ==> s.herd[j].Blocked? && s.arrivals[j] == s.delivered + 1
  }

  // Santa has made his last delivery.
  predicate Over(s: State) {
    s.santa.Cancel? || (s.round + 1 == s.deliveries && (s.santa.Reset? || s.santa.Broadcast? || s.santa.Unlock?))
  }

  // The state as it would be had nobody been woken yet.
  function Calm(s: State): State {
    s.(herd := seq(|s.herd|, j requires 0 <= j < |s.herd| => if s.herd[j].Woken? then Blocked else s.herd[j]))
  }

  // What holds as long as nobody is woken while Santa collects. Between reset and broadcast a
  // wake-up only comes a little early.
  ghost predicate Sound(s: State) {
    if Over(s) then true
    else if s.santa.Reset? || s.santa.Broadcast? then
      Inv(Calm(s)) && forall j :: 0 <= j < |s.herd| ==> s.herd[j].Blocked? || s.herd[j].Woken?
    else Inv(s) && (s.santa.Unlock? ==> forall j :: 0 <= j < |s.herd| ==> !s.herd[j].Blocked?)
  }

  lemma OverForGood(s: State, e: Event, s': State)
    requires Over(s) && Follows(s, e, s')
    ensures Over(s')
  {
  }

  // Outside the stretch between delivery and broadcast a regular step is covered by the invariant.
  lemma RegularKeepsSound(s: State, l: Label, s': State)
    requires |s.arrivals| == |s.herd| && Sound(s) && Enabled(s, l) && Step(s, l) == s'
    requires !Over(s) && !s.santa.Reset? && !s.santa.Broadcast?
    ensures Sound(s')
  {
    StepKeepsInv(s, l);
    if s'.santa.Reset? {
      FullCount(s');
      assert Calm(s').herd == s'.herd;
    }
  }

  // Before the broadcast a woken reindeer cannot get the mutex, and the broadcast wakes the others.
  lemma EarlyKeepsSound(s: State, e: Event, s': State)
    requires Sound(s) && Follows(s, e, s') && !Over(s) && (s.santa.Reset? || s.santa.Broadcast?)
    ensures Sound(s')
  {
    var t := Calm(s);
    match e
    case Regular(Santa) =>
      StepKeepsInv(t, Label.Santa);
      if s.santa.Reset? {
        assert Calm(s') == SantaMove(t);
      } else {
        assert s'.herd == SantaMove(t).herd;
      }
    case Stray(j) => assert Calm(s') == t;
    case _ =>
  }

  lemma StepKeepsSound(s: State, e: Event, s': State)
    requires Sound(s) && Follows(s, e, s') && (e.Stray? ==> !Collecting(s))
    ensures Sound(s')
  {
    if Over(s) {
      OverForGood(s, e, s');
    } else if s.santa.Reset? || s.santa.Broadcast? {
      EarlyKeepsSound(s, e, s');
    } else {
      // at Unlock the broadcast has left nobody blocked
      match e
      case Regular(l) => RegularKeepsSound(s, l, s');
      case Stray(j) => assert false;
    }
  }

  lemma {:induction false} SoundUntil(n: nat, deliveries: nat, es: seq<Event>, ss: seq<State>, k: nat)
    requires n > 0 && deliveries > 0 && Trace(es, ss) && ss[0] == Init(n, deliveries) && k <= |es|
    requires forall i :: 0 <= i < k && es[i].Stray? ==> !Collecting(ss[i])
    ensures Sound(ss[k])
  {
    if k == 0 {
      InitInv(n, deliveries);
    } else {
      SoundUntil(n, deliveries, es, ss, k - 1);
      assert Follows(ss[k - 1], es[k - 1], ss[k - 1 + 1]);
      StepKeepsSound(ss[k - 1], es[k - 1], ss[k]);
    }
  }

  lemma SoundIsWhole(s: State)
    requires Sound(s)
    ensures Whole(s)
  {
    if s.santa.Deliver? {
      forall j | 0 <= j < |s.herd| ensures s.herd[j].Blocked? && s.arrivals[j] == s.delivered + 1 {
        DeliversToWholeHerd(s, j);
      }
    }
  }

  // ---------------------------------------------------------------- when Santa is misled

  // Reindeer j has been sent off in this round after it had arrived, and may be back too early.
  predicate Tainted(s: State, j: nat) {
    && j < |s.herd| == |s.arrivals|
    && (s.arrivals[j] >= s.delivered + 2 ||
        (s.arrivals[j] >= s.delivered + 1 &&
         (s.herd[j].Woken? || s.herd[j].Holiday? || s.herd[j].Away? || s.herd[j].Increment?)))
  }

  lemma TaintStays(s: State, e: Event, s': State, j: nat)
    requires Tainted(s, j) && Collecting(s) && !s.santa.Deliver? && Follows(s, e, s')
    ensures Tainted(s', j) && Collecting(s')
  {
  }

  // Tainted, a reindeer stays so until Santa delivers.
  lemma {:induction false} TaintShows(es: seq<Event>, ss: seq<State>, i: nat, j: nat, end: nat) returns (k: nat)
    requires Trace(es, ss) && i <= end <= |es| && Tainted(ss[i], j) && Collecting(ss[i]) && ss[end].santa.Deliver?
    ensures k <= end && !Whole(ss[k])
    decreases end - i
  {
    if ss[i].santa.Deliver? {
      k := i;
    } else {
      assert Follows(ss[i], es[i], ss[i + 1]);
      TaintStays(ss[i], es[i], ss[i + 1], j);
      k := TaintShows(es, ss, i + 1, j, end);
    }
  }

  lemma StrayTaints(s: State, j: nat, s': State)
    requires Sound(s) && Collecting(s) && Follows(s, Stray(j), s')
    ensures Tainted(s', j) && Collecting(s')
  {
  }

  // The first reindeer woken while Santa collects.
  lemma {:induction false} FirstStray(es: seq<Event>, ss: seq<State>, k: nat) returns (i: nat)
    requires Trace(es, ss) && k <= |es|
    requires exists i :: 0 <= i < k && es[i].Stray? && Collecting(ss[i])
    ensures i < k && es[i].Stray? && Collecting(ss[i])
    ensures forall h :: 0 <= h < i && es[h].Stray? ==> !Collecting(ss[h])
  {
    if h :| 0 <= h < k - 1 && es[h].Stray? && Collecting(ss[h]) {
      i := FirstStray(es, ss, k - 1);
    } else {
      i := k - 1;
    }
  }

  lemma StrayMisleads(n: nat, deliveries: nat, es: seq<Event>, ss: seq<State>, end: nat) returns (k: nat)
    requires n > 0 && deliveries > 0 && Trace(es, ss) && ss[0] == Init(n, deliveries)
    requires end <= |es| && ss[end].santa.Deliver?
    requires exists i :: 0 <= i < end && es[i].Stray? && Collecting(ss[i])
    ensures k <= end && !Whole(ss[k])
  {
    var i := FirstStray(es, ss, end);
    SoundUntil(n, deliveries, es, ss, i);
    assert Follows(ss[i], es[i], ss[i + 1]);
    StrayTaints(ss[i], es[i].j, ss[i + 1]);
    k := TaintShows(es, ss, i + 1, es[i].j, end);
  }

  // ---------------------------------------------------------------- the exact condition

  // A wake-up while Santa was collecting, before some point of the run.
  ghost predicate StrayBefore(es: seq<Event>, ss: seq<State>, k: nat)
    requires Trace(es, ss) && k <= |es|
  {
    exists i :: 0 <= i < k && es[i].Stray? && Collecting(ss[i])
  }

  // In every run, Santa only ever delivers to a whole herd if and only if none of his deliveries
  // comes after a wake-up of a reindeer that fell while he was collecting.
  lemma AlwaysWholeExactlyWhen(n: nat, deliveries: nat, es: seq<Event>, ss: seq<State>)
    requires n > 0 && deliveries > 0 && Trace(es, ss) && ss[0] == Init(n, deliveries)
    ensures (forall k :: 0 <= k <= |es| ==> Whole(ss[k])) <==>
            (forall k :: 0 <= k <= |es| && ss[k].santa.Deliver? ==> !StrayBefore(es, ss, k))
  {
    forall k | 0 <= k <= |es| && !StrayBefore(es, ss, k) ensures Whole(ss[k]) {
      SoundUntil(n, deliveries, es, ss, k);
      SoundIsWhole(ss[k]);
    }
    forall k | 0 <= k <= |es| && ss[k].santa.Deliver? && StrayBefore(es, ss, k)
      ensures exists h :: 0 <= h <= |es| && !Whole(ss[h])
    {
      var h := StrayMisleads(n, deliveries, es, ss, k);
    }
  }

  // In a run up to a delivery: if and only if no reindeer was woken while he was collecting. A
  // wake-up between the reset of the counter and the broadcast does no harm.
  lemma WholeExactlyWhen(n: nat, deliveries: nat, es: seq<Event>, ss: seq<State>)
    requires n > 0 && deliveries > 0 && Trace(es, ss) && ss[0] == Init(n, deliveries) && ss[|es|].santa.Deliver?
    ensures (forall i :: 0 <= i <= |es| ==> Whole(ss[i])) <==>
            (forall i :: 0 <= i < |es| && es[i].Stray? ==> !Collecting(ss[i]))
  {
    AlwaysWholeExactlyWhen(n, deliveries, es, ss);
    if !StrayBefore(es, ss, |es|) {
      forall k | 0 <= k <= |es| ensures !StrayBefore(es, ss, k) {
      }
    }
  }
}
