/** What every interleaving of Santa and the reindeer satisfies: Santa delivers only to a full and
    waiting herd, nobody is counted twice in a round, no wake-up is lost, and the run must end,
    after exactly the planned deliveries, with the whole herd blocked. */
module SantaRuns {
  import opened Basics
  import opened Totals
  import opened SantaSpec

  function Exec(n: nat, deliveries: nat, ls: seq<Label>): (r: Option<State>)
    requires n > 0 && deliveries > 0
    ensures r.Some? ==> Inv(r.value) && |r.value.herd| == n && r.value.deliveries == deliveries
  {
    if ls == [] then
      InitInv(n, deliveries);
      Some(Init(n, deliveries))
    else
      match Exec(n, deliveries, ls[..|ls| - 1])
      case None => None
      case Some(s) =>
        if Enabled(s, ls[|ls| - 1]) then
          StepKeepsInv(s, ls[|ls| - 1]);
          Some(Step(s, ls[|ls| - 1]))
        else None
  }

  // ---------------------------------------------------------------- safety

  lemma AtMostOneInMonitor(s: State)
    requires Inv(s)
    ensures forall i, j :: 0 <= i < j < |s.herd| ==> !(InMonitor(s.herd[i]) && InMonitor(s.herd[j]))
    ensures SantaInMonitor(s.santa) ==> forall j :: 0 <= j < |s.herd| ==> !InMonitor(s.herd[j])
    ensures s.owner.Nobody? <==> !SantaInMonitor(s.santa) && forall j :: 0 <= j < |s.herd| ==> !InMonitor(s.herd[j])
  {
    if s.owner.ReindeerOwns? {
      assert InMonitor(s.herd[s.owner.j]);
    }
  }

  // Santa hands out presents only while every reindeer is blocked, each having come exactly once
  // more than there were deliveries.
  lemma DeliversToWholeHerd(s: State, j: nat)
    requires Inv(s) && (s.santa.Deliver? || s.santa.Reset?) && j < |s.herd|
    ensures s.herd[j].Blocked? && s.arrivals[j] == s.delivered + 1
  {
    FullCount(s);
  }

  function Id(x: nat): nat { x }

  lemma {:induction false} SumOfArrivals(arrivals: seq<nat>, herd: seq<Rpc>, d: nat)
    requires |arrivals| == |herd|
    requires forall j :: 0 <= j < |herd| ==> arrivals[j] == d + Arrived(herd[j])
    ensures Total(arrivals, Id) == |herd| * d + Total(herd, Arrived)
  {
    if herd != [] {
      SumOfArrivals(arrivals[..|herd| - 1], herd[..|herd| - 1], d);
    }
  }

  // The counter is the number of arrivals not yet paid for by a delivery.
  lemma ArrivalsAccountForCounter(s: State)
    requires Inv(s)
    ensures Total(s.arrivals, Id) == |s.herd| * s.delivered + s.count
    ensures forall j :: 0 <= j < |s.herd| ==> s.delivered <= s.arrivals[j] <= s.delivered + 1
  {
    if Settled(s) {
      TotalUniform(s.arrivals, s.delivered, Id);
    } else {
      SumOfArrivals(s.arrivals, s.herd, s.delivered);
    }
  }

  // ---------------------------------------------------------------- nobody skips a leg

  // How often reindeer j has gone on from a program point, and Santa from one of his.
  function Passed(n: nat, deliveries: nat, ls: seq<Label>, j: nat, at: Rpc): nat
    requires n > 0 && deliveries > 0 && j < n
  {
    if ls == [] || Exec(n, deliveries, ls).None? then 0
    else
      Passed(n, deliveries, ls[..|ls| - 1], j, at)
      + (if ls[|ls| - 1] == Reindeer(j) && Exec(n, deliveries, ls[..|ls| - 1]).value.herd[j] == at then 1 else 0)
  }

  function SantaPassed(n: nat, deliveries: nat, ls: seq<Label>, at: Spc): nat
    requires n > 0 && deliveries > 0
  {
    if ls == [] || Exec(n, deliveries, ls).None? then 0
    else
      SantaPassed(n, deliveries, ls[..|ls| - 1], at)
      + (if ls[|ls| - 1] == Santa && Exec(n, deliveries, ls[..|ls| - 1]).value.santa == at then 1 else 0)
  }

  // Legs of the current journey that are behind a reindeer that has not been counted in yet.
  function Flown(r: Rpc): nat { if r.Away? || r.Increment? then 1 else 0 }
  function Rested(r: Rpc): nat { if r.Increment? then 1 else 0 }

  lemma StepIsOneLeg(s: State, l: Label, j: nat)
    requires Inv(s) && Enabled(s, l) && j < |s.herd|
    ensures |Step(s, l).herd| == |Step(s, l).arrivals| == |s.herd|
    ensures var s' := Step(s, l);
      && s'.arrivals[j] + Flown(s'.herd[j])
         == s.arrivals[j] + Flown(s.herd[j]) + (if l == Reindeer(j) && s.herd[j].Holiday? then 1 else 0)
      && s'.arrivals[j] + Rested(s'.herd[j])
         == s.arrivals[j] + Rested(s.herd[j]) + (if l == Reindeer(j) && s.herd[j].Away? then 1 else 0)
      && s'.arrivals[j] == s.arrivals[j] + (if l == Reindeer(j) && s.herd[j].Increment? then 1 else 0)
  {
  }

  // Every arrival comes after a departure for the holiday and after a return from it of its own:
  // nobody is counted in twice for one holiday.
  lemma {:induction false} EveryArrivalHasItsHoliday(n: nat, deliveries: nat, ls: seq<Label>, j: nat)
    requires n > 0 && deliveries > 0 && j < n
    ensures match Exec(n, deliveries, ls)
      case None => true
      case Some(s) =>
        && Passed(n, deliveries, ls, j, Holiday) == s.arrivals[j] + Flown(s.herd[j])
        && Passed(n, deliveries, ls, j, Away) == s.arrivals[j] + Rested(s.herd[j])
        && Passed(n, deliveries, ls, j, Increment) == s.arrivals[j]
  {
    if ls != [] && Exec(n, deliveries, ls).Some? {
      EveryArrivalHasItsHoliday(n, deliveries, ls[..|ls| - 1], j);
      StepIsOneLeg(Exec(n, deliveries, ls[..|ls| - 1]).value, ls[|ls| - 1], j);
    }
  }

  function Unbooked(p: Spc): nat { if p.Reset? then 1 else 0 }

  lemma StepIsOneDelivery(s: State, l: Label)
    requires |s.arrivals| == |s.herd| && Enabled(s, l)
    ensures var s' := Step(s, l);
      s'.delivered + Unbooked(s'.santa)
      == s.delivered + Unbooked(s.santa) + (if l == Santa && s.santa.Deliver? then 1 else 0)
  {
  }

  // What is counted as a delivery has been made.
  lemma {:induction false} DeliveriesAreMade(n: nat, deliveries: nat, ls: seq<Label>)
    requires n > 0 && deliveries > 0
    ensures match Exec(n, deliveries, ls)
      case None => true
      case Some(s) => SantaPassed(n, deliveries, ls, Deliver) == s.delivered + Unbooked(s.santa)
  {
    if ls != [] && Exec(n, deliveries, ls).Some? {
      DeliveriesAreMade(n, deliveries, ls[..|ls| - 1]);
      StepIsOneDelivery(Exec(n, deliveries, ls[..|ls| - 1]).value, ls[|ls| - 1]);
    }
  }

  // ---------------------------------------------------------------- no lost wake-up, no deadlock

  // Santa sleeping unsignalled while N are counted in means the N-th is still on its way to signal.
  lemma NoLostWakeUp(s: State)
    requires Inv(s) && s.santa.Asleep?
    ensures s.count < |s.herd| ||
            exists j :: 0 <= j < |s.herd| && s.owner == ReindeerOwns(j) && (s.herd[j].Check? || s.herd[j].Signal?)
  {
    TotalAtMost(s.herd, 1, Arrived);
    if s.count == |s.herd| {
      var j :| 0 <= j < |s.herd| && (s.herd[j].Check? || s.herd[j].Signal?);
      assert InMonitor(s.herd[j]);
    }
  }

  ghost predicate Stuck(s: State) { forall l :: l != Spurious ==> !Enabled(s, l) }

  // A reindeer stands still exactly when it is blocked in its wait, or wants the mutex while some
  // other thread is in the monitor; Santa likewise, and once he is done.
  lemma ReindeerWaitsExactlyWhen(s: State, j: nat)
    requires Inv(s) && j < |s.herd|
    ensures !Enabled(s, Reindeer(j)) <==>
      s.herd[j].Blocked? ||
      ((s.herd[j].First? || s.herd[j].Away? || s.herd[j].Woken?) &&
       (SantaInMonitor(s.santa) || exists i :: 0 <= i < |s.herd| && i != j && InMonitor(s.herd[i])))
  {
    if s.owner.ReindeerOwns? {
      assert InMonitor(s.herd[s.owner.j]);
    }
  }

  lemma SantaWaitsExactlyWhen(s: State)
    requires Inv(s)
    ensures !Enabled(s, Santa) <==>
      s.santa.Asleep? || s.santa.Cancel? ||
      ((s.santa.Lock? || s.santa.Roused?) && exists i :: 0 <= i < |s.herd| && InMonitor(s.herd[i]))
  {
    if s.owner.ReindeerOwns? {
      assert InMonitor(s.herd[s.owner.j]);
    }
  }

  // A thread that can step, found without relying on spurious wake-ups.
  lemma SomebodyCanStep(s: State) returns (l: Label)
    requires Inv(s) && !s.santa.Cancel?
    ensures l != Spurious && Enabled(s, l)
  {
    match s.owner
    case SantaOwns => l := Santa;
    case ReindeerOwns(j) => l := Reindeer(j); assert InMonitor(s.herd[j]);
    case Nobody =>
      if !s.santa.Asleep? {
        l := Santa;
      } else {
        NoLostWakeUp(s);
        TotalAtMost(s.herd, 1, Arrived);
        if forall j :: 0 <= j < |s.herd| ==> Arrived(s.herd[j]) == 1 {
          TotalUniform(s.herd, 1, Arrived);
          assert false;
        }
        var j :| 0 <= j < |s.herd| && Arrived(s.herd[j]) == 0;
        assert !InMonitor(s.herd[j]);
        l := Reindeer(j);
      }
  }

  // The only states from which nothing can happen are the intended final ones.
  lemma StuckExactlyWhenDone(s: State)
    requires Inv(s)
    ensures Stuck(s) <==> s.santa.Cancel?
    ensures s.santa.Cancel? ==>
      && s.delivered == s.deliveries
      && forall j :: 0 <= j < |s.herd| ==> s.herd[j].Blocked? && s.arrivals[j] == s.deliveries
  {
    if !s.santa.Cancel? {
      var l := SomebodyCanStep(s);
    }
  }

  // ---------------------------------------------------------------- termination

  // Steps a reindeer has left before it blocks again.
  function Legs(r: Rpc): nat {
    match r
    case First => 7
    case Woken => 7
    case Holiday => 6
    case Away => 5
    case Increment => 4
    case Check => 3
    case Signal => 2
    case Wait => 1
    case Blocked => 0
  }

  // Steps Santa has left in this round. Testing a counter below N sends him round the wait once
  // more; with the counter at N he goes straight through.
  function Rank(s: State): nat {
    match s.santa
    case Lock => 10
    case Test => if s.count < |s.herd| then 9 else 5
    case Sleep => 8
    case Asleep => 7
    case Roused => if s.count < |s.herd| then 10 else 6
    case Deliver => 4
    case Reset => 3
    case Broadcast => 2
    case Unlock => 1
    case Cancel => 0
  }

  // A later round costs Santa 10 steps, and the broadcast before it costs each reindeer 7.
  function RoundsCost(k: nat, n: nat): nat {
    if k == 0 then 0 else RoundsCost(k - 1, n) + 10 + 7 * n
  }

  function ToCome(s: State): nat {
    if s.deliveries <= s.round + 1 then 0
    else
      var left := s.deliveries - 1 - s.round;
      if s.santa.Unlock? then RoundsCost(left - 1, |s.herd|) + 10 else RoundsCost(left, |s.herd|)
  }

  function Measure(s: State): nat { Total(s.herd, Legs) + Rank(s) + ToCome(s) }

  lemma {:induction false} RoundsCostIs(k: nat, n: nat)
    ensures RoundsCost(k, n) == k * (10 + 7 * n)
  {
    if k > 0 {
      RoundsCostIs(k - 1, n);
      assert k * (10 + 7 * n) == (k - 1) * (10 + 7 * n) + (10 + 7 * n);
    }
  }

  // Santa's own part of the measure, and what the broadcast takes from it for the reindeer.
  lemma RankDescends(s: State)
    requires Inv(s) && Enabled(s, Santa)
    ensures var s' := SantaMove(s);
      if s.santa.Broadcast? && s.round + 1 != s.deliveries then
        Rank(s') + ToCome(s') + 7 * |s.herd| < Rank(s) + ToCome(s)
      else s'.herd == s.herd && Rank(s') + ToCome(s') < Rank(s) + ToCome(s)
  {
    TotalAtMost(s.herd, 1, Arrived);
  }

  lemma SantaDescends(s: State)
    requires Inv(s) && Enabled(s, Santa)
    ensures Measure(SantaMove(s)) < Measure(s)
  {
    RankDescends(s);
    if s.santa.Broadcast? && s.round + 1 != s.deliveries {
      TotalUniform(s.herd, 0, Legs);
      TotalUniform(SantaMove(s).herd, 7, Legs);
    }
  }

  lemma ReindeerDescends(s: State, j: nat)
    requires Inv(s) && Enabled(s, Reindeer(j))
    ensures Measure(ReindeerMove(s, j)) < Measure(s)
  {
    TotalUpdate(s.herd, j, ReindeerMove(s, j).herd[j], Legs);
  }

  // Every step brings the end nearer; a spurious wake-up of Santa pushes it back by at most 3.
  lemma StepDescends(s: State, l: Label)
    requires Inv(s) && Enabled(s, l)
    ensures l != Spurious ==> Measure(Step(s, l)) < Measure(s)
    ensures l == Spurious ==> Measure(Step(s, l)) <= Measure(s) + 3
  {
    match l
    case Santa => SantaDescends(s);
    case Spurious =>
    case Reindeer(j) => ReindeerDescends(s, j);
  }

  function Spuriouses(ls: seq<Label>): nat {
    if ls == [] then 0 else Spuriouses(ls[..|ls| - 1]) + (if ls[|ls| - 1] == Spurious then 1 else 0)
  }

  lemma {:induction false} RunLengthIsBounded(n: nat, deliveries: nat, ls: seq<Label>)
    requires n > 0 && deliveries > 0
    ensures match Exec(n, deliveries, ls)
      case None => true
      case Some(s) => |ls| + Measure(s) <= deliveries * (10 + 7 * n) + 4 * Spuriouses(ls)
  {
    if ls == [] {
      TotalUniform(Init(n, deliveries).herd, 7, Legs);
      RoundsCostIs(deliveries, n);
    } else if Exec(n, deliveries, ls).Some? {
      var front := ls[..|ls| - 1];
      RunLengthIsBounded(n, deliveries, front);
      StepDescends(Exec(n, deliveries, front).value, ls[|ls| - 1]);
    }
  }

  // A run without spurious wake-ups has at most T(10 + 7N) steps; one that cannot be continued
  // has made exactly T deliveries, with every reindeer come T times and blocked again.
  lemma MaximalRunsEndWell(n: nat, deliveries: nat, ls: seq<Label>)
    requires n > 0 && deliveries > 0
    ensures match Exec(n, deliveries, ls)
      case None => true
      case Some(s) =>
        && |ls| <= deliveries * (10 + 7 * n) + 4 * Spuriouses(ls)
        && (Stuck(s) ==>
              && s.santa.Cancel? && s.delivered == deliveries
              && Total(s.arrivals, Id) == n * deliveries
              && forall j :: 0 <= j < n ==> s.herd[j].Blocked? && s.arrivals[j] == deliveries)
  {
    RunLengthIsBounded(n, deliveries, ls);
    if Exec(n, deliveries, ls).Some? {
      StuckExactlyWhenDone(Exec(n, deliveries, ls).value);
      ArrivalsAccountForCounter(Exec(n, deliveries, ls).value);
    }
  }

  lemma OneStepNearer(n: nat, deliveries: nat, ls: seq<Label>) returns (l: Label)
    requires n > 0 && deliveries > 0 && Exec(n, deliveries, ls).Some? && !Exec(n, deliveries, ls).value.santa.Cancel?
    ensures Exec(n, deliveries, ls + [l]).Some?
    ensures Measure(Exec(n, deliveries, ls + [l]).value) < Measure(Exec(n, deliveries, ls).value)
    ensures Spuriouses(ls + [l]) == Spuriouses(ls)
  {
    l := SomebodyCanStep(Exec(n, deliveries, ls).value);
    StepDescends(Exec(n, deliveries, ls).value, l);
    assert (ls + [l])[..|ls|] == ls;
  }

  // From wherever a run has got to, it can be brought to its end.
  lemma {:induction false} EveryRunCanFinish(n: nat, deliveries: nat, ls: seq<Label>) returns (whole: seq<Label>)
    requires n > 0 && deliveries > 0 && Exec(n, deliveries, ls).Some?
    ensures ls <= whole && Spuriouses(whole) == Spuriouses(ls)
    ensures Exec(n, deliveries, whole).Some? && Exec(n, deliveries, whole).value.santa.Cancel?
    decreases Measure(Exec(n, deliveries, ls).value)
  {
    if Exec(n, deliveries, ls).value.santa.Cancel? {
      whole := ls;
    } else {
      var l := OneStepNearer(n, deliveries, ls);
      whole := EveryRunCanFinish(n, deliveries, ls + [l]);
    }
  }
}
