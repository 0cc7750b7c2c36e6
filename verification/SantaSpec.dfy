/** The Santa and reindeer monitor of cw10 as a state machine: N reindeer threads and Santa, one
    mutex, two condition variables and a shared counter, one step per statement between two
    accesses to shared state. A condition wait releases the mutex and blocks in one step; being
    woken and getting the mutex back are separate steps, so any thread may run in between.
    Spurious wake-ups of Santa are a step of their own; a reindeer's wait is taken to return only
    after the broadcast. `arrivals` and `delivered` are histories that no step reads. */
module SantaSpec {
  import opened Totals

  datatype Owner = Nobody | SantaOwns | ReindeerOwns(j: nat)

  datatype Rpc = First | Holiday | Away | Increment | Check | Signal | Wait | Blocked | Woken
  datatype Spc = Lock | Test | Sleep | Asleep | Roused | Deliver | Reset | Broadcast | Unlock | Cancel

  datatype State = State(
    deliveries: nat, count: nat, owner: Owner, round: nat, santa: Spc, herd: seq<Rpc>,
    arrivals: seq<nat>, delivered: nat)

  datatype Label = Santa | Spurious | Reindeer(j: nat)

  function Init(n: nat, deliveries: nat): State {
    State(deliveries, 0, Nobody, 0, Lock, seq(n, _ => First), seq(n, _ => 0), 0)
  }

  // ---------------------------------------------------------------- steps

  predicate Enabled(s: State, l: Label) {
    match l
    case Santa =>
      (match s.santa
       case Lock => s.owner.Nobody?
       case Roused => s.owner.Nobody?
       case Asleep => false
       case Cancel => false
       case _ => true)
    case Spurious => s.santa.Asleep?
    case Reindeer(j) =>
      j < |s.herd| &&
      (match s.herd[j]
       case First => s.owner.Nobody?
       case Away => s.owner.Nobody?
       case Woken => s.owner.Nobody?
       case Blocked => false
       case _ => true)
  }

  function Release(r: Rpc): Rpc { if r.Blocked? then Woken else r }

  function SantaMove(s: State): State
    requires Enabled(s, Santa)
  {
    match s.santa
    case Lock => s.(owner := SantaOwns, santa := Test)
    case Test => s.(santa := if s.count < |s.herd| then Sleep else Deliver)
    case Sleep => s.(owner := Nobody, santa := Asleep)
    case Roused => s.(owner := SantaOwns, santa := Test)
    case Deliver => s.(santa := Reset)
    case Reset => s.(count := 0, delivered := s.delivered + 1, santa := Broadcast)
    case Broadcast =>
      if s.round + 1 != s.deliveries then
        s.(herd := seq(|s.herd|, i requires 0 <= i < |s.herd| => Release(s.herd[i])), santa := Unlock)
      else s.(santa := Unlock)
    case Unlock =>
      s.(owner := Nobody, round := s.round + 1, santa := if s.round + 1 < s.deliveries then Lock else Cancel)
  }

  function ReindeerMove(s: State, j: nat): State
    requires |s.arrivals| == |s.herd| && Enabled(s, Reindeer(j))
  {
    match s.herd[j]
    case First => s.(owner := ReindeerOwns(j), herd := s.herd[j := Holiday])
    case Holiday => s.(owner := Nobody, herd := s.herd[j := Away])
    case Away => s.(owner := ReindeerOwns(j), herd := s.herd[j := Increment])
    case Increment =>
      s.(count := s.count + 1, herd := s.herd[j := Check], arrivals := s.arrivals[j := s.arrivals[j] + 1])
    case Check => s.(herd := s.herd[j := if s.count == |s.herd| then Signal else Wait])
    case Signal =>
      s.(herd := s.herd[j := Wait], santa := if s.santa.Asleep? then Roused else s.santa)
    case Wait => s.(owner := Nobody, herd := s.herd[j := Blocked])
    case Woken => s.(owner := ReindeerOwns(j), herd := s.herd[j := Holiday])
  }

  function Step(s: State, l: Label): State
    requires |s.arrivals| == |s.herd| && Enabled(s, l)
  {
    match l
    case Santa => SantaMove(s)
    case Spurious => s.(santa := Roused)
    case Reindeer(j) => ReindeerMove(s, j)
  }

  // ---------------------------------------------------------------- the inductive invariant

  predicate InMonitor(r: Rpc) { r.Holiday? || r.Increment? || r.Check? || r.Signal? || r.Wait? }
  predicate SantaInMonitor(p: Spc) {
    p.Test? || p.Sleep? || p.Deliver? || p.Reset? || p.Broadcast? || p.Unlock?
  }

  // Counted in, and not yet let go: between the increment and the broadcast.
  function Arrived(r: Rpc): nat { if r.Check? || r.Signal? || r.Wait? || r.Blocked? then 1 else 0 }

  // The delivery of this round is made but the reindeer are still blocked: until the broadcast,
  // and for good after the last delivery.
  predicate Settled(s: State) {
    s.santa.Broadcast? || (s.santa.Unlock? && s.round + 1 == s.deliveries) || s.santa.Cancel?
  }

  ghost predicate Ownership(s: State) {
    && (s.owner.SantaOwns? <==> SantaInMonitor(s.santa))
    && (forall j :: 0 <= j < |s.herd| ==> (s.owner == ReindeerOwns(j) <==> InMonitor(s.herd[j])))
    && (s.owner.ReindeerOwns? ==> s.owner.j < |s.herd|)
  }

  ghost predicate Counting(s: State) {
    if Settled(s) then s.count == 0 && forall j :: 0 <= j < |s.herd| ==> s.herd[j] == Blocked
    else s.count == Total(s.herd, Arrived)
  }

  ghost predicate Rounds(s: State) {
    && |s.herd| > 0 && s.deliveries > 0 && |s.arrivals| == |s.herd|
    && (s.santa.Cancel? <==> s.round == s.deliveries) && s.round <= s.deliveries
    && s.delivered == s.round + (if s.santa.Broadcast? || s.santa.Unlock? then 1 else 0)
    && (forall j :: 0 <= j < |s.herd| ==>
          s.arrivals[j] == s.delivered + (if Settled(s) then 0 else Arrived(s.herd[j])))
  }

  ghost predicate Guards(s: State) {
    && (s.santa.Sleep? ==> s.count < |s.herd|)
    && (s.santa.Deliver? || s.santa.Reset? ==> s.count == |s.herd|)
    && (forall j :: 0 <= j < |s.herd| && s.herd[j].Signal? ==> s.count == |s.herd|)
    // No lost wake-up: if everybody is in and Santa sleeps on, the last one in has yet to signal.
    && (s.santa.Asleep? && s.count == |s.herd| ==>
          exists j :: 0 <= j < |s.herd| && (s.herd[j].Check? || s.herd[j].Signal?))
  }

  ghost predicate Inv(s: State) {
    Ownership(s) && Counting(s) && Rounds(s) && Guards(s)
  }

  // ---------------------------------------------------------------- proofs

  lemma InitInv(n: nat, deliveries: nat)
    requires n > 0 && deliveries > 0
    ensures Inv(Init(n, deliveries))
  {
    TotalUniform(Init(n, deliveries).herd, 0, Arrived);
  }

  // Once the counter says N, everybody has arrived, and if nobody else is in the monitor they
  // are all blocked.
  lemma FullCount(s: State)
    requires Ownership(s) && Counting(s) && s.count == |s.herd| > 0
    ensures forall j :: 0 <= j < |s.herd| ==> Arrived(s.herd[j]) == 1
    ensures !s.owner.ReindeerOwns? ==> forall j :: 0 <= j < |s.herd| ==> s.herd[j].Blocked?
  {
    TotalAtMost(s.herd, 1, Arrived);
  }

  lemma SantaKeepsInv(s: State)
    requires Inv(s) && Enabled(s, Santa)
    ensures Inv(SantaMove(s))
  {
    var s' := SantaMove(s);
    TotalAtMost(s.herd, 1, Arrived);
    if s.santa.Reset? {
      FullCount(s);
    } else if s.santa.Broadcast? && s.round + 1 != s.deliveries {
      TotalUniform(s'.herd, 0, Arrived);
    }
  }

  lemma ReindeerKeepsOwnership(s: State, j: nat)
    requires Ownership(s) && |s.arrivals| == |s.herd| && Enabled(s, Reindeer(j))
    ensures Ownership(ReindeerMove(s, j))
  {
  }

  lemma ReindeerKeepsGuards(s: State, j: nat)
    requires Ownership(s) && Counting(s) && Guards(s) && |s.arrivals| == |s.herd| && Enabled(s, Reindeer(j))
    requires !Settled(s)
    ensures Guards(ReindeerMove(s, j))
  {
    if s.herd[j].Increment? || s.herd[j].Check? {
      var s' := ReindeerMove(s, j);
      assert s'.herd[j].Check? || s'.herd[j].Signal? || s'.herd[j].Wait?;
    }
  }

  lemma ReindeerKeepsCounting(s: State, j: nat)
    requires Counting(s) && Rounds(s) && Enabled(s, Reindeer(j)) && !Settled(s)
    ensures Counting(ReindeerMove(s, j)) && Rounds(ReindeerMove(s, j))
  {
    TotalUpdate(s.herd, j, ReindeerMove(s, j).herd[j], Arrived);
  }

  lemma ReindeerKeepsInv(s: State, j: nat)
    requires Inv(s) && Enabled(s, Reindeer(j))
    ensures Inv(ReindeerMove(s, j))
  {
    assert !Settled(s);
    ReindeerKeepsOwnership(s, j);
    ReindeerKeepsCounting(s, j);
    ReindeerKeepsGuards(s, j);
  }

  lemma StepKeepsInv(s: State, l: Label)
    requires Inv(s) && Enabled(s, l)
    ensures Inv(Step(s, l))
  {
    match l
    case Santa => SantaKeepsInv(s);
    case Spurious =>
    case Reindeer(j) => ReindeerKeepsInv(s, j);
  }
}
