/** The monitor as cw10 keeps it: global variables updated in place by whichever thread holds the
    mutex, one statement at a time. */
module Santa {
  import opened SantaSpec

  class Monitor {
    const deliveries: nat   // TOTAL_DELIVARIES
    var count: nat          // reindeer_ready_count
    var owner: Owner        // reindeer_ready_count_mutex
    var round: nat          // Santa's loop variable
    var santa: Spc
    var herd: seq<Rpc>      // one entry for each of the REINDEER_COUNT threads
    ghost var arrivals: seq<nat>
    ghost var delivered: nat

    ghost function View(): State
      reads this
    {
      State(deliveries, count, owner, round, santa, herd, arrivals, delivered)
    }

    ghost predicate Valid()
      reads this
    {
      Inv(View())
    }

    constructor (n: nat, deliveries: nat)
      requires n > 0 && deliveries > 0
      ensures Valid() && View() == Init(n, deliveries)
    {
      this.deliveries := deliveries;
      count, owner, round, santa := 0, Nobody, 0, Lock;
      herd := seq(n, _ => First);
      arrivals, delivered := seq(n, _ => 0), 0;
      new;
      InitInv(n, deliveries);
    }

    // pthread_cond_broadcast: every thread blocked on the condition becomes runnable.
    method WakeHerd()
      modifies this`herd
      ensures |herd| == |old(herd)|
      ensures forall j :: 0 <= j < |herd| ==> herd[j] == Release(old(herd)[j])
    {
      for j := 0 to |herd|
        invariant |herd| == |old(herd)|
        invariant forall i :: 0 <= i < j ==> herd[i] == Release(old(herd)[i])
        invariant forall i :: j <= i < |herd| ==> herd[i] == old(herd)[i]
      {
        herd := herd[j := Release(herd[j])];
      }
    }

    // One statement of santa(). Taking a held mutex, or going on while asleep, does not happen.
    method SantaStatement() returns (ok: bool)
      requires Valid()
      modifies this
      ensures Valid()
      ensures ok == Enabled(old(View()), Label.Santa)
      ensures View() == if ok then Step(old(View()), Label.Santa) else old(View())
    {
      ghost var before := View();
      ok := true;
      match santa {
        case Lock =>
          ok := owner.Nobody?;
          if ok { owner, santa := SantaOwns, Test; }
        case Test =>
          santa := if count < |herd| then Sleep else Deliver;
        case Sleep =>
          owner, santa := Nobody, Asleep;
        case Asleep =>
          ok := false;
        case Roused =>
          ok := owner.Nobody?;
          if ok { owner, santa := SantaOwns, Test; }
        case Deliver =>
          santa := Reset;
        case Reset =>
          count, santa := 0, Broadcast;
          delivered := delivered + 1;
        case Broadcast =>
          if round != deliveries - 1 {
            WakeHerd();
            assert herd == SantaMove(before).herd;
          }
          santa := Unlock;
        case Unlock =>
          owner, round := Nobody, round + 1;
          santa := if round < deliveries then Lock else Cancel;
        case Cancel =>
          ok := false;
      }
      if ok {
        assert View() == Step(before, Label.Santa);
        StepKeepsInv(before, Label.Santa);
      }
    }

    method RunReindeer(j: nat) returns (ok: bool)
      requires |arrivals| == |herd|
      modifies this
      ensures ok == Enabled(old(View()), Reindeer(j))
      ensures View() == if ok then ReindeerMove(old(View()), j) else old(View())
    {
      ok := j < |herd|;
      if !ok { return; }
      match herd[j] {
        case First =>
          ok := owner.Nobody?;
          if ok { owner, herd := ReindeerOwns(j), herd[j := Holiday]; }
        case Holiday =>
          owner, herd := Nobody, herd[j := Away];
        case Away =>
          ok := owner.Nobody?;
          if ok { owner, herd := ReindeerOwns(j), herd[j := Increment]; }
        case Increment =>
          count, herd := count + 1, herd[j := Check];
          arrivals := arrivals[j := arrivals[j] + 1];
        case Check =>
          herd := herd[j := if count == |herd| then Signal else Wait];
        case Signal =>
          if santa.Asleep? { santa := Roused; }
          herd := herd[j := Wait];
        case Wait =>
          owner, herd := Nobody, herd[j := Blocked];
        case Blocked =>
          ok := false;
        case Woken =>
          ok := owner.Nobody?;
          if ok { owner, herd := ReindeerOwns(j), herd[j := Holiday]; }
      }
    }

    // One statement of reindeer().
    method ReindeerStatement(j: nat) returns (ok: bool)
      requires Valid()
      modifies this
      ensures Valid()
      ensures ok == Enabled(old(View()), Reindeer(j))
      ensures View() == if ok then Step(old(View()), Reindeer(j)) else old(View())
    {
      ghost var before := View();
      ok := RunReindeer(j);
      if ok {
        StepKeepsInv(before, Reindeer(j));
      }
    }

    // The implementation may let Santa's wait return unsignalled.
    method WakeSantaSpuriously() returns (ok: bool)
      requires Valid()
      modifies this
      ensures Valid()
      ensures ok == Enabled(old(View()), Spurious)
      ensures View() == if ok then Step(old(View()), Spurious) else old(View())
    {
      ghost var before := View();
      ok := santa.Asleep?;
      if ok {
        santa := Roused;
        StepKeepsInv(before, Spurious);
      }
    }
  }
}
