/** What every run of the print queue satisfies: it refines an atomic bounded first-in first-out
    queue, loses and invents no job, and can only stop where every process has a reason to. */
module PrintQueueRuns {
  import opened Basics
  import opened Modular
  import opened Totals
  import opened PrintQueueSpec

  // ---------------------------------------------------------------- the atomic queue

  datatype Action = Enqueue(job: Job) | Dequeue(job: Job) | Stutter

  // The specification: one bounded queue whose operations are indivisible. A dequeue must name
  // the oldest job.
  function Apply(capacity: nat, q: seq<Job>, a: Action): Option<seq<Job>> {
    match a
    case Enqueue(j) => if |q| < capacity then Some(q + [j]) else None
    case Dequeue(j) => if q != [] && q[0] == j then Some(q[1..]) else None
    case Stutter => Some(q)
  }

  function ApplyAll(capacity: nat, as_: seq<Action>): Option<seq<Job>> {
    if as_ == [] then Some([])
    else
      match ApplyAll(capacity, as_[..|as_| - 1])
      case None => None
      case Some(q) => Apply(capacity, q, as_[|as_| - 1])
  }

  // ---------------------------------------------------------------- the ring seen as a queue

  ghost function Length(s: State): nat
    requires |s.taken| <= |s.put|
  {
    |s.put| - |s.taken|
  }

  // Read off the shared memory: slot (head + k) mod N for the k-th untaken job.
  ghost function Contents(s: State): seq<Job>
    requires s.jobs != [] && |s.taken| <= |s.put|
  {
    seq(Length(s), k requires 0 <= k => s.jobs[(s.head + k) % |s.jobs|])
  }

  // The advance of tail is the enqueue, the advance of head is the dequeue, and everything else
  // (semaphores, single copied bytes, printing) is invisible to the queue.
  ghost function ActionOf(s: State, l: Label): Action {
    match l
    case UserStep(u, _) =>
      if u < |s.users| && s.users[u].pc.AdvanceTail? then Enqueue(s.users[u].buf) else Stutter
    case PrinterStep(p) =>
      if p < |s.printers| && s.printers[p].pc.AdvanceHead? then Dequeue(s.printers[p].job) else Stutter
    case _ => Stutter
  }

  ghost function Jobs(es: seq<Entry>): seq<Job> {
    seq(|es|, i requires 0 <= i < |es| => es[i].job)
  }

  lemma ContentsArePutMinusTaken(s: State)
    requires s.jobs != [] && Ring(s)
    ensures Jobs(s.put) == Jobs(s.taken) + Contents(s)
    ensures Length(s) > 0 ==> s.jobs[s.head] == Contents(s)[0]
  {
    forall k | 0 <= k < Length(s) ensures Contents(s)[k] == s.put[|s.taken| + k].job {
      ModPlus(|s.taken|, k, |s.jobs|);
    }
    if Length(s) > 0 {
      ModPlus(|s.taken|, 0, |s.jobs|);
    }
  }

  // How a step moves the two histories.
  lemma StepMovesHistories(s: State, l: Label)
    requires Shape(s) && Enabled(s, l)
    ensures var s' := Step(s, l);
      match ActionOf(s, l)
      case Enqueue(j) => Jobs(s'.put) == Jobs(s.put) + [j] && Jobs(s'.taken) == Jobs(s.taken)
      case Dequeue(j) => Jobs(s'.put) == Jobs(s.put) && Jobs(s'.taken) == Jobs(s.taken) + [j]
      case Stutter => Jobs(s'.put) == Jobs(s.put) && Jobs(s'.taken) == Jobs(s.taken)
    ensures |Step(s, l).jobs| == |s.jobs|
  {
  }

  // An enqueue finds room, and a dequeue has copied the oldest job.
  lemma ActionIsAllowed(s: State, l: Label)
    requires Inv(s) && Enabled(s, l)
    ensures ActionOf(s, l).Enqueue? ==> |Contents(s)| < |s.jobs|
    ensures ActionOf(s, l).Dequeue? ==> Contents(s) != [] && Contents(s)[0] == ActionOf(s, l).job
  {
    ContentsArePutMinusTaken(s);
    Reservations(s);
    if ActionOf(s, l).Dequeue? {
      assert PrinterLocal(s, l.p);
    }
  }

  lemma Simulates(s: State, s': State, a: Action)
    requires s.jobs != [] && Ring(s) && s'.jobs != [] && Ring(s')
    requires a.Enqueue? ==> |Contents(s)| < |s.jobs|
    requires a.Dequeue? ==> Contents(s) != [] && Contents(s)[0] == a.job
    requires match a
      case Enqueue(j) => Jobs(s'.put) == Jobs(s.put) + [j] && Jobs(s'.taken) == Jobs(s.taken)
      case Dequeue(j) => Jobs(s'.put) == Jobs(s.put) && Jobs(s'.taken) == Jobs(s.taken) + [j]
      case Stutter => Jobs(s'.put) == Jobs(s.put) && Jobs(s'.taken) == Jobs(s.taken)
    ensures Apply(|s.jobs|, Contents(s), a) == Some(Contents(s'))
  {
    ContentsArePutMinusTaken(s);
    ContentsArePutMinusTaken(s');
    var n := |Jobs(s.taken)|;
    assert Contents(s) == Jobs(s.put)[n..];
    match a
    case Enqueue(j) => assert Contents(s') == Jobs(s'.put)[n..] == Contents(s) + [j];
    case Dequeue(j) => assert Contents(s') == Jobs(s'.put)[n + 1..] == Contents(s)[1..];
    case Stutter => assert Contents(s') == Jobs(s'.put)[n..];
  }

  // The simulation step.
  lemma StepRefinesQueue(s: State, l: Label)
    requires Inv(s) && Enabled(s, l)
    ensures Inv(Step(s, l)) && |Step(s, l).jobs| == |s.jobs|
    ensures Apply(|s.jobs|, Contents(s), ActionOf(s, l)) == Some(Contents(Step(s, l)))
  {
    StepKeepsInv(s, l);
    ActionIsAllowed(s, l);
    StepMovesHistories(s, l);
    Simulates(s, Step(s, l), ActionOf(s, l));
  }

  // ---------------------------------------------------------------- runs

  ghost function Exec(start: State, ls: seq<Label>): (r: Option<State>)
    requires Inv(start)
    ensures r.Some? ==> Inv(r.value)
  {
    if ls == [] then Some(start)
    else
      match Exec(start, ls[..|ls| - 1])
      case None => None
      case Some(s) =>
        if Enabled(s, ls[|ls| - 1]) then
          StepKeepsInv(s, ls[|ls| - 1]);
          Some(Step(s, ls[|ls| - 1]))
        else None
  }

  ghost function ActionsOf(start: State, ls: seq<Label>): seq<Action>
    requires Inv(start) && Exec(start, ls).Some?
  {
    if ls == [] then []
    else
      ActionsOf(start, ls[..|ls| - 1]) + [ActionOf(Exec(start, ls[..|ls| - 1]).value, ls[|ls| - 1])]
  }

  lemma {:induction false} RunSimulates(start: State, ls: seq<Label>)
    requires Inv(start) && Contents(start) == [] && Exec(start, ls).Some?
    ensures |Exec(start, ls).value.jobs| == |start.jobs|
    ensures ApplyAll(|start.jobs|, ActionsOf(start, ls)) == Some(Contents(Exec(start, ls).value))
  {
    if ls != [] {
      var front := ls[..|ls| - 1];
      RunSimulates(start, front);
      StepRefinesQueue(Exec(start, front).value, ls[|ls| - 1]);
      assert ActionsOf(start, ls)[..|ActionsOf(start, ls)| - 1] == ActionsOf(start, front);
    }
  }

  // Every interleaving is a run of the atomic queue, and ends with that queue's contents in memory.
  lemma RunsRefineQueue(maxJobs: nat, size: nat, nUsers: nat, nPrinters: nat, ls: seq<Label>)
    requires maxJobs > 0
    ensures Inv(Init(maxJobs, size, nUsers, nPrinters))
    ensures var start := Init(maxJobs, size, nUsers, nPrinters);
      Exec(start, ls).Some? ==>
        ApplyAll(maxJobs, ActionsOf(start, ls)) == Some(Contents(Exec(start, ls).value))
  {
    InitInv(maxJobs, size, nUsers, nPrinters);
    if Exec(Init(maxJobs, size, nUsers, nPrinters), ls).Some? {
      RunSimulates(Init(maxJobs, size, nUsers, nPrinters), ls);
    }
  }

  ghost predicate Conserved(s: State)
    requires s.jobs != [] && |s.taken| <= |s.put|
  {
    && Jobs(s.put) == Jobs(s.taken) + Contents(s)
    && (forall u :: 0 <= u < |s.users| ==> UserHistory(s, u))
    && (forall p :: 0 <= p < |s.printers| ==> PrinterHistory(s, p))
  }

  lemma NothingIsLost(s: State)
    requires Inv(s)
    ensures Conserved(s)
  {
    ContentsArePutMinusTaken(s);
    forall u | 0 <= u < |s.users| ensures UserHistory(s, u) {
      assert UserLocal(s, u);
    }
    forall p | 0 <= p < |s.printers| ensures PrinterHistory(s, p) {
      assert PrinterLocal(s, p);
    }
  }

  // What a reachable state says about the jobs: those taken are a prefix of those put, the rest
  // is in the ring, and each process has put, respectively printed, exactly its own share, in
  // order, up to the one job it is still holding.
  lemma JobsAreConserved(maxJobs: nat, size: nat, nUsers: nat, nPrinters: nat, ls: seq<Label>)
    requires maxJobs > 0
    ensures Inv(Init(maxJobs, size, nUsers, nPrinters))
    ensures var end := Exec(Init(maxJobs, size, nUsers, nPrinters), ls);
      end.Some? ==> Conserved(end.value)
  {
    InitInv(maxJobs, size, nUsers, nPrinters);
    var end := Exec(Init(maxJobs, size, nUsers, nPrinters), ls);
    if end.Some? {
      NothingIsLost(end.value);
    }
  }

  // ---------------------------------------------------------------- from the generator to the queue

  // The texts a user has been given: those it is done with, and the one it is busy with.
  function Texts(me: User): seq<Job> { me.sent + (if me.pc.Generate? || me.pc.Left? then [] else [me.buf]) }

  // The texts that the generator gave to user u in the course of a run.
  ghost function Generated(start: State, ls: seq<Label>, u: nat): seq<Job>
    requires Inv(start) && Exec(start, ls).Some?
  {
    if ls == [] then []
    else
      var s, l := Exec(start, ls[..|ls| - 1]).value, ls[|ls| - 1];
      Generated(start, ls[..|ls| - 1], u)
      + (if l.UserStep? && l.u == u && s.users[u].pc.Generate? then [l.text] else [])
  }

  lemma StepKeepsTexts(s: State, l: Label, u: nat)
    requires Shape(s) && Enabled(s, l) && u < |s.users|
    ensures |Step(s, l).users| == |s.users|
    ensures Texts(Step(s, l).users[u])
         == Texts(s.users[u]) + (if l.UserStep? && l.u == u && s.users[u].pc.Generate? then [l.text] else [])
  {
  }

  lemma {:induction false} TextsAreGenerated(start: State, ls: seq<Label>, u: nat)
    requires Inv(start) && Exec(start, ls).Some? && u < |start.users| && Texts(start.users[u]) == []
    ensures var s := Exec(start, ls).value;
      u < |s.users| == |start.users| && Texts(s.users[u]) == Generated(start, ls, u)
  {
    if ls != [] {
      TextsAreGenerated(start, ls[..|ls| - 1], u);
      StepKeepsTexts(Exec(start, ls[..|ls| - 1]).value, ls[|ls| - 1], u);
    }
  }

  // A generated text that is not in the queue's history yet.
  function InHand(me: User): seq<Job> {
    if me.pc.WaitEmpty? || me.pc.WaitMutex? || me.pc.CopyIn? || me.pc.AdvanceTail? then [me.buf] else []
  }

  lemma PutAndInHand(s: State, u: nat)
    requires Inv(s) && u < |s.users|
    ensures By(s.put, u) + InHand(s.users[u]) == Texts(s.users[u])
  {
    assert UserLocal(s, u);
  }

  // What a user puts into the queue is what the generator gave it, text for text and in order, up
  // to the one it still has in hand.
  lemma {:induction false} UsersPutWhatIsGenerated(maxJobs: nat, size: nat, nUsers: nat, nPrinters: nat,
                                                   ls: seq<Label>, u: nat)
    requires maxJobs > 0 && u < nUsers
    ensures Inv(Init(maxJobs, size, nUsers, nPrinters))
    ensures var start := Init(maxJobs, size, nUsers, nPrinters);
      Exec(start, ls).Some? ==>
        && u < |Exec(start, ls).value.users|
        && By(Exec(start, ls).value.put, u) + InHand(Exec(start, ls).value.users[u]) == Generated(start, ls, u)
  {
    InitInv(maxJobs, size, nUsers, nPrinters);
    var start := Init(maxJobs, size, nUsers, nPrinters);
    if Exec(start, ls).Some? {
      TextsAreGenerated(start, ls, u);
      PutAndInHand(Exec(start, ls).value, u);
    }
  }

  // A user holding a reservation writes outside the untaken jobs.
  lemma NoOverwrite(s: State, u: nat, k: nat)
    requires Inv(s) && u < |s.users| && UReserved(s.users[u]) == 1 && k < Length(s)
    ensures (s.head + k) % |s.jobs| != s.tail
  {
    Reservations(s);
    ModPlus(|s.taken|, k, |s.jobs|);
    ModDistinct(|s.taken| + k, |s.put|, |s.jobs|);
  }

  // A printer part-way through its copy has the same part of the oldest untaken job, whatever
  // the users did meanwhile, and no user is writing.
  lemma NoTornRead(s: State, p: nat)
    requires Inv(s) && p < |s.printers| && s.printers[p].pc.CopyOut?
    ensures Contents(s) != []
    ensures s.printers[p].pc.k < |Contents(s)[0]| == |s.printers[p].job|
    ensures s.printers[p].job[..s.printers[p].pc.k] == Contents(s)[0][..s.printers[p].pc.k]
    ensures forall u :: 0 <= u < |s.users| ==> !s.users[u].pc.CopyIn?
  {
    Reservations(s);
    MutualExclusion(s);
    ContentsArePutMinusTaken(s);
    assert PrinterLocal(s, p);
  }

  // ---------------------------------------------------------------- progress

  ghost predicate Stuck(s: State) { forall l :: !Enabled(s, l) }

  // Somebody is between the wait and the post on the mutex.
  ghost predicate Occupied(s: State) {
    || (exists u :: 0 <= u < |s.users| && UCs(s.users[u]) == 1)
    || (exists p :: 0 <= p < |s.printers| && PCs(s.printers[p]) == 1)
  }

  lemma MutexIsDownExactlyWhen(s: State)
    requires Accounting(s)
    ensures s.mutex == 0 <==> Occupied(s)
  {
    MutualExclusion(s);
    if s.mutex == 0 && !Occupied(s) {
      TotalUniform(s.users, 0, UCs);
      TotalUniform(s.printers, 0, PCs);
      assert false;
    }
  }

  // A user stands still exactly when it has left, when every slot is full, promised to a user or
  // not handed back yet by a printer, or when somebody else is at the ring.
  lemma UserWaitsExactlyWhen(s: State, u: nat)
    requires Inv(s) && u < |s.users|
    ensures (forall text :: !Enabled(s, UserStep(u, text))) <==>
      match s.users[u].pc
      case Left => true
      case WaitEmpty => |s.put| - |s.taken| + Total(s.users, UReserved) + Total(s.printers, PUnposted) == |s.jobs|
      case WaitMutex => Occupied(s)
      case _ => false
  {
    MutexIsDownExactlyWhen(s);
    var pc := s.users[u].pc;
    assert Enabled(s, UserStep(u, Blank(s.size))) || pc.Left? || pc.WaitEmpty? || pc.WaitMutex?;
  }

  // A printer stands still exactly when it has left, when every job is promised to a printer or not
  // announced yet by its user, or when somebody else is at the ring.
  lemma PrinterWaitsExactlyWhen(s: State, p: nat)
    requires Inv(s) && p < |s.printers|
    ensures !Enabled(s, PrinterStep(p)) <==>
      match s.printers[p].pc
      case Gone => true
      case WaitFull => Total(s.users, UUnposted) + Total(s.printers, PReserved) == |s.put| - |s.taken|
      case WaitQueue => Occupied(s)
      case _ => false
  {
    MutexIsDownExactlyWhen(s);
  }

  // No process can step exactly when everybody has left or waits on a counting semaphore at zero.
  lemma StuckExactlyWhen(s: State)
    requires Inv(s)
    ensures Stuck(s) <==>
      && (forall u :: 0 <= u < |s.users| ==> s.users[u].pc.Left? || (s.users[u].pc.WaitEmpty? && s.empty == 0))
      && (forall p :: 0 <= p < |s.printers| ==> s.printers[p].pc.Gone? || (s.printers[p].pc.WaitFull? && s.full == 0))
  {
    if Stuck(s) {
      forall u | 0 <= u < |s.users|
        ensures s.users[u].pc.Left? || s.users[u].pc.WaitMutex? || (s.users[u].pc.WaitEmpty? && s.empty == 0)
        ensures s.mutex == 0 || !s.users[u].pc.WaitMutex?
      {
        assert !Enabled(s, UserStep(u, Blank(s.size)));
      }
      forall p | 0 <= p < |s.printers|
        ensures s.printers[p].pc.Gone? || s.printers[p].pc.WaitQueue? || (s.printers[p].pc.WaitFull? && s.full == 0)
        ensures s.mutex == 0 || !s.printers[p].pc.WaitQueue?
      {
        assert !Enabled(s, PrinterStep(p));
      }
      TotalUniform(s.users, 0, UCs);
      TotalUniform(s.printers, 0, PCs);
      assert s.mutex == 1;
    }
  }

  // A stuck queue is full if a user still waits, and empty if a printer still waits.
  lemma StuckQueue(s: State)
    requires Inv(s) && Stuck(s)
    ensures (exists u :: 0 <= u < |s.users| && !s.users[u].pc.Left?) ==> |Contents(s)| == |s.jobs|
    ensures (exists p :: 0 <= p < |s.printers| && !s.printers[p].pc.Gone?) ==> Contents(s) == []
  {
    StuckExactlyWhen(s);
    TotalUniform(s.users, 0, UReserved);
    TotalUniform(s.users, 0, UUnposted);
    TotalUniform(s.printers, 0, PReserved);
    TotalUniform(s.printers, 0, PUnposted);
  }

  // With a user and a printer still running, some process can always step.
  lemma RunningPairIsNeverStuck(s: State, u: nat, p: nat)
    requires Inv(s)
    requires u < |s.users| && !s.users[u].pc.Left?
    requires p < |s.printers| && !s.printers[p].pc.Gone?
    ensures exists l :: Enabled(s, l)
  {
    if Stuck(s) {
      StuckExactlyWhen(s);
      StuckQueue(s);
    }
  }

  // ---------------------------------------------------------------- how long a run can go without an action

  // Steps left before a process next advances head or tail, or leaves.
  function UserDistance(size: nat): User -> nat {
    (me: User) =>
      match me.pc
      case AdvanceTail => 0
      case CopyIn(k) => if k < size then size - k else 0
      case WaitMutex => size + 1
      case WaitEmpty => size + 2
      case Generate => size + 3
      case PostMutex => size + 4
      case PostFull => size + 5
      case Left => 0
  }

  function PrinterDistance(size: nat): Printer -> nat {
    (me: Printer) =>
      match me.pc
      case AdvanceHead => 0
      case CopyOut(k) => if k < size then size - k else 0
      case WaitQueue => size + 1
      case WaitFull => size + 2
      case Top => size + 3
      case Print => size + 4
      case PostEmpty => size + 5
      case PostQueue => size + 6
      case Gone => 0
  }

  ghost function Distance(s: State): nat {
    Total(s.users, UserDistance(s.size)) + Total(s.printers, PrinterDistance(s.size))
  }

  lemma UserApproaches(s: State, l: Label, u: nat)
    requires Shape(s) && Enabled(s, l) && (l == UserLeaves(u) || (l.UserStep? && l.u == u))
    ensures u < |s.users| && Step(s, l).size == s.size && Step(s, l).printers == s.printers
    ensures |Step(s, l).users| == |s.users| && Step(s, l).users == s.users[u := Step(s, l).users[u]]
    ensures var d, d' := UserDistance(s.size)(s.users[u]), UserDistance(s.size)(Step(s, l).users[u]);
      if ActionOf(s, l).Stutter? then d' < d else d' <= d + s.size + 5
  {
  }

  lemma PrinterApproaches(s: State, l: Label, p: nat)
    requires Shape(s) && Enabled(s, l) && (l == PrinterLeaves(p) || l == PrinterStep(p))
    ensures p < |s.printers| && Step(s, l).size == s.size && Step(s, l).users == s.users
    ensures |Step(s, l).printers| == |s.printers| && Step(s, l).printers == s.printers[p := Step(s, l).printers[p]]
    ensures var d, d' := PrinterDistance(s.size)(s.printers[p]), PrinterDistance(s.size)(Step(s, l).printers[p]);
      if ActionOf(s, l).Stutter? then d' < d else d' <= d + s.size + 6
  {
  }

  // Every stuttering step brings some process nearer to its next action.
  lemma StutterApproaches(s: State, l: Label)
    requires Shape(s) && Enabled(s, l)
    ensures Step(s, l).size == s.size
    ensures ActionOf(s, l).Stutter? ==> Distance(Step(s, l)) < Distance(s)
    ensures Distance(Step(s, l)) <= Distance(s) + s.size + 6
  {
    var s' := Step(s, l);
    if l.UserStep? || l.UserLeaves? {
      UserApproaches(s, l, l.u);
      TotalUpdate(s.users, l.u, s'.users[l.u], UserDistance(s.size));
    } else {
      PrinterApproaches(s, l, l.p);
      TotalUpdate(s.printers, l.p, s'.printers[l.p], PrinterDistance(s.size));
    }
  }

  function Acting(as_: seq<Action>): nat {
    if as_ == [] then 0
    else Acting(as_[..|as_| - 1]) + (if as_[|as_| - 1].Stutter? then 0 else 1)
  }

  lemma {:induction false} ActingNext(start: State, ls: seq<Label>)
    requires Inv(start) && ls != [] && Exec(start, ls).Some?
    ensures var front := ls[..|ls| - 1];
      Acting(ActionsOf(start, ls)) == Acting(ActionsOf(start, front))
        + (if ActionOf(Exec(start, front).value, ls[|ls| - 1]).Stutter? then 0 else 1)
  {
    var front := ls[..|ls| - 1];
    assert ActionsOf(start, ls)[..|ActionsOf(start, ls)| - 1] == ActionsOf(start, front);
  }

  lemma PayStep(steps: nat, d: nat, d': nat, budget: nat, actions: nat, acting: bool, per: nat)
    requires per > 0 && steps + d <= budget + Times(actions, per)
    requires if acting then d' < d + per else d' < d
    ensures steps + 1 + d' <= budget + Times(actions + (if acting then 1 else 0), per)
  {
  }

  // The last step of a run, in numbers.
  lemma {:induction false} LastStepApproaches(start: State, ls: seq<Label>, acting: bool)
    requires Inv(start) && ls != [] && Exec(start, ls).Some?
    requires acting == !ActionOf(Exec(start, ls[..|ls| - 1]).value, ls[|ls| - 1]).Stutter?
    ensures var s, s' := Exec(start, ls[..|ls| - 1]).value, Exec(start, ls).value;
      s'.size == s.size && if acting then Distance(s') < Distance(s) + s.size + 7 else Distance(s') < Distance(s)
  {
    StutterApproaches(Exec(start, ls[..|ls| - 1]).value, ls[|ls| - 1]);
  }

  lemma {:induction false} RunIsPaidFor(start: State, ls: seq<Label>)
    requires Inv(start) && Exec(start, ls).Some?
    ensures Exec(start, ls).value.size == start.size
    ensures |ls| + Distance(Exec(start, ls).value)
         <= Distance(start) + Times(Acting(ActionsOf(start, ls)), start.size + 7)
  {
    if ls != [] {
      var front := ls[..|ls| - 1];
      var acting := !ActionOf(Exec(start, front).value, ls[|ls| - 1]).Stutter?;
      RunIsPaidFor(start, front);
      LastStepApproaches(start, ls, acting);
      ActingNext(start, ls);
      PayStep(|front|, Distance(Exec(start, front).value), Distance(Exec(start, ls).value), Distance(start),
              Acting(ActionsOf(start, front)), acting, start.size + 7);
    }
  }

  lemma DistanceAtMost(s: State, processes: nat)
    requires processes == |s.users| + |s.printers|
    ensures Distance(s) <= Times(processes, s.size + 7)
  {
    TotalWithin(s.users, s.size + 7, UserDistance(s.size));
    TotalWithin(s.printers, s.size + 7, PrinterDistance(s.size));
    TimesPlus(|s.users|, |s.printers|, s.size + 7);
  }

  lemma AddUp(steps: nat, distance: nat, actions: nat, k: nat, per: nat)
    requires steps <= distance + Times(actions, per) && distance <= Times(k, per)
    ensures steps <= (actions + k) * per
  {
    TimesPlus(actions, k, per);
    TimesIs(actions + k, per);
  }

  lemma {:induction false} RunFrom(start: State, ls: seq<Label>, actions: nat, k: nat)
    requires Inv(start) && Exec(start, ls).Some? && actions == Acting(ActionsOf(start, ls))
    requires Distance(start) <= Times(k, start.size + 7)
    ensures |ls| <= (actions + k) * (start.size + 7)
  {
    RunIsPaidFor(start, ls);
    AddUp(|ls|, Distance(start), actions, k, start.size + 7);
  }

  // Stuttering is bounded: from wherever it starts, a run with that many actions of the atomic
  // queue has at most (actions + processes) * (size + 7) steps.
  lemma {:induction false} StutteringIsBounded(start: State, ls: seq<Label>, actions: nat, processes: nat)
    requires Inv(start) && Exec(start, ls).Some? && actions == Acting(ActionsOf(start, ls))
    requires processes == |start.users| + |start.printers|
    ensures |ls| <= (actions + processes) * (start.size + 7)
  {
    DistanceAtMost(start, processes);
    RunFrom(start, ls, actions, processes);
  }
}
