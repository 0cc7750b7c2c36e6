/** The shared print queue of cw08 as a state machine: any number of user processes and printer
    processes over one ring buffer, three semaphores, and one step per semaphore operation,
    copied byte and index update. A semaphore wait is one step that is enabled only while the
    semaphore is positive. `put` and `taken` are histories: they record who appended and who
    removed each job, and no step reads them. */
module PrintQueueSpec {
  import opened Modular
  import opened Totals

  type Job = seq<char>

  datatype UserPc = Generate | WaitEmpty | WaitMutex | CopyIn(k: nat) | AdvanceTail | PostFull | PostMutex | Left
  datatype User = User(pc: UserPc, buf: Job, sent: seq<Job>)

  datatype PrinterPc = Top | WaitFull | WaitQueue | CopyOut(k: nat) | AdvanceHead | PostQueue | PostEmpty | Print | Gone
  datatype Printer = Printer(pc: PrinterPc, job: Job, printed: seq<Job>)

  datatype Entry = Entry(who: nat, job: Job)

  datatype State = State(
    size: nat, jobs: seq<Job>, head: nat, tail: nat, mutex: nat, empty: nat, full: nat,
    users: seq<User>, printers: seq<Printer>, put: seq<Entry>, taken: seq<Entry>)

  // `text` is what the random generator produces; it matters only when a user starts a round.
  datatype Label = UserStep(u: nat, text: Job) | UserLeaves(u: nat) | PrinterStep(p: nat) | PrinterLeaves(p: nat)

  function Blank(size: nat): Job { seq(size, _ => '\0') }

  function Init(maxJobs: nat, size: nat, nUsers: nat, nPrinters: nat): State {
    State(size, seq(maxJobs, _ => Blank(size)), 0, 0, 1, maxJobs, 0,
          seq(nUsers, _ => User(Generate, [], [])), seq(nPrinters, _ => Printer(Top, [], [])), [], [])
  }

  // ---------------------------------------------------------------- program points

  // Program points, as 0/1 weights so that Total counts the processes standing there.
  function UCs(me: User): nat {
    if me.pc.CopyIn? || me.pc.AdvanceTail? || me.pc.PostFull? || me.pc.PostMutex? then 1 else 0
  }

  function UReserved(me: User): nat { if me.pc.WaitMutex? || me.pc.CopyIn? || me.pc.AdvanceTail? then 1 else 0 }
  function UUnposted(me: User): nat { if me.pc.PostFull? then 1 else 0 }
  function PCs(me: Printer): nat { if me.pc.CopyOut? || me.pc.AdvanceHead? || me.pc.PostQueue? then 1 else 0 }
  function PReserved(me: Printer): nat { if me.pc.WaitQueue? || me.pc.CopyOut? || me.pc.AdvanceHead? then 1 else 0 }
  function PUnposted(me: Printer): nat { if me.pc.PostQueue? || me.pc.PostEmpty? then 1 else 0 }

  predicate HoldsJob(me: Printer) { me.pc.PostQueue? || me.pc.PostEmpty? || me.pc.Print? }
  predicate HasPut(me: User) { me.pc.PostFull? || me.pc.PostMutex? }

  // ---------------------------------------------------------------- steps

  ghost predicate UserShape(me: User, size: nat) {
    && (me.pc.CopyIn? ==> me.pc.k < size)
    && (!me.pc.Generate? && !me.pc.Left? ==> |me.buf| == size)
  }

  ghost predicate PrinterShape(me: Printer, size: nat) {
    && (me.pc.CopyOut? ==> me.pc.k < size)
    && (PCs(me) == 1 || HoldsJob(me) ==> |me.job| == size)
  }

  ghost predicate Shape(s: State) {
    && s.head < |s.jobs| && s.tail < |s.jobs|
    && (forall i :: 0 <= i < |s.jobs| ==> |s.jobs[i]| == s.size)
    && (forall u :: 0 <= u < |s.users| ==> UserShape(s.users[u], s.size))
    && (forall p :: 0 <= p < |s.printers| ==> PrinterShape(s.printers[p], s.size))
  }

  predicate Enabled(s: State, l: Label) {
    match l
    case UserStep(u, text) =>
      u < |s.users| &&
      (match s.users[u].pc
       case Generate => |text| == s.size
       case WaitEmpty => s.empty > 0
       case WaitMutex => s.mutex > 0
       case Left => false
       case _ => true)
    case UserLeaves(u) => u < |s.users| && s.users[u].pc.Generate?
    case PrinterStep(p) =>
      p < |s.printers| &&
      (match s.printers[p].pc
       case WaitFull => s.full > 0
       case WaitQueue => s.mutex > 0
       case Gone => false
       case _ => true)
    case PrinterLeaves(p) => p < |s.printers| && s.printers[p].pc.Top?
  }

  // Where a memcpy that has copied its first k bytes continues.
  function CopyInFrom(k: nat, size: nat): UserPc { if k < size then CopyIn(k) else AdvanceTail }
  function CopyOutFrom(k: nat, size: nat): PrinterPc { if k < size then CopyOut(k) else AdvanceHead }

  function SetUser(s: State, u: nat, me: User): State
    requires u < |s.users|
  {
    s.(users := s.users[u := me])
  }

  function SetPrinter(s: State, p: nat, me: Printer): State
    requires p < |s.printers|
  {
    s.(printers := s.printers[p := me])
  }

  ghost function UserMove(s: State, u: nat, text: Job): State
    requires Shape(s) && Enabled(s, UserStep(u, text))
  {
    var me := s.users[u];
    match me.pc
    case Generate => SetUser(s, u, me.(pc := WaitEmpty, buf := text))
    case WaitEmpty => SetUser(s, u, me.(pc := WaitMutex)).(empty := s.empty - 1)
    case WaitMutex => SetUser(s, u, me.(pc := CopyInFrom(0, s.size))).(mutex := s.mutex - 1)
    case CopyIn(k) =>
      SetUser(s, u, me.(pc := CopyInFrom(k + 1, s.size)))
      .(jobs := s.jobs[s.tail := s.jobs[s.tail][k := me.buf[k]]])
    case AdvanceTail =>
      SetUser(s, u, me.(pc := PostFull)).(tail := (s.tail + 1) % |s.jobs|, put := s.put + [Entry(u, me.buf)])
    case PostFull => SetUser(s, u, me.(pc := PostMutex)).(full := s.full + 1)
    case PostMutex => SetUser(s, u, me.(pc := Generate, sent := me.sent + [me.buf])).(mutex := s.mutex + 1)
  }

  ghost function PrinterMove(s: State, p: nat): State
    requires Shape(s) && Enabled(s, PrinterStep(p))
  {
    var me := s.printers[p];
    match me.pc
    case Top => SetPrinter(s, p, me.(pc := WaitFull))
    case WaitFull => SetPrinter(s, p, me.(pc := WaitQueue)).(full := s.full - 1)
    case WaitQueue =>
      SetPrinter(s, p, me.(pc := CopyOutFrom(0, s.size), job := Blank(s.size))).(mutex := s.mutex - 1)
    case CopyOut(k) =>
      SetPrinter(s, p, me.(pc := CopyOutFrom(k + 1, s.size), job := me.job[k := s.jobs[s.head][k]]))
    case AdvanceHead =>
      SetPrinter(s, p, me.(pc := PostQueue)).(head := (s.head + 1) % |s.jobs|, taken := s.taken + [Entry(p, me.job)])
    case PostQueue => SetPrinter(s, p, me.(pc := PostEmpty)).(mutex := s.mutex + 1)
    case PostEmpty => SetPrinter(s, p, me.(pc := Print)).(empty := s.empty + 1)
    case Print => SetPrinter(s, p, me.(pc := Top, printed := me.printed + [me.job]))
  }

  ghost function Step(s: State, l: Label): State
    requires Shape(s) && Enabled(s, l)
  {
    match l
    case UserStep(u, text) => UserMove(s, u, text)
    case UserLeaves(u) => SetUser(s, u, s.users[u].(pc := Left))
    case PrinterStep(p) => PrinterMove(s, p)
    case PrinterLeaves(p) => SetPrinter(s, p, s.printers[p].(pc := Gone))
  }

  // ---------------------------------------------------------------- the inductive invariant

  // The value of each semaphore, given where everybody stands.
  ghost predicate Accounting(s: State) {
    && |s.taken| <= |s.put|
    && s.mutex + Total(s.users, UCs) + Total(s.printers, PCs) == 1
    && s.full + Total(s.users, UUnposted) + Total(s.printers, PReserved) == |s.put| - |s.taken|
    && s.empty + Total(s.users, UReserved) + Total(s.printers, PUnposted) == |s.jobs| - (|s.put| - |s.taken|)
  }

  // The ring holds the jobs put but not yet taken, and what was taken is what was put.
  ghost predicate Ring(s: State)
    requires s.jobs != []
  {
    && s.head == |s.taken| % |s.jobs| && s.tail == |s.put| % |s.jobs|
    && (forall k :: |s.taken| <= k < |s.put| ==> s.jobs[k % |s.jobs|] == s.put[k].job)
    && |s.taken| <= |s.put|
    && (forall k :: 0 <= k < |s.taken| ==> s.taken[k].job == s.put[k].job)
  }

  // The jobs an author contributed to a history, in order.
  ghost function By(es: seq<Entry>, a: nat): seq<Job> {
    if es == [] then []
    else By(es[..|es| - 1], a) + (if es[|es| - 1].who == a then [es[|es| - 1].job] else [])
  }

  ghost predicate UserHistory(s: State, u: nat)
    requires u < |s.users|
  {
    By(s.put, u) == s.users[u].sent + (if HasPut(s.users[u]) then [s.users[u].buf] else [])
  }

  // How far the copy into the ring has come.
  ghost predicate UserCopy(s: State, u: nat)
    requires u < |s.users| && s.tail < |s.jobs|
  {
    var me := s.users[u];
    && (me.pc.CopyIn? ==> me.pc.k <= |me.buf| == |s.jobs[s.tail]| && s.jobs[s.tail][..me.pc.k] == me.buf[..me.pc.k])
    && (me.pc.AdvanceTail? ==> s.jobs[s.tail] == me.buf)
  }

  ghost predicate UserLocal(s: State, u: nat)
    requires u < |s.users| && s.tail < |s.jobs|
  {
    UserHistory(s, u) && UserCopy(s, u)
  }

  ghost predicate PrinterHistory(s: State, p: nat)
    requires p < |s.printers|
  {
    By(s.taken, p) == s.printers[p].printed + (if HoldsJob(s.printers[p]) then [s.printers[p].job] else [])
  }

  ghost predicate PrinterLocal(s: State, p: nat)
    requires Shape(s) && p < |s.printers|
  {
    var me := s.printers[p];
    && PrinterHistory(s, p)
    && (me.pc.CopyOut? ==> me.job[..me.pc.k] == s.jobs[s.head][..me.pc.k])
    && (me.pc.AdvanceHead? ==> me.job == s.jobs[s.head])
  }

  ghost predicate Local(s: State)
    requires Shape(s)
  {
    && (forall u :: 0 <= u < |s.users| ==> UserLocal(s, u))
    && (forall p :: 0 <= p < |s.printers| ==> PrinterLocal(s, p))
  }

  ghost predicate Inv(s: State) {
    Shape(s) && Accounting(s) && Ring(s) && Local(s)
  }

  // ---------------------------------------------------------------- proofs: counting

  lemma UserTotals(s: State, u: nat, me: User)
    requires u < |s.users|
    ensures Total(s.users[u := me], UCs) + UCs(s.users[u]) == Total(s.users, UCs) + UCs(me)
    ensures Total(s.users[u := me], UReserved) + UReserved(s.users[u]) == Total(s.users, UReserved) + UReserved(me)
    ensures Total(s.users[u := me], UUnposted) + UUnposted(s.users[u]) == Total(s.users, UUnposted) + UUnposted(me)
    ensures UCs(s.users[u]) <= Total(s.users, UCs)
    ensures UReserved(s.users[u]) <= Total(s.users, UReserved)
  {
    TotalUpdate(s.users, u, me, UCs);
    TotalUpdate(s.users, u, me, UReserved);
    TotalUpdate(s.users, u, me, UUnposted);
    TotalAtLeast(s.users, u, UCs);
    TotalAtLeast(s.users, u, UReserved);
  }

  lemma PrinterTotals(s: State, p: nat, me: Printer)
    requires p < |s.printers|
    ensures Total(s.printers[p := me], PCs) + PCs(s.printers[p]) == Total(s.printers, PCs) + PCs(me)
    ensures Total(s.printers[p := me], PReserved) + PReserved(s.printers[p])
         == Total(s.printers, PReserved) + PReserved(me)
    ensures Total(s.printers[p := me], PUnposted) + PUnposted(s.printers[p])
         == Total(s.printers, PUnposted) + PUnposted(me)
    ensures PCs(s.printers[p]) <= Total(s.printers, PCs)
    ensures PReserved(s.printers[p]) <= Total(s.printers, PReserved)
  {
    TotalUpdate(s.printers, p, me, PCs);
    TotalUpdate(s.printers, p, me, PReserved);
    TotalUpdate(s.printers, p, me, PUnposted);
    TotalAtLeast(s.printers, p, PCs);
    TotalAtLeast(s.printers, p, PReserved);
  }

  // Mutual exclusion: at most one process is between its wait and its post on the mutex.
  lemma MutualExclusion(s: State)
    requires Accounting(s)
    ensures forall u, v :: 0 <= u < v < |s.users| ==> UCs(s.users[u]) + UCs(s.users[v]) <= 1
    ensures forall p, q :: 0 <= p < q < |s.printers| ==> PCs(s.printers[p]) + PCs(s.printers[q]) <= 1
    ensures forall u, p :: 0 <= u < |s.users| && 0 <= p < |s.printers| ==> UCs(s.users[u]) + PCs(s.printers[p]) <= 1
    ensures s.mutex > 0 ==> forall u :: 0 <= u < |s.users| ==> UCs(s.users[u]) == 0
    ensures s.mutex > 0 ==> forall p :: 0 <= p < |s.printers| ==> PCs(s.printers[p]) == 0
  {
    forall u, v | 0 <= u < v < |s.users| ensures UCs(s.users[u]) + UCs(s.users[v]) <= 1 {
      TotalAtLeastTwo(s.users, u, v, UCs);
    }
    forall p, q | 0 <= p < q < |s.printers| ensures PCs(s.printers[p]) + PCs(s.printers[q]) <= 1 {
      TotalAtLeastTwo(s.printers, p, q, PCs);
    }
    forall u | 0 <= u < |s.users| ensures UCs(s.users[u]) <= Total(s.users, UCs) {
      TotalAtLeast(s.users, u, UCs);
    }
    forall p | 0 <= p < |s.printers| ensures PCs(s.printers[p]) <= Total(s.printers, PCs) {
      TotalAtLeast(s.printers, p, PCs);
    }
  }

  // A process about to write holds a free slot, and one about to read holds a filled slot.
  lemma Reservations(s: State)
    requires Accounting(s)
    ensures forall u :: 0 <= u < |s.users| && UReserved(s.users[u]) == 1 ==> |s.put| - |s.taken| < |s.jobs|
    ensures forall p :: 0 <= p < |s.printers| && PReserved(s.printers[p]) == 1 ==> |s.taken| < |s.put|
  {
    forall u | 0 <= u < |s.users| ensures UReserved(s.users[u]) <= Total(s.users, UReserved) {
      TotalAtLeast(s.users, u, UReserved);
    }
    forall p | 0 <= p < |s.printers| ensures PReserved(s.printers[p]) <= Total(s.printers, PReserved) {
      TotalAtLeast(s.printers, p, PReserved);
    }
  }

  // ---------------------------------------------------------------- proofs: every step keeps the invariant

  lemma StepKeepsShape(s: State, l: Label)
    requires Shape(s) && Enabled(s, l)
    ensures Shape(Step(s, l))
  {
  }

  // What a step moves between a semaphore, its own process's place and the histories balances.
  lemma UserMoveBalances(s: State, u: nat, text: Job)
    requires Shape(s) && Enabled(s, UserStep(u, text))
    ensures var s' := UserMove(s, u, text);
      && |s'.users| == |s.users| && s'.users == s.users[u := s'.users[u]]
      && s'.printers == s.printers && s'.taken == s.taken && |s'.jobs| == |s.jobs|
      && s'.mutex + UCs(s'.users[u]) == s.mutex + UCs(s.users[u])
      && s'.full + UUnposted(s'.users[u]) + |s.put| == s.full + UUnposted(s.users[u]) + |s'.put|
      && s'.empty + UReserved(s'.users[u]) + |s'.put| == s.empty + UReserved(s.users[u]) + |s.put|
      && |s'.put| >= |s.put|
  {
  }

  lemma UserMoveKeepsAccounting(s: State, u: nat, text: Job)
    requires Shape(s) && Accounting(s) && Enabled(s, UserStep(u, text))
    ensures Accounting(UserMove(s, u, text))
  {
    UserMoveBalances(s, u, text);
    UserTotals(s, u, UserMove(s, u, text).users[u]);
  }

  lemma PrinterMoveBalances(s: State, p: nat)
    requires Shape(s) && Enabled(s, PrinterStep(p))
    ensures var s' := PrinterMove(s, p);
      && |s'.printers| == |s.printers| && s'.printers == s.printers[p := s'.printers[p]]
      && s'.users == s.users && s'.put == s.put && |s'.jobs| == |s.jobs|
      && s'.mutex + PCs(s'.printers[p]) == s.mutex + PCs(s.printers[p])
      && s'.full + PReserved(s'.printers[p]) + |s'.taken| == s.full + PReserved(s.printers[p]) + |s.taken|
      && s'.empty + PUnposted(s'.printers[p]) + |s.taken| == s.empty + PUnposted(s.printers[p]) + |s'.taken|
  {
  }

  lemma PrinterMoveKeepsAccounting(s: State, p: nat)
    requires Shape(s) && Accounting(s) && Enabled(s, PrinterStep(p))
    ensures Accounting(PrinterMove(s, p))
  {
    PrinterMoveBalances(s, p);
    PrinterTotals(s, p, PrinterMove(s, p).printers[p]);
  }

  lemma StepKeepsAccounting(s: State, l: Label)
    requires Shape(s) && Accounting(s) && Enabled(s, l)
    ensures Accounting(Step(s, l))
  {
    match l
    case UserStep(u, text) => UserMoveKeepsAccounting(s, u, text);
    case UserLeaves(u) => UserTotals(s, u, s.users[u].(pc := Left));
    case PrinterStep(p) => PrinterMoveKeepsAccounting(s, p);
    case PrinterLeaves(p) => PrinterTotals(s, p, s.printers[p].(pc := Gone));
  }

  lemma UserMoveKeepsRing(s: State, u: nat, text: Job)
    requires Shape(s) && Accounting(s) && Ring(s) && Enabled(s, UserStep(u, text)) && UserLocal(s, u)
    ensures Ring(UserMove(s, u, text))
  {
    var n := |s.jobs|;
    if s.users[u].pc.CopyIn? {
      Reservations(s);
      forall k | |s.taken| <= k < |s.put| ensures k % n != s.tail {
        ModDistinct(k, |s.put|, n);
      }
    } else if s.users[u].pc.AdvanceTail? {
      ModStep(|s.put|, n);
    }
  }

  lemma PrinterMoveKeepsRing(s: State, p: nat)
    requires Shape(s) && Accounting(s) && Ring(s) && Enabled(s, PrinterStep(p)) && PrinterLocal(s, p)
    ensures Ring(PrinterMove(s, p))
  {
    if s.printers[p].pc.AdvanceHead? {
      Reservations(s);
      ModStep(|s.taken|, |s.jobs|);
    }
  }

  lemma CopyOneByte(dst: Job, src: Job, k: nat)
    requires k < |dst| == |src| && dst[..k] == src[..k]
    ensures dst[k := src[k]][..k + 1] == src[..k + 1]
    ensures k + 1 == |src| ==> dst[k := src[k]] == src
  {
    assert dst[k := src[k]][..k + 1] == dst[..k] + [src[k]];
    assert src[..k + 1] == src[..k] + [src[k]];
  }

  lemma ByNext(es: seq<Entry>, e: Entry, a: nat)
    ensures By(es + [e], a) == By(es, a) + (if e.who == a then [e.job] else [])
  {
    assert (es + [e])[..|es|] == es;
  }

  lemma OwnStepKeepsUserHistory(s: State, u: nat, text: Job)
    requires Shape(s) && Enabled(s, UserStep(u, text)) && UserHistory(s, u)
    ensures UserHistory(UserMove(s, u, text), u)
  {
    ByNext(s.put, Entry(u, s.users[u].buf), u);
  }

  lemma OwnStepKeepsUserCopy(s: State, u: nat, text: Job)
    requires Shape(s) && Enabled(s, UserStep(u, text)) && UserCopy(s, u)
    ensures UserCopy(UserMove(s, u, text), u)
  {
    var me := s.users[u];
    if me.pc.CopyIn? {
      CopyOneByte(s.jobs[s.tail], me.buf, me.pc.k);
    } else if me.pc.WaitMutex? && s.size == 0 {
      assert s.jobs[s.tail] == [] == me.buf;
    }
  }

  // A step of somebody else adds nothing to a user's history, and moves neither the tail nor the
  // slot there while the user is copying.
  lemma OtherUserKeepsLocal(s: State, u: nat, text: Job, v: nat)
    requires Shape(s) && Accounting(s) && Enabled(s, UserStep(u, text)) && v < |s.users| && v != u && UserLocal(s, v)
    requires Shape(UserMove(s, u, text))
    ensures UserLocal(UserMove(s, u, text), v)
  {
    MutualExclusion(s);
    if s.users[u].pc.AdvanceTail? {
      var put' := UserMove(s, u, text).put;
      assert put'[..|put'| - 1] == s.put;
    }
  }

  lemma PrinterKeepsUserLocal(s: State, p: nat, v: nat)
    requires Shape(s) && Enabled(s, PrinterStep(p)) && v < |s.users| && UserLocal(s, v)
    ensures UserLocal(PrinterMove(s, p), v)
  {
  }

  lemma StepKeepsUserLocal(s: State, l: Label, v: nat)
    requires Shape(s) && Accounting(s) && Enabled(s, l) && v < |s.users| && UserLocal(s, v)
    requires Shape(Step(s, l))
    ensures UserLocal(Step(s, l), v)
  {
    match l
    case UserStep(u, text) =>
      if u == v {
        OwnStepKeepsUserHistory(s, u, text);
        OwnStepKeepsUserCopy(s, u, text);
      } else {
        OtherUserKeepsLocal(s, u, text, v);
      }
    case PrinterStep(p) => PrinterKeepsUserLocal(s, p, v);
    case _ =>
  }

  lemma OwnStepKeepsPrinterLocal(s: State, p: nat)
    requires Shape(s) && Enabled(s, PrinterStep(p)) && PrinterLocal(s, p)
    requires Shape(PrinterMove(s, p))
    ensures PrinterLocal(PrinterMove(s, p), p)
  {
    var me := s.printers[p];
    if me.pc.AdvanceHead? {
      assert (s.taken + [Entry(p, me.job)])[..|s.taken|] == s.taken;
    } else if me.pc.CopyOut? {
      CopyOneByte(me.job, s.jobs[s.head], me.pc.k);
    } else if me.pc.WaitQueue? && s.size == 0 {
      assert s.jobs[s.head] == [] == Blank(s.size);
    }
  }

  lemma StepKeepsPrinterLocal(s: State, l: Label, q: nat)
    requires Shape(s) && Accounting(s) && Enabled(s, l) && q < |s.printers| && PrinterLocal(s, q)
    requires Shape(Step(s, l))
    ensures PrinterLocal(Step(s, l), q)
  {
    match l
    case UserStep(u, _) => MutualExclusion(s);
    case PrinterStep(p) =>
      if p == q {
        OwnStepKeepsPrinterLocal(s, p);
      } else {
        MutualExclusion(s);
        if s.printers[p].pc.AdvanceHead? {
          assert Step(s, l).taken[..|Step(s, l).taken| - 1] == s.taken;
        }
      }
    case _ =>
  }

  lemma StepKeepsInv(s: State, l: Label)
    requires Inv(s) && Enabled(s, l)
    ensures Inv(Step(s, l))
  {
    StepKeepsShape(s, l);
    StepKeepsAccounting(s, l);
    assert Ring(Step(s, l)) by {
      match l
      case UserStep(u, text) => assert UserLocal(s, u); UserMoveKeepsRing(s, u, text);
      case PrinterStep(p) => assert PrinterLocal(s, p); PrinterMoveKeepsRing(s, p);
      case _ =>
    }
    forall v | 0 <= v < |s.users| ensures UserLocal(Step(s, l), v) {
      assert UserLocal(s, v);
      StepKeepsUserLocal(s, l, v);
    }
    forall q | 0 <= q < |s.printers| ensures PrinterLocal(Step(s, l), q) {
      assert PrinterLocal(s, q);
      StepKeepsPrinterLocal(s, l, q);
    }
  }

  lemma InitInv(maxJobs: nat, size: nat, nUsers: nat, nPrinters: nat)
    requires maxJobs > 0
    ensures Inv(Init(maxJobs, size, nUsers, nPrinters))
  {
    var s := Init(maxJobs, size, nUsers, nPrinters);
    TotalUniform(s.users, 0, UCs);
    TotalUniform(s.users, 0, UReserved);
    TotalUniform(s.users, 0, UUnposted);
    TotalUniform(s.printers, 0, PCs);
    TotalUniform(s.printers, 0, PReserved);
    TotalUniform(s.printers, 0, PUnposted);
  }
}
