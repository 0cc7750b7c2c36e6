/** The print queue as the two programs keep it: one shared segment whose fields every process
    updates in place, one statement at a time. */
module PrintQueue {
  import opened PrintQueueSpec

  class SharedQueue {
    const size: nat           // PRINTER_BUFFER_SIZE
    const jobs: array2<char>  // MAX_JOBS rows of `size` bytes
    var head: nat
    var tail: nat
    var mutex: nat
    var empty: nat
    var full: nat
    var users: seq<User>        // what each user process keeps on its own stack
    var printers: seq<Printer>  // what each printer process keeps on its own stack
    ghost var put: seq<Entry>
    ghost var taken: seq<Entry>

    ghost function Row(i: nat): Job
      requires i < jobs.Length0
      reads jobs
    {
      seq(jobs.Length1, j requires 0 <= j < jobs.Length1 reads jobs => jobs[i, j])
    }

    ghost function Rows(): seq<Job>
      reads jobs
    {
      seq(jobs.Length0, i requires 0 <= i < jobs.Length0 reads jobs => Row(i))
    }

    ghost function View(): State
      reads this, jobs
    {
      State(size, Rows(), head, tail, mutex, empty, full, users, printers, put, taken)
    }

    ghost predicate Valid()
      reads this, jobs
    {
      jobs.Length1 == size && Inv(View())
    }

    // setup_printer_queue, with all processes about to enter their loops.
    constructor (maxJobs: nat, size: nat, nUsers: nat, nPrinters: nat)
      requires maxJobs > 0
      ensures Valid() && View() == Init(maxJobs, size, nUsers, nPrinters) && fresh(jobs)
      ensures forall i, j :: 0 <= i < jobs.Length0 && 0 <= j < jobs.Length1 ==> jobs[i, j] == '\0'
    {
      this.size := size;
      jobs := new char[maxJobs, size]((i, j) => '\0');
      head, tail, mutex, empty, full := 0, 0, 1, maxJobs, 0;
      users := seq(nUsers, _ => User(Generate, [], []));
      printers := seq(nPrinters, _ => Printer(Top, [], []));
      put, taken := [], [];
      new;
      InitInv(maxJobs, size, nUsers, nPrinters);
      assert Rows() == Init(maxJobs, size, nUsers, nPrinters).jobs by {
        forall i | 0 <= i < maxJobs ensures Row(i) == Blank(size) {
        }
      }
    }

    lemma WriteByte(before: seq<Job>, i: nat, j: nat)
      requires i < jobs.Length0 == |before| && j < jobs.Length1
      requires forall a, b :: 0 <= a < jobs.Length0 && 0 <= b < jobs.Length1 && !(a == i && b == j) ==>
                 b < |before[a]| && jobs[a, b] == before[a][b]
      requires forall a :: 0 <= a < |before| ==> |before[a]| == jobs.Length1
      ensures Rows() == before[i := before[i][j := jobs[i, j]]]
    {
      forall a | 0 <= a < jobs.Length0 ensures Row(a) == before[i := before[i][j := jobs[i, j]]][a] {
      }
    }

    // One statement of user_process on the shared fields. A wait on a semaphore at zero does not happen.
    method RunUser(u: nat, text: Job) returns (ok: bool)
      requires jobs.Length1 == size && Shape(View())
      modifies this, jobs
      ensures ok == Enabled(old(View()), UserStep(u, text))
      ensures View() == if ok then UserMove(old(View()), u, text) else old(View())
    {
      ghost var before := View();
      ok := u < |users|;
      if !ok { return; }
      var me := users[u];
      match me.pc {
        case Generate =>
          ok := |text| == size;
          if ok { me := me.(pc := WaitEmpty, buf := text); }
        case WaitEmpty =>
          ok := empty > 0;
          if ok { empty, me := empty - 1, me.(pc := WaitMutex); }
        case WaitMutex =>
          ok := mutex > 0;
          if ok { mutex, me := mutex - 1, me.(pc := CopyInFrom(0, size)); }
        case CopyIn(k) =>
          jobs[tail, k] := me.buf[k];
          me := me.(pc := CopyInFrom(k + 1, size));
          WriteByte(before.jobs, tail, k);
        case AdvanceTail =>
          tail := (tail + 1) % jobs.Length0;
          put := put + [Entry(u, me.buf)];
          me := me.(pc := PostFull);
        case PostFull =>
          full, me := full + 1, me.(pc := PostMutex);
        case PostMutex =>
          mutex, me := mutex + 1, me.(pc := Generate, sent := me.sent + [me.buf]);
        case Left =>
          ok := false;
      }
      users := users[u := me];
    }

    // The same statement from a reachable state, which leads to a reachable state.
    method UserStatement(u: nat, text: Job) returns (ok: bool)
      requires Valid()
      modifies this, jobs
      ensures Valid()
      ensures ok == Enabled(old(View()), UserStep(u, text))
      ensures View() == if ok then Step(old(View()), UserStep(u, text)) else old(View())
    {
      ghost var before := View();
      ok := RunUser(u, text);
      if ok {
        StepKeepsInv(before, UserStep(u, text));
      }
    }

    // One statement of printer_process.
    method RunPrinter(p: nat) returns (ok: bool)
      requires jobs.Length1 == size && Shape(View())
      modifies this
      ensures ok == Enabled(old(View()), PrinterStep(p))
      ensures View() == if ok then PrinterMove(old(View()), p) else old(View())
    {
      ok := p < |printers|;
      if !ok { return; }
      var me := printers[p];
      match me.pc {
        case Top =>
          me := me.(pc := WaitFull);
        case WaitFull =>
          ok := full > 0;
          if ok { full, me := full - 1, me.(pc := WaitQueue); }
        case WaitQueue =>
          ok := mutex > 0;
          if ok { mutex, me := mutex - 1, me.(pc := CopyOutFrom(0, size), job := Blank(size)); }
        case CopyOut(k) =>
          me := me.(pc := CopyOutFrom(k + 1, size), job := me.job[k := jobs[head, k]]);
        case AdvanceHead =>
          head := (head + 1) % jobs.Length0;
          taken := taken + [Entry(p, me.job)];
          me := me.(pc := PostQueue);
        case PostQueue =>
          mutex, me := mutex + 1, me.(pc := PostEmpty);
        case PostEmpty =>
          empty, me := empty + 1, me.(pc := Print);
        case Print =>
          me := me.(pc := Top, printed := me.printed + [me.job]);
        case Gone =>
          ok := false;
      }
      printers := printers[p := me];
    }

    // The same from a reachable state.
    method PrinterStatement(p: nat) returns (ok: bool)
      requires Valid()
      modifies this
      ensures Valid()
      ensures ok == Enabled(old(View()), PrinterStep(p))
      ensures View() == if ok then Step(old(View()), PrinterStep(p)) else old(View())
    {
      ghost var before := View();
      ok := RunPrinter(p);
      if ok {
        StepKeepsInv(before, PrinterStep(p));
      }
    }
  }
}
