/** The message-queue chat of cw07 as a state machine: any number of client processes, one server,
    bounded POSIX queues. The server's queue delivers the oldest message of the highest priority;
    registrations and texts travel at priority 1, exits at priority 2. Receiving a message and
    each single send of a broadcast are separate steps. Sends and mq_open succeed (a send waits
    for room), and at most as many clients register as the server's table has slots, which the
    server itself does not check. */
module ChatSpec {
  import opened Basics

  // The tags of msg_t; an INIT carries the name of the client's queue, here its process.
  datatype Message = InitMsg(process: nat) | IdMsg(id: nat) | TextMsg(id: nat, text: string) | ExitMsg(slot: int)

  // ---------------------------------------------------------------- the server's own data

  // client_queues (-1 for none, else the process whose queue is open), curr_max_client_num, and
  // everything ever sent to each process's queue.
  datatype Table = Table(queues: seq<int>, currMax: nat, inboxes: seq<seq<Message>>)

  function SendTo(t: Table, p: nat, m: Message): Table
    requires p < |t.inboxes|
  {
    t.(inboxes := t.inboxes[p := t.inboxes[p] + [m]])
  }

  function Register(t: Table, p: nat): Table
    requires t.currMax < |t.queues| && p < |t.inboxes|
  {
    SendTo(t.(queues := t.queues[t.currMax := p], currMax := t.currMax + 1), p, IdMsg(t.currMax))
  }

  function Close(t: Table, id: int): Table {
    if 0 <= id < |t.queues| then t.(queues := t.queues[id := -1]) else t
  }

  ghost predicate Addressable(t: Table) {
    t.currMax <= |t.queues| && forall i :: 0 <= i < t.currMax ==> -1 <= t.queues[i] < |t.inboxes|
  }

  // One turn of the broadcast loop, and all turns from the i-th on.
  ghost function DeliverOne(t: Table, i: nat, m: Message): Table
    requires Addressable(t) && i < t.currMax
  {
    if t.queues[i] == -1 then t else SendTo(t, t.queues[i], m)
  }

  ghost function DeliverFrom(t: Table, i: nat, m: Message): Table
    requires Addressable(t)
    decreases t.currMax - i
  {
    if i >= t.currMax then t else DeliverFrom(DeliverOne(t, i, m), i + 1, m)
  }

  // What the handler of a message makes of the table when it runs in one go.
  ghost function Dispatched(t: Table, m: Message): Table
    requires Addressable(t) && (m.InitMsg? ==> t.currMax < |t.queues| && m.process < |t.inboxes|)
  {
    match m
    case InitMsg(p) => Register(t, p)
    case TextMsg(_, _) => DeliverFrom(t, 0, m)
    case ExitMsg(id) => Close(t, id)
    case IdMsg(_) => t
  }

  // ---------------------------------------------------------------- the whole system

  // `from` is a history variable: the message itself does not say which process sent it.
  datatype Envelope = Envelope(from: nat, priority: nat, msg: Message)

  datatype Phase = NotStarted | Registering | Chatting(id: nat) | Gone(id: nat)
  // `sent` is the history of texts sent; `read` counts the messages taken from the own queue.
  datatype Client = Client(phase: Phase, sent: seq<string>, read: nat)

  datatype ServerPc = Idle | Broadcasting(msg: Message, next: nat)
  datatype Logged = Logged(from: nat, msg: Message)

  // `log` lists the texts in the order the server received them. For each slot ever used, `owner`
  // says who registered there, and `since` and `until` the lengths of the log at registration
  // and at the exit.
  datatype State = State(
    capacity: nat, table: Table, mailbox: seq<Envelope>, clients: seq<Client>, pc: ServerPc,
    log: seq<Logged>, owner: seq<nat>, since: seq<nat>, until: seq<Option<nat>>)

  datatype Label =
    | Start(p: nat) | GetId(p: nat) | Send(p: nat, text: string) | Leave(p: nat) | Listen(p: nat)
    | Receive | Deliver

  function Init(capacity: nat, slots: nat, processes: nat): State {
    State(capacity, Table(seq(slots, _ => -1), 0, seq(processes, _ => [])), [],
          seq(processes, _ => Client(NotStarted, [], 0)), Idle, [], [], [], [])
  }

  // The message mq_receive returns: the oldest one of the highest priority.
  function Pick(m: seq<Envelope>): (r: nat)
    requires m != []
    ensures r < |m|
    ensures forall j :: 0 <= j < |m| ==> m[j].priority <= m[r].priority
    ensures forall j :: 0 <= j < r ==> m[j].priority < m[r].priority
  {
    if |m| == 1 then 0
    else
      var r := Pick(m[..|m| - 1]);
      if m[r].priority < m[|m| - 1].priority then |m| - 1 else r
  }

  function Post(s: State, e: Envelope): State { s.(mailbox := s.mailbox + [e]) }

  function SetPhase(s: State, p: nat, phase: Phase): State
    requires p < |s.clients|
  {
    s.(clients := s.clients[p := s.clients[p].(phase := phase)])
  }

  predicate Enabled(s: State, l: Label) {
    match l
    case Start(p) => p < |s.clients| && s.clients[p].phase.NotStarted? && |s.mailbox| < s.capacity
    case GetId(p) =>
      p < |s.clients| && s.clients[p].phase.Registering? && p < |s.table.inboxes| && s.table.inboxes[p] != []
    case Send(p, _) => p < |s.clients| && s.clients[p].phase.Chatting? && |s.mailbox| < s.capacity
    case Leave(p) => p < |s.clients| && s.clients[p].phase.Chatting? && |s.mailbox| < s.capacity
    case Listen(p) =>
      p < |s.clients| && s.clients[p].phase.Chatting? && p < |s.table.inboxes| &&
      s.clients[p].read < |s.table.inboxes[p]|
    case Receive =>
      s.pc.Idle? && s.mailbox != [] &&
      var m := s.mailbox[Pick(s.mailbox)].msg;
      m.InitMsg? ==> s.table.currMax < |s.table.queues| && m.process < |s.table.inboxes|
    case Deliver =>
      s.pc.Broadcasting? && s.pc.next < s.table.currMax <= |s.table.queues| &&
      var q := s.table.queues[s.pc.next];
      q == -1 ||
      (0 <= q < |s.table.inboxes| && q < |s.clients| && |s.table.inboxes[q]| < s.clients[q].read + s.capacity)
  }

  function FromTurn(m: Message, i: nat, currMax: nat): ServerPc { if i < currMax then Broadcasting(m, i) else Idle }

  function ReceiveStep(s: State): State
    requires Enabled(s, Receive)
  {
    var i := Pick(s.mailbox);
    var e := s.mailbox[i];
    var s' := s.(mailbox := s.mailbox[..i] + s.mailbox[i + 1..]);
    match e.msg
    case InitMsg(p) =>
      s'.(table := Register(s.table, p), owner := s.owner + [p],
          since := s.since + [|s.log|], until := s.until + [None])
    case TextMsg(_, _) => s'.(log := s.log + [Logged(e.from, e.msg)], pc := FromTurn(e.msg, 0, s.table.currMax))
    case ExitMsg(id) =>
      s'.(table := Close(s.table, id),
          until := if 0 <= id < |s.until| && s.until[id].None? then s.until[id := Some(|s.log|)] else s.until)
    case IdMsg(_) => s'
  }

  ghost function Step(s: State, l: Label): State
    requires Addressable(s.table) && Enabled(s, l)
  {
    match l
    case Start(p) => Post(SetPhase(s, p, Registering), Envelope(p, 1, InitMsg(p)))
    case GetId(p) =>
      // the type of the message is not checked
      var m := s.table.inboxes[p][0];
      var id := match m case IdMsg(i) => i case TextMsg(i, _) => i case _ => 0;
      s.(clients := s.clients[p := Client(Chatting(id), s.clients[p].sent, 1)])
    case Send(p, text) =>
      Post(s, Envelope(p, 1, TextMsg(s.clients[p].phase.id, text)))
      .(clients := s.clients[p := s.clients[p].(sent := s.clients[p].sent + [text])])
    case Leave(p) =>
      var id := s.clients[p].phase.id;
      Post(SetPhase(s, p, Gone(id)), Envelope(p, 2, ExitMsg(id)))
    case Listen(p) => s.(clients := s.clients[p := s.clients[p].(read := s.clients[p].read + 1)])
    case Receive => ReceiveStep(s)
    case Deliver =>
      s.(table := DeliverOne(s.table, s.pc.next, s.pc.msg), pc := FromTurn(s.pc.msg, s.pc.next + 1, s.table.currMax))
  }

  // ---------------------------------------------------------------- the inductive invariant

  ghost predicate SlotsOk(s: State) {
    && |s.table.inboxes| == |s.clients|
    && s.table.currMax <= |s.table.queues|
    && |s.owner| == |s.since| == |s.until| == s.table.currMax
    && (forall c :: 0 <= c < |s.owner| ==> s.owner[c] < |s.clients|)
    && (forall c, d :: 0 <= c < d < |s.owner| ==> s.owner[c] != s.owner[d])
    && (forall c :: 0 <= c < |s.owner| ==> s.table.queues[c] == (if s.until[c].None? then s.owner[c] else -1))
    && (s.pc.Broadcasting? ==> s.pc.next < s.table.currMax && s.log != [] && s.log[|s.log| - 1].msg == s.pc.msg)
  }

  // How much of the log slot c has been sent.
  ghost function Seen(s: State, c: nat): int
    requires c < |s.until|
  {
    if s.until[c].Some? then s.until[c].value
    else if s.pc.Broadcasting? && s.pc.next <= c then |s.log| - 1
    else |s.log|
  }

  ghost function Messages(log: seq<Logged>): seq<Message> { seq(|log|, i requires 0 <= i < |log| => log[i].msg) }

  // The history of a client's queue: its id, then one window of the log.
  ghost predicate Window(s: State, c: nat)
    requires SlotsOk(s) && c < |s.owner|
  {
    && s.since[c] <= Seen(s, c) <= |s.log|
    && s.table.inboxes[s.owner[c]] == [IdMsg(c)] + Messages(s.log[s.since[c]..Seen(s, c)])
  }

  ghost predicate Windows(s: State)
    requires SlotsOk(s)
  {
    forall c :: 0 <= c < |s.owner| ==> Window(s, c)
  }

  ghost predicate EnvelopeOk(s: State, e: Envelope) {
    && e.from < |s.clients|
    && e.priority == (if e.msg.ExitMsg? then 2 else 1)
    && match s.clients[e.from].phase
       case NotStarted => false
       case Registering => e.msg == InitMsg(e.from) && e.from !in s.owner
       case Chatting(c) => e.msg.TextMsg? && e.msg.id == c
       case Gone(c) => (e.msg.TextMsg? && e.msg.id == c) || e.msg == ExitMsg(c)
  }

  ghost predicate ClientOk(s: State, p: nat)
    requires SlotsOk(s) && p < |s.clients|
  {
    match s.clients[p].phase
    case NotStarted => p !in s.owner
    case Registering => s.table.inboxes[p] != [] ==> p in s.owner
    case Chatting(c) => c < |s.owner| && s.owner[c] == p
    case Gone(c) => c < |s.owner| && s.owner[c] == p
  }

  ghost predicate MailOk(s: State)
    requires SlotsOk(s)
  {
    && (forall p :: 0 <= p < |s.clients| ==> ClientOk(s, p))
    && (forall i :: 0 <= i < |s.mailbox| ==> EnvelopeOk(s, s.mailbox[i]))
    && (forall i, j :: 0 <= i < j < |s.mailbox| && s.mailbox[i].msg.InitMsg? ==> s.mailbox[i].from != s.mailbox[j].from)
    // somebody without a slot has been sent nothing
    && (forall p :: 0 <= p < |s.clients| && p !in s.owner ==> s.table.inboxes[p] == [])
  }

  // Every logged text carries the slot of the client that sent it, and came after that client
  // was registered there.
  ghost predicate LogOk(s: State)
    requires SlotsOk(s)
  {
    forall k :: 0 <= k < |s.log| ==>
      && s.log[k].msg.TextMsg? && s.log[k].msg.id < |s.owner|
      && s.owner[s.log[k].msg.id] == s.log[k].from && s.since[s.log[k].msg.id] <= k
  }

  ghost function Pending(m: seq<Envelope>, p: nat): seq<string> {
    if m == [] then []
    else
      var e := m[|m| - 1];
      Pending(m[..|m| - 1], p) + (if e.from == p && e.msg.TextMsg? then [e.msg.text] else [])
  }

  ghost function LoggedBy(log: seq<Logged>, p: nat): seq<string> {
    if log == [] then []
    else
      var e := log[|log| - 1];
      LoggedBy(log[..|log| - 1], p) + (if e.from == p && e.msg.TextMsg? then [e.msg.text] else [])
  }

  // What a client has sent is what the log has of it, then what still waits, in that order.
  ghost predicate InOrder(s: State) {
    forall p :: 0 <= p < |s.clients| ==> s.clients[p].sent == LoggedBy(s.log, p) + Pending(s.mailbox, p)
  }

  ghost predicate Inv(s: State) {
    SlotsOk(s) && Windows(s) && MailOk(s) && LogOk(s) && InOrder(s)
  }

  // ---------------------------------------------------------------- proofs

  lemma InitInv(capacity: nat, slots: nat, processes: nat)
    ensures Inv(Init(capacity, slots, processes))
  {
  }

  lemma {:induction false} PendingConcat(a: seq<Envelope>, b: seq<Envelope>, p: nat)
    ensures Pending(a + b, p) == Pending(a, p) + Pending(b, p)
  {
    if b == [] {
      assert a + b == a;
    } else {
      assert (a + b)[..|a + b| - 1] == a + b[..|b| - 1];
      PendingConcat(a, b[..|b| - 1], p);
    }
  }

  lemma PendingWithout(m: seq<Envelope>, i: nat, p: nat)
    requires i < |m| && !(m[i].msg.TextMsg? && m[i].from == p)
    ensures Pending(m, p) == Pending(m[..i] + m[i + 1..], p)
  {
    var front, back := m[..i], m[i + 1..];
    assert m == (front + [m[i]]) + back;
    assert (front + [m[i]])[..i] == front;
    PendingConcat(front + [m[i]], back, p);
    PendingConcat(front, back, p);
  }

  // Only an exit can overtake: a text that is received is the oldest message of all.
  lemma TextsAreOldest(s: State)
    requires SlotsOk(s) && MailOk(s) && s.mailbox != [] && !s.mailbox[Pick(s.mailbox)].msg.ExitMsg?
    ensures Pick(s.mailbox) == 0
    ensures forall i :: 0 <= i < |s.mailbox| ==> !s.mailbox[i].msg.ExitMsg?
  {
    var i := Pick(s.mailbox);
    assert EnvelopeOk(s, s.mailbox[i]);
    assert EnvelopeOk(s, s.mailbox[0]);
  }
}
