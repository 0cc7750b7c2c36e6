/** What every run of the chat keeps and guarantees: each client sees its id and then one window of
    a single log, and each sender's texts enter that log in the order it sent them. */
module ChatRuns {
  import opened Basics
  import opened ChatSpec

  // ---------------------------------------------------------------- client steps

  // A client step that moves nobody's slot and nobody's inbox.
  lemma ClientStepKeepsServerSide(s: State, s': State)
    requires SlotsOk(s) && Windows(s) && LogOk(s)
    requires s' == s.(mailbox := s'.mailbox, clients := s'.clients) && |s'.clients| == |s.clients|
    ensures SlotsOk(s') && Windows(s') && LogOk(s')
  {
    forall c | 0 <= c < |s'.owner| ensures Window(s', c) {
      assert Window(s, c);
    }
  }

  // Client p moves to `me`, posting the messages `es` (at most one).
  lemma ClientStepKeepsMail(s: State, p: nat, me: Client, es: seq<Envelope>)
    requires SlotsOk(s) && MailOk(s) && p < |s.clients| && |es| <= 1
    requires var s' := s.(clients := s.clients[p := me], mailbox := s.mailbox + es);
      && ClientOk(s', p)
      && (forall i :: 0 <= i < |s.mailbox| && s.mailbox[i].from == p ==> EnvelopeOk(s', s.mailbox[i]))
      && (es != [] ==> es[0].from == p && EnvelopeOk(s', es[0]))
      && (forall i :: 0 <= i < |s.mailbox| && s.mailbox[i].from == p && s.mailbox[i].msg.InitMsg? ==> es == [])
    ensures MailOk(s.(clients := s.clients[p := me], mailbox := s.mailbox + es))
  {
    var s' := s.(clients := s.clients[p := me], mailbox := s.mailbox + es);
    forall q | 0 <= q < |s.clients| ensures ClientOk(s', q) {
      assert ClientOk(s, q);
    }
    forall i | 0 <= i < |s'.mailbox| ensures EnvelopeOk(s', s'.mailbox[i]) {
      if i < |s.mailbox| {
        assert EnvelopeOk(s, s.mailbox[i]);
      }
    }
  }

  lemma Regroup<T>(a: seq<T>, b: seq<T>, c: seq<T>)
    ensures (a + b) + c == a + (b + c)
  {
  }

  // A posted text is the last of its sender's, whatever has been logged before.
  lemma Posting(mailbox: seq<Envelope>, e: Envelope, q: nat, logged: seq<string>)
    ensures logged + Pending(mailbox + [e], q)
         == (logged + Pending(mailbox, q)) + (if e.from == q && e.msg.TextMsg? then [e.msg.text] else [])
  {
    assert (mailbox + [e])[..|mailbox|] == mailbox;
    Regroup(logged, Pending(mailbox, q), if e.from == q && e.msg.TextMsg? then [e.msg.text] else []);
  }

  lemma ClientStepKeepsOrder(s: State, p: nat, me: Client, es: seq<Envelope>)
    requires InOrder(s) && p < |s.clients| && |es| <= 1 && (es != [] ==> es[0].from == p)
    requires me.sent == s.clients[p].sent + (if es != [] && es[0].msg.TextMsg? then [es[0].msg.text] else [])
    ensures InOrder(s.(clients := s.clients[p := me], mailbox := s.mailbox + es))
  {
    forall q | 0 <= q < |s.clients|
      ensures (if q == p then me else s.clients[q]).sent == LoggedBy(s.log, q) + Pending(s.mailbox + es, q)
    {
      if es == [] {
        assert s.mailbox + es == s.mailbox;
      } else {
        assert es == [es[0]];
        Posting(s.mailbox, es[0], q, LoggedBy(s.log, q));
      }
    }
  }

  lemma ClientStepKeepsInv(s: State, l: Label, p: nat, me: Client, es: seq<Envelope>)
    requires Inv(s) && Enabled(s, l) && !l.Receive? && !l.Deliver? && Addressable(s.table) && p == l.p
    requires me == Step(s, l).clients[p]
    requires es == if l.Start? then [Envelope(p, 1, InitMsg(p))]
                   else if l.Send? then [Envelope(p, 1, TextMsg(s.clients[p].phase.id, l.text))]
                   else if l.Leave? then [Envelope(p, 2, ExitMsg(s.clients[p].phase.id))]
                   else []
    ensures Inv(Step(s, l))
  {
    var s' := s.(clients := s.clients[p := me], mailbox := s.mailbox + es);
    assert ClientOk(s, p);
    if l.GetId? {
      var c :| 0 <= c < |s.owner| && s.owner[c] == p;
      assert Window(s, c);
    }
    forall i | 0 <= i < |s.mailbox| && s.mailbox[i].from == p
      ensures EnvelopeOk(s', s.mailbox[i]) && (s.mailbox[i].msg.InitMsg? ==> es == [])
    {
      assert EnvelopeOk(s, s.mailbox[i]);
    }
    ClientStepKeepsMail(s, p, me, es);
    ClientStepKeepsOrder(s, p, me, es);
    ClientStepKeepsServerSide(s, s');
    assert s.mailbox + [] == s.mailbox;
    assert s' == Step(s, l);
  }

  // ---------------------------------------------------------------- server steps

  lemma RemoveKeepsMail(s: State, s': State, i: nat)
    requires SlotsOk(s) && MailOk(s) && SlotsOk(s') && i < |s.mailbox|
    requires s'.clients == s.clients && s'.mailbox == s.mailbox[..i] + s.mailbox[i + 1..]
    requires s'.owner == s.owner && s'.table.inboxes == s.table.inboxes
    ensures MailOk(s')
  {
    forall j | 0 <= j < |s.mailbox| ensures EnvelopeOk(s', s.mailbox[j]) {
      assert EnvelopeOk(s, s.mailbox[j]);
    }
    forall q | 0 <= q < |s.clients| ensures ClientOk(s', q) {
      assert ClientOk(s, q);
    }
  }

  lemma RemoveKeepsOrder(s: State, s': State, i: nat)
    requires InOrder(s) && i < |s.mailbox| && !s.mailbox[i].msg.TextMsg?
    requires s'.clients == s.clients && s'.log == s.log && s'.mailbox == s.mailbox[..i] + s.mailbox[i + 1..]
    ensures InOrder(s')
  {
    forall q | 0 <= q < |s.clients| ensures s'.clients[q].sent == LoggedBy(s'.log, q) + Pending(s'.mailbox, q) {
      PendingWithout(s.mailbox, i, q);
    }
  }

  lemma RegisterKeepsSlots(s: State, p: nat)
    requires SlotsOk(s) && s.pc.Idle? && s.table.currMax < |s.table.queues| && p < |s.clients| && p !in s.owner
    ensures SlotsOk(s.(table := Register(s.table, p), owner := s.owner + [p], since := s.since + [|s.log|],
                       until := s.until + [None]))
  {
  }

  lemma RegisterKeepsWindows(s: State, s': State, p: nat)
    requires SlotsOk(s) && Windows(s) && s.pc.Idle? && s.table.currMax < |s.table.queues|
    requires p < |s.clients| && p !in s.owner && s.table.inboxes[p] == []
    requires SlotsOk(s') && s'.pc == s.pc && s'.log == s.log && s'.table == Register(s.table, p)
    requires s'.owner == s.owner + [p] && s'.since == s.since + [|s.log|] && s'.until == s.until + [None]
    ensures Windows(s')
  {
    forall c | 0 <= c < |s'.owner| ensures Window(s', c) {
      if c < |s.owner| {
        assert Window(s, c);
        assert s.owner[c] != p;
      } else {
        assert Messages(s'.log[|s.log|..|s.log|]) == [];
      }
    }
  }

  lemma RegisterKeepsMail(s: State, s': State, i: nat)
    requires SlotsOk(s) && MailOk(s) && i < |s.mailbox| && s.mailbox[i].msg.InitMsg?
    requires s.table.currMax < |s.table.queues| && s.mailbox[i].from < |s.clients|
    requires SlotsOk(s') && s'.table == Register(s.table, s.mailbox[i].from) && s'.clients == s.clients
    requires s'.owner == s.owner + [s.mailbox[i].from] && s'.mailbox == s.mailbox[..i] + s.mailbox[i + 1..]
    ensures MailOk(s')
  {
    var p := s.mailbox[i].from;
    assert EnvelopeOk(s, s.mailbox[i]);
    forall j | 0 <= j < |s.mailbox| && j != i ensures EnvelopeOk(s', s.mailbox[j]) {
      assert EnvelopeOk(s, s.mailbox[j]);
      assert s.mailbox[j].msg.InitMsg? ==> s.mailbox[j].from != p;
    }
    forall q | 0 <= q < |s.clients| ensures ClientOk(s', q) {
      assert ClientOk(s, q);
      assert q in s'.owner <==> q in s.owner || q == p;
    }
  }

  lemma RegisterKeepsLog(s: State, s': State, p: nat)
    requires SlotsOk(s) && LogOk(s) && SlotsOk(s') && s'.log == s.log
    requires s'.owner == s.owner + [p] && s'.since == s.since + [|s.log|]
    ensures LogOk(s')
  {
  }

  lemma InitKeepsInv(s: State, s': State, p: nat, i: nat)
    requires SlotsOk(s) && Windows(s) && MailOk(s) && LogOk(s) && InOrder(s)
    requires i < |s.mailbox| && s.mailbox[i].msg.InitMsg? && p == s.mailbox[i].from < |s.clients|
    requires s.pc.Idle? && s.table.currMax < |s.table.queues| && p !in s.owner && s.table.inboxes[p] == []
    requires s' == s.(mailbox := s.mailbox[..i] + s.mailbox[i + 1..], table := Register(s.table, p),
                      owner := s.owner + [p], since := s.since + [|s.log|], until := s.until + [None])
    ensures Inv(s')
  {
    RegisterKeepsSlots(s, p);
    RegisterKeepsWindows(s, s', p);
    RegisterKeepsLog(s, s', p);
    RegisterKeepsMail(s, s', i);
    RemoveKeepsOrder(s, s', i);
  }

  lemma ReceiveInitKeepsInv(s: State)
    requires Inv(s) && Enabled(s, Receive) && s.mailbox[Pick(s.mailbox)].msg.InitMsg?
    ensures Inv(ReceiveStep(s))
  {
    var i := Pick(s.mailbox);
    assert EnvelopeOk(s, s.mailbox[i]);
    InitKeepsInv(s, ReceiveStep(s), s.mailbox[i].from, i);
  }

  lemma CloseKeepsWindows(s: State, s': State, id: nat)
    requires SlotsOk(s) && Windows(s) && s.pc.Idle? && id < |s.owner|
    requires s'.table == Close(s.table, id) && s'.clients == s.clients && s'.log == s.log && s'.pc == s.pc
    requires s'.owner == s.owner && s'.since == s.since
    requires s'.until == (if s.until[id].None? then s.until[id := Some(|s.log|)] else s.until)
    ensures SlotsOk(s') && Windows(s')
  {
    forall c | 0 <= c < |s'.owner| ensures Window(s', c) {
      assert Window(s, c);
      assert Seen(s', c) == Seen(s, c);
    }
  }

  lemma ExitNamesOwnSlot(s: State, i: nat)
    requires SlotsOk(s) && MailOk(s) && i < |s.mailbox| && s.mailbox[i].msg.ExitMsg?
    ensures var e := s.mailbox[i];
      0 <= e.msg.slot < |s.owner| && s.owner[e.msg.slot] == e.from
  {
    assert EnvelopeOk(s, s.mailbox[i]);
    assert ClientOk(s, s.mailbox[i].from);
  }

  lemma CloseKeepsLog(s: State, s': State)
    requires SlotsOk(s) && LogOk(s) && SlotsOk(s')
    requires s'.log == s.log && s'.owner == s.owner && s'.since == s.since
    ensures LogOk(s')
  {
  }

  lemma ExitKeepsInv(s: State, s': State, id: nat, i: nat)
    requires SlotsOk(s) && Windows(s) && MailOk(s) && LogOk(s) && InOrder(s)
    requires i < |s.mailbox| && s.mailbox[i].msg.ExitMsg? && s.pc.Idle? && id < |s.owner|
    requires s' == s.(mailbox := s.mailbox[..i] + s.mailbox[i + 1..], table := Close(s.table, id),
                      until := if s.until[id].None? then s.until[id := Some(|s.log|)] else s.until)
    ensures Inv(s')
  {
    CloseKeepsWindows(s, s', id);
    CloseKeepsLog(s, s');
    RemoveKeepsMail(s, s', i);
    RemoveKeepsOrder(s, s', i);
  }

  lemma ExitStepIs(s: State, id: nat, i: nat)
    requires Enabled(s, Receive) && i == Pick(s.mailbox) && s.mailbox[i].msg == ExitMsg(id) && id < |s.until|
    ensures ReceiveStep(s) ==
      s.(mailbox := s.mailbox[..i] + s.mailbox[i + 1..], table := Close(s.table, id),
         until := if s.until[id].None? then s.until[id := Some(|s.log|)] else s.until)
  {
  }

  lemma ReceiveExitKeepsInv(s: State)
    requires Inv(s) && Enabled(s, Receive) && s.mailbox[Pick(s.mailbox)].msg.ExitMsg?
    ensures Inv(ReceiveStep(s))
  {
    var i := Pick(s.mailbox);
    ExitNamesOwnSlot(s, i);
    ExitStepIs(s, s.mailbox[i].msg.slot, i);
    ExitKeepsInv(s, ReceiveStep(s), s.mailbox[i].msg.slot, i);
  }

  lemma LogTextKeepsWindows(s: State, s': State, e: Logged)
    requires SlotsOk(s) && Windows(s) && s.pc.Idle? && s.table.currMax > 0
    requires s'.table == s.table && s'.clients == s.clients && s'.log == s.log + [e]
    requires s'.owner == s.owner && s'.since == s.since && s'.until == s.until && s'.pc == Broadcasting(e.msg, 0)
    ensures SlotsOk(s') && Windows(s')
  {
    forall c | 0 <= c < |s'.owner| ensures Window(s', c) {
      assert Window(s, c);
      assert Seen(s', c) == Seen(s, c);
      assert s'.log[s'.since[c]..Seen(s', c)] == s.log[s.since[c]..Seen(s, c)];
    }
  }

  lemma LoggedNext(log: seq<Logged>, e: Logged, q: nat)
    ensures LoggedBy(log + [e], q) == LoggedBy(log, q) + (if e.from == q && e.msg.TextMsg? then [e.msg.text] else [])
  {
    assert (log + [e])[..|log|] == log;
  }

  lemma PendingHead(mailbox: seq<Envelope>, q: nat)
    requires mailbox != [] && mailbox[0].msg.TextMsg?
    ensures Pending(mailbox, q)
         == (if mailbox[0].from == q then [mailbox[0].msg.text] else []) + Pending(mailbox[1..], q)
  {
    assert mailbox == [mailbox[0]] + mailbox[1..];
    PendingConcat([mailbox[0]], mailbox[1..], q);
    assert [mailbox[0]][..0] == [];
  }

  // The oldest text moves from the mailbox to the log.
  lemma TextMoves(mailbox: seq<Envelope>, log: seq<Logged>, q: nat)
    requires mailbox != [] && mailbox[0].msg.TextMsg?
    ensures var e := mailbox[0];
      LoggedBy(log + [Logged(e.from, e.msg)], q) + Pending(mailbox[1..], q) == LoggedBy(log, q) + Pending(mailbox, q)
  {
    var e := mailbox[0];
    var moved := if e.from == q then [e.msg.text] else [];
    LoggedNext(log, Logged(e.from, e.msg), q);
    PendingHead(mailbox, q);
    Regroup(LoggedBy(log, q), moved, Pending(mailbox[1..], q));
  }

  lemma LogTextKeepsOrder(s: State, s': State, e: Envelope)
    requires InOrder(s) && s.mailbox != [] && e == s.mailbox[0] && e.msg.TextMsg?
    requires s'.clients == s.clients && s'.log == s.log + [Logged(e.from, e.msg)] && s'.mailbox == s.mailbox[1..]
    ensures InOrder(s')
  {
    forall q | 0 <= q < |s.clients| ensures s'.clients[q].sent == LoggedBy(s'.log, q) + Pending(s'.mailbox, q) {
      TextMoves(s.mailbox, s.log, q);
    }
  }

  lemma LogTextKeepsLog(s: State, s': State, e: Logged)
    requires SlotsOk(s) && LogOk(s) && SlotsOk(s') && s'.log == s.log + [e]
    requires s'.owner == s.owner && s'.since == s.since
    requires e.msg.TextMsg? && e.msg.id < |s.owner| && s.owner[e.msg.id] == e.from && s.since[e.msg.id] <= |s.log|
    ensures LogOk(s')
  {
  }

  // The sender of the oldest text is registered under the id it carries.
  lemma SenderIsKnown(s: State)
    requires SlotsOk(s) && Windows(s) && MailOk(s) && s.mailbox != [] && s.mailbox[0].msg.TextMsg?
    ensures var e := s.mailbox[0];
      e.msg.id < |s.owner| && s.owner[e.msg.id] == e.from && s.since[e.msg.id] <= |s.log|
  {
    assert EnvelopeOk(s, s.mailbox[0]);
    assert ClientOk(s, s.mailbox[0].from);
    assert Window(s, s.mailbox[0].msg.id);
  }

  lemma TextStepIs(s: State, s': State)
    requires Enabled(s, Receive) && s.mailbox[Pick(s.mailbox)].msg.TextMsg? && Pick(s.mailbox) == 0
    requires s' == ReceiveStep(s)
    ensures var e := s.mailbox[0];
      s' == s.(mailbox := s.mailbox[1..], log := s.log + [Logged(e.from, e.msg)],
               pc := FromTurn(e.msg, 0, s.table.currMax))
  {
    assert s.mailbox[..0] + s.mailbox[1..] == s.mailbox[1..];
  }

  lemma TextKeepsInv(s: State, s': State, e: Envelope)
    requires SlotsOk(s) && Windows(s) && MailOk(s) && LogOk(s) && InOrder(s)
    requires s.mailbox != [] && e == s.mailbox[0] && e.msg.TextMsg? && s.pc.Idle?
    requires s' == s.(mailbox := s.mailbox[1..], log := s.log + [Logged(e.from, e.msg)],
                      pc := FromTurn(e.msg, 0, s.table.currMax))
    ensures Inv(s')
  {
    SenderIsKnown(s);
    LogTextKeepsWindows(s, s', Logged(e.from, e.msg));
    LogTextKeepsLog(s, s', Logged(e.from, e.msg));
    assert s.mailbox[..0] + s.mailbox[1..] == s.mailbox[1..];
    RemoveKeepsMail(s, s', 0);
    LogTextKeepsOrder(s, s', e);
  }

  lemma ReceiveTextKeepsInv(s: State)
    requires Inv(s) && Enabled(s, Receive) && s.mailbox[Pick(s.mailbox)].msg.TextMsg?
    ensures Inv(ReceiveStep(s))
  {
    TextsAreOldest(s);
    var s' := ReceiveStep(s);
    TextStepIs(s, s');
    TextKeepsInv(s, s', s.mailbox[0]);
  }

  lemma DeliverKeepsWindows(s: State, s': State)
    requires SlotsOk(s) && Windows(s) && Addressable(s.table) && s.pc.Broadcasting?
    requires s' == s.(table := DeliverOne(s.table, s.pc.next, s.pc.msg),
                      pc := FromTurn(s.pc.msg, s.pc.next + 1, s.table.currMax))
    ensures SlotsOk(s') && Windows(s')
  {
    var i := s.pc.next;
    var n := |s.log|;
    forall c | 0 <= c < |s'.owner| ensures Window(s', c) {
      assert Window(s, c);
      if c == i && s.until[c].None? {
        assert s.log[s.since[c]..n] == s.log[s.since[c]..n - 1] + [s.log[n - 1]];
        assert Messages(s.log[s.since[c]..n]) == Messages(s.log[s.since[c]..n - 1]) + [s.pc.msg];
      }
    }
  }

  lemma DeliverKeepsMail(s: State, s': State)
    requires SlotsOk(s) && MailOk(s) && Addressable(s.table) && s.pc.Broadcasting? && SlotsOk(s')
    requires s' == s.(table := DeliverOne(s.table, s.pc.next, s.pc.msg),
                      pc := FromTurn(s.pc.msg, s.pc.next + 1, s.table.currMax))
    ensures MailOk(s')
  {
    assert s.table.queues[s.pc.next] != -1 ==> s.table.queues[s.pc.next] in s.owner;
    forall j | 0 <= j < |s.mailbox| ensures EnvelopeOk(s', s.mailbox[j]) {
      assert EnvelopeOk(s, s.mailbox[j]);
    }
    forall q | 0 <= q < |s.clients| ensures ClientOk(s', q) {
      assert ClientOk(s, q);
    }
  }

  lemma SlotsAreAddressable(s: State)
    requires SlotsOk(s)
    ensures Addressable(s.table)
  {
    forall i | 0 <= i < s.table.currMax ensures -1 <= s.table.queues[i] < |s.table.inboxes| {
      assert s.owner[i] < |s.clients|;
    }
  }

  lemma ReceiveKeepsInv(s: State)
    requires Inv(s) && Enabled(s, Receive)
    ensures Inv(ReceiveStep(s))
  {
    var e := s.mailbox[Pick(s.mailbox)];
    assert EnvelopeOk(s, e);
    match e.msg
    case InitMsg(_) => ReceiveInitKeepsInv(s);
    case TextMsg(_, _) => ReceiveTextKeepsInv(s);
    case ExitMsg(_) => ReceiveExitKeepsInv(s);
    case IdMsg(_) =>
  }

  lemma StepKeepsInv(s: State, l: Label)
    requires Inv(s) && Enabled(s, l)
    ensures Addressable(s.table) && Inv(Step(s, l))
  {
    SlotsAreAddressable(s);
    match l
    case Start(p) => ClientStepKeepsInv(s, l, p, Step(s, l).clients[p], [Envelope(p, 1, InitMsg(p))]);
    case Send(p, text) =>
      ClientStepKeepsInv(s, l, p, Step(s, l).clients[p], [Envelope(p, 1, TextMsg(s.clients[p].phase.id, text))]);
    case Leave(p) =>
      ClientStepKeepsInv(s, l, p, Step(s, l).clients[p], [Envelope(p, 2, ExitMsg(s.clients[p].phase.id))]);
    case GetId(p) => ClientStepKeepsInv(s, l, p, Step(s, l).clients[p], []);
    case Listen(p) => ClientStepKeepsInv(s, l, p, Step(s, l).clients[p], []);
    case Receive => ReceiveKeepsInv(s);
    case Deliver =>
      DeliverKeepsWindows(s, Step(s, l));
      DeliverKeepsMail(s, Step(s, l));
  }

  // ---------------------------------------------------------------- runs

  ghost function Exec(capacity: nat, slots: nat, processes: nat, ls: seq<Label>): (r: Option<State>)
    ensures r.Some? ==> Inv(r.value)
  {
    if ls == [] then
      InitInv(capacity, slots, processes);
      Some(Init(capacity, slots, processes))
    else
      match Exec(capacity, slots, processes, ls[..|ls| - 1])
      case None => None
      case Some(s) =>
        if Enabled(s, ls[|ls| - 1]) then
          StepKeepsInv(s, ls[|ls| - 1]);
          Some(Step(s, ls[|ls| - 1]))
        else None
  }

  // The client's first message is its slot number, so the id it goes by is the slot its queue is in.
  lemma IdIsOwnSlot(s: State, p: nat)
    requires Inv(s) && Enabled(s, GetId(p))
    ensures Addressable(s.table) && Step(s, GetId(p)).clients[p].phase.Chatting?
    ensures var id := Step(s, GetId(p)).clients[p].phase.id; id < |s.owner| && s.owner[id] == p
  {
    SlotsAreAddressable(s);
    assert ClientOk(s, p);
    var c :| 0 <= c < |s.owner| && s.owner[c] == p;
    assert Window(s, c);
  }

  // A client's queue has been sent its id and then, one by one, the log from its registration up
  // to its exit, or as far as the server has got.
  lemma QueueIsOneWindow(s: State, c: nat)
    requires Inv(s) && c < |s.owner|
    ensures var q := s.table.inboxes[s.owner[c]];
      && 0 <= s.since[c] <= Seen(s, c) <= |s.log| && |q| == 1 + Seen(s, c) - s.since[c] && q[0] == IdMsg(c)
      && (forall i :: 1 <= i < |q| ==> q[i] == s.log[s.since[c] + i - 1].msg)
      && (s.until[c].None? && s.pc.Idle? ==> Seen(s, c) == |s.log|)
  {
    assert Window(s, c);
    var q := s.table.inboxes[s.owner[c]];
    forall i | 1 <= i < |q| ensures q[i] == s.log[s.since[c] + i - 1].msg {
      assert q[i] == Messages(s.log[s.since[c]..Seen(s, c)])[i - 1];
    }
  }

  lemma QueueHoldsStretch(s: State, c: nat, lo: nat, hi: nat)
    requires Inv(s) && c < |s.owner| && s.since[c] <= lo <= hi <= Seen(s, c)
    ensures hi <= |s.log|
    ensures var a := s.table.inboxes[s.owner[c]];
      1 + hi - s.since[c] <= |a| && a[1 + lo - s.since[c]..1 + hi - s.since[c]] == Messages(s.log[lo..hi])
  {
    QueueIsOneWindow(s, c);
  }

  // Total order: the stretch of the log that two clients have both been sent stands in the queue of
  // each, uninterrupted and message for message the same.
  lemma ClientsAgree(s: State, c: nat, d: nat, lo: nat, hi: nat)
    requires Inv(s) && c < |s.owner| && d < |s.owner|
    requires s.since[c] <= lo && s.since[d] <= lo && lo <= hi && hi <= Seen(s, c) && hi <= Seen(s, d)
    ensures hi <= |s.log|
    ensures var a, b := s.table.inboxes[s.owner[c]], s.table.inboxes[s.owner[d]];
      && 1 + hi - s.since[c] <= |a| && 1 + hi - s.since[d] <= |b|
      && a[1 + lo - s.since[c]..1 + hi - s.since[c]] == Messages(s.log[lo..hi])
      && b[1 + lo - s.since[d]..1 + hi - s.since[d]] == Messages(s.log[lo..hi])
  {
    QueueHoldsStretch(s, c, lo, hi);
    QueueHoldsStretch(s, d, lo, hi);
  }

  // ---------------------------------------------------------------- registrations and room

  // The counter goes up by one with every registration and never down.
  lemma StepCounts(s: State, l: Label)
    requires Addressable(s.table) && Enabled(s, l)
    ensures |Step(s, l).table.queues| == |s.table.queues|
    ensures Step(s, l).table.currMax
         == s.table.currMax + (if l.Receive? && s.mailbox[Pick(s.mailbox)].msg.InitMsg? then 1 else 0)
  {
  }

  // How many registrations a run has handled.
  ghost function Registrations(capacity: nat, slots: nat, processes: nat, ls: seq<Label>): nat {
    if ls == [] || Exec(capacity, slots, processes, ls).None? then 0
    else
      var s := Exec(capacity, slots, processes, ls[..|ls| - 1]).value;
      Registrations(capacity, slots, processes, ls[..|ls| - 1])
      + (if ls[|ls| - 1].Receive? && s.mailbox[Pick(s.mailbox)].msg.InitMsg? then 1 else 0)
  }

  lemma {:induction false} CounterIsRegistrations(capacity: nat, slots: nat, processes: nat, ls: seq<Label>)
    ensures match Exec(capacity, slots, processes, ls)
      case None => true
      case Some(s) =>
        && s.table.currMax == Registrations(capacity, slots, processes, ls) == |s.owner|
        && |s.table.queues| == slots
  {
    if ls != [] && Exec(capacity, slots, processes, ls).Some? {
      var front := ls[..|ls| - 1];
      CounterIsRegistrations(capacity, slots, processes, front);
      SlotsAreAddressable(Exec(capacity, slots, processes, front).value);
      StepCounts(Exec(capacity, slots, processes, front).value, ls[|ls| - 1]);
    }
  }

  // A registration stays inside the table exactly if fewer clients than slots have ever
  // registered, however many of them have left.
  lemma RegistrationFitsExactlyWhen(s: State)
    requires Inv(s) && s.pc.Idle? && s.mailbox != [] && s.mailbox[Pick(s.mailbox)].msg.InitMsg?
    ensures Enabled(s, Receive) <==> |s.owner| < |s.table.queues|
  {
    assert EnvelopeOk(s, s.mailbox[Pick(s.mailbox)]);
  }

  ghost predicate Follows(s: State, l: Label, s': State) {
    Addressable(s.table) && Enabled(s, l) && Step(s, l) == s'
  }

  // A run can be given by the states it goes through.
  lemma {:induction false} ExecThrough(capacity: nat, slots: nat, processes: nat, ls: seq<Label>, ss: seq<State>)
    requires |ss| == |ls| + 1 && ss[0] == Init(capacity, slots, processes)
    requires forall i :: 0 <= i < |ls| ==> Follows(ss[i], ls[i], ss[i + 1])
    ensures Exec(capacity, slots, processes, ls) == Some(ss[|ls|])
  {
    if ls != [] {
      var n := |ls| - 1;
      ExecThrough(capacity, slots, processes, ls[..n], ss[..n + 1]);
      assert Follows(ss[n], ls[n], ss[n + 1]);
    }
  }

  // One slot and two processes: the first registers and leaves, the second asks for registration.
  ghost function Scene(capacity: nat, k: nat): State {
    var idle := Client(NotStarted, [], 0);
    var joined := State(capacity, Table([0], 1, [[IdMsg(0)], []]), [], [Client(Registering, [], 0), idle], Idle, [],
                        [0], [0], [None]);
    var left := joined.(table := Table([-1], 1, [[IdMsg(0)], []]), clients := [Client(Gone(0), [], 1), idle],
                        until := [Some(0)]);
    match k
    case 0 => State(capacity, Table([-1], 0, [[], []]), [], [idle, idle], Idle, [], [], [], [])
    case 1 =>
      State(capacity, Table([-1], 0, [[], []]), [Envelope(0, 1, InitMsg(0))], joined.clients, Idle, [], [], [], [])
    case 2 => joined
    case 3 => joined.(clients := [Client(Chatting(0), [], 1), idle])
    case 4 => joined.(clients := left.clients, mailbox := [Envelope(0, 2, ExitMsg(0))])
    case 5 => left
    case _ => left.(mailbox := [Envelope(1, 1, InitMsg(1))], clients := [left.clients[0], Client(Registering, [], 0)])
  }

  function Moves(): seq<Label> { [Start(0), Receive, GetId(0), Leave(0), Receive, Start(1)] }

  lemma StartsThere(capacity: nat)
    ensures Init(capacity, 1, 2) == Scene(capacity, 0)
  {
    var s := Init(capacity, 1, 2);
    assert s.table.queues == [-1] && s.table.inboxes == [[], []] && s.clients == Scene(capacity, 0).clients;
  }

  ghost predicate SceneStep(capacity: nat, i: nat)
    requires i < 6
  {
    Follows(Scene(capacity, i), Moves()[i], Scene(capacity, i + 1))
  }

  lemma FirstRegisters(capacity: nat)
    requires capacity > 0
    ensures Follows(Scene(capacity, 1), Receive, Scene(capacity, 2))
  {
    var s := Scene(capacity, 1);
    assert s.mailbox[..0] + s.mailbox[1..] == [];
    assert s.owner + [0] == [0] == s.since + [0] && s.until + [None] == [None];
    assert s.table.queues[0 := 0] == [0] && s.table.inboxes[0 := [IdMsg(0)]] == [[IdMsg(0)], []];
    assert s.table.inboxes[0] + [IdMsg(0)] == [IdMsg(0)];
  }

  lemma FirstIsStruckOff(capacity: nat)
    requires capacity > 0
    ensures Follows(Scene(capacity, 4), Receive, Scene(capacity, 5))
  {
    var s := Scene(capacity, 4);
    assert s.mailbox[..0] + s.mailbox[1..] == [];
    assert s.table.queues[0 := -1] == [-1] && s.until[0 := Some(0)] == [Some(0)];
  }

  lemma SceneFollows(capacity: nat, i: nat)
    requires capacity > 0 && i < 6
    ensures SceneStep(capacity, i)
  {
    match i
    case 0 => assert Step(Scene(capacity, 0), Start(0)).clients == Scene(capacity, 1).clients;
    case 1 => FirstRegisters(capacity);
    case 2 => assert Step(Scene(capacity, 2), GetId(0)).clients == Scene(capacity, 3).clients;
    case 3 =>
      assert Step(Scene(capacity, 3), Leave(0)).clients == Scene(capacity, 4).clients;
      assert Step(Scene(capacity, 3), Leave(0)).mailbox == Scene(capacity, 4).mailbox;
    case 4 => FirstIsStruckOff(capacity);
    case _ => assert Step(Scene(capacity, 5), Start(1)).clients == Scene(capacity, 6).clients;
  }

  lemma SceneRuns(capacity: nat)
    requires capacity > 0
    ensures Exec(capacity, 1, 2, Moves()) == Some(Scene(capacity, 6))
  {
    var scenes := seq(7, k requires 0 <= k => Scene(capacity, k));
    StartsThere(capacity);
    forall i | 0 <= i < 6 ensures Follows(scenes[i], Moves()[i], scenes[i + 1]) {
      SceneFollows(capacity, i);
    }
    ExecThrough(capacity, 1, 2, Moves(), scenes);
  }

  // Everything is as if the server had just started, and still the registration does not fit.
  ghost predicate DoesNotFit(s: State) {
    && s.pc.Idle? && s.table.queues == [-1] && |s.clients| == 2 && s.clients[0].phase.Gone?
    && s.mailbox == [Envelope(1, 1, InitMsg(1))] && !Enabled(s, Receive)
  }

  lemma LastScene(capacity: nat)
    ensures DoesNotFit(Scene(capacity, 6))
  {
  }

  // Here the only client there ever was has left, the only slot of the table is empty, and the
  // next registration nevertheless falls outside.
  lemma EmptySlotIsNotReused(capacity: nat)
    requires capacity > 0
    ensures var end := Exec(capacity, 1, 2, Moves());
      end.Some? && DoesNotFit(end.value)
  {
    SceneRuns(capacity);
    LastScene(capacity);
  }

  // ---------------------------------------------------------------- handlers as single steps

  // The table once the broadcast in progress, if any, is complete.
  ghost function Outcome(s: State): Table
    requires Addressable(s.table)
  {
    if s.pc.Broadcasting? then DeliverFrom(s.table, s.pc.next, s.pc.msg) else s.table
  }

  lemma ClientsKeepTable(s: State, l: Label)
    requires Addressable(s.table) && Enabled(s, l) && !l.Receive? && !l.Deliver?
    ensures Step(s, l).table == s.table && Step(s, l).pc == s.pc
  {
  }

  lemma ReceiveFixesOutcome(s: State)
    requires Addressable(s.table) && Enabled(s, Receive) && Addressable(ReceiveStep(s).table)
    ensures Outcome(ReceiveStep(s)) == Dispatched(s.table, s.mailbox[Pick(s.mailbox)].msg)
  {
  }

  lemma TurnKeepsOutcome(t: Table, i: nat, m: Message)
    requires Addressable(t) && i < t.currMax
    ensures Addressable(DeliverOne(t, i, m)) && DeliverOne(t, i, m).currMax == t.currMax
    ensures DeliverFrom(DeliverOne(t, i, m), i + 1, m) == DeliverFrom(t, i, m)
  {
  }

  // Although each single send of a broadcast is a step, and clients run in between, a handler
  // works as if in one go: receiving a message fixes the outcome, and no other step changes it.
  lemma HandlersAreAtomic(s: State, l: Label)
    requires Inv(s) && Enabled(s, l)
    ensures Addressable(s.table) && Addressable(Step(s, l).table)
    ensures Outcome(Step(s, l))
         == if l.Receive? then Dispatched(s.table, s.mailbox[Pick(s.mailbox)].msg) else Outcome(s)
  {
    StepKeepsInv(s, l);
    SlotsAreAddressable(Step(s, l));
    match l
    case Receive => ReceiveFixesOutcome(s);
    case Deliver => TurnKeepsOutcome(s.table, s.pc.next, s.pc.msg);
    case _ => ClientsKeepTable(s, l);
  }

  // ---------------------------------------------------------------- per-sender order

  // The texts of slot d among the messages of a queue.
  ghost function TextsOf(q: seq<Message>, d: nat): seq<string> {
    if q == [] then []
    else
      var m := q[|q| - 1];
      TextsOf(q[..|q| - 1], d) + (if m.TextMsg? && m.id == d then [m.text] else [])
  }

  lemma {:induction false} TextsOfPrepend(m: Message, q: seq<Message>, d: nat)
    requires m.IdMsg?
    ensures TextsOf([m] + q, d) == TextsOf(q, d)
  {
    if q == [] {
      assert ([m] + q)[..0] == [];
    } else {
      assert ([m] + q)[..|[m] + q| - 1] == [m] + q[..|q| - 1];
      TextsOfPrepend(m, q[..|q| - 1], d);
    }
  }

  lemma {:induction false} LoggedByConcat(a: seq<Logged>, b: seq<Logged>, p: nat)
    ensures LoggedBy(a + b, p) == LoggedBy(a, p) + LoggedBy(b, p)
  {
    if b == [] {
      assert a + b == a;
    } else {
      assert (a + b)[..|a + b| - 1] == a + b[..|b| - 1];
      LoggedByConcat(a, b[..|b| - 1], p);
    }
  }

  lemma {:induction false} TextsOfPiece(s: State, piece: seq<Logged>, d: nat)
    requires SlotsOk(s) && LogOk(s) && d < |s.owner|
    requires forall k :: 0 <= k < |piece| ==> piece[k] in s.log
    ensures TextsOf(Messages(piece), d) == LoggedBy(piece, s.owner[d])
  {
    if piece != [] {
      var front := piece[..|piece| - 1];
      assert Messages(piece)[..|piece| - 1] == Messages(front);
      assert piece[|piece| - 1] in s.log;
      TextsOfPiece(s, front, d);
    }
  }

  lemma LoggedByPiece(log: seq<Logged>, lo: nat, hi: nat, p: nat) returns (from: nat, to: nat)
    requires lo <= hi <= |log|
    ensures from <= to <= |LoggedBy(log, p)| && LoggedBy(log[lo..hi], p) == LoggedBy(log, p)[from..to]
  {
    assert log == log[..lo] + log[lo..hi] + log[hi..];
    LoggedByConcat(log[..lo] + log[lo..hi], log[hi..], p);
    LoggedByConcat(log[..lo], log[lo..hi], p);
    from := |LoggedBy(log[..lo], p)|;
    to := from + |LoggedBy(log[lo..hi], p)|;
  }

  lemma StretchReceived(s: State, c: nat, d: nat) returns (from: nat, to: nat)
    requires SlotsOk(s) && LogOk(s) && c < |s.owner| && d < |s.owner| && Window(s, c)
    ensures from <= to <= |LoggedBy(s.log, s.owner[d])|
    ensures TextsOf(s.table.inboxes[s.owner[c]], d) == LoggedBy(s.log, s.owner[d])[from..to]
  {
    var piece := s.log[s.since[c]..Seen(s, c)];
    from, to := LoggedByPiece(s.log, s.since[c], Seen(s, c), s.owner[d]);
    TextsOfPrepend(IdMsg(c), Messages(piece), d);
    TextsOfPiece(s, piece, d);
  }

  // First in, first out per sender: what any client c has received from client d is one
  // uninterrupted stretch of what d sent.
  lemma ReceivedInSendingOrder(s: State, c: nat, d: nat) returns (from: nat, to: nat)
    requires Inv(s) && c < |s.owner| && d < |s.owner|
    ensures from <= to <= |s.clients[s.owner[d]].sent|
    ensures TextsOf(s.table.inboxes[s.owner[c]], d) == s.clients[s.owner[d]].sent[from..to]
  {
    from, to := StretchReceived(s, c, d);
    var p := s.owner[d];
    assert s.clients[p].sent == LoggedBy(s.log, p) + Pending(s.mailbox, p);
  }

  // A logged text was sent by the client registered under its id, after that registration; the
  // log has each sender's texts in order and the rest of them is still waiting, in order.
  lemma LogFollowsSenders(s: State, k: nat, p: nat)
    requires Inv(s) && k < |s.log| && p < |s.clients|
    ensures s.log[k].msg.TextMsg? && s.log[k].msg.id < |s.owner|
    ensures s.owner[s.log[k].msg.id] == s.log[k].from && s.since[s.log[k].msg.id] <= k
    ensures LoggedBy(s.log, p) + Pending(s.mailbox, p) == s.clients[p].sent
  {
  }

  // ---------------------------------------------------------------- overtaking

  // A pending exit is handled before any text; without one the oldest message is.
  lemma ExitsGoFirst(s: State)
    requires Inv(s) && s.mailbox != []
    ensures s.mailbox[Pick(s.mailbox)].msg.ExitMsg? <==>
              exists i :: 0 <= i < |s.mailbox| && s.mailbox[i].msg.ExitMsg?
    ensures !s.mailbox[Pick(s.mailbox)].msg.ExitMsg? ==> Pick(s.mailbox) == 0
  {
    if !s.mailbox[Pick(s.mailbox)].msg.ExitMsg? {
      TextsAreOldest(s);
    }
  }

  // An exit that overtakes its sender's own texts loses none of them and reorders none of them;
  // they are logged later, when the sender's queue is no longer in the table.
  lemma ExitOvertakesOwnTexts(s: State)
    requires Inv(s) && Enabled(s, Receive) && s.mailbox[Pick(s.mailbox)].msg.ExitMsg?
    ensures var e := s.mailbox[Pick(s.mailbox)];
      var s' := ReceiveStep(s);
      && Pending(s'.mailbox, e.from) == Pending(s.mailbox, e.from) && s'.log == s.log
      && 0 <= e.msg.slot < |s'.owner| && s'.owner[e.msg.slot] == e.from
      && s'.table.queues[e.msg.slot] == -1 && s'.until[e.msg.slot].Some?
  {
    var i := Pick(s.mailbox);
    ExitNamesOwnSlot(s, i);
    PendingWithout(s.mailbox, i, s.mailbox[i].from);
  }

  // And overtaking is the rule: a client that leaves while no other exit waits has its exit
  // handled before everything sent earlier, by itself or by anybody else.
  lemma LeavingOvertakesAll(s: State, p: nat)
    requires Inv(s) && Enabled(s, Leave(p)) && s.pc.Idle? && Addressable(s.table)
    requires forall i :: 0 <= i < |s.mailbox| ==> !s.mailbox[i].msg.ExitMsg?
    ensures var id := s.clients[p].phase.id;
      var s' := Step(s, Leave(p));
      && s'.mailbox != [] && s'.mailbox[Pick(s'.mailbox)] == Envelope(p, 2, ExitMsg(id))
      && Enabled(s', Receive) && ReceiveStep(s').mailbox == s.mailbox && ReceiveStep(s').log == s.log
  {
    var m := s.mailbox;
    var e := Envelope(p, 2, ExitMsg(s.clients[p].phase.id));
    forall i | 0 <= i < |m| ensures m[i].priority == 1 {
      assert EnvelopeOk(s, m[i]);
    }
    var i := Pick(m + [e]);
    assert (m + [e])[|m|] == e && (m + [e])[i].priority >= 2;
    assert i == |m|;
    assert (m + [e])[..i] + (m + [e])[i + 1..] == m;
  }
}
