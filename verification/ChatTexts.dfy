/** From the keyboard of one chat client to the screen of another: what is typed is what is sent,
    logged and received, and no queue on the way ever holds more than it can. */
module ChatTexts {
  import opened Basics
  import opened ChatSpec
  import opened ChatRuns

  // What was typed at client p in the course of a run.
  function Typed(ls: seq<Label>, p: nat): seq<string> {
    if ls == [] then []
    else
      var l := ls[|ls| - 1];
      Typed(ls[..|ls| - 1], p) + (if l.Send? && l.p == p then [l.text] else [])
  }

  // How many messages client p has taken from its queue.
  function Taken(ls: seq<Label>, p: nat): nat {
    if ls == [] then 0
    else
      var l := ls[|ls| - 1];
      Taken(ls[..|ls| - 1], p) + (if (l.GetId? || l.Listen?) && l.p == p then 1 else 0)
  }

  // Nobody reads before it has asked for its id.
  ghost predicate ReadsInOrder(s: State, p: nat)
    requires p < |s.clients|
  {
    s.clients[p].phase.NotStarted? || s.clients[p].phase.Registering? ==> s.clients[p].read == 0
  }

  lemma StepKeepsSizes(s: State, l: Label)
    requires Addressable(s.table) && Enabled(s, l)
    ensures |Step(s, l).clients| == |s.clients| && Step(s, l).capacity == s.capacity
  {
  }

  lemma {:induction false} SizesStay(capacity: nat, slots: nat, processes: nat, ls: seq<Label>)
    ensures match Exec(capacity, slots, processes, ls)
      case None => true
      case Some(s) => |s.clients| == processes && s.capacity == capacity
  {
    if ls != [] && Exec(capacity, slots, processes, ls).Some? {
      SizesStay(capacity, slots, processes, ls[..|ls| - 1]);
      SlotsAreAddressable(Exec(capacity, slots, processes, ls[..|ls| - 1]).value);
      StepKeepsSizes(Exec(capacity, slots, processes, ls[..|ls| - 1]).value, ls[|ls| - 1]);
    }
  }

  lemma StepIsOneSend(s: State, l: Label, p: nat)
    requires Addressable(s.table) && Enabled(s, l) && p < |s.clients| && ReadsInOrder(s, p)
    ensures var s' := Step(s, l);
      && |s'.clients| == |s.clients| && s'.capacity == s.capacity && ReadsInOrder(s', p)
      && s'.clients[p].sent == s.clients[p].sent + (if l.Send? && l.p == p then [l.text] else [])
      && s'.clients[p].read == s.clients[p].read + (if (l.GetId? || l.Listen?) && l.p == p then 1 else 0)
  {
  }

  // A client sends what was typed, text for text, and reads one message after the other.
  lemma {:induction false} ClientsSendWhatIsTyped(capacity: nat, slots: nat, processes: nat, ls: seq<Label>, p: nat)
    requires p < processes
    ensures match Exec(capacity, slots, processes, ls)
      case None => true
      case Some(s) =>
        && |s.clients| == processes && ReadsInOrder(s, p)
        && s.clients[p].sent == Typed(ls, p) && s.clients[p].read == Taken(ls, p)
  {
    if ls != [] && Exec(capacity, slots, processes, ls).Some? {
      var front := ls[..|ls| - 1];
      ClientsSendWhatIsTyped(capacity, slots, processes, front, p);
      SlotsAreAddressable(Exec(capacity, slots, processes, front).value);
      StepIsOneSend(Exec(capacity, slots, processes, front).value, ls[|ls| - 1], p);
    }
  }

  // No queue ever holds more than its capacity, and nobody reads what has not been sent.
  ghost predicate Bounded(s: State) {
    && |s.table.inboxes| == |s.clients| && |s.mailbox| <= s.capacity
    && forall p :: 0 <= p < |s.clients| ==>
         s.clients[p].read <= |s.table.inboxes[p]| <= s.clients[p].read + s.capacity
  }

  lemma OthersKeepBounded(s: State, l: Label)
    requires Addressable(s.table) && Enabled(s, l) && Bounded(s) && !l.Receive?
    requires l.GetId? ==> ReadsInOrder(s, l.p)
    ensures Bounded(Step(s, l))
  {
  }

  // A registration puts the id into a queue that is still empty.
  lemma ReceiveKeepsBounded(s: State)
    requires SlotsOk(s) && MailOk(s) && Enabled(s, Receive) && Bounded(s) && s.capacity > 0
    requires forall p :: 0 <= p < |s.clients| ==> ReadsInOrder(s, p)
    ensures Bounded(ReceiveStep(s))
  {
    var i := Pick(s.mailbox);
    assert EnvelopeOk(s, s.mailbox[i]);
    assert |s.mailbox[..i] + s.mailbox[i + 1..]| == |s.mailbox| - 1;
  }

  lemma StepKeepsBounded(s: State, l: Label)
    requires Inv(s) && Enabled(s, l) && Bounded(s) && s.capacity > 0 && Addressable(s.table)
    requires forall p :: 0 <= p < |s.clients| ==> ReadsInOrder(s, p)
    ensures Bounded(Step(s, l))
  {
    if l.Receive? {
      ReceiveKeepsBounded(s);
    } else {
      OthersKeepBounded(s, l);
    }
  }

  lemma {:induction false} QueuesAreBounded(capacity: nat, slots: nat, processes: nat, ls: seq<Label>)
    requires capacity > 0
    ensures Exec(capacity, slots, processes, ls).Some? ==> Bounded(Exec(capacity, slots, processes, ls).value)
  {
    if ls != [] && Exec(capacity, slots, processes, ls).Some? {
      var front := ls[..|ls| - 1];
      var s := Exec(capacity, slots, processes, front).value;
      QueuesAreBounded(capacity, slots, processes, front);
      SlotsAreAddressable(s);
      SizesStay(capacity, slots, processes, front);
      forall p | 0 <= p < |s.clients| ensures ReadsInOrder(s, p) {
        ClientsSendWhatIsTyped(capacity, slots, processes, front, p);
      }
      StepKeepsBounded(s, ls[|ls| - 1]);
    }
  }

  // What is on the screen of client c of what was typed at client d is one stretch of it: nothing
  // is invented, left out in between, or out of order.
  lemma {:induction false} ScreensShowWhatWasTyped(capacity: nat, slots: nat, processes: nat, ls: seq<Label>,
                                                   c: nat, d: nat) returns (from: nat, to: nat)
    requires Exec(capacity, slots, processes, ls).Some?
    requires var s := Exec(capacity, slots, processes, ls).value; c < |s.owner| && d < |s.owner|
    ensures var s := Exec(capacity, slots, processes, ls).value;
      && from <= to <= |Typed(ls, s.owner[d])|
      && TextsOf(s.table.inboxes[s.owner[c]], d) == Typed(ls, s.owner[d])[from..to]
  {
    var s := Exec(capacity, slots, processes, ls).value;
    from, to := ReceivedInSendingOrder(s, c, d);
    SizesStay(capacity, slots, processes, ls);
    ClientsSendWhatIsTyped(capacity, slots, processes, ls, s.owner[d]);
  }

  // The server stands still exactly when it has nothing to do, when the next registration does not
  // fit, or when the queue whose turn it is, of a client that has not left, is full.
  lemma ServerWaitsExactlyWhen(s: State)
    requires Inv(s) && Bounded(s)
    ensures !Enabled(s, Receive) && !Enabled(s, Deliver) <==>
      if s.pc.Idle? then
        s.mailbox == [] || (s.mailbox[Pick(s.mailbox)].msg.InitMsg? && |s.owner| == |s.table.queues|)
      else
        var p := s.owner[s.pc.next];
        s.until[s.pc.next].None? && |s.table.inboxes[p]| == s.clients[p].read + s.capacity
  {
    if s.pc.Idle? && s.mailbox != [] && s.mailbox[Pick(s.mailbox)].msg.InitMsg? {
      RegistrationFitsExactlyWhen(s);
    }
  }

  // A client's own process stands still exactly when it has left, when the server's queue is full,
  // or while it is not in the table yet; its listener exactly when it has read everything.
  lemma ClientWaitsExactlyWhen(s: State, p: nat, text: string)
    requires Inv(s) && Bounded(s) && p < |s.clients|
    ensures !Enabled(s, Start(p)) && !Enabled(s, GetId(p)) && !Enabled(s, Send(p, text)) && !Enabled(s, Leave(p)) <==>
      match s.clients[p].phase
      case Registering => p !in s.owner
      case Gone(_) => true
      case _ => |s.mailbox| == s.capacity
    ensures Enabled(s, Send(p, text)) == Enabled(s, Leave(p))
    ensures s.clients[p].phase.Chatting? ==>
      (!Enabled(s, Listen(p)) <==> s.clients[p].read == |s.table.inboxes[p]|)
  {
    assert ClientOk(s, p);
    if s.clients[p].phase.Registering? && p in s.owner {
      var c :| 0 <= c < |s.owner| && s.owner[c] == p;
      assert Window(s, c);
    }
  }
}
