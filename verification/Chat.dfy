/** The server of cw07 as it keeps its data: a table of queue descriptors and a counter, updated by
    one handler per message type. `inboxes` stands for the clients' queues, by everything that was
    ever sent to them. */
module Chat {
  import opened ChatSpec

  // How many of the slots i and up, below currMax, hold the queue of p.
  ghost function Holding(queues: seq<int>, currMax: nat, i: nat, p: nat): nat
    requires currMax <= |queues|
    decreases currMax - i
  {
    if i >= currMax then 0 else (if queues[i] == p then 1 else 0) + Holding(queues, currMax, i + 1, p)
  }

  ghost function Copies(m: Message, n: nat): seq<Message> { seq(n, _ => m) }

  // A broadcast over slots i and up appends one copy for each slot that holds the queue.
  lemma {:induction false} DeliverFromReaches(t: Table, i: nat, m: Message, p: nat)
    requires Addressable(t) && p < |t.inboxes|
    ensures var t' := DeliverFrom(t, i, m);
      && t'.queues == t.queues && t'.currMax == t.currMax && |t'.inboxes| == |t.inboxes|
      && t'.inboxes[p] == t.inboxes[p] + Copies(m, Holding(t.queues, t.currMax, i, p))
    decreases t.currMax - i
  {
    if i < t.currMax {
      var n := Holding(t.queues, t.currMax, i + 1, p);
      DeliverFromReaches(DeliverOne(t, i, m), i + 1, m, p);
      assert [m] + Copies(m, n) == Copies(m, n + 1);
    }
  }

  // Where no queue is in two slots, every queue in the table gets one copy and every other none.
  lemma {:induction false} HeldOnce(queues: seq<int>, currMax: nat, i: nat, p: nat)
    requires currMax <= |queues|
    requires forall c, d :: 0 <= c < d < currMax && queues[c] != -1 ==> queues[c] != queues[d]
    ensures Holding(queues, currMax, i, p) == if exists c :: i <= c < currMax && queues[c] == p then 1 else 0
    decreases currMax - i
  {
    if i < currMax {
      HeldOnce(queues, currMax, i + 1, p);
      if queues[i] == p {
        assert !exists c :: i + 1 <= c < currMax && queues[c] == p;
      }
    }
  }

  class ChatServer {
    const clientQueues: array<int>
    var currMaxClientNum: nat
    var inboxes: seq<seq<Message>>

    ghost function View(): Table
      reads this, clientQueues
    {
      Table(clientQueues[..], currMaxClientNum, inboxes)
    }

    ghost predicate Valid()
      reads this, clientQueues
    {
      Addressable(View())
    }

    constructor (maxClients: nat, processes: nat)
      ensures Valid() && View() == Init(0, maxClients, processes).table && fresh(clientQueues)
    {
      clientQueues := new int[maxClients](i => -1);
      currMaxClientNum := 0;
      inboxes := seq(processes, _ => []);
    }

    // `openOk` is whether mq_open succeeds on the queue named in the message. The original does not
    // look whether the slot it is about to use exists; the result tells, and what happens when it
    // does not is undefined.
    method HandleInitMessage(p: nat, openOk: bool) returns (inBounds: bool)
      requires Valid() && (openOk ==> p < |inboxes|)
      modifies this, clientQueues
      ensures Valid()
      ensures inBounds == (old(currMaxClientNum) < clientQueues.Length)
      ensures !inBounds ==> View() == old(View())
      ensures inBounds && openOk ==> View() == Register(old(View()), p)
      ensures inBounds && !openOk ==> View() == old(View()).(queues := old(View()).queues[old(currMaxClientNum) := -1])
    {
      var newClientNum := currMaxClientNum;
      if newClientNum >= clientQueues.Length {
        return false;
      }
      inBounds := true;
      clientQueues[newClientNum] := if openOk then p else -1;
      if clientQueues[newClientNum] < 0 {
        return;
      }
      currMaxClientNum := currMaxClientNum + 1;
      inboxes := inboxes[p := inboxes[p] + [IdMsg(newClientNum)]];
      assert View() == Register(old(View()), p);
    }

    method HandleTextMessage(m: Message)
      requires Valid()
      modifies this`inboxes
      ensures Valid()
      ensures View() == DeliverFrom(old(View()), 0, m)
      ensures |inboxes| == |old(inboxes)|
      ensures forall p :: 0 <= p < |inboxes| ==>
        inboxes[p] == old(inboxes)[p] + Copies(m, Holding(clientQueues[..], currMaxClientNum, 0, p))
    {
      ghost var before := View();
      for i := 0 to currMaxClientNum
        invariant Addressable(View()) && |inboxes| == |before.inboxes|
        invariant DeliverFrom(View(), i, m) == DeliverFrom(before, 0, m)
      {
        if clientQueues[i] == -1 { continue; }
        inboxes := inboxes[clientQueues[i] := inboxes[clientQueues[i]] + [m]];
      }
      forall p | 0 <= p < |inboxes|
        ensures inboxes[p] == before.inboxes[p] + Copies(m, Holding(clientQueues[..], currMaxClientNum, 0, p))
      {
        DeliverFromReaches(before, 0, m, p);
      }
    }

    method HandleClientExitMessage(id: int)
      requires Valid()
      modifies clientQueues
      ensures Valid()
      ensures View() == Close(old(View()), id)
    {
      if 0 <= id < clientQueues.Length {
        clientQueues[id] := -1;
      }
    }

    // A type that is none of the three is reported and ignored; of the tags, that is the id's.
    method DispatchMessageType(m: Message, openOk: bool) returns (inBounds: bool)
      requires Valid() && (m.InitMsg? && openOk ==> m.process < |inboxes|)
      modifies this, clientQueues
      ensures Valid()
      ensures inBounds == (m.InitMsg? ==> old(currMaxClientNum) < clientQueues.Length)
      ensures !inBounds ==> View() == old(View())
      ensures inBounds && (m.InitMsg? ==> openOk) ==> View() == Dispatched(old(View()), m)
      ensures inBounds && m.InitMsg? && !openOk ==>
        View() == old(View()).(queues := old(View()).queues[old(currMaxClientNum) := -1])
    {
      inBounds := true;
      match m {
        case InitMsg(p) => inBounds := HandleInitMessage(p, openOk);
        case TextMsg(_, _) => HandleTextMessage(m);
        case ExitMsg(id) => HandleClientExitMessage(id);
        case IdMsg(_) =>
      }
    }
  }
}
