/** The client table as cw11's server keeps it: one array of slots that the handlers scan and
    update in place. Each handler takes the table's mutex first and releases it at the end, so it
    is one call here; only add_client has a path that returns with the mutex held, and says so. */
module Registry {
  import opened RegistrySpec
  import opened Totals

  class ClientTable {
    const clients: array<Slot>

    // init_clients, with MAX_CLIENTS as a parameter.
    constructor (maxClients: nat)
      ensures fresh(clients) && clients[..] == Vacant(maxClients)
    {
      clients := new Slot[maxClients](i => Slot("\0", -1, false, false));
    }

    method FindIndex(q: Query) returns (i: nat)
      ensures i == Find(clients[..], q)
    {
      i := 0;
      while i < clients.Length && !Meets(clients[i], q)
        invariant i <= clients.Length
        invariant forall j :: 0 <= j < i ==> !Meets(clients[j], q)
      {
        i := i + 1;
      }
    }

    // The fields a new client's slot gets; the flag is not among them.
    method FillSlot(f: nat, name: string, socket: int)
      requires f < clients.Length && |name| >= MAX_CLIENT_NAME
      modifies clients
      ensures clients[..]
           == old(clients[..])[f := Slot(name[..MAX_CLIENT_NAME], socket, true, old(clients[f].awaiting))]
    {
      clients[f] := clients[f].(valid := true);
      clients[f] := clients[f].(socket := socket);
      clients[f] := clients[f].(name := name[..MAX_CLIENT_NAME]);
    }

    // `released` is whether the mutex has been given back on return.
    method AddClient(name: string, socket: int, ghost m: map<string, int>) returns (rc: int, released: bool)
      requires |name| >= MAX_CLIENT_NAME && StandsFor(clients[..], m)
      modifies clients
      ensures (clients[..], rc) == Add(old(clients[..]), name, socket)
      ensures rc == (if Key(name) in m then -1 else 0)
      ensures released == (Key(name) !in m)
      ensures StandsFor(clients[..], if Key(name) !in m && |m| < clients.Length then m[Key(name) := socket] else m)
    {
      AddRefines(clients[..], m, name, socket);
      var taken := FindIndex(Named(Key(name)));
      if taken < clients.Length {
        return -1, false;
      }
      var f := FindIndex(Free);
      if f < clients.Length {
        FillSlot(f, name, socket);
      }
      rc, released := 0, true;
    }

    method HandleClientDelete(name: string, ghost m: map<string, int>) returns (toClose: int)
      requires StandsFor(clients[..], m)
      modifies clients
      ensures (clients[..], toClose) == Delete(old(clients[..]), name)
      ensures toClose == (if Key(name) in m then m[Key(name)] else -1)
      ensures StandsFor(clients[..], m - {Key(name)})
    {
      DeleteRefines(clients[..], m, name);
      toClose := -1;
      var i := FindIndex(Named(Key(name)));
      if i < clients.Length {
        toClose := clients[i].socket;
        clients[i] := clients[i].(valid := false);
        clients[i] := clients[i].(name := Emptied(clients[i].name));
        clients[i] := clients[i].(socket := -1);
        assert clients[..] == Delete(old(clients[..]), name).0;
      }
    }

    // Returns the (name, socket) pairs a message is sent to, in the order it is sent.
    method HandleToAllMessage(sender: string, ghost m: map<string, int>) returns (sent: seq<(string, int)>)
      requires StandsFor(clients[..], m)
      ensures sent == Recipients(clients[..], Key(sender))
      ensures forall i, j :: 0 <= i < j < |sent| ==> sent[i].0 != sent[j].0
      ensures forall k, fd :: (k, fd) in sent <==> k != Key(sender) && k in m && m[k] == fd
    {
      sent := [];
      for i := 0 to clients.Length
        invariant sent == Recipients(clients[..i], Key(sender))
      {
        assert clients[..i + 1][..i] == clients[..i];
        if clients[i].valid && Key(clients[i].name) != Key(sender) {
          sent := sent + [(Key(clients[i].name), clients[i].socket)];
        }
      }
      assert clients[..] == clients[..clients.Length];
      BroadcastReaches(clients[..], m, Key(sender));
    }

    method HandleToOneMessage(receiver: string, ghost m: map<string, int>) returns (sent: seq<int>)
      requires StandsFor(clients[..], m)
      ensures sent == if Key(receiver) in m then [m[Key(receiver)]] else []
    {
      FindClient(clients[..], m, Key(receiver));
      sent := [];
      var i := FindIndex(Named(Key(receiver)));
      if i < clients.Length {
        sent := [clients[i].socket];
      }
    }

    method HandleGotAliveMessage(clientFd: int)
      modifies clients
      ensures clients[..] == Alive(old(clients[..]), clientFd)
    {
      var i := FindIndex(Carrying(clientFd));
      if i < clients.Length {
        clients[i] := clients[i].(awaiting := false);
      }
    }

    // First half of a heartbeat round; returns the sockets pinged.
    method PingClients() returns (pinged: seq<int>)
      modifies clients
      ensures clients[..] == Each(old(clients[..]), PingSlot)
      ensures forall i :: 0 <= i < clients.Length ==>
                clients[i] == old(clients[i]).(awaiting := old(clients[i].awaiting) || old(clients[i].valid))
      ensures forall fd :: fd in pinged <==>
                exists i :: 0 <= i < clients.Length && old(clients[i]).valid && old(clients[i]).socket == fd
      ensures |pinged| == Total(old(clients[..]), InUse)
    {
      ghost var before := clients[..];
      pinged := [];
      for i := 0 to clients.Length
        invariant forall j :: 0 <= j < i ==> clients[j] == PingSlot(old(clients[j]))
        invariant forall j :: i <= j < clients.Length ==> clients[j] == old(clients[j])
        invariant forall fd :: fd in pinged <==>
                    exists j :: 0 <= j < i && old(clients[j]).valid && old(clients[j]).socket == fd
        invariant |pinged| == Total(before[..i], InUse)
      {
        TotalNext(before, i, InUse);
        if clients[i].valid {
          pinged := pinged + [clients[i].socket];
          clients[i] := clients[i].(awaiting := true);
        }
      }
      assert before[..clients.Length] == before;
    }

    method SweepLoop() returns (closed: seq<int>)
      modifies clients
      ensures forall i :: 0 <= i < clients.Length ==> clients[i] == SweepSlot(old(clients[i]))
      ensures forall fd :: fd in closed <==> exists c :: c in old(clients[..]) && Silent(c, fd)
      ensures |closed| == Total(old(clients[..]), Late)
    {
      ghost var before := clients[..];
      closed := [];
      for i := 0 to clients.Length
        invariant forall j :: 0 <= j < i ==> clients[j] == SweepSlot(before[j])
        invariant forall j :: i <= j < clients.Length ==> clients[j] == before[j]
        invariant forall fd :: fd in closed <==> exists c :: c in before[..i] && Silent(c, fd)
        invariant |closed| == Total(before[..i], Late)
      {
        TotalNext(before, i, Late);
        SilentNext(before, i);
        if clients[i].valid && clients[i].awaiting {
          assert Silent(before[i], clients[i].socket);
          closed := closed + [clients[i].socket];
          clients[i] := clients[i].(valid := false);
          clients[i] := clients[i].(awaiting := false);
        }
      }
      assert before[..clients.Length] == before;
    }

    // Second half; returns the sockets closed.
    method SweepClients(ghost m: map<string, int>) returns (closed: seq<int>)
      requires StandsFor(clients[..], m)
      modifies clients
      ensures clients[..] == Each(old(clients[..]), SweepSlot)
      ensures forall i :: 0 <= i < clients.Length ==>
                clients[i] == old(clients[i]).(valid := old(clients[i].valid) && !old(clients[i].awaiting),
                                               awaiting := old(clients[i].awaiting) && !old(clients[i].valid))
      ensures StandsFor(clients[..], Kept(old(clients[..]), m))
      ensures forall fd :: fd in closed <==> exists c :: c in old(clients[..]) && Silent(c, fd)
      ensures |closed| == Total(old(clients[..]), Late)
    {
      ghost var before := clients[..];
      SweepRefines(before, m);
      closed := SweepLoop();
      assert clients[..] == Each(before, SweepSlot);
    }
  }
}
