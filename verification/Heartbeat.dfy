/** The liveness protocol of cw11 over the client table: pings raise a flag, answers lower it, the
    sweep drops the clients whose flag is still up. Sweeping leaves the socket number behind in
    the unused slot and the kernel reuses closed descriptors, so an answer could in principle
    lower the flag of the wrong slot; these proofs say that it does not. */
module Heartbeat {
  import opened Basics
  import opened RegistrySpec

  // `unregistered` are the accepted connections that have not asked for registration yet.
  datatype Server = Server(slots: seq<Slot>, unregistered: set<int>)

  datatype Event =
    | Accept(fd: int)
    | New(name: string, fd: int)
    | Stop(name: string)
    | AliveFrom(fd: int)
    | Ping
    | Sweep

  // What the environment promises: the kernel hands out a descriptor only while it is not open,
  // and a connection asks for registration once.
  predicate Legal(sv: Server, e: Event) {
    match e
    case Accept(fd) =>
      fd >= 0 && fd !in sv.unregistered &&
      forall i :: 0 <= i < |sv.slots| && sv.slots[i].valid ==> sv.slots[i].socket != fd
    case New(name, fd) => fd in sv.unregistered && |name| >= MAX_CLIENT_NAME
    case _ => true
  }

  function Apply(sv: Server, e: Event): Server
    requires Legal(sv, e)
  {
    match e
    case Accept(fd) => sv.(unregistered := sv.unregistered + {fd})
    case New(name, fd) => Server(Add(sv.slots, name, fd).0, sv.unregistered - {fd})
    case Stop(name) => sv.(slots := Delete(sv.slots, name).0)
    case AliveFrom(fd) => sv.(slots := Alive(sv.slots, fd))
    case Ping => sv.(slots := Each(sv.slots, PingSlot))
    case Sweep => sv.(slots := Each(sv.slots, SweepSlot))
  }

  function Play(sv: Server, es: seq<Event>): Option<Server>
    decreases |es|
  {
    if es == [] then Some(sv)
    else if Legal(sv, es[0]) then Play(Apply(sv, es[0]), es[1..])
    else None
  }

  // No slot before a used slot carries the same socket, whether in use itself or left behind.
  ghost predicate FirstCarrier(slots: seq<Slot>) {
    forall i, j :: 0 <= i < j < |slots| && slots[j].valid ==> slots[i].socket != slots[j].socket
  }

  ghost predicate Inv(sv: Server) {
    && UniqueNames(sv.slots)
    && FirstCarrier(sv.slots)
    && (forall i :: 0 <= i < |sv.slots| && sv.slots[i].valid ==> sv.slots[i].socket >= 0)
    && (forall fd :: fd in sv.unregistered ==> fd >= 0)
    && (forall i :: 0 <= i < |sv.slots| && sv.slots[i].valid ==> sv.slots[i].socket !in sv.unregistered)
  }

  lemma AddKeepsInv(sv: Server, name: string, fd: int)
    requires Inv(sv) && Legal(sv, New(name, fd))
    ensures Inv(Apply(sv, New(name, fd)))
  {
    var f := Find(sv.slots, Free);
    if Find(sv.slots, Named(Key(name))) == |sv.slots| && f < |sv.slots| {
      CStringOfPrefix(name, MAX_CLIENT_NAME, MAX_CLIENT_NAME);
      assert forall i :: 0 <= i < f ==> !Meets(sv.slots[i], Free);
      assert forall i :: 0 <= i < |sv.slots| ==> !Meets(sv.slots[i], Named(Key(name)));
    }
  }

  lemma StopKeepsInv(sv: Server, name: string)
    requires Inv(sv)
    ensures Inv(Apply(sv, Stop(name)))
  {
  }

  // Pinging, sweeping and answering only lower `valid` or change the flag.
  lemma FlagsKeepInv(sv: Server, sv': Server)
    requires Inv(sv) && sv'.unregistered == sv.unregistered && |sv'.slots| == |sv.slots|
    requires forall i :: 0 <= i < |sv.slots| ==>
               && sv'.slots[i].socket == sv.slots[i].socket && sv'.slots[i].name == sv.slots[i].name
               && (sv'.slots[i].valid ==> sv.slots[i].valid)
    ensures Inv(sv')
  {
  }

  lemma ApplyKeepsInv(sv: Server, e: Event)
    requires Inv(sv) && Legal(sv, e)
    ensures Inv(Apply(sv, e)) && |Apply(sv, e).slots| == |sv.slots|
  {
    match e
    case Accept(_) =>
    case New(name, fd) => AddKeepsInv(sv, name, fd);
    case Stop(name) => StopKeepsInv(sv, name);
    case _ => FlagsKeepInv(sv, Apply(sv, e));
  }

  lemma {:induction false} PlayKeepsInv(sv: Server, es: seq<Event>)
    requires Inv(sv)
    ensures Play(sv, es).Some? ==> Inv(Play(sv, es).value) && |Play(sv, es).value.slots| == |sv.slots|
    decreases |es|
  {
    if es != [] && Legal(sv, es[0]) {
      ApplyKeepsInv(sv, es[0]);
      PlayKeepsInv(Apply(sv, es[0]), es[1..]);
    }
  }

  lemma RunsKeepInv(n: nat, es: seq<Event>)
    ensures Play(Server(Vacant(n), {}), es).Some? ==> Inv(Play(Server(Vacant(n), {}), es).value)
  {
    PlayKeepsInv(Server(Vacant(n), {}), es);
  }

  // In any table, an answer lowers the flag of the first slot that carries the socket, in use or
  // not, and changes nothing else.
  lemma AnswerReachesExactlyWhen(slots: seq<Slot>, fd: int, j: nat)
    requires j < |slots|
    ensures |Alive(slots, fd)| == |slots|
    ensures var reached := slots[j].socket == fd && forall i :: 0 <= i < j ==> slots[i].socket != fd;
      Alive(slots, fd)[j] == slots[j].(awaiting := slots[j].awaiting && !reached)
  {
    var f := Find(slots, Carrying(fd));
    if f < |slots| {
      assert Meets(slots[f], Carrying(fd));
    }
    assert Meets(slots[j], Carrying(fd)) <==> slots[j].socket == fd;
    forall i | 0 <= i < j ensures Meets(slots[i], Carrying(fd)) <==> slots[i].socket == fd {
    }
  }

  // A ping raises the flags of the slots in use and of no others.
  lemma PingRaisesExactly(sv: Server, j: nat)
    requires j < |sv.slots|
    ensures |Apply(sv, Ping).slots| == |sv.slots|
    ensures Apply(sv, Ping).slots[j] == sv.slots[j].(awaiting := sv.slots[j].awaiting || sv.slots[j].valid)
  {
  }

  // A sweep empties the slots in use whose flag is up, and lowers the flags of these and no others.
  lemma SweepEmptiesExactly(sv: Server, j: nat)
    requires j < |sv.slots|
    ensures |Apply(sv, Sweep).slots| == |sv.slots|
    ensures Apply(sv, Sweep).slots[j] ==
      sv.slots[j].(valid := sv.slots[j].valid && !sv.slots[j].awaiting,
                   awaiting := sv.slots[j].awaiting && !sv.slots[j].valid)
  {
  }

  // ---------------------------------------------------------------- the map along a run

  // What an event does to the map. The sweep keeps the clients whose flag is down; when that is
  // so is the subject of the next section.
  function Remap(sv: Server, m: map<string, int>, e: Event): map<string, int> {
    match e
    case New(name, fd) => if Key(name) !in m && |m| < |sv.slots| then m[Key(name) := fd] else m
    case Stop(name) => m - {Key(name)}
    case Sweep => Kept(sv.slots, m)
    case _ => m
  }

  function PlayMap(sv: Server, m: map<string, int>, es: seq<Event>): map<string, int>
    requires Play(sv, es).Some?
    decreases |es|
  {
    if es == [] then m else PlayMap(Apply(sv, es[0]), Remap(sv, m, es[0]), es[1..])
  }

  lemma ApplyRefinesMap(sv: Server, m: map<string, int>, e: Event)
    requires StandsFor(sv.slots, m) && Legal(sv, e)
    ensures StandsFor(Apply(sv, e).slots, Remap(sv, m, e))
  {
    match e
    case Accept(_) =>
    case New(name, fd) => AddRefines(sv.slots, m, name, fd);
    case Stop(name) => DeleteRefines(sv.slots, m, name);
    case AliveFrom(fd) => AliveKeepsMap(sv.slots, m, fd);
    case Ping => PingKeepsMap(sv.slots, m);
    case Sweep => SweepRefines(sv.slots, m);
  }

  lemma {:induction false} PlayRefinesMap(sv: Server, m: map<string, int>, es: seq<Event>)
    requires StandsFor(sv.slots, m) && Play(sv, es).Some?
    ensures StandsFor(Play(sv, es).value.slots, PlayMap(sv, m, es))
    decreases |es|
  {
    if es != [] {
      ApplyRefinesMap(sv, m, es[0]);
      PlayRefinesMap(Apply(sv, es[0]), Remap(sv, m, es[0]), es[1..]);
    }
  }

  // Across every sequence of events the table stands for the map that the same events build up
  // from nothing, so lookups agree with that map.
  lemma RunsRefineMap(n: nat, es: seq<Event>, k: string)
    requires Play(Server(Vacant(n), {}), es).Some?
    ensures var sv, m := Play(Server(Vacant(n), {}), es).value, PlayMap(Server(Vacant(n), {}), map[], es);
      StandsFor(sv.slots, m) && Lookup(sv.slots, k) == if k in m then Some(m[k]) else None
  {
    PlayRefinesMap(Server(Vacant(n), {}), map[], es);
    FindClient(Play(Server(Vacant(n), {}), es).value.slots, PlayMap(Server(Vacant(n), {}), map[], es), k);
  }

  // An answer on a registered client's socket lowers that client's flag, and no other.
  lemma AnswerReachesItsSlot(sv: Server, j: nat)
    requires Inv(sv) && j < |sv.slots| && sv.slots[j].valid
    ensures Alive(sv.slots, sv.slots[j].socket) == sv.slots[j := sv.slots[j].(awaiting := false)]
  {
    var i := Find(sv.slots, Carrying(sv.slots[j].socket));
    assert Meets(sv.slots[j], Carrying(sv.slots[j].socket));
    assert i == j;
  }

  // ---------------------------------------------------------------- one heartbeat round

  // Between a ping and the next sweep the other thread may do anything, except that client k
  // is not asked to stop.
  predicate Quiet(es: seq<Event>, k: string) {
    forall e :: e in es ==> !e.Ping? && !e.Sweep? && (e.Stop? ==> Key(e.name) != k)
  }

  lemma SlotDuringEvent(sv: Server, j: nat, e: Event)
    requires Inv(sv) && j < |sv.slots| && sv.slots[j].valid && Legal(sv, e)
    requires !e.Ping? && !e.Sweep? && (e.Stop? ==> Key(e.name) != Key(sv.slots[j].name))
    ensures |Apply(sv, e).slots| == |sv.slots|
    ensures Apply(sv, e).slots[j] ==
      sv.slots[j].(awaiting := sv.slots[j].awaiting && e != AliveFrom(sv.slots[j].socket))
  {
    if e.AliveFrom? {
      AnswerReachesItsSlot(sv, j);
    }
  }

  // What happens to a used slot during such a stretch: nothing but its own answers.
  lemma {:induction false} SlotDuringRound(sv: Server, j: nat, es: seq<Event>)
    requires Inv(sv) && j < |sv.slots| && sv.slots[j].valid
    requires Play(sv, es).Some? && Quiet(es, Key(sv.slots[j].name))
    ensures var after := Play(sv, es).value;
      && Inv(after) && |after.slots| == |sv.slots|
      && after.slots[j] ==
         sv.slots[j].(awaiting := sv.slots[j].awaiting && AliveFrom(sv.slots[j].socket) !in es)
    decreases |es|
  {
    if es != [] {
      var sv' := Apply(sv, es[0]);
      assert es[0] in es;
      ApplyKeepsInv(sv, es[0]);
      SlotDuringEvent(sv, j, es[0]);
      assert forall e :: e in es[1..] ==> e in es;
      SlotDuringRound(sv', j, es[1..]);
      assert es == [es[0]] + es[1..];
    }
  }

  // After the sweep a slot's client is there exactly if its flag was down.
  lemma SweepDecides(sv: Server, j: nat)
    requires Inv(sv) && j < |sv.slots| && sv.slots[j].valid
    ensures Lookup(Apply(sv, Sweep).slots, Key(sv.slots[j].name)) ==
      if sv.slots[j].awaiting then None else Some(sv.slots[j].socket)
  {
    var slots' := Apply(sv, Sweep).slots;
    var k := Key(sv.slots[j].name);
    assert forall i :: 0 <= i < |slots'| && i != j ==> !Meets(slots'[i], Named(k));
    if !sv.slots[j].awaiting {
      assert Meets(slots'[j], Named(k));
    }
  }

  // A client registered at a ping, and not asked to stop, survives the next sweep exactly if an
  // answer came in on its own socket, whatever else happened in between.
  lemma SurvivesIffAnswered(sv: Server, k: string, es: seq<Event>)
    requires Inv(sv) && Lookup(sv.slots, k).Some?
    requires Play(Apply(sv, Ping), es).Some? && Quiet(es, k)
    ensures var fd := Lookup(sv.slots, k).value;
      Lookup(Apply(Play(Apply(sv, Ping), es).value, Sweep).slots, k) ==
        if AliveFrom(fd) in es then Some(fd) else None
  {
    var j := Find(sv.slots, Named(k));
    ApplyKeepsInv(sv, Ping);
    SlotDuringRound(Apply(sv, Ping), j, es);
    SweepDecides(Play(Apply(sv, Ping), es).value, j);
  }

  // A client that registers after the ping was never pinged in this round. It survives the sweep
  // exactly if it answers anyway or the slot it got had its flag down: neither deletion nor
  // registration lowers a flag.
  lemma NewcomerSurvivesIff(sv: Server, name: string, fd: int, es: seq<Event>)
    requires Inv(sv) && Legal(sv, New(name, fd)) && Lookup(sv.slots, Key(name)).None?
    requires Find(sv.slots, Free) < |sv.slots|
    requires Play(Apply(sv, New(name, fd)), es).Some? && Quiet(es, Key(name))
    ensures Lookup(Apply(Play(Apply(sv, New(name, fd)), es).value, Sweep).slots, Key(name)) ==
      if !sv.slots[Find(sv.slots, Free)].awaiting || AliveFrom(fd) in es then Some(fd) else None
  {
    var f := Find(sv.slots, Free);
    ApplyKeepsInv(sv, New(name, fd));
    CStringOfPrefix(name, MAX_CLIENT_NAME, MAX_CLIENT_NAME);
    SlotDuringRound(Apply(sv, New(name, fd)), f, es);
    SweepDecides(Play(Apply(sv, New(name, fd)), es).value, f);
  }

  // A search does not look at the flags.
  lemma {:induction false} SameFind(slots: seq<Slot>, slots': seq<Slot>, q: Query)
    requires |slots'| == |slots|
    requires forall i :: 0 <= i < |slots| ==> slots'[i] == slots[i].(awaiting := slots'[i].awaiting)
    ensures Find(slots', q) == Find(slots, q)
  {
    if slots != [] {
      assert Meets(slots'[0], q) <==> Meets(slots[0], q);
      SameFind(slots[1..], slots'[1..], q);
    }
  }

  // A ping does not touch the slots that are free: a newcomer that gets one whose flag was down
  // before the ping is safe, whether it answers or not.
  lemma NewcomerAfterPingIsSafe(sv: Server, name: string, fd: int, es: seq<Event>)
    requires Inv(sv) && Legal(sv, New(name, fd)) && Lookup(sv.slots, Key(name)).None?
    requires Find(sv.slots, Free) < |sv.slots| && !sv.slots[Find(sv.slots, Free)].awaiting
    requires Play(Apply(Apply(sv, Ping), New(name, fd)), es).Some? && Quiet(es, Key(name))
    ensures Lookup(Apply(Play(Apply(Apply(sv, Ping), New(name, fd)), es).value, Sweep).slots, Key(name)) == Some(fd)
  {
    var pinged := Apply(sv, Ping);
    ApplyKeepsInv(sv, Ping);
    SameFind(sv.slots, pinged.slots, Free);
    SameFind(sv.slots, pinged.slots, Named(Key(name)));
    NewcomerSurvivesIff(pinged, name, fd, es);
  }

  // Nor is a newcomer in danger in a slot that a sweep has just emptied.
  lemma NewcomerAfterSweepIsSafe(sv: Server, name: string, fd: int, es: seq<Event>)
    requires Inv(sv) && Legal(Apply(sv, Sweep), New(name, fd))
    requires Lookup(Apply(sv, Sweep).slots, Key(name)).None?
    requires Find(Apply(sv, Sweep).slots, Free) < |sv.slots| && sv.slots[Find(Apply(sv, Sweep).slots, Free)].valid
    requires Play(Apply(Apply(sv, Sweep), New(name, fd)), es).Some? && Quiet(es, Key(name))
    ensures Lookup(Apply(Play(Apply(Apply(sv, Sweep), New(name, fd)), es).value, Sweep).slots, Key(name)) == Some(fd)
  {
    var swept := Apply(sv, Sweep);
    ApplyKeepsInv(sv, Sweep);
    assert Meets(swept.slots[Find(swept.slots, Free)], Free);
    NewcomerSurvivesIff(swept, name, fd, es);
  }

  // Without a ping no flag ever goes up, and a sweep does nothing.
  lemma {:induction false} NoPingNoFlag(sv: Server, es: seq<Event>)
    requires (forall i :: 0 <= i < |sv.slots| ==> !sv.slots[i].awaiting) && Ping !in es && Play(sv, es).Some?
    ensures var after := Play(sv, es).value;
      (forall i :: 0 <= i < |after.slots| ==> !after.slots[i].awaiting) && Apply(after, Sweep) == after
    decreases |es|
  {
    if es == [] {
      assert Each(sv.slots, SweepSlot) == sv.slots;
    } else {
      assert es[0] in es;
      NoPingNoFlag(Apply(sv, es[0]), es[1..]);
    }
  }

  lemma NobodyIsSweptBeforeAPing(n: nat, es: seq<Event>)
    requires Ping !in es && Play(Server(Vacant(n), {}), es).Some?
    ensures Apply(Play(Server(Vacant(n), {}), es).value, Sweep) == Play(Server(Vacant(n), {}), es).value
  {
    NoPingNoFlag(Server(Vacant(n), {}), es);
  }

  // So "nobody is dropped without having been pinged" is false: here the second client is dropped
  // by the first sweep after its registration, with no ping in between.
  lemma UnpingedClientIsSwept(a: string, b: string)
    requires |a| >= MAX_CLIENT_NAME && |b| >= MAX_CLIENT_NAME
    ensures var before := Play(Server(Vacant(1), {}), [Accept(3), New(a, 3), Ping, Stop(a), Accept(4), New(b, 4)]);
      && before.Some? && Lookup(before.value.slots, Key(b)) == Some(4)
      && Lookup(Apply(before.value, Sweep).slots, Key(b)) == None
  {
    CStringOfPrefix(a, MAX_CLIENT_NAME, MAX_CLIENT_NAME);
    CStringOfPrefix(b, MAX_CLIENT_NAME, MAX_CLIENT_NAME);
    var s0 := Server(Vacant(1), {});
    var s1 := Apply(s0, Accept(3));
    var s2 := Apply(s1, New(a, 3));
    assert s2.slots == [Slot(a[..MAX_CLIENT_NAME], 3, true, false)];
    var s3 := Apply(s2, Ping);
    assert s3.slots == [Slot(a[..MAX_CLIENT_NAME], 3, true, true)];
    var s4 := Apply(s3, Stop(a));
    assert s4.slots == [Slot(Emptied(a[..MAX_CLIENT_NAME]), -1, false, true)];
    var s5 := Apply(s4, Accept(4));
    var s6 := Apply(s5, New(b, 4));
    assert s6.slots == [Slot(b[..MAX_CLIENT_NAME], 4, true, true)];
    var es := [Accept(3), New(a, 3), Ping, Stop(a), Accept(4), New(b, 4)];
    calc {
      Play(s0, es);
      { assert es[1..] == [New(a, 3), Ping, Stop(a), Accept(4), New(b, 4)]; }
      Play(s1, [New(a, 3), Ping, Stop(a), Accept(4), New(b, 4)]);
      { assert [New(a, 3), Ping, Stop(a), Accept(4), New(b, 4)][1..] == [Ping, Stop(a), Accept(4), New(b, 4)]; }
      Play(s2, [Ping, Stop(a), Accept(4), New(b, 4)]);
      { assert [Ping, Stop(a), Accept(4), New(b, 4)][1..] == [Stop(a), Accept(4), New(b, 4)]; }
      Play(s3, [Stop(a), Accept(4), New(b, 4)]);
      { assert [Stop(a), Accept(4), New(b, 4)][1..] == [Accept(4), New(b, 4)]; }
      Play(s4, [Accept(4), New(b, 4)]);
      { assert [Accept(4), New(b, 4)][1..] == [New(b, 4)]; }
      Play(s5, [New(b, 4)]);
      Play(s6, []);
      Some(s6);
    }
    var s7 := Apply(s6, Sweep);
    assert s7.slots == [Slot(b[..MAX_CLIENT_NAME], 4, false, false)];
  }

  lemma PlayThree(sv: Server, e: Event, f: Event, g: Event)
    requires Legal(sv, e) && Legal(Apply(sv, e), f) && Legal(Apply(Apply(sv, e), f), g)
    ensures Play(sv, [e, f, g]) == Some(Apply(Apply(Apply(sv, e), f), g))
  {
    assert [e, f, g][1..] == [f, g] && [f, g][1..] == [g] && [g][1..] == [];
    assert Play(Apply(sv, e), [f, g]) == Play(Apply(Apply(sv, e), f), [g]);
  }

  // Nor does being told "registered" mean anything once the table is full: here the second client
  // gets the answer 0 and is not in the table.
  lemma FullTableAnswersZero(a: string, b: string)
    requires |a| >= MAX_CLIENT_NAME && |b| >= MAX_CLIENT_NAME && Key(a) != Key(b)
    ensures var before := Play(Server(Vacant(1), {}), [Accept(3), New(a, 3), Accept(4)]);
      && before.Some? && Legal(before.value, New(b, 4))
      && Add(before.value.slots, b, 4) == (before.value.slots, 0)
      && Lookup(before.value.slots, Key(a)) == Some(3) && Lookup(before.value.slots, Key(b)) == None
  {
    CStringOfPrefix(a, MAX_CLIENT_NAME, MAX_CLIENT_NAME);
    var s1 := Apply(Server(Vacant(1), {}), Accept(3));
    var s2 := Apply(s1, New(a, 3));
    assert s2.slots == [Slot(a[..MAX_CLIENT_NAME], 3, true, false)];
    PlayThree(Server(Vacant(1), {}), Accept(3), New(a, 3), Accept(4));
  }

  // A connection that registers twice, which Legal excludes and the server does not: it fills two
  // slots with one socket, its answer lowers the flag of the first, and its second name is swept
  // although it answered.
  lemma SecondNameIsSwept(a: string, b: string, fd: int)
    requires |a| >= MAX_CLIENT_NAME && |b| >= MAX_CLIENT_NAME && Key(a) != Key(b) && fd >= 0
    ensures var both := Add(Add(Vacant(2), a, fd).0, b, fd).0;
      var after := Each(Alive(Each(both, PingSlot), fd), SweepSlot);
      && Lookup(both, Key(a)) == Some(fd) == Lookup(both, Key(b))
      && Lookup(after, Key(a)) == Some(fd) && Lookup(after, Key(b)) == None
  {
    CStringOfPrefix(a, MAX_CLIENT_NAME, MAX_CLIENT_NAME);
    CStringOfPrefix(b, MAX_CLIENT_NAME, MAX_CLIENT_NAME);
    var both := Add(Add(Vacant(2), a, fd).0, b, fd).0;
    var x, y := Slot(a[..MAX_CLIENT_NAME], fd, true, false), Slot(b[..MAX_CLIENT_NAME], fd, true, false);
    assert Add(Vacant(2), a, fd).0 == [x, Vacant(2)[1]];
    assert both == [x, y];
    assert Each(both, PingSlot) == [x.(awaiting := true), y.(awaiting := true)];
    assert Alive(Each(both, PingSlot), fd) == [x, y.(awaiting := true)];
    var after := Each(Alive(Each(both, PingSlot), fd), SweepSlot);
    assert after == [x, y.(valid := false)];
    assert Find(both, Named(Key(a))) == 0 && Find(both, Named(Key(b))) == 1;
    assert Find(after, Named(Key(a))) == 0 && Find(after, Named(Key(b))) == 2;
  }

  // ---------------------------------------------------------------- the mutex left held

  // The server with the mutex of its table. A handler that finds the name taken keeps the mutex,
  // and every handler and both halves of a heartbeat round begin by taking it; accepting a
  // connection does not need it.
  datatype Locked = Locked(server: Server, held: bool)

  predicate TakesName(sv: Server, e: Event) {
    e.New? && Find(sv.slots, Named(Key(e.name))) < |sv.slots|
  }

  predicate LockedLegal(lk: Locked, e: Event) { Legal(lk.server, e) && (lk.held ==> e.Accept?) }

  function LockedApply(lk: Locked, e: Event): Locked
    requires LockedLegal(lk, e)
  {
    Locked(Apply(lk.server, e), lk.held || TakesName(lk.server, e))
  }

  function LockedPlay(lk: Locked, es: seq<Event>): Option<Locked>
    decreases |es|
  {
    if es == [] then Some(lk)
    else if LockedLegal(lk, es[0]) then LockedPlay(LockedApply(lk, es[0]), es[1..])
    else None
  }

  // The mutex stays held exactly from the first registration under a taken name on.
  lemma HeldExactlyWhen(lk: Locked, m: map<string, int>, e: Event)
    requires StandsFor(lk.server.slots, m) && LockedLegal(lk, e)
    ensures LockedApply(lk, e).held <==> lk.held || (e.New? && Key(e.name) in m)
  {
    if e.New? {
      FindClient(lk.server.slots, m, Key(e.name));
    }
  }

  // From then on the server does nothing but accept connections, and its table never changes.
  lemma {:induction false} HeldForGood(lk: Locked, es: seq<Event>)
    requires lk.held && LockedPlay(lk, es).Some?
    ensures forall e :: e in es ==> e.Accept?
    ensures LockedPlay(lk, es).value.held && LockedPlay(lk, es).value.server.slots == lk.server.slots
    decreases |es|
  {
    if es != [] {
      HeldForGood(LockedApply(lk, es[0]), es[1..]);
      assert es == [es[0]] + es[1..];
    }
  }

  // Until then it does what it would do if the mutex were always given back.
  lemma {:induction false} LockedRunsAreRuns(lk: Locked, es: seq<Event>)
    requires LockedPlay(lk, es).Some?
    ensures Play(lk.server, es) == Some(LockedPlay(lk, es).value.server)
    decreases |es|
  {
    if es != [] {
      LockedRunsAreRuns(LockedApply(lk, es[0]), es[1..]);
    }
  }

  // Two connections that ask for the same name are enough, however large the table.
  lemma SecondUseOfNameLocks(n: nat, a: string)
    requires n > 0 && |a| >= MAX_CLIENT_NAME
    ensures var end := LockedPlay(Locked(Server(Vacant(n), {}), false), [Accept(3), New(a, 3), Accept(4), New(a, 4)]);
      end.Some? && end.value.held
  {
    CStringOfPrefix(a, MAX_CLIENT_NAME, MAX_CLIENT_NAME);
    var l0 := Locked(Server(Vacant(n), {}), false);
    var l1 := LockedApply(l0, Accept(3));
    var l2 := LockedApply(l1, New(a, 3));
    assert Find(l1.server.slots, Free) == 0;
    assert Meets(l2.server.slots[0], Named(Key(a)));
    var l3 := LockedApply(l2, Accept(4));
    assert [Accept(3), New(a, 3), Accept(4), New(a, 4)][1..] == [New(a, 3), Accept(4), New(a, 4)];
    assert [New(a, 3), Accept(4), New(a, 4)][1..] == [Accept(4), New(a, 4)];
    assert [Accept(4), New(a, 4)][1..] == [New(a, 4)];
    assert LockedPlay(l3, [New(a, 4)]) == Some(LockedApply(l3, New(a, 4)));
    assert LockedPlay(l2, [Accept(4), New(a, 4)]) == LockedPlay(l3, [New(a, 4)]);
    assert LockedPlay(l1, [New(a, 3), Accept(4), New(a, 4)]) == LockedPlay(l2, [Accept(4), New(a, 4)]);
  }
}
