/** The client table of cw11's chat server: what each handler does to the array of slots, and why
    the table behaves as a finite map from client names to sockets. */
module RegistrySpec {
  import opened Basics
  import opened Totals

  const MAX_CLIENT_NAME: nat := 64

  // A slot keeps the raw name buffer; `valid` says whether the slot is in use. Clearing `valid`
  // leaves the other fields behind.
  datatype Slot = Slot(name: string, socket: int, valid: bool, awaiting: bool)

  // The string a name buffer holds, as strncmp with limit MAX_CLIENT_NAME compares it.
  function CString(buf: string, limit: nat): string {
    if limit == 0 || buf == [] || buf[0] == '\0' then []
    else [buf[0]] + CString(buf[1..], limit - 1)
  }

  function Key(buf: string): string { CString(buf, MAX_CLIENT_NAME) }

  // memcpy of a whole name buffer keeps the string.
  lemma {:induction false} CStringOfPrefix(buf: string, n: nat, limit: nat)
    requires limit <= n <= |buf|
    ensures CString(buf[..n], limit) == CString(buf, limit)
  {
    if limit > 0 && buf != [] && buf[0] != '\0' {
      CStringOfPrefix(buf[1..], n - 1, limit - 1);
      assert buf[..n][1..] == buf[1..][..n - 1];
    }
  }

  // The buffers agree on every character up to the first that ends a string, or up to the limit.
  ghost predicate Agree(a: string, b: string, limit: nat)
    requires limit <= |a| && limit <= |b|
  {
    forall i :: 0 <= i < limit && '\0' !in a[..i] ==> a[i] == b[i]
  }

  lemma PrefixFromSecond(a: string, i: nat)
    requires 0 < i <= |a|
    ensures '\0' in a[..i] <==> a[0] == '\0' || '\0' in a[1..][..i - 1]
  {
    assert a[1..][..i - 1] == a[1..i];
    assert a[..i] == [a[0]] + a[1..i];
  }

  lemma AgreeFromSecond(a: string, b: string, limit: nat)
    requires 0 < limit <= |a| && limit <= |b| && a[0] == b[0] && a[0] != '\0'
    ensures Agree(a, b, limit) <==> Agree(a[1..], b[1..], limit - 1)
  {
    forall i | 0 < i < limit ensures '\0' in a[..i] <==> '\0' in a[1..][..i - 1] {
      PrefixFromSecond(a, i);
    }
    if Agree(a, b, limit) {
      forall i | 0 <= i < limit - 1 && '\0' !in a[1..][..i] ensures a[1..][i] == b[1..][i] {
        assert '\0' in a[..i + 1] <==> '\0' in a[1..][..(i + 1) - 1];
        assert a[i + 1] == b[i + 1];
      }
    }
    if Agree(a[1..], b[1..], limit - 1) {
      forall i | 0 <= i < limit && '\0' !in a[..i] ensures a[i] == b[i] {
        if i > 0 {
          assert a[1..][i - 1] == b[1..][i - 1];
        }
      }
    }
  }

  lemma {:induction false} SameStringExactlyWhen(a: string, b: string, limit: nat)
    requires limit <= |a| && limit <= |b|
    ensures CString(a, limit) == CString(b, limit) <==> Agree(a, b, limit)
  {
    if limit > 0 {
      if a[0] != b[0] {
        assert '\0' !in a[..0];
        assert !Agree(a, b, limit);
        assert a[0] != '\0' ==> CString(a, limit)[0] == a[0];
        assert b[0] != '\0' ==> CString(b, limit)[0] == b[0];
      } else if a[0] == '\0' {
        assert forall i :: 0 < i < limit ==> a[..i][0] in a[..i];
      } else {
        SameStringExactlyWhen(a[1..], b[1..], limit - 1);
        AgreeFromSecond(a, b, limit);
        assert CString(a, limit)[1..] == CString(a[1..], limit - 1);
        assert CString(b, limit)[1..] == CString(b[1..], limit - 1);
      }
    }
  }

  // When strncmp over name buffers finds them equal.
  lemma SameNameExactlyWhen(a: string, b: string)
    requires |a| >= MAX_CLIENT_NAME && |b| >= MAX_CLIENT_NAME
    ensures Key(a) == Key(b) <==> forall i :: 0 <= i < MAX_CLIENT_NAME && '\0' !in a[..i] ==> a[i] == b[i]
  {
    SameStringExactlyWhen(a, b, MAX_CLIENT_NAME);
  }

  // ---------------------------------------------------------------- searching the table

  datatype Query = Named(k: string) | Free | Carrying(fd: int)

  predicate Meets(c: Slot, q: Query) {
    match q
    case Named(k) => c.valid && Key(c.name) == k
    case Free => !c.valid
    case Carrying(fd) => c.socket == fd
  }

  // Index of the first slot that meets the query, or the length of the table.
  function Find(slots: seq<Slot>, q: Query): (i: nat)
    ensures i <= |slots|
    ensures i < |slots| ==> Meets(slots[i], q)
    ensures forall j :: 0 <= j < i ==> !Meets(slots[j], q)
  {
    if slots == [] || Meets(slots[0], q) then 0 else 1 + Find(slots[1..], q)
  }

  // The socket a message to one client goes to.
  function Lookup(slots: seq<Slot>, k: string): Option<int> {
    var i := Find(slots, Named(k));
    if i < |slots| then Some(slots[i].socket) else None
  }

  // ---------------------------------------------------------------- what the handlers do

  function Vacant(n: nat): seq<Slot> { seq(n, _ => Slot("\0", -1, false, false)) }

  // add_client: -1 for a taken name; 0 otherwise, even when there is no free slot left.
  function Add(slots: seq<Slot>, name: string, socket: int): (seq<Slot>, int)
    requires |name| >= MAX_CLIENT_NAME
  {
    if Find(slots, Named(Key(name))) < |slots| then (slots, -1)
    else
      var f := Find(slots, Free);
      if f == |slots| then (slots, 0)
      else (slots[f := Slot(name[..MAX_CLIENT_NAME], socket, true, slots[f].awaiting)], 0)
  }

  function Emptied(name: string): string { if name == [] then [] else name[0 := '\0'] }

  // handle_client_delete: also returns the descriptor to close, or -1.
  function Delete(slots: seq<Slot>, name: string): (seq<Slot>, int) {
    var i := Find(slots, Named(Key(name)));
    if i == |slots| then (slots, -1)
    else (slots[i := slots[i].(valid := false, name := Emptied(slots[i].name), socket := -1)], slots[i].socket)
  }

  // handle_got_alive_message looks at every slot, in use or not.
  function Alive(slots: seq<Slot>, fd: int): seq<Slot> {
    var i := Find(slots, Carrying(fd));
    if i == |slots| then slots else slots[i := slots[i].(awaiting := false)]
  }

  function PingSlot(c: Slot): Slot { if c.valid then c.(awaiting := true) else c }
  function SweepSlot(c: Slot): Slot { if c.valid && c.awaiting then c.(valid := false, awaiting := false) else c }

  function Each(slots: seq<Slot>, f: Slot -> Slot): (r: seq<Slot>)
    ensures |r| == |slots| && forall i :: 0 <= i < |slots| ==> r[i] == f(slots[i])
  {
    seq(|slots|, i requires 0 <= i < |slots| => f(slots[i]))
  }

  // Who a broadcast from `sender` goes to, in the order of the table.
  function Recipients(slots: seq<Slot>, sender: string): seq<(string, int)> {
    if slots == [] then []
    else
      var c := slots[|slots| - 1];
      Recipients(slots[..|slots| - 1], sender)
      + (if c.valid && Key(c.name) != sender then [(Key(c.name), c.socket)] else [])
  }

  // ---------------------------------------------------------------- the map the table stands for

  ghost predicate UniqueNames(slots: seq<Slot>) {
    forall i, j :: 0 <= i < j < |slots| && slots[i].valid && slots[j].valid ==> Key(slots[i].name) != Key(slots[j].name)
  }

  // The table stands for m: its used slots are the entries of m, each name once.
  ghost predicate StandsFor(slots: seq<Slot>, m: map<string, int>) {
    && UniqueNames(slots)
    && (forall i :: 0 <= i < |slots| && slots[i].valid ==>
          Key(slots[i].name) in m && m[Key(slots[i].name)] == slots[i].socket)
    && (forall k :: k in m ==> Find(slots, Named(k)) < |slots|)
  }

  // The map is determined by the table.
  lemma MapIsUnique(slots: seq<Slot>, m: map<string, int>, m': map<string, int>)
    requires StandsFor(slots, m) && StandsFor(slots, m')
    ensures m == m'
  {
    forall k | k in m ensures k in m' && m'[k] == m[k] {
      assert Meets(slots[Find(slots, Named(k))], Named(k));
    }
    forall k | k in m' ensures k in m {
      assert Meets(slots[Find(slots, Named(k))], Named(k));
    }
  }

  lemma FindClient(slots: seq<Slot>, m: map<string, int>, k: string)
    requires StandsFor(slots, m)
    ensures var i := Find(slots, Named(k));
      && (k in m <==> i < |slots|)
      && (k in m ==> slots[i].valid && Key(slots[i].name) == k && slots[i].socket == m[k])
    ensures Lookup(slots, k) == if k in m then Some(m[k]) else None
  {
  }

  function InUse(c: Slot): nat { if c.valid then 1 else 0 }
  function Late(c: Slot): nat { if c.valid && c.awaiting then 1 else 0 }

  lemma FindsBy(slots: seq<Slot>, q: Query, i: nat)
    requires i < |slots| && Meets(slots[i], q)
    ensures Find(slots, q) <= i
  {
  }

  lemma DropLast(front: seq<Slot>, c: Slot, m: map<string, int>, m': map<string, int>)
    requires StandsFor(front + [c], m) && m' == if c.valid then m - {Key(c.name)} else m
    ensures StandsFor(front, m')
  {
    var slots := front + [c];
    forall i | 0 <= i < |front| ensures front[i] == slots[i] {
    }
    forall i | 0 <= i < |front| && front[i].valid
      ensures Key(front[i].name) in m' && m'[Key(front[i].name)] == front[i].socket
    {
      assert slots[i].valid && slots[|front|] == c;
    }
    forall k | k in m' ensures Find(front, Named(k)) < |front| {
      var i := Find(slots, Named(k));
      assert Meets(slots[i], Named(k)) && i < |front|;
      FindsBy(front, Named(k), i);
    }
  }

  // The table without its last slot, and the map without that slot's entry.
  lemma WithoutLast(slots: seq<Slot>, m: map<string, int>)
    requires StandsFor(slots, m) && slots != []
    ensures var c := slots[|slots| - 1];
      && StandsFor(slots[..|slots| - 1], if c.valid then m - {Key(c.name)} else m)
      && (c.valid ==> Key(c.name) in m)
  {
    var front := slots[..|slots| - 1];
    var c := slots[|slots| - 1];
    assert slots == front + [c];
    DropLast(front, c, m, if c.valid then m - {Key(c.name)} else m);
  }

  lemma RemoveOne(m: map<string, int>, k: string)
    requires k in m
    ensures |m - {k}| == |m| - 1
  {
    assert (m - {k}).Keys == m.Keys - {k};
    assert |(m - {k}).Keys| == |m - {k}| && |m.Keys| == |m|;
  }

  lemma {:induction false} CountClients(slots: seq<Slot>, m: map<string, int>)
    requires StandsFor(slots, m)
    ensures |m| == Total(slots, InUse)
  {
    if slots == [] {
      assert m == map[];
    } else {
      var c := slots[|slots| - 1];
      WithoutLast(slots, m);
      CountClients(slots[..|slots| - 1], if c.valid then m - {Key(c.name)} else m);
      if c.valid {
        RemoveOne(m, Key(c.name));
      }
    }
  }

  // The table has room exactly while it holds fewer clients than slots.
  lemma RoomExactlyWhen(slots: seq<Slot>, m: map<string, int>)
    requires StandsFor(slots, m)
    ensures |m| <= |slots|
    ensures Find(slots, Free) < |slots| <==> |m| < |slots|
  {
    CountClients(slots, m);
    TotalAtMost(slots, 1, InUse);
    if Find(slots, Free) == |slots| {
      assert forall i :: 0 <= i < |slots| ==> !Meets(slots[i], Free);
      TotalUniform(slots, 1, InUse);
    }
  }

  // ---------------------------------------------------------------- refinement of the map

  lemma PutSlot(slots: seq<Slot>, m: map<string, int>, f: nat, c: Slot)
    requires StandsFor(slots, m) && f < |slots| && !slots[f].valid && c.valid && Key(c.name) !in m
    ensures StandsFor(slots[f := c], m[Key(c.name) := c.socket])
  {
    var slots' := slots[f := c];
    forall k | k in m[Key(c.name) := c.socket] ensures Find(slots', Named(k)) < |slots'| {
      if k == Key(c.name) {
        assert Meets(slots'[f], Named(k));
      } else {
        var i := Find(slots, Named(k));
        assert Meets(slots[i], Named(k)) && slots'[i] == slots[i];
      }
    }
  }

  lemma AddRefines(slots: seq<Slot>, m: map<string, int>, name: string, socket: int)
    requires StandsFor(slots, m) && |name| >= MAX_CLIENT_NAME
    ensures var (slots', rc) := Add(slots, name, socket);
      && |slots'| == |slots|
      && rc == (if Key(name) in m then -1 else 0)
      && StandsFor(slots', if Key(name) !in m && |m| < |slots| then m[Key(name) := socket] else m)
  {
    FindClient(slots, m, Key(name));
    RoomExactlyWhen(slots, m);
    var f := Find(slots, Free);
    if Key(name) !in m && f < |slots| {
      CStringOfPrefix(name, MAX_CLIENT_NAME, MAX_CLIENT_NAME);
      assert Meets(slots[f], Free);
      PutSlot(slots, m, f, Add(slots, name, socket).0[f]);
    }
  }

  // An answer of 0 means that the client is registered exactly if there was room.
  lemma RegisteredExactlyWhen(slots: seq<Slot>, m: map<string, int>, name: string, socket: int)
    requires StandsFor(slots, m) && |name| >= MAX_CLIENT_NAME
    ensures var (slots', rc) := Add(slots, name, socket);
      rc == 0 ==>
        && (Lookup(slots', Key(name)) == Some(socket) <==> |m| < |slots|)
        && (|m| == |slots| ==> slots' == slots && Lookup(slots', Key(name)) == None)
  {
    AddRefines(slots, m, name, socket);
    RoomExactlyWhen(slots, m);
    FindClient(slots, m, Key(name));
    if Key(name) !in m && |m| < |slots| {
      FindClient(Add(slots, name, socket).0, m[Key(name) := socket], Key(name));
    }
  }

  // Emptying some slots, and changing only flags in the others, drops exactly their entries.
  lemma DropSlots(slots: seq<Slot>, slots': seq<Slot>, m: map<string, int>, m': map<string, int>)
    requires StandsFor(slots, m) && |slots'| == |slots|
    requires forall i :: 0 <= i < |slots| && slots'[i].valid ==>
               slots[i].valid && slots'[i].name == slots[i].name && slots'[i].socket == slots[i].socket
    requires forall k :: k in m' ==> k in m && m'[k] == m[k]
    requires forall i :: 0 <= i < |slots| && slots[i].valid ==> (slots'[i].valid <==> Key(slots[i].name) in m')
    ensures StandsFor(slots', m')
  {
    forall k | k in m' ensures Find(slots', Named(k)) < |slots'| {
      var i := Find(slots, Named(k));
      assert Meets(slots[i], Named(k)) && Meets(slots'[i], Named(k));
    }
  }

  lemma DeleteRefines(slots: seq<Slot>, m: map<string, int>, name: string)
    requires StandsFor(slots, m)
    ensures var (slots', closed) := Delete(slots, name);
      && |slots'| == |slots| && StandsFor(slots', m - {Key(name)})
      && closed == (if Key(name) in m then m[Key(name)] else -1)
  {
    FindClient(slots, m, Key(name));
    DropSlots(slots, Delete(slots, name).0, m, m - {Key(name)});
  }

  ghost predicate Silent(c: Slot, fd: int) { c.valid && c.awaiting && c.socket == fd }

  // The sockets of silent clients, one slot further.
  lemma SilentNext(slots: seq<Slot>, i: nat)
    requires i < |slots|
    ensures forall fd :: (exists c :: c in slots[..i + 1] && Silent(c, fd)) <==>
                         (exists c :: c in slots[..i] && Silent(c, fd)) || Silent(slots[i], fd)
  {
    assert slots[..i + 1] == slots[..i] + [slots[i]];
  }

  // A registration changes the first free slot and no other, and keeps that slot's flag.
  lemma AddTouchesExactly(slots: seq<Slot>, m: map<string, int>, name: string, socket: int, j: nat)
    requires StandsFor(slots, m) && |name| >= MAX_CLIENT_NAME && j < |slots|
    ensures var c := Add(slots, name, socket).0[j];
      if Key(name) !in m && !slots[j].valid && forall i :: 0 <= i < j ==> slots[i].valid then
        && c.valid && c.socket == socket && c.awaiting == slots[j].awaiting
        && |c.name| == MAX_CLIENT_NAME && forall i :: 0 <= i < MAX_CLIENT_NAME ==> c.name[i] == name[i]
      else c == slots[j]
  {
    FindClient(slots, m, Key(name));
    var f := Find(slots, Free);
    assert f < |slots| ==> Meets(slots[f], Free);
    assert forall i :: 0 <= i < f ==> !Meets(slots[i], Free);
    assert Meets(slots[j], Free) <==> !slots[j].valid;
  }

  // A deletion empties the slot of that name and no other, and keeps that slot's flag.
  lemma DeleteTouchesExactly(slots: seq<Slot>, m: map<string, int>, name: string, j: nat)
    requires StandsFor(slots, m) && j < |slots|
    ensures |Delete(slots, name).0| == |slots|
    ensures var c := Delete(slots, name).0[j];
      if slots[j].valid && Key(slots[j].name) == Key(name) then
        !c.valid && c.socket == -1 && c.awaiting == slots[j].awaiting && Key(c.name) == []
      else c == slots[j]
  {
    FindClient(slots, m, Key(name));
    assert Meets(slots[j], Named(Key(name))) <==> slots[j].valid && Key(slots[j].name) == Key(name);
  }

  // The entries of m whose slot does not have its flag up.
  function Kept(slots: seq<Slot>, m: map<string, int>): map<string, int> {
    map k | k in m && Find(slots, Named(k)) < |slots| && !slots[Find(slots, Named(k))].awaiting :: m[k]
  }

  // The sweep removes exactly the clients whose flag is still up.
  lemma SweepRefines(slots: seq<Slot>, m: map<string, int>)
    requires StandsFor(slots, m)
    ensures StandsFor(Each(slots, SweepSlot), Kept(slots, m))
  {
    forall i | 0 <= i < |slots| && slots[i].valid ensures Find(slots, Named(Key(slots[i].name))) == i {
      var j := Find(slots, Named(Key(slots[i].name)));
      assert Meets(slots[i], Named(Key(slots[i].name))) && Meets(slots[j], Named(Key(slots[i].name)));
    }
    DropSlots(slots, Each(slots, SweepSlot), m, Kept(slots, m));
  }

  lemma PingKeepsMap(slots: seq<Slot>, m: map<string, int>)
    requires StandsFor(slots, m)
    ensures StandsFor(Each(slots, PingSlot), m)
  {
    DropSlots(slots, Each(slots, PingSlot), m, m);
  }

  lemma AliveKeepsMap(slots: seq<Slot>, m: map<string, int>, fd: int)
    requires StandsFor(slots, m)
    ensures StandsFor(Alive(slots, fd), m)
  {
    DropSlots(slots, Alive(slots, fd), m, m);
  }

  ghost predicate IsClient(c: Slot, k: string, fd: int) { c.valid && Key(c.name) == k && c.socket == fd }

  lemma {:induction false} RecipientsAre(slots: seq<Slot>, sender: string, k: string, fd: int)
    ensures (k, fd) in Recipients(slots, sender) <==> k != sender && exists c :: c in slots && IsClient(c, k, fd)
  {
    if slots != [] {
      var front := slots[..|slots| - 1];
      var c := slots[|slots| - 1];
      RecipientsAre(front, sender, k, fd);
      assert slots == front + [c];
      assert IsClient(c, k, fd) ==> c in slots;
    }
  }

  lemma {:induction false} RecipientsAreDistinct(slots: seq<Slot>, sender: string)
    requires UniqueNames(slots)
    ensures var r := Recipients(slots, sender);
      forall i, j :: 0 <= i < j < |r| ==> r[i].0 != r[j].0
  {
    if slots != [] {
      var front := slots[..|slots| - 1];
      RecipientsAreDistinct(front, sender);
      var r := Recipients(front, sender);
      forall i | 0 <= i < |r| && slots[|front|].valid ensures r[i].0 != Key(slots[|front|].name) {
        RecipientsAre(front, sender, r[i].0, r[i].1);
        assert (r[i].0, r[i].1) in r;
        var c :| c in front && IsClient(c, r[i].0, r[i].1);
        var j :| 0 <= j < |front| && front[j] == c;
        assert slots[j] == c;
      }
    }
  }

  lemma FindInFront(slots: seq<Slot>, q: Query)
    requires slots != [] && Find(slots[..|slots| - 1], q) < |slots| - 1
    ensures Find(slots, q) == Find(slots[..|slots| - 1], q)
  {
    var front := slots[..|slots| - 1];
    var i := Find(front, q);
    assert Meets(slots[i], q);
    assert forall j :: 0 <= j < i ==> front[j] == slots[j];
  }

  lemma FindLast(slots: seq<Slot>)
    requires UniqueNames(slots) && slots != [] && slots[|slots| - 1].valid
    ensures Find(slots, Named(Key(slots[|slots| - 1].name))) == |slots| - 1
  {
    var k := Key(slots[|slots| - 1].name);
    assert Meets(slots[|slots| - 1], Named(k)) && Meets(slots[Find(slots, Named(k))], Named(k));
  }

  // A broadcast is sent in the order of the table.
  lemma {:induction false} RecipientsInOrder(slots: seq<Slot>, sender: string, j: nat)
    requires UniqueNames(slots) && j < |Recipients(slots, sender)|
    ensures var r := Recipients(slots, sender);
      && Find(slots, Named(r[j].0)) < |slots|
      && forall i :: 0 <= i < j ==> Find(slots, Named(r[i].0)) < Find(slots, Named(r[j].0))
  {
    var front, c := slots[..|slots| - 1], slots[|slots| - 1];
    var r := Recipients(slots, sender);
    forall i | 0 <= i < |Recipients(front, sender)|
      ensures Find(slots, Named(r[i].0)) == Find(front, Named(r[i].0)) < |front|
    {
      RecipientsInOrder(front, sender, i);
      FindInFront(slots, Named(r[i].0));
    }
    if j < |Recipients(front, sender)| {
      RecipientsInOrder(front, sender, j);
    } else {
      FindLast(slots);
    }
  }

  // A broadcast reaches every registered client but the sender, each exactly once.
  lemma BroadcastReaches(slots: seq<Slot>, m: map<string, int>, sender: string)
    requires StandsFor(slots, m)
    ensures var r := Recipients(slots, sender);
      && (forall i, j :: 0 <= i < j < |r| ==> r[i].0 != r[j].0)
      && (forall k, fd :: (k, fd) in r <==> k != sender && k in m && m[k] == fd)
  {
    RecipientsAreDistinct(slots, sender);
    forall k, fd ensures (k, fd) in Recipients(slots, sender) <==> k != sender && k in m && m[k] == fd {
      RecipientsAre(slots, sender, k, fd);
      FindClient(slots, m, k);
      if k in m && m[k] == fd {
        assert IsClient(slots[Find(slots, Named(k))], k, fd);
      }
    }
  }
}
