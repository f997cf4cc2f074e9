/** The session nodes of the high-speed network devices: each device starts with ten
    nodes, which move between its free queue and its two protocol queues. */
module SessionNodes {

  import opened Bytes
  import opened Sched

  type Node = nat

  const UDP: nat := 0
  const TCP: nat := 1
  const MAX_HS_DEV_NUM: int := 16
  const MAX_SESS_NODE_NUM: nat := 10

  /** The fields of a session that matter here. `home` is the device its node came from;
      `dev` is the device number it records, which creating an active session leaves at
      whatever the allocated memory held. */
  datatype Sess = Sess(proto: nat, linked: bool, node: Node, home: nat, dev: int)

  datatype Dev = Dev(free: seq<Node>, udp: seq<Node>, tcp: seq<Node>)

  /** The initialised devices, the session each node points at, and the live sessions. An
      Id is the address of a session object, which may be handed out again once freed.
      `stale` are the protocol queues (device, protocol) whose tail pointer is wrong: their
      contents are reached from the first element and unaffected. `sound` is lost when an
      insertion goes through a wrong tail pointer, or the queues of an entry without a
      device are used; the queues are not followed further. */
  datatype Table = Table(devs: seq<Dev>, bound: map<Node, Id>, live: map<Id, Sess>, stale: set<(nat, nat)>, sound: bool)

  // ----- The macros -----

  function QueueOf(d: Dev, proto: nat): seq<Node> {
    if proto == UDP then d.udp else d.tcp
  }

  function WithQueue(d: Dev, proto: nat, q: seq<Node>): Dev {
    if proto == UDP then d.(udp := q) else d.(tcp := q)
  }

  /** HIGH_SPEED_NET_DEV_INSERT_SESSION_NODE on the node of session id. */
  function Insert(t: Table, id: Id, proto: nat): (r: (Table, int))
    requires id in t.live && t.live[id].home < |t.devs|
  {
    var s := t.live[id];
    var d := t.devs[s.home];
    if proto != UDP && proto != TCP then (t, ERROR)
    else if s.linked then (t, OK)
    else if (s.home, proto) in t.stale then (t.(sound := false), OK)
    else (t.(devs := t.devs[s.home := WithQueue(d, proto, QueueOf(d, proto) + [s.node])],
             live := t.live[id := s.(linked := true)]), OK)
  }

  /** Which tail pointers are wrong after node n left queue q of device `home` through the
      heads of entry `via`. Removing the last element writes the tail pointer of the head
      used: the right one is put right, the wrong one made wrong, and then the right one
      is left behind. */
  function StaleAfter(stale: set<(nat, nat)>, q: seq<Node>, n: Node, home: nat, proto: nat, via: nat): set<(nat, nat)> {
    if q == [] || q[|q| - 1] != n then stale
    else if via == home then stale - {(home, proto)}
    else stale + {(home, proto), (via, proto)}
  }

  /** HIGH_SPEED_NET_DEV_REMOVE_SESSION_NODE on the node of session id, with the queue
      heads of entry `via` of the device table: the element leaves the queue it is in. */
  function Remove(t: Table, id: Id, proto: nat, via: nat): Table
    requires id in t.live && t.live[id].home < |t.devs|
  {
    var s := t.live[id];
    var d := t.devs[s.home];
    var q := QueueOf(d, proto);
    if (proto != UDP && proto != TCP) || !s.linked then t
    else t.(devs := t.devs[s.home := WithQueue(d, proto, Without(q, s.node))],
            live := t.live[id := s.(linked := false)],
            stale := StaleAfter(t.stale, q, s.node, s.home, proto, via))
  }

  /** Unbind node n and push it to the free queue of entry `via`; an entry without a
      device has no initialised queue. */
  function Recycle(t: Table, n: Node, via: nat): Table {
    if via >= |t.devs| then t.(sound := false)
    else t.(bound := t.bound - {n}, devs := t.devs[via := t.devs[via].(free := t.devs[via].free + [n])])
  }

  function Release(t: Table, id: Id): Table {
    t.(live := t.live - {id})
  }

  // ----- Session set-up and removal -----

  /** Creating a session on device `home`: `late` is a failure after its node was queued. */
  function Create(t: Table, id: Id, home: nat, proto: nat, dev: int, late: bool): (r: (Table, int))
    requires id !in t.live && home < |t.devs|
  {
    var d := t.devs[home];
    if d.free == [] then (t, ERROR)
    else
      var n := d.free[0];
      var t1 := t.(devs := t.devs[home := d.(free := d.free[1..])], bound := t.bound[n := id],
                   live := t.live[id := Sess(proto, false, n, home, dev)]);
      var (t2, r) := Insert(t1, id, proto);
      if r != OK then (Release(Recycle(t2, n, home), id), ERROR)
      else if late then (Release(Recycle(Remove(t2, id, proto, home), n, home), id), ERROR)
      else (t2, OK)
  }

  /** delete_sess: a number outside the table skips the recycling; otherwise the entry it
      names is used, whichever that is. */
  function Delete(t: Table, id: Id): Table
    requires id in t.live && (t.live[id].linked ==> t.live[id].home < |t.devs|)
  {
    var s := t.live[id];
    if s.dev < 0 || s.dev >= MAX_HS_DEV_NUM || !s.linked then Release(t, id)
    else Release(Recycle(Remove(t, id, s.proto, s.dev), s.node, s.dev), id)
  }

  // ----- Counting nodes -----

  /** How often node n occurs in the queues of a device. */
  function Times(d: Dev, n: Node): nat {
    multiset(d.free)[n] + multiset(d.udp)[n] + multiset(d.tcp)[n]
  }

  function Count(devs: seq<Dev>, n: Node): nat {
    if devs == [] then 0 else Times(devs[0], n) + Count(devs[1..], n)
  }

  lemma {:induction false} CountUpdate(devs: seq<Dev>, i: nat, d: Dev, n: Node)
    requires i < |devs|
    ensures Count(devs[i := d], n) == Count(devs, n) - Times(devs[i], n) + Times(d, n)
  {
    if i == 0 {
      assert devs[i := d][1..] == devs[1..];
    } else {
      CountUpdate(devs[1..], i - 1, d, n);
      assert devs[i := d][1..] == devs[1..][i - 1 := d];
    }
  }

  lemma {:induction false} CountAtLeast(devs: seq<Dev>, i: nat, n: Node)
    requires i < |devs|
    ensures Count(devs, n) >= Times(devs[i], n)
  {
    if i > 0 { CountAtLeast(devs[1..], i - 1, n); }
  }

  lemma {:induction false} CountTwice(devs: seq<Dev>, i: nat, j: nat, n: Node)
    requires i < |devs| && j < |devs| && i != j
    ensures Count(devs, n) >= Times(devs[i], n) + Times(devs[j], n)
  {
    var none := Dev([], [], []);
    CountUpdate(devs, i, none, n);
    CountAtLeast(devs[i := none], j, n);
  }

  /** Membership in a queue is multiplicity. */
  lemma {:induction false} InQueues(d: Dev, n: Node)
    ensures n in d.free <==> multiset(d.free)[n] > 0
    ensures n in d.udp <==> multiset(d.udp)[n] > 0
    ensures n in d.tcp <==> multiset(d.tcp)[n] > 0
  {
    assert n in d.free <==> n in multiset(d.free);
    assert n in d.udp <==> n in multiset(d.udp);
    assert n in d.tcp <==> n in multiset(d.tcp);
  }

  /** A node counted once is in one queue of one device. */
  lemma {:induction false} OneDevice(devs: seq<Dev>, i: nat, j: nat, n: Node)
    requires Count(devs, n) <= 1 && i < |devs| && j < |devs| && i != j && Times(devs[i], n) > 0
    ensures n !in devs[j].free && n !in devs[j].udp && n !in devs[j].tcp
  {
    CountTwice(devs, i, j, n);
    InQueues(devs[j], n);
  }

  // ----- The invariant -----

  /** A live session is linked, and its node is in the queue of its protocol at home. */
  predicate SessOk(t: Table, id: Id)
    requires id in t.live
  {
    var s := t.live[id];
    && s.linked && (s.proto == UDP || s.proto == TCP)
    && s.home < |t.devs| && s.node in QueueOf(t.devs[s.home], s.proto)
    && s.node in t.bound && t.bound[s.node] == id
  }

  /** The queues hold the nodes that the devices started with, each once. */
  ghost predicate Counted(devs: seq<Dev>, start: seq<Dev>) {
    |devs| == |start| <= MAX_HS_DEV_NUM && forall n :: Count(devs, n) == Count(start, n) <= 1
  }

  ghost predicate TableOk(t: Table, start: seq<Dev>) {
    Counted(t.devs, start) && forall id :: id in t.live ==> SessOk(t, id)
  }

  predicate Queued(t: Table, n: Node) {
    exists i :: 0 <= i < |t.devs| && (n in t.devs[i].udp || n in t.devs[i].tcp)
  }

  /** The node is that of the live session it points at. */
  predicate Owned(t: Table, n: Node) {
    n in t.bound && t.bound[n] in t.live && t.live[t.bound[n]].node == n
  }

  /** No node has leaked: every queued node belongs to a live session. */
  ghost predicate NoOrphans(t: Table) {
    forall n :: Queued(t, n) ==> Owned(t, n)
  }

  // ----- Multiset facts about one device -----

  lemma {:induction false} WithoutOne(q: seq<Node>, n: Node)
    requires n in q && multiset(q)[n] == 1
    ensures multiset(Without(q, n)) == multiset(q) - multiset{n}
  {
    assert q == [q[0]] + q[1..];
    if q[0] == n {
      assert multiset(q[1..])[n] == 0;
      WithoutAbsent(q[1..], n);
    } else {
      WithoutOne(q[1..], n);
    }
  }

  lemma {:induction false} WithoutLast(q: seq<Node>, n: Node)
    requires n !in q
    ensures Without(q + [n], n) == q
  {
    if q == [] {
      assert q + [n] == [n];
    } else {
      assert (q + [n])[1..] == q[1..] + [n];
      WithoutLast(q[1..], n);
    }
  }

  /** The first free node goes to the end of a protocol queue. */
  function Taken(d: Dev, proto: nat): Dev
    requires d.free != []
  {
    WithQueue(d.(free := d.free[1..]), proto, QueueOf(d, proto) + [d.free[0]])
  }

  /** The first free node goes to the end of the free queue. */
  function Rotated(d: Dev): Dev
    requires d.free != []
  {
    d.(free := d.free[1..] + [d.free[0]])
  }

  lemma {:induction false} SameTimes(d: Dev, proto: nat, n: Node)
    requires d.free != []
    ensures Times(Taken(d, proto), n) == Times(d, n) && Times(Rotated(d), n) == Times(d, n)
  {
    assert d.free == [d.free[0]] + d.free[1..];
  }

  function Dropped(d: Dev, proto: nat, n: Node): Dev {
    WithQueue(d, proto, Without(QueueOf(d, proto), n))
  }

  function Pushed(d: Dev, n: Node): Dev {
    d.(free := d.free + [n])
  }

  lemma {:induction false} DroppedTimes(d: Dev, proto: nat, n: Node, x: Node)
    requires n in QueueOf(d, proto) && multiset(QueueOf(d, proto))[n] == 1
    ensures Times(Dropped(d, proto, n), x) == Times(d, x) - if x == n then 1 else 0
  {
    WithoutOne(QueueOf(d, proto), n);
  }

  lemma {:induction false} PushedTimes(d: Dev, n: Node, x: Node)
    ensures Times(Pushed(d, n), x) == Times(d, x) + if x == n then 1 else 0
  {
  }

  /** Replacing one device by another with the same nodes. */
  lemma {:induction false} CountedUpdate(devs: seq<Dev>, start: seq<Dev>, i: nat, d: Dev)
    requires Counted(devs, start) && i < |devs| && forall n :: Times(d, n) == Times(devs[i], n)
    ensures Counted(devs[i := d], start)
  {
    forall n ensures Count(devs[i := d], n) == Count(start, n) <= 1 {
      CountUpdate(devs, i, d, n);
    }
  }

  // ----- What creating and deleting come to -----

  function Opened(t: Table, id: Id, home: nat, proto: nat, dev: int): Table
    requires home < |t.devs| && t.devs[home].free != []
  {
    var d := t.devs[home];
    var n := d.free[0];
    t.(devs := t.devs[home := Taken(d, proto)], bound := t.bound[n := id],
       live := t.live[id := Sess(proto, true, n, home, dev)])
  }

  function Refused(t: Table, home: nat): Table
    requires home < |t.devs| && t.devs[home].free != []
  {
    var d := t.devs[home];
    t.(devs := t.devs[home := Rotated(d)], bound := t.bound - {d.free[0]})
  }

  /** The first free node of a device is in no protocol queue and no session has it. */
  lemma {:induction false} FreeIsUnused(t: Table, start: seq<Dev>, home: nat)
    requires TableOk(t, start) && home < |t.devs| && t.devs[home].free != []
    ensures var n := t.devs[home].free[0];
            && n !in t.devs[home].udp && n !in t.devs[home].tcp && !Queued(t, n)
            && forall id :: id in t.live ==> t.live[id].node != n
  {
    var n := t.devs[home].free[0];
    CountAtLeast(t.devs, home, n);
    InQueues(t.devs[home], n);
    forall i | 0 <= i < |t.devs| ensures n !in t.devs[i].udp && n !in t.devs[i].tcp {
      if i != home { OneDevice(t.devs, home, i, n); }
    }
    forall id | id in t.live ensures t.live[id].node != n {
      assert SessOk(t, id);
    }
  }

  /** A creation queues the first free node under its protocol, or leaves it at the end of
      the free queue, unless it inserts through a wrong tail pointer. */
  lemma {:induction false} CreateIs(t: Table, start: seq<Dev>, id: Id, home: nat, proto: nat, dev: int, late: bool)
    requires TableOk(t, start) && id !in t.live && home < |t.devs|
    ensures var r := Create(t, id, home, proto, dev, late);
            if t.devs[home].free == [] then r == (t, ERROR)
            else if proto != UDP && proto != TCP then r == (Refused(t, home), ERROR)
            else if (home, proto) in t.stale then !r.0.sound
            else if late then r == (Refused(t, home), ERROR)
            else r == (Opened(t, id, home, proto, dev), OK)
  {
    var d := t.devs[home];
    if d.free != [] {
      FreeIsUnused(t, start, home);
      var n := d.free[0];
      var s := Sess(proto, false, n, home, dev);
      MapFacts(t.live, id, s, s.(linked := true));
      assert t.bound[n := id] - {n} == t.bound - {n};
      WithoutLast(QueueOf(d, proto), n);
      DevFacts(t.devs, home, proto);
      assert (home, proto) !in t.stale ==> t.stale - {(home, proto)} == t.stale;
    }
  }

  lemma {:induction false} MapFacts(m: map<Id, Sess>, id: Id, s: Sess, s': Sess)
    requires id !in m
    ensures m[id := s] - {id} == m && m[id := s][id := s'] == m[id := s'] && m[id := s'][id := s] - {id} == m
  {
  }

  lemma {:induction false} DevFacts(devs: seq<Dev>, home: nat, proto: nat)
    requires home < |devs| && devs[home].free != []
    ensures var d := devs[home];
            var d1 := d.(free := d.free[1..]);
            && devs[home := d1][home := Taken(d, proto)] == devs[home := Taken(d, proto)]
            && devs[home := Taken(d, proto)][home := d1] == devs[home := d1]
            && devs[home := d1][home := Rotated(d)] == devs[home := Rotated(d)]
            && WithQueue(Taken(d, proto), proto, QueueOf(d, proto)) == d1
  {
  }

  /** The three kinds of recorded device numbers. */
  predicate Outside(s: Sess) {
    s.dev < 0 || s.dev >= MAX_HS_DEV_NUM
  }

  predicate Stray(s: Sess) {
    0 <= s.dev < MAX_HS_DEV_NUM && s.dev != s.home
  }

  /** Recycled on the device it came from. */
  function ClosedAtHome(t: Table, id: Id, s: Sess): Table
    requires s.home < |t.devs|
  {
    t.(devs := t.devs[s.home := Pushed(Dropped(t.devs[s.home], s.proto, s.node), s.node)],
       bound := t.bound - {s.node}, live := t.live - {id},
       stale := StaleAfter(t.stale, QueueOf(t.devs[s.home], s.proto), s.node, s.home, s.proto, s.home))
  }

  /** Recycled on another device. */
  function ClosedElsewhere(t: Table, id: Id, s: Sess): Table
    requires s.home < |t.devs| && 0 <= s.dev < |t.devs|
  {
    t.(devs := t.devs[s.home := Dropped(t.devs[s.home], s.proto, s.node)][s.dev := Pushed(t.devs[s.dev], s.node)],
       bound := t.bound - {s.node}, live := t.live - {id},
       stale := StaleAfter(t.stale, QueueOf(t.devs[s.home], s.proto), s.node, s.home, s.proto, s.dev))
  }

  /** Deleting a live session: what happens to its node depends on the recorded number. */
  lemma {:induction false} DeleteIs(t: Table, start: seq<Dev>, id: Id)
    requires TableOk(t, start) && t.sound && id in t.live
    ensures SessOk(t, id)
    ensures var s := t.live[id];
            && (Outside(s) ==> Delete(t, id) == t.(live := t.live - {id}))
            && (s.dev == s.home ==> Delete(t, id) == ClosedAtHome(t, id, s))
            && (Stray(s) && s.dev < |t.devs| ==> Delete(t, id) == ClosedElsewhere(t, id, s))
            && (Stray(s) && s.dev >= |t.devs| ==> !Delete(t, id).sound)
  {
    assert SessOk(t, id);
    var s := t.live[id];
    assert t.live[id := s.(linked := false)] - {id} == t.live - {id};
    if s.dev == s.home {
      assert t.devs[s.home := Dropped(t.devs[s.home], s.proto, s.node)]
                   [s.home := Pushed(Dropped(t.devs[s.home], s.proto, s.node), s.node)]
          == t.devs[s.home := Pushed(Dropped(t.devs[s.home], s.proto, s.node), s.node)];
    }
  }

  // ----- Preservation -----

  lemma {:induction false} OpenedOk(t: Table, start: seq<Dev>, id: Id, home: nat, proto: nat, dev: int)
    requires TableOk(t, start) && home < |t.devs| && t.devs[home].free != []
    requires id !in t.live && (proto == UDP || proto == TCP)
    ensures TableOk(Opened(t, id, home, proto, dev), start)
  {
    FreeIsUnused(t, start, home);
    forall n ensures Times(Taken(t.devs[home], proto), n) == Times(t.devs[home], n) {
      SameTimes(t.devs[home], proto, n);
    }
    CountedUpdate(t.devs, start, home, Taken(t.devs[home], proto));
    var t' := Opened(t, id, home, proto, dev);
    forall x | x in t'.live ensures SessOk(t', x) {
      if x != id { assert SessOk(t, x); }
    }
  }

  lemma {:induction false} RefusedOk(t: Table, start: seq<Dev>, home: nat)
    requires TableOk(t, start) && home < |t.devs| && t.devs[home].free != []
    ensures TableOk(Refused(t, home), start)
  {
    FreeIsUnused(t, start, home);
    forall n ensures Times(Rotated(t.devs[home]), n) == Times(t.devs[home], n) {
      SameTimes(t.devs[home], UDP, n);
    }
    CountedUpdate(t.devs, start, home, Rotated(t.devs[home]));
    var t' := Refused(t, home);
    forall x | x in t'.live ensures SessOk(t', x) { assert SessOk(t, x); }
  }

  /** The node of a session is counted once, in its queue. */
  lemma {:induction false} NodeOnce(t: Table, start: seq<Dev>, id: Id)
    requires TableOk(t, start) && id in t.live
    ensures SessOk(t, id)
    ensures var s := t.live[id]; multiset(QueueOf(t.devs[s.home], s.proto))[s.node] == 1
  {
    assert SessOk(t, id);
    var s := t.live[id];
    CountAtLeast(t.devs, s.home, s.node);
    InQueues(t.devs[s.home], s.node);
  }

  /** The other sessions keep their nodes when the node of session id moves. */
  lemma {:induction false} OthersOk(t: Table, start: seq<Dev>, id: Id, t': Table)
    requires TableOk(t, start) && id in t.live && t'.live == t.live - {id} && |t'.devs| == |t.devs|
    requires t'.bound == t.bound || t'.bound == t.bound - {t.live[id].node}
    requires forall i, p, n :: 0 <= i < |t.devs| && n in QueueOf(t.devs[i], p) && n != t.live[id].node ==>
               n in QueueOf(t'.devs[i], p)
    ensures forall x :: x in t'.live ==> SessOk(t', x)
  {
    assert SessOk(t, id);
    forall x | x in t'.live ensures SessOk(t', x) {
      assert SessOk(t, x);
    }
  }

  lemma {:induction false} ClosedAtHomeOk(t: Table, start: seq<Dev>, id: Id)
    requires TableOk(t, start) && id in t.live
    ensures SessOk(t, id) && TableOk(ClosedAtHome(t, id, t.live[id]), start)
  {
    NodeOnce(t, start, id);
    var s := t.live[id];
    var d := t.devs[s.home];
    var d' := Pushed(Dropped(d, s.proto, s.node), s.node);
    forall n ensures Times(d', n) == Times(d, n) {
      DroppedTimes(d, s.proto, s.node, n);
      PushedTimes(Dropped(d, s.proto, s.node), s.node, n);
    }
    CountedUpdate(t.devs, start, s.home, d');
    OthersOk(t, start, id, ClosedAtHome(t, id, s));
  }

  lemma {:induction false} MovedCounted(devs: seq<Dev>, start: seq<Dev>, i: nat, j: nat, proto: nat, n: Node)
    requires Counted(devs, start) && i < |devs| && j < |devs| && i != j
    requires n in QueueOf(devs[i], proto) && multiset(QueueOf(devs[i], proto))[n] == 1
    ensures Counted(devs[i := Dropped(devs[i], proto, n)][j := Pushed(devs[j], n)], start)
  {
    var devs1 := devs[i := Dropped(devs[i], proto, n)];
    var devs2 := devs1[j := Pushed(devs[j], n)];
    forall x ensures Count(devs2, x) == Count(start, x) <= 1 {
      CountUpdate(devs, i, Dropped(devs[i], proto, n), x);
      CountUpdate(devs1, j, Pushed(devs[j], n), x);
      DroppedTimes(devs[i], proto, n, x);
      PushedTimes(devs[j], n, x);
    }
  }

  lemma {:induction false} ClosedElsewhereOk(t: Table, start: seq<Dev>, id: Id)
    requires TableOk(t, start) && id in t.live && SessOk(t, id)
    requires Stray(t.live[id]) && t.live[id].dev < |t.devs|
    ensures TableOk(ClosedElsewhere(t, id, t.live[id]), start)
  {
    NodeOnce(t, start, id);
    var s := t.live[id];
    MovedCounted(t.devs, start, s.home, s.dev, s.proto, s.node);
    OthersOk(t, start, id, ClosedElsewhere(t, id, s));
  }

  lemma {:induction false} ReleasedOk(t: Table, start: seq<Dev>, id: Id)
    requires TableOk(t, start) && id in t.live
    ensures TableOk(t.(live := t.live - {id}), start)
  {
    OthersOk(t, start, id, t.(live := t.live - {id}));
  }

  // ----- Whole runs -----

  datatype Op =
    | Open(id: Id, home: nat, proto: nat, dev: int, late: bool)
    | Close(id: Id)

  /** Once the queues are not followed the state stays as it is. */
  function Apply(t: Table, op: Op): Table {
    if !t.sound then t
    else
      match op
      case Open(id, home, proto, dev, late) =>
        if id in t.live || home >= |t.devs| then t else Create(t, id, home, proto, dev, late).0
      case Close(id) =>
        if id in t.live && t.live[id].home < |t.devs| then Delete(t, id) else t
  }

  function Run(t: Table, ops: seq<Op>): Table {
    if ops == [] then t else Apply(Run(t, ops[..|ops| - 1]), ops[|ops| - 1])
  }

  /** engine_init_hs_net_dev: all nodes free. */
  function Initial(start: seq<Dev>): Table {
    Table(start, map[], map[], {}, true)
  }

  /** Distinct nodes, all of them free, on at most as many devices as the table has. */
  ghost predicate Fresh(start: seq<Dev>) {
    && |start| <= MAX_HS_DEV_NUM
    && (forall i :: 0 <= i < |start| ==> start[i].udp == [] && start[i].tcp == [])
    && (forall n :: Count(start, n) <= 1)
  }

  /** The table is in order as long as its queues are followed. */
  lemma {:induction false} ApplyKeeps(t: Table, start: seq<Dev>, op: Op)
    requires t.sound ==> TableOk(t, start)
    ensures Apply(t, op).sound ==> TableOk(Apply(t, op), start)
  {
    if t.sound {
      match op
      case Open(id, home, proto, dev, late) =>
        if id !in t.live && home < |t.devs| {
          CreateIs(t, start, id, home, proto, dev, late);
          if t.devs[home].free != [] {
            RefusedOk(t, start, home);
            if proto == UDP || proto == TCP { OpenedOk(t, start, id, home, proto, dev); }
          }
        }
      case Close(id) =>
        if id in t.live {
          DeleteIs(t, start, id);
          ClosedAtHomeOk(t, start, id);
          ReleasedOk(t, start, id);
          if Stray(t.live[id]) && t.live[id].dev < |t.devs| { ClosedElsewhereOk(t, start, id); }
        }
    }
  }

  /** In every run, wrong tail pointers included, until an insertion goes through one or an
      entry without a device is used: all queues together hold every node of all devices
      exactly once, and every live session is linked with its node queued at home under
      its protocol and pointing back at it. */
  lemma {:induction false} NodesConserved(start: seq<Dev>, ops: seq<Op>)
    requires Fresh(start)
    ensures var t := Run(Initial(start), ops); t.sound ==> TableOk(t, start)
    decreases |ops|
  {
    if ops != [] {
      NodesConserved(start, ops[..|ops| - 1]);
      ApplyKeeps(Run(Initial(start), ops[..|ops| - 1]), start, ops[|ops| - 1]);
    }
  }

  // ----- Which closes do harm -----

  /** Every device has exactly the nodes it started with, behind right queue heads. */
  ghost predicate EachKeeps(t: Table, start: seq<Dev>) {
    && t.sound && t.stale == {} && |t.devs| == |start|
    && forall i, n :: 0 <= i < |start| ==> Times(t.devs[i], n) == Times(start[i], n)
  }

  /** A close of a session whose recorded number names another entry of the table. */
  predicate StrayClose(t: Table, op: Op) {
    op.Close? && op.id in t.live && Stray(t.live[op.id])
  }

  /** A close of a session whose recorded number is not that of its device. */
  predicate WrongClose(t: Table, op: Op) {
    op.Close? && op.id in t.live && t.live[op.id].dev != t.live[op.id].home
  }

  lemma {:induction false} OpenKeepsEach(t: Table, start: seq<Dev>, op: Op)
    requires TableOk(t, start) && EachKeeps(t, start) && op.Open?
    ensures EachKeeps(Apply(t, op), start)
  {
    if op.id !in t.live && op.home < |t.devs| {
      CreateIs(t, start, op.id, op.home, op.proto, op.dev, op.late);
      if t.devs[op.home].free != [] {
        var d := t.devs[op.home];
        forall n ensures Times(Taken(d, op.proto), n) == Times(d, n) == Times(Rotated(d), n) {
          SameTimes(d, op.proto, n);
        }
      }
    }
  }

  lemma {:induction false} CloseAtHomeKeepsEach(t: Table, start: seq<Dev>, id: Id)
    requires TableOk(t, start) && EachKeeps(t, start) && id in t.live && SessOk(t, id)
    ensures EachKeeps(ClosedAtHome(t, id, t.live[id]), start)
  {
    NodeOnce(t, start, id);
    var s := t.live[id];
    var d := t.devs[s.home];
    forall n ensures Times(Pushed(Dropped(d, s.proto, s.node), s.node), n) == Times(d, n) {
      DroppedTimes(d, s.proto, s.node, n);
      PushedTimes(Dropped(d, s.proto, s.node), s.node, n);
    }
  }

  /** A node that ends on another device is missing at home. */
  lemma {:induction false} CloseElsewhereBreaks(t: Table, start: seq<Dev>, id: Id)
    requires TableOk(t, start) && EachKeeps(t, start) && id in t.live && SessOk(t, id)
    requires Stray(t.live[id]) && t.live[id].dev < |t.devs|
    ensures !EachKeeps(ClosedElsewhere(t, id, t.live[id]), start)
  {
    NodeOnce(t, start, id);
    var s := t.live[id];
    DroppedTimes(t.devs[s.home], s.proto, s.node, s.node);
    var t' := ClosedElsewhere(t, id, s);
    assert t'.devs[s.home] == Dropped(t.devs[s.home], s.proto, s.node);
    assert Times(t'.devs[s.home], s.node) != Times(start[s.home], s.node);
  }

  /** One step keeps every device's nodes if and only if it is not a stray close. */
  lemma {:induction false} StepKeepsIff(t: Table, start: seq<Dev>, op: Op)
    requires TableOk(t, start) && EachKeeps(t, start)
    ensures EachKeeps(Apply(t, op), start) <==> !StrayClose(t, op)
  {
    if op.Open? {
      OpenKeepsEach(t, start, op);
    } else if op.id in t.live {
      DeleteIs(t, start, op.id);
      CloseAtHomeKeepsEach(t, start, op.id);
      if Stray(t.live[op.id]) && t.live[op.id].dev < |t.devs| { CloseElsewhereBreaks(t, start, op.id); }
    }
  }

  /** Every device has its nodes in every state of the run. */
  ghost predicate AlwaysKeeps(start: seq<Dev>, ops: seq<Op>) {
    EachKeeps(Run(Initial(start), ops), start) && (ops != [] ==> AlwaysKeeps(start, ops[..|ops| - 1]))
  }

  /** No operation of the run is a stray close. */
  predicate NeverStray(start: seq<Dev>, ops: seq<Op>) {
    ops == [] || (NeverStray(start, ops[..|ops| - 1])
                  && !StrayClose(Run(Initial(start), ops[..|ops| - 1]), ops[|ops| - 1]))
  }

  /** Every device keeps exactly its nodes, in every state of the run, if and only if no
      close hits a session whose recorded number is another entry of the table. */
  lemma {:induction false} KeepsNodesIff(start: seq<Dev>, ops: seq<Op>)
    requires Fresh(start)
    ensures AlwaysKeeps(start, ops) <==> NeverStray(start, ops)
    decreases |ops|
  {
    if ops != [] {
      var prior := ops[..|ops| - 1];
      KeepsNodesIff(start, prior);
      NodesConserved(start, prior);
      var t := Run(Initial(start), prior);
      if EachKeeps(t, start) { StepKeepsIff(t, start, ops[|ops| - 1]); }
    }
  }

  // ----- Which closes leak -----

  lemma {:induction false} OpenKeepsOwned(t: Table, start: seq<Dev>, op: Op)
    requires TableOk(t, start) && t.sound && NoOrphans(t) && op.Open?
    ensures Apply(t, op).sound ==> NoOrphans(Apply(t, op))
  {
    if op.id !in t.live && op.home < |t.devs| {
      CreateIs(t, start, op.id, op.home, op.proto, op.dev, op.late);
      if t.devs[op.home].free != [] && Apply(t, op).sound {
        FreeIsUnused(t, start, op.home);
        var t', n := Apply(t, op), t.devs[op.home].free[0];
        forall m | Queued(t', m) ensures Owned(t', m) {
          var i :| 0 <= i < |t'.devs| && (m in t'.devs[i].udp || m in t'.devs[i].tcp);
          if m != n { assert m in t.devs[i].udp || m in t.devs[i].tcp; assert Owned(t, m); }
        }
      }
    }
  }

  lemma {:induction false} DroppedMembers(d: Dev, proto: nat, n: Node, m: Node)
    requires multiset(d.udp)[n] + multiset(d.tcp)[n] <= 1 && n in QueueOf(d, proto)
    ensures var d' := Dropped(d, proto, n);
            m in d'.udp || m in d'.tcp <==> (m in d.udp || m in d.tcp) && m != n
  {
    InQueues(d, n);
  }

  lemma {:induction false} CloseAtHomeKeepsOwned(t: Table, start: seq<Dev>, id: Id)
    requires TableOk(t, start) && NoOrphans(t) && id in t.live && SessOk(t, id)
    ensures NoOrphans(ClosedAtHome(t, id, t.live[id]))
  {
    NodeOnce(t, start, id);
    var s, t' := t.live[id], ClosedAtHome(t, id, t.live[id]);
    InQueues(t.devs[s.home], s.node);
    CountAtLeast(t.devs, s.home, s.node);
    forall m | Queued(t', m) ensures Owned(t', m) {
      var i :| 0 <= i < |t'.devs| && (m in t'.devs[i].udp || m in t'.devs[i].tcp);
      DroppedMembers(t.devs[s.home], s.proto, s.node, m);
      if i != s.home { OneDevice(t.devs, s.home, i, s.node); }
      assert m != s.node && (m in t.devs[i].udp || m in t.devs[i].tcp);
      assert Queued(t, m) && Owned(t, m);
    }
  }

  /** A close that skips the recycling leaves the node queued without a session. */
  lemma {:induction false} ReleaseLeaks(t: Table, start: seq<Dev>, id: Id)
    requires TableOk(t, start) && id in t.live
    ensures var t' := t.(live := t.live - {id}); Queued(t', t.live[id].node) && !Owned(t', t.live[id].node)
  {
    assert SessOk(t, id);
    var s := t.live[id];
    assert s.node in t.devs[s.home].udp || s.node in t.devs[s.home].tcp;
  }

  ghost predicate Clean(t: Table, start: seq<Dev>) {
    EachKeeps(t, start) && NoOrphans(t)
  }

  lemma {:induction false} StepCleanIff(t: Table, start: seq<Dev>, op: Op)
    requires TableOk(t, start) && Clean(t, start)
    ensures Clean(Apply(t, op), start) <==> !WrongClose(t, op)
  {
    StepKeepsIff(t, start, op);
    if op.Open? {
      OpenKeepsOwned(t, start, op);
    } else if op.id in t.live {
      DeleteIs(t, start, op.id);
      CloseAtHomeKeepsOwned(t, start, op.id);
      ReleaseLeaks(t, start, op.id);
    }
  }

  ghost predicate AlwaysClean(start: seq<Dev>, ops: seq<Op>) {
    Clean(Run(Initial(start), ops), start) && (ops != [] ==> AlwaysClean(start, ops[..|ops| - 1]))
  }

  predicate NeverWrong(start: seq<Dev>, ops: seq<Op>) {
    ops == [] || (NeverWrong(start, ops[..|ops| - 1])
                  && !WrongClose(Run(Initial(start), ops[..|ops| - 1]), ops[|ops| - 1]))
  }

  /** No node ever leaves its device or leaks, in any state of the run, if and only if
      every session that is closed recorded its own device. */
  lemma {:induction false} NoLeakIff(start: seq<Dev>, ops: seq<Op>)
    requires Fresh(start)
    ensures AlwaysClean(start, ops) <==> NeverWrong(start, ops)
    decreases |ops|
  {
    if ops != [] {
      var prior := ops[..|ops| - 1];
      NoLeakIff(start, prior);
      NodesConserved(start, prior);
      var t := Run(Initial(start), prior);
      if Clean(t, start) { StepCleanIff(t, start, ops[|ops| - 1]); }
    }
  }

  /** A leaked node is lost to every later run: it stays queued without a session of its
      own and never becomes free, whatever address the session had. */
  lemma {:induction false} LeakIsForever(t: Table, start: seq<Dev>, ops: seq<Op>, n: Node)
    requires t.sound && TableOk(t, start) && Queued(t, n) && !Owned(t, n)
    ensures var t' := Run(t, ops); t'.sound ==> TableOk(t', start) && Queued(t', n) && !Owned(t', n)
    decreases |ops|
  {
    if ops != [] {
      LeakIsForever(t, start, ops[..|ops| - 1], n);
      var t1 := Run(t, ops[..|ops| - 1]);
      if t1.sound {
        ApplyKeeps(t1, start, ops[|ops| - 1]);
        OrphanStays(t1, start, ops[|ops| - 1], n);
      }
    }
  }

  lemma {:induction false} OrphanStays(t: Table, start: seq<Dev>, op: Op, n: Node)
    requires t.sound && TableOk(t, start) && Queued(t, n) && !Owned(t, n)
    ensures var t' := Apply(t, op); t'.sound ==> Queued(t', n) && !Owned(t', n)
  {
    if op.Open? {
      OrphanPastOpen(t, start, op, n);
    } else if op.id in t.live {
      var i :| 0 <= i < |t.devs| && (n in t.devs[i].udp || n in t.devs[i].tcp);
      var t' := Apply(t, op);
      DeleteIs(t, start, op.id);
      assert n != t.live[op.id].node;
      if t'.sound { assert n in t'.devs[i].udp || n in t'.devs[i].tcp; }
    }
  }

  lemma {:induction false} OrphanPastOpen(t: Table, start: seq<Dev>, op: Op, n: Node)
    requires t.sound && TableOk(t, start) && Queued(t, n) && !Owned(t, n) && op.Open?
    ensures Apply(t, op).sound ==> Queued(Apply(t, op), n) && !Owned(Apply(t, op), n)
  {
    var i :| 0 <= i < |t.devs| && (n in t.devs[i].udp || n in t.devs[i].tcp);
    var t' := Apply(t, op);
    if op.id !in t.live && op.home < |t.devs| {
      CreateIs(t, start, op.id, op.home, op.proto, op.dev, op.late);
      if t.devs[op.home].free != [] { FreeIsUnused(t, start, op.home); }
    }
    if t'.sound { assert n in t'.devs[i].udp || n in t'.devs[i].tcp; }
  }

  // ----- The failing runs -----

  /** Device 0 with nodes 0 and 1, device 1 with node 2. */
  const Two: seq<Dev> := [Dev([0, 1], [], []), Dev([2], [], [])]

  /** Session 7 opened on device 0, recording device number `dev`. */
  function Seven(dev: int): Table {
    Table([Dev([1], [], [0]), Dev([2], [], [])], map[0 := 7], map[7 := Sess(TCP, true, 0, 0, dev)], {}, true)
  }

  /** A session of the same device behind it, recording its own device. */
  const SevenEight: Table :=
    Table([Dev([], [], [0, 1]), Dev([2], [], [])], map[0 := 7, 1 := 8],
          map[7 := Sess(TCP, true, 0, 0, 1), 8 := Sess(TCP, true, 1, 0, 0)], {}, true)

  lemma {:induction false} OpensSeven(dev: int)
    ensures Apply(Initial(Two), Open(7, 0, TCP, dev, false)) == Seven(dev)
  {
    var d := Two[0];
    assert d.free[1..] == [1] && d.tcp + [0] == [0];
    var devs1 := Two[0 := Dev([1], [], [])];
    assert devs1[0 := Dev([1], [], [0])] == Seven(dev).devs;
    var s := Sess(TCP, false, 0, 0, dev);
    assert map[7 := s][7 := s.(linked := true)] == Seven(dev).live;
  }

  lemma {:induction false} OpensEight()
    ensures Apply(Seven(1), Open(8, 0, TCP, 0, false)) == SevenEight
  {
    var d := Seven(1).devs[0];
    assert d.free[1..] == [] && d.tcp + [1] == [0, 1];
    var devs1 := Seven(1).devs[0 := Dev([], [], [0])];
    assert devs1[0 := Dev([], [], [0, 1])] == SevenEight.devs;
    var s := Sess(TCP, false, 1, 0, 0);
    assert Seven(1).live[8 := s][8 := s.(linked := true)] == SevenEight.live;
  }

  /** A session of device 0 that records device 1, closed while another one is queued
      behind it: its node ends up on device 1. */
  lemma {:induction false} NodeChangesDevice()
    ensures var t := Run(Initial(Two), [Open(7, 0, TCP, 1, false), Open(8, 0, TCP, 0, false), Op.Close(7)]);
            t.sound && t.devs == [Dev([], [], [1]), Dev([2, 0], [], [])]
  {
    RunOf3(Initial(Two), Open(7, 0, TCP, 1, false), Open(8, 0, TCP, 0, false), Op.Close(7));
    OpensSeven(1);
    OpensEight();
    ClosesSeven();
  }

  lemma {:induction false} ClosesSeven()
    ensures Delete(SevenEight, 7).sound && Delete(SevenEight, 7).devs == [Dev([], [], [1]), Dev([2, 0], [], [])]
  {
    assert Without([0, 1], 0) == [1] by { assert [0, 1][1..] == [1]; WithoutAbsent([1], 0); }
    var t1 := Remove(SevenEight, 7, TCP, 1);
    assert t1.devs == [Dev([], [], [1]), Dev([2], [], [])];
    assert [2] + [0] == [2, 0];
    assert Recycle(t1, 0, 1).devs == [Dev([], [], [1]), Dev([2, 0], [], [])];
  }

  /** Device 0 and device 1 after session 7 alone was closed through device 1. */
  const Crossed: Table := Table([Dev([1], [], []), Dev([2, 0], [], [])], map[], map[], {(0, TCP), (1, TCP)}, true)

  /** The same with no other session: its node ends up on device 1 too, and the tail
      pointers of both TCP queues are wrong. */
  lemma {:induction false} LastNodeLeavesStaleTails()
    ensures Run(Initial(Two), [Open(7, 0, TCP, 1, false), Op.Close(7)]) == Crossed
  {
    RunOf2(Initial(Two), Open(7, 0, TCP, 1, false), Op.Close(7));
    OpensSeven(1);
    assert Without([0], 0) == [] by { assert [0][1..] == []; }
    var t1 := Remove(Seven(1), 7, TCP, 1);
    assert t1.devs == [Dev([1], [], []), Dev([2], [], [])];
    assert [2] + [0] == [2, 0];
    assert Recycle(t1, 0, 1).devs == Crossed.devs;
    assert map[0 := 7] - {0} == map[] && t1.live - {7} == map[];
  }

  /** The next TCP session on device 0 is inserted through the wrong tail pointer. */
  lemma {:induction false} StaleTailIsUsed(id: Id, dev: int, late: bool)
    ensures !Apply(Crossed, Open(id, 0, TCP, dev, late)).sound
  {
    assert Crossed.devs[0].free != [];
  }

  /** A number outside the table: the node stays queued and points at a freed session. */
  lemma {:induction false} NodeLeaks()
    ensures var t := Run(Initial(Two), [Open(7, 0, TCP, -1, false), Op.Close(7)]);
            t.sound && Queued(t, 0) && !Owned(t, 0)
  {
    RunOf2(Initial(Two), Open(7, 0, TCP, -1, false), Op.Close(7));
    OpensSeven(-1);
    assert 0 in Seven(-1).devs[0].tcp;
  }

  lemma {:induction false} RunOf2(t: Table, a: Op, b: Op)
    ensures Run(t, [a, b]) == Apply(Apply(t, a), b)
  {
    assert [a, b][..1] == [a] && [a][..0] == [];
    assert Run(t, [a]) == Apply(Run(t, []), a);
  }

  lemma {:induction false} RunOf3(t: Table, a: Op, b: Op, c: Op)
    ensures Run(t, [a, b, c]) == Apply(Apply(Apply(t, a), b), c)
  {
    assert [a, b, c][..2] == [a, b];
    RunOf2(t, a, b);
  }
}
