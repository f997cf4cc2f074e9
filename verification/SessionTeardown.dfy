/** Set-up and tear-down of the devices' session nodes. */
module SessionTeardown {

  import opened SessionNodes

  /** The session a node points at has not been freed. */
  predicate Alive(t: Table, n: Node) {
    n in t.bound && t.bound[n] in t.live
  }

  ghost predicate SessionsOk(t: Table) {
    forall id :: id in t.live ==> SessOk(t, id)
  }

  /** What was freed and what the queues still hold are all the nodes, each once. */
  ghost predicate Tally(t: Table, freed: seq<Node>, start: seq<Dev>) {
    && |t.devs| == |start|
    && forall n {:trigger Count(t.devs, n)} :: multiset(freed)[n] + Count(t.devs, n) == Count(start, n) <= 1
  }

  /** Every node still queued is that of its live session. */
  ghost predicate Intact(t: Table) {
    SessionsOk(t) && NoOrphans(t)
  }

  /** Some queued node will be found pointing at a freed session: it does so already, or
      it shares the session of another queued node. */
  ghost predicate Doomed(t: Table) {
    || (exists n :: Queued(t, n) && !Alive(t, n))
    || (SessionsOk(t) && exists n :: Queued(t, n) && !Owned(t, n))
  }

  /** The loop body for the first node of a protocol queue: unlink it, clear the link bit
      of its session, delete the session. */
  function TearOne(t: Table, i: nat, proto: nat): Table
    requires i < |t.devs| && QueueOf(t.devs[i], proto) != [] && Alive(t, QueueOf(t.devs[i], proto)[0])
  {
    var d := t.devs[i];
    var q := QueueOf(d, proto);
    var id := t.bound[q[0]];
    var t1 := t.(devs := t.devs[i := WithQueue(d, proto, q[1..])], live := t.live[id := t.live[id].(linked := false)]);
    SessionNodes.Delete(t1, id)
  }

  lemma {:induction false} TearOneIs(t: Table, i: nat, proto: nat)
    requires i < |t.devs| && QueueOf(t.devs[i], proto) != [] && Alive(t, QueueOf(t.devs[i], proto)[0])
    ensures var q := QueueOf(t.devs[i], proto);
            TearOne(t, i, proto)
            == t.(devs := t.devs[i := WithQueue(t.devs[i], proto, q[1..])], live := t.live - {t.bound[q[0]]})
  {
    var id := t.bound[QueueOf(t.devs[i], proto)[0]];
    assert t.live[id := t.live[id].(linked := false)] - {id} == t.live - {id};
  }

  /** Taking the first node off a queue. */
  lemma {:induction false} BeheadTimes(d: Dev, proto: nat, x: Node)
    requires QueueOf(d, proto) != []
    ensures var q := QueueOf(d, proto);
            Times(WithQueue(d, proto, q[1..]), x) == Times(d, x) - if x == q[0] then 1 else 0
  {
    var q := QueueOf(d, proto);
    assert q == [q[0]] + q[1..];
  }

  lemma {:induction false} TearTally(t: Table, freed: seq<Node>, start: seq<Dev>, i: nat, proto: nat)
    requires Tally(t, freed, start) && i < |t.devs| && QueueOf(t.devs[i], proto) != []
    requires Alive(t, QueueOf(t.devs[i], proto)[0])
    ensures Tally(TearOne(t, i, proto), freed + [QueueOf(t.devs[i], proto)[0]], start)
  {
    TearOneIs(t, i, proto);
    var q := QueueOf(t.devs[i], proto);
    var t' := TearOne(t, i, proto);
    forall n ensures multiset(freed + [q[0]])[n] + Count(t'.devs, n) == Count(start, n) <= 1 {
      assert Count(t.devs, n) >= 0;
      BeheadTimes(t.devs[i], proto, n);
      CountUpdate(t.devs, i, WithQueue(t.devs[i], proto, q[1..]), n);
    }
  }

  /** Which nodes are queued after the first one of a queue left. */
  lemma {:induction false} QueuedAfter(t: Table, freed: seq<Node>, start: seq<Dev>, i: nat, proto: nat, t': Table,
                                       m: Node)
    requires Tally(t, freed, start) && i < |t.devs| && (proto == UDP || proto == TCP) && QueueOf(t.devs[i], proto) != []
    requires t'.devs == t.devs[i := WithQueue(t.devs[i], proto, QueueOf(t.devs[i], proto)[1..])]
    ensures Queued(t', m) <==> Queued(t, m) && m != QueueOf(t.devs[i], proto)[0]
    ensures forall j, p :: 0 <= j < |t.devs| && (p == UDP || p == TCP) ==>
              (m in QueueOf(t'.devs[j], p) <==> m in QueueOf(t.devs[j], p) && m != QueueOf(t.devs[i], proto)[0])
  {
    var d, q := t.devs[i], QueueOf(t.devs[i], proto);
    var n := q[0];
    assert q == [n] + q[1..];
    assert Count(t.devs, n) <= 1;
    InQueues(d, n);
    CountAtLeast(t.devs, i, n);
    assert multiset(q[1..])[n] == 0;
    assert n !in multiset(q[1..]);
    forall j, p | 0 <= j < |t.devs| && (p == UDP || p == TCP)
      ensures m in QueueOf(t'.devs[j], p) <==> m in QueueOf(t.devs[j], p) && m != n
    {
      if j != i { OneDevice(t.devs, i, j, n); }
    }
    QueuedIff(t, m);
    QueuedIff(t', m);
  }

  lemma {:induction false} QueuedIff(t: Table, m: Node)
    ensures Queued(t, m) <==>
            exists j, p {:trigger QueueOf(t.devs[j], p)} ::
              0 <= j < |t.devs| && (p == UDP || p == TCP) && m in QueueOf(t.devs[j], p)
  {
    if Queued(t, m) {
      var j :| 0 <= j < |t.devs| && (m in t.devs[j].udp || m in t.devs[j].tcp);
      var p := if m in t.devs[j].udp then UDP else TCP;
      assert m in QueueOf(t.devs[j], p);
    }
  }

  /** From an intact table the step finds a live session and leaves the table intact. */
  lemma {:induction false} IntactStep(t: Table, freed: seq<Node>, start: seq<Dev>, i: nat, proto: nat)
    requires Tally(t, freed, start) && Intact(t)
    requires i < |t.devs| && (proto == UDP || proto == TCP) && QueueOf(t.devs[i], proto) != []
    ensures Alive(t, QueueOf(t.devs[i], proto)[0]) && Intact(TearOne(t, i, proto))
  {
    var n := QueueOf(t.devs[i], proto)[0];
    assert n in t.devs[i].udp || n in t.devs[i].tcp;
    assert Queued(t, n) && Owned(t, n);
    TearOneIs(t, i, proto);
    var t', id := TearOne(t, i, proto), t.bound[n];
    SessionsStep(t, freed, start, i, proto);
    forall m | Queued(t', m) ensures Owned(t', m) {
      QueuedAfter(t, freed, start, i, proto, t', m);
      assert Owned(t, m);
    }
  }

  /** Sessions other than that of an owned first node stay in order. */
  lemma {:induction false} SessionsStep(t: Table, freed: seq<Node>, start: seq<Dev>, i: nat, proto: nat)
    requires Tally(t, freed, start) && SessionsOk(t)
    requires i < |t.devs| && (proto == UDP || proto == TCP) && QueueOf(t.devs[i], proto) != []
    requires Owned(t, QueueOf(t.devs[i], proto)[0])
    ensures SessionsOk(TearOne(t, i, proto))
  {
    TearOneIs(t, i, proto);
    var n := QueueOf(t.devs[i], proto)[0];
    var t' := TearOne(t, i, proto);
    forall x | x in t'.live ensures SessOk(t', x) {
      assert SessOk(t, x);
      assert t.live[x].node != n;
      QueuedAfter(t, freed, start, i, proto, t', t.live[x].node);
    }
  }

  /** From a doomed table a step that finds a live session leaves the table doomed. */
  lemma {:induction false} DoomedStep(t: Table, freed: seq<Node>, start: seq<Dev>, i: nat, proto: nat)
    requires Tally(t, freed, start) && Doomed(t)
    requires i < |t.devs| && (proto == UDP || proto == TCP) && QueueOf(t.devs[i], proto) != []
    requires Alive(t, QueueOf(t.devs[i], proto)[0])
    ensures Doomed(TearOne(t, i, proto))
  {
    TearOneIs(t, i, proto);
    var n := QueueOf(t.devs[i], proto)[0];
    var t', id := TearOne(t, i, proto), t.bound[n];
    if m :| Queued(t, m) && !Alive(t, m) {
      QueuedAfter(t, freed, start, i, proto, t', m);
      assert !Alive(t', m);
    } else if Owned(t, n) {
      var m :| Queued(t, m) && !Owned(t, m);
      QueuedAfter(t, freed, start, i, proto, t', m);
      SessionsStep(t, freed, start, i, proto);
      assert !Owned(t', m);
    } else {
      var m := t.live[id].node;
      assert SessOk(t, id);
      var s := t.live[id];
      assert m in t.devs[s.home].udp || m in t.devs[s.home].tcp;
      QueuedAfter(t, freed, start, i, proto, t', m);
      assert Queued(t', m) && !Alive(t', m);
    }
  }

  /** The loop body, from either kind of table. */
  lemma {:induction false} TearStep(t: Table, freed: seq<Node>, start: seq<Dev>, i: nat, proto: nat)
    requires Tally(t, freed, start)
    requires i < |t.devs| && (proto == UDP || proto == TCP) && QueueOf(t.devs[i], proto) != []
    ensures var q := QueueOf(t.devs[i], proto);
            && (Intact(t) ==> Alive(t, q[0]))
            && (Alive(t, q[0]) ==>
                  var t' := TearOne(t, i, proto);
                  && t'.devs == t.devs[i := WithQueue(t.devs[i], proto, q[1..])]
                  && Tally(t', freed + [q[0]], start)
                  && (Intact(t) ==> Intact(t')) && (Doomed(t) ==> Doomed(t')))
  {
    if Intact(t) { IntactStep(t, freed, start, i, proto); }
    if Alive(t, QueueOf(t.devs[i], proto)[0]) {
      if Doomed(t) { DoomedStep(t, freed, start, i, proto); }
      TearTally(t, freed, start, i, proto);
      TearOneIs(t, i, proto);
    }
  }

  /** Nothing queued: nothing doomed, and an intact table has no session left. */
  lemma {:induction false} NothingQueued(t: Table)
    requires forall i :: 0 <= i < |t.devs| ==> t.devs[i].udp == [] && t.devs[i].tcp == []
    ensures !Doomed(t) && (SessionsOk(t) ==> t.live == map[])
  {
    assert forall n :: !Queued(t, n);
    if SessionsOk(t) {
      assert t.live.Keys == {};
    }
  }

  /** Freeing the nodes of a free queue. */
  lemma {:induction false} FreeTally(t: Table, freed: seq<Node>, start: seq<Dev>, i: nat)
    requires Tally(t, freed, start) && i < |t.devs|
    ensures var t' := t.(devs := t.devs[i := t.devs[i].(free := [])]);
            && Tally(t', freed + t.devs[i].free, start)
            && (Intact(t) ==> Intact(t')) && (Doomed(t) ==> Doomed(t'))
  {
    var d' := t.devs[i].(free := []);
    var t' := t.(devs := t.devs[i := d']);
    forall n ensures multiset(freed + t.devs[i].free)[n] + Count(t'.devs, n) == Count(start, n) <= 1 {
      assert Count(t.devs, n) >= 0;
      CountUpdate(t.devs, i, d', n);
    }
    SameQueues(t, t');
  }

  lemma {:induction false} SameQueues(t: Table, t': Table)
    requires |t.devs| == |t'.devs| && t'.bound == t.bound && t'.live == t.live
    requires forall i :: 0 <= i < |t.devs| ==> t'.devs[i].udp == t.devs[i].udp && t'.devs[i].tcp == t.devs[i].tcp
    ensures (Intact(t) ==> Intact(t')) && (Doomed(t) ==> Doomed(t'))
  {
    forall n ensures Queued(t', n) <==> Queued(t, n) {
      if i :| 0 <= i < |t.devs| && (n in t.devs[i].udp || n in t.devs[i].tcp) {
        assert n in t'.devs[i].udp || n in t'.devs[i].tcp;
      }
    }
    forall n ensures (Owned(t', n) <==> Owned(t, n)) && (Alive(t', n) <==> Alive(t, n)) {
    }
    if SessionsOk(t) {
      forall x | x in t'.live ensures SessOk(t', x) { assert SessOk(t, x); }
    }
  }

  class DeviceTable {
    var t: Table

    /** The allocation loops of engine_init_hs_net_dev; `blocks` are the addresses that
        malloc returns for each device. */
    constructor (blocks: seq<seq<Node>>)
      requires forall i :: 0 <= i < |blocks| ==> |blocks[i]| == 10
      ensures t == Initial(t.devs) && |t.devs| == |blocks|
      ensures forall i :: 0 <= i < |blocks| ==> t.devs[i] == Dev(blocks[i], [], [])
    {
      var devs: seq<Dev> := [];
      for cnt := 0 to |blocks|
        invariant |devs| == cnt && forall i :: 0 <= i < cnt ==> devs[i] == Dev(blocks[i], [], [])
      {
        var free: seq<Node> := [];
        for k := 0 to MAX_SESS_NODE_NUM
          invariant free == blocks[cnt][..k]
        {
          free := free + [blocks[cnt][k]];
        }
        devs := devs + [Dev(free, [], [])];
      }
      t := Table(devs, map[], map[], {}, true);
    }

    /** Draining one protocol queue; `fault` is the access to a freed session. */
    method TearQueue(i: nat, proto: nat, freed: seq<Node>, ghost start: seq<Dev>) returns (fault: bool,
                     freed': seq<Node>)
      requires Tally(t, freed, start) && i < |t.devs| && (proto == UDP || proto == TCP)
      modifies this
      ensures Intact(old(t)) ==> !fault && Intact(t)
      ensures Doomed(old(t)) ==> fault || Doomed(t)
      ensures !fault ==> Tally(t, freed', start) && t.devs == old(t).devs[i := WithQueue(old(t).devs[i], proto, [])]
    {
      freed', fault := freed, false;
      while QueueOf(t.devs[i], proto) != []
        invariant i < |t.devs| && Tally(t, freed', start)
        invariant (Intact(old(t)) ==> Intact(t)) && (Doomed(old(t)) ==> Doomed(t))
        invariant t.devs == old(t).devs[i := WithQueue(old(t).devs[i], proto, QueueOf(t.devs[i], proto))]
        decreases |QueueOf(t.devs[i], proto)|
      {
        var n := QueueOf(t.devs[i], proto)[0];
        TearStep(t, freed', start, i, proto);
        if n !in t.bound || t.bound[n] !in t.live { return true, freed'; }
        t := TearOne(t, i, proto);
        freed' := freed' + [n];
      }
    }

    /** One device: its two protocol queues, then its free queue. */
    method TearDevice(i: nat, freed: seq<Node>, ghost start: seq<Dev>) returns (fault: bool, freed': seq<Node>)
      requires Tally(t, freed, start) && i < |t.devs|
      modifies this
      ensures Intact(old(t)) ==> !fault && Intact(t)
      ensures Doomed(old(t)) ==> fault || Doomed(t)
      ensures !fault ==> Tally(t, freed', start) && t.devs == old(t).devs[i := Dev([], [], [])]
    {
      fault, freed' := TearQueue(i, TCP, freed, start);
      if fault { return; }
      fault, freed' := TearQueue(i, UDP, freed', start);
      if fault { return; }
      FreeTally(t, freed', start, i);
      freed' := freed' + t.devs[i].free;
      t := t.(devs := t.devs[i := t.devs[i].(free := [])]);
    }

    /** Tear-down of all devices, wrong tail pointers or not, touches only live sessions if
        and only if every queued node is that of its live session; then every node is
        freed exactly once, the queues end empty and no session remains. What it does to
        queues that are not followed any more is left open. */
    method TearDown(ghost start: seq<Dev>) returns (fault: bool, freed: seq<Node>)
      requires t.sound ==> TableOk(t, start)
      modifies this
      ensures old(t).sound ==> (!fault <==> NoOrphans(old(t)))
      ensures old(t).sound && !fault ==>
                t.live == map[] && forall i :: 0 <= i < |t.devs| ==> t.devs[i] == Dev([], [], [])
      ensures old(t).sound && !fault ==> forall n :: multiset(freed)[n] == Count(start, n)
    {
      fault, freed := false, [];
      if !t.sound {
        fault := *;
        return;
      }
      assert Intact(t) || Doomed(t);
      assert Tally(t, freed, start) by {
        assert forall n :: Count(t.devs, n) == Count(start, n) <= 1;
      }
      var i := 0;
      while i < |t.devs|
        invariant 0 <= i <= |t.devs| && Tally(t, freed, start)
        invariant (Intact(old(t)) ==> Intact(t)) && (Doomed(old(t)) ==> Doomed(t))
        invariant forall j :: 0 <= j < i ==> t.devs[j] == Dev([], [], [])
      {
        fault, freed := TearDevice(i, freed, start);
        if fault { return; }
        i := i + 1;
      }
      NothingQueued(t);
      forall n ensures multiset(freed)[n] == Count(start, n) {
        CountNone(t.devs, n);
      }
    }
  }

  lemma {:induction false} CountNone(devs: seq<Dev>, n: Node)
    requires forall j :: 0 <= j < |devs| ==> devs[j] == Dev([], [], [])
    ensures Count(devs, n) == 0
  {
    if devs != [] { CountNone(devs[1..], n); }
  }

  /** The failing run: a session that recorded no device of the table is closed, and
      tear-down would go through its freed object. */
  lemma {:induction false} LeakDoomsTearDown()
    ensures var t := Run(Initial(Two), [Open(7, 0, TCP, -1, false), Op.Close(7)]);
            t.sound && !NoOrphans(t) && exists n :: Queued(t, n) && !Alive(t, n)
  {
    NodeLeaks();
    RunOf2(Initial(Two), Open(7, 0, TCP, -1, false), Op.Close(7));
    OpensSeven(-1);
    var t := Run(Initial(Two), [Open(7, 0, TCP, -1, false), Op.Close(7)]);
    assert Queued(t, 0) && !Alive(t, 0);
  }

  /** Wrong tail pointers do no harm here: after the run that leaves them on both devices
      no queued node points at a freed session, and tear-down ends cleanly. */
  lemma {:induction false} StaleTailsTearDownCleanly()
    ensures var t := Run(Initial(Two), [Open(7, 0, TCP, 1, false), Op.Close(7)]);
            t.sound && t.stale == {(0, TCP), (1, TCP)} && NoOrphans(t)
  {
    LastNodeLeavesStaleTails();
    NothingQueued(Crossed);
  }
}
