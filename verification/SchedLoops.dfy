/** The loops and macros of session scheduling on the linked queues themselves. */
module SchedLoops {

  import opened Sched
  import opened Tailq

  lemma {:induction false} WithoutIsDrop(q: seq<Id>, i: nat)
    requires NoDup(q) && i < |q|
    ensures Without(q, q[i]) == Drop(q, i)
  {
    if i == 0 {
      WithoutAbsent(q[1..], q[0]);
      assert Drop(q, 0) == q[1..];
    } else {
      WithoutIsDrop(q[1..], i - 1);
      assert Drop(q, i) == [q[0]] + Drop(q[1..], i - 1);
    }
  }

  /** Removing a session from a linked queue it is in. */
  lemma {:induction false} RemovesSession(q: Tailq, s: seq<Id>, id: Id) returns (i: nat)
    requires Spells(q, s) && id in s
    ensures id in q.next && id in q.prev && i < |s| && s[i] == id
    ensures Spells(Remove(q, id), Without(s, id)) && Without(s, id) == Drop(s, i)
    ensures q.next[id] == At(s, i + 1)
    ensures id in Remove(q, id).next && id in Remove(q, id).prev && Remove(Remove(q, id), id) == Remove(q, id)
  {
    i :| 0 <= i < |s| && s[i] == id;
    assert Joined(q, s, i);
    RemoveDrops(q, s, i);
    RemoveTwice(q, s, i);
    WithoutIsDrop(s, i);
  }

  /** What the loop reports when it stopped at segment n. */
  function StatusAt(msgs: seq<Seg>, answer: nat -> Answer, n: nat): Status {
    if n == |msgs| then Done else if answer(n) == Broken then Failed else Again
  }

  /** The segment loop of data_process_f2b and data_process_b2f: take segments off the head
      one by one. */
  method SegmentLoop(d: Dir, was: Side, answer: nat -> Answer) returns (s: Side, st: Status)
    ensures var n := FirstStop(d, was.msgs, answer, 0);
            s == Progressed(was, answer, n) && st == StatusAt(was.msgs, answer, n)
  {
    s, st := was, Done;
    AtStart(was, answer);
    var i := 0;
    ghost var stop := FirstStop(d, was.msgs, answer, 0);
    while i < |was.msgs|
      invariant 0 <= i <= stop
      invariant s == Progressed(was, answer, i) && st == Done
      decreases |was.msgs| - i
    {
      if Stops(d, was.msgs[i], answer(i)) {
        st := if answer(i) == Broken then Failed else Again;
        break;
      }
      OneMore(was, answer, i);
      s := TakenOff(s, answer(i));
      i := i + 1;
    }
  }

  /** data_process_f2b and data_process_b2f: front to back the size of the send buffer is
      asked for first. */
  method TakeSegments(d: Dir, was: Side, reply: Reply) returns (s: Side, st: Status)
    ensures (s, st) == Process(d, was, reply)
  {
    if d == F2B && !reply.sized { return was, Failed; }
    s, st := SegmentLoop(d, was, reply.answer);
    ProcessIs(d, was, reply);
  }

  class Scheduler {
    var state: Engine
    var linksF: Tailq
    var linksB: Tailq

    function Links(d: Dir): Tailq
      reads this
    {
      if d.F2B? then linksF else linksB
    }

    /** The links spell the two active queues. */
    ghost predicate Linked()
      reads this
    {
      Spells(linksF, state.f2b.queue) && Spells(linksB, state.b2f.queue)
    }

    method SetLinks(d: Dir, q: Tailq)
      modifies this`linksF, this`linksB
      ensures Links(d) == q && Links(if d == F2B then B2F else F2B) == old(Links(if d == F2B then B2F else F2B))
    {
      if d == F2B { linksF := q; } else { linksB := q; }
    }

    /** BACKEND_SESS_LINK_TO_QUEUE on a session whose bit says whether it is queued: it ends
        up queued, and a lane that was in order up to this session is in order. */
    method LinkToQueue(d: Dir, id: Id)
      requires Linked() && id in LaneOf(state, d).sides
      requires LaneOf(state, d).sides[id].linked <==> id in LaneOf(state, d).queue
      modifies this
      ensures Linked() && state == WithLane(old(state), d, Link(LaneOf(old(state), d), id))
      ensures id in LaneOf(state, d).queue && LaneOf(old(state), d).queue <= LaneOf(state, d).queue
      ensures LaneOk(LaneOf(old(state), d)) ==> LaneOk(LaneOf(state, d))
    {
      var l := LaneOf(state, d);
      var s := l.sides[id];
      if !s.linked {
        InsertTailAppends(Links(d), l.queue, id);
        if LaneOk(l) { assert SideOk(l, id); LinkKeeps(l, id); }
        SetLinks(d, InsertTail(Links(d), id));
        l := Lane(l.sides[id := s.(linked := true)], l.queue + [id]);
        state := WithLane(state, d, l);
      }
    }

    /** backend_proxy_data_msg_process, given the session it found: the segment is the last
        one waiting, the session is queued, and an engine in order stays in order. */
    method DataArrived(id: Id, seg: Seg)
      requires Linked() && EngineOk(state) && id in state.f2b.sides
      modifies this
      ensures Linked() && EngineOk(state) && id in state.f2b.queue
      ensures state.f2b.sides[id].msgs == old(state).f2b.sides[id].msgs + [seg]
      ensures forall x :: x in old(state).f2b.sides && x != id ==>
                x in state.f2b.sides && state.f2b.sides[x] == old(state).f2b.sides[x]
      ensures state.b2f == old(state).b2f
    {
      assert SideOk(state.f2b, id);
      ArriveKeepsIff(state.f2b, id, [seg], true);
      state := state.(f2b := Push(state.f2b, id, [seg]));
      LinkToQueue(F2B, id);
    }

    /** data_process_f2b and data_process_b2f on a session of the pool. */
    method DataProcess(d: Dir, id: Id, reply: Reply) returns (st: Status)
      requires id in LaneOf(state, d).sides
      modifies this`state
      ensures var l, r := LaneOf(old(state), d), Process(d, LaneOf(old(state), d).sides[id], reply);
              state == WithLane(old(state), d, l.(sides := l.sides[id := r.0])) && st == r.1
    {
      var l := LaneOf(state, d);
      var s: Side;
      s, st := TakeSegments(d, l.sides[id], reply);
      state := WithLane(state, d, l.(sides := l.sides[id := s]));
    }

    /** The engine's removal and, on an error, delete_sess, which removes the session from
        the queue once more because its link bit is still set, and from the other queue
        if it is linked there. */
    method Unlink(d: Dir, id: Id, failed: bool)
      requires Linked() && id in LaneOf(state, d).queue && BitsTell(state, id)
      modifies this`linksF, this`linksB
      ensures Spells(Links(d), Without(LaneOf(state, d).queue, id))
      ensures var o := if d == F2B then B2F else F2B;
              Spells(Links(o), if failed then Without(LaneOf(state, o).queue, id) else LaneOf(state, o).queue)
    {
      var o := if d == F2B then B2F else F2B;
      ghost var i := RemovesSession(Links(d), LaneOf(state, d).queue, id);
      SetLinks(d, Remove(Links(d), id));
      if failed {
        if LaneOf(state, d).sides[id].linked {
          SetLinks(d, Remove(Links(d), id));
        }
        if LaneOf(state, o).sides[id].linked {
          ghost var j := RemovesSession(Links(o), LaneOf(state, o).queue, id);
          SetLinks(o, Remove(Links(o), id));
        } else {
          WithoutAbsent(LaneOf(state, o).queue, id);
        }
      }
    }

    /** The loop body on one session, links included. */
    method OneTurn(d: Dir, id: Id, reply: Reply) returns (stop: bool)
      requires Linked() && EngineOk(state) && id in LaneOf(state, d).queue
      modifies this
      ensures Linked() && (state, stop) == Turn(old(state), d, id, reply)
    {
      stop := false;
      ghost var e := state;
      TurnIs(e, d, id, reply);
      assert SideOk(e.f2b, id) && SideOk(e.b2f, id);
      var st := DataProcess(d, id, reply);
      if st != Again { Unlink(d, id, st == Failed); }
      if st == Done {
        state := WithLane(state, d, Detach(LaneOf(state, d), id));
      } else if st == Failed {
        state := Delete(state, id);
      } else {
        stop := d == B2F;
      }
    }

    /** Steps 2 and 4 of the engine loop: TAILQ_FOREACH_SAFE along the links, the successor
        saved before each turn. */
    method RunStep(d: Dir, reply: Id -> Reply)
      requires Linked() && EngineOk(state)
      modifies this
      ensures Linked() && EngineOk(state)
      ensures state == Drain(old(state), d, LaneOf(old(state), d).queue, reply)
    {
      var cur, stop := Links(d).first, false;
      ghost var todo, kept := LaneOf(state, d).queue, [];
      ghost var goal := Drain(state, d, todo, reply);
      DrainKeeps(state, d, todo, reply);
      assert kept + todo == todo;
      while cur.Some? && !stop
        invariant Linked() && EngineOk(state)
        invariant !stop ==> cur == At(todo, 0) && AtTurn(state, d, kept, todo)
        invariant goal == if stop then state else Drain(state, d, todo, reply)
        decreases |todo|
      {
        NextSaved(Links(d), kept, todo);
        var next := Links(d).next[cur.value];
        DrainOne(state, d, todo, reply);
        kept := TurnTaken(state, d, kept, todo, reply(todo[0]));
        stop := OneTurn(d, cur.value, reply(cur.value));
        cur, todo := next, todo[1..];
      }
    }
  }

  /** In both directions the link bit of the session tells whether it is queued. */
  predicate BitsTell(e: Engine, id: Id) {
    && id in e.f2b.sides && (e.f2b.sides[id].linked <==> id in e.f2b.queue)
    && id in e.b2f.sides && (e.b2f.sides[id].linked <==> id in e.b2f.queue)
  }

  /** A side after i segments were taken off. */
  function Progressed(s: Side, answer: nat -> Answer, i: nat): Side
    requires i <= |s.msgs|
  {
    s.(msgs := s.msgs[i..], out := s.out + s.msgs[..i], wire := s.wire + Carried(s.msgs, answer, i))
  }

  lemma {:induction false} AtStart(s: Side, answer: nat -> Answer)
    ensures Progressed(s, answer, 0) == s
  {
  }

  lemma {:induction false} ProcessIs(d: Dir, s: Side, reply: Reply)
    requires d == F2B ==> reply.sized
    ensures var n := FirstStop(d, s.msgs, reply.answer, 0);
            && Process(d, s, reply).0 == Progressed(s, reply.answer, n)
            && Process(d, s, reply).1 == StatusAt(s.msgs, reply.answer, n)
  {
  }

  /** The first segment is removed. */
  function TakenOff(s: Side, a: Answer): Side
    requires s.msgs != []
  {
    s.(msgs := s.msgs[1..], out := s.out + [s.msgs[0]], wire := s.wire + Went(s.msgs[0], a))
  }

  lemma {:induction false} OneMore(s: Side, answer: nat -> Answer, i: nat)
    requires i < |s.msgs|
    ensures var p := Progressed(s, answer, i);
            p.msgs != [] && Progressed(s, answer, i + 1) == TakenOff(p, answer(i))
  {
    assert s.msgs[..i + 1] == s.msgs[..i] + [s.msgs[i]];
  }

  lemma {:induction false} TurnIs(e: Engine, d: Dir, id: Id, reply: Reply)
    requires id in LaneOf(e, d).sides
    ensures var l := LaneOf(e, d);
            var (s, st) := Process(d, l.sides[id], reply);
            st == Failed ==> Delete(WithLane(e, d, l.(sides := l.sides[id := s])), id) == Delete(e, id)
  {
    var l := LaneOf(e, d);
    assert (l.sides[id := Process(d, l.sides[id], reply).0]) - {id} == l.sides - {id};
  }

  /** The element the loop is on, and its successor. */
  lemma {:induction false} NextSaved(q: Tailq, kept: seq<Id>, todo: seq<Id>)
    requires Spells(q, kept + todo) && todo != []
    ensures todo[0] in q.next && q.next[todo[0]] == At(todo[1..], 0)
  {
    assert Joined(q, kept + todo, |kept|);
    assert (kept + todo)[|kept|] == todo[0];
  }

  /** The drain loop before a turn: these sessions stay queued behind it, and these are
      still to be visited. */
  predicate AtTurn(e: Engine, d: Dir, kept: seq<Id>, todo: seq<Id>) {
    LaneOf(e, d).queue == kept + todo && Ready(e, d, todo)
  }

  lemma {:induction false} TurnQueue(e: Engine, d: Dir, id: Id, reply: Reply)
    requires id in LaneOf(e, d).sides
    ensures LaneOf(Turn(e, d, id, reply).0, d).queue
         == if Process(d, LaneOf(e, d).sides[id], reply).1 == Again then LaneOf(e, d).queue
            else Without(LaneOf(e, d).queue, id)
  {
  }

  lemma {:induction false} Split(kept: seq<Id>, todo: seq<Id>)
    requires todo != [] && NoDup(kept + todo)
    ensures kept + todo == (kept + [todo[0]]) + todo[1..] && Without(kept + todo, todo[0]) == kept + todo[1..]
  {
    var q := kept + todo;
    assert q[|kept|] == todo[0];
    WithoutIsDrop(q, |kept|);
    assert Drop(q, |kept|) == kept + todo[1..];
  }

  /** After the turn the queue is what was kept and what is still to be visited. */
  lemma {:induction false} TurnTaken(e: Engine, d: Dir, kept: seq<Id>, todo: seq<Id>, reply: Reply)
    returns (now: seq<Id>)
    requires EngineOk(e) && todo != [] && AtTurn(e, d, kept, todo) && todo[0] in LaneOf(e, d).sides
    ensures LaneOf(Turn(e, d, todo[0], reply).0, d).queue == now + todo[1..]
  {
    TurnQueue(e, d, todo[0], reply);
    Split(kept, todo);
    now := if Process(d, LaneOf(e, d).sides[todo[0]], reply).1 == Again then kept + [todo[0]] else kept;
  }
}
