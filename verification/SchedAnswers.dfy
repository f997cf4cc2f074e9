/** What processing and the drain loops do, told by the answers of the sockets and of the
    transmit queue alone. */
module SchedAnswers {

  import opened Bytes
  import opened Sched
  import opened Tailq

  // ----- One session -----

  /** How many bytes of a segment an answer takes. */
  function TakenOf(seg: Seg, a: Answer): (n: nat)
    ensures n <= |seg|
  {
    match a
    case Taken(bytes) => if bytes <= |seg| then bytes else |seg|
    case Full => 0
    case Broken => 0
  }

  /** The first bytes of each of the first n segments, as many as were taken. */
  function Heads(msgs: seq<Seg>, answer: nat -> Answer, n: nat): seq<Byte>
    requires n <= |msgs|
  {
    if n == 0 then [] else Heads(msgs, answer, n - 1) + msgs[n - 1][..TakenOf(msgs[n - 1], answer(n - 1))]
  }

  lemma {:induction false} CarriedIsHeads(msgs: seq<Seg>, answer: nat -> Answer, n: nat)
    requires n <= |msgs|
    ensures Carried(msgs, answer, n) == Heads(msgs, answer, n)
  {
    if n > 0 {
      CarriedIsHeads(msgs, answer, n - 1);
      var seg := msgs[n - 1];
      assert seg[..|seg|] == seg;
    }
  }

  /** Front to back: the first segment with data that finds no room or an error. */
  predicate StopsFront(msgs: seq<Seg>, answer: nat -> Answer, i: nat) {
    && i <= |msgs|
    && (forall j :: 0 <= j < i ==> msgs[j] == [] || answer(j).Taken?)
    && (i < |msgs| ==> msgs[i] != [] && !answer(i).Taken?)
  }

  /** Back to front: the first segment that finds the queue full. */
  predicate StopsBack(msgs: seq<Seg>, answer: nat -> Answer, i: nat) {
    && i <= |msgs|
    && (forall j :: 0 <= j < i ==> answer(j) != Full)
    && (i < |msgs| ==> answer(i) == Full)
  }

  /** The first i segments left, as far as they were taken, and the others wait. */
  predicate Gone(s: Side, s': Side, answer: nat -> Answer, i: nat) {
    && i <= |s.msgs| && s'.msgs == s.msgs[i..] && s'.out == s.out + s.msgs[..i]
    && s'.wire == s.wire + Heads(s.msgs, answer, i)
    && s'.linked == s.linked && s'.arrived == s.arrived
  }

  /** Front to back, with the size of the send buffer known: exactly the segments before the
      first one refused leave, and the status is that of the refusal, or done without one. */
  lemma {:induction false} FrontToBack(s: Side, reply: Reply, i: nat)
    requires reply.sized && StopsFront(s.msgs, reply.answer, i)
    ensures var (s', st) := Process(F2B, s, reply);
            && Gone(s, s', reply.answer, i)
            && st == if i == |s.msgs| then Done else if reply.answer(i) == Full then Again else Failed
  {
    var n := FirstStop(F2B, s.msgs, reply.answer, 0);
    assert n == i;
    CarriedIsHeads(s.msgs, reply.answer, i);
  }

  /** Without it nothing leaves and the session fails. */
  lemma {:induction false} Unsized(s: Side, reply: Reply)
    requires !reply.sized
    ensures Process(F2B, s, reply) == (s, Failed)
  {
  }

  /** Back to front: exactly the segments before the first one that finds the queue full
      leave; one that meets an error leaves too. */
  lemma {:induction false} BackToFront(s: Side, reply: Reply, i: nat)
    requires StopsBack(s.msgs, reply.answer, i)
    ensures var (s', st) := Process(B2F, s, reply);
            Gone(s, s', reply.answer, i) && st == if i == |s.msgs| then Done else Again
  {
    var n := FirstStop(B2F, s.msgs, reply.answer, 0);
    assert n == i;
    CarriedIsHeads(s.msgs, reply.answer, i);
  }

  /** There always is such a segment, or the end. */
  lemma {:induction false} StopsSomewhere(d: Dir, msgs: seq<Seg>, answer: nat -> Answer) returns (i: nat)
    ensures if d == F2B then StopsFront(msgs, answer, i) else StopsBack(msgs, answer, i)
  {
    i := 0;
    while i < |msgs| && (if d == F2B then msgs[i] == [] || answer(i).Taken? else answer(i) != Full)
      invariant i <= |msgs|
      invariant forall j :: 0 <= j < i ==> if d == F2B then msgs[j] == [] || answer(j).Taken? else answer(j) != Full
    {
      i := i + 1;
    }
  }

  // ----- One pass -----

  /** What a session's own answers make of it in one turn: nothing is left of a failed one,
      one that is done leaves the queue, and one that is refused stays there. */
  predicate HadTurn(e: Engine, e': Engine, d: Dir, id: Id, reply: Reply)
    requires id in LaneOf(e, d).sides
  {
    var (s, st) := Process(d, LaneOf(e, d).sides[id], reply);
    var l := LaneOf(e', d);
    match st
    case Failed => id !in e'.f2b.sides && id !in e'.b2f.sides && id !in e'.f2b.queue && id !in e'.b2f.queue
    case Done => id in l.sides && l.sides[id] == s.(linked := false) && id !in l.queue
    case Again => id in l.sides && l.sides[id] == s && id in l.queue
  }

  /** Nothing about session x has changed in a direction. */
  predicate SameLane(l: Lane, l': Lane, x: Id) {
    && (x in l.sides <==> x in l'.sides) && (x in l.sides && x in l'.sides ==> l'.sides[x] == l.sides[x])
    && (x in l'.queue <==> x in l.queue)
  }

  predicate Untouched(e: Engine, e': Engine, x: Id) {
    SameLane(e.f2b, e'.f2b, x) && SameLane(e.b2f, e'.b2f, x)
  }

  function StatusOf(e: Engine, d: Dir, id: Id, reply: Id -> Reply): Status
    requires id in LaneOf(e, d).sides
  {
    Process(d, LaneOf(e, d).sides[id], reply(id)).1
  }

  /** The loop gets to the first n sessions: to all of them front to back, and back to front
      up to the first one that finds the transmit queue full. */
  predicate GetsTo(e: Engine, d: Dir, todo: seq<Id>, reply: Id -> Reply, n: nat)
    requires forall id :: id in todo ==> id in LaneOf(e, d).sides
  {
    && n <= |todo| && (d == F2B ==> n == |todo|)
    && (forall k :: 0 <= k < n - 1 ==> d == F2B || StatusOf(e, d, todo[k], reply) != Again)
    && (n < |todo| ==> n > 0 && StatusOf(e, d, todo[n - 1], reply) == Again)
  }

  lemma {:induction false} TurnTakes(e: Engine, d: Dir, id: Id, reply: Reply)
    requires EngineOk(e) && id in LaneOf(e, d).queue
    ensures id in LaneOf(e, d).sides && HadTurn(e, Turn(e, d, id, reply).0, d, id, reply)
    ensures forall x :: x != id ==> Untouched(e, Turn(e, d, id, reply).0, x)
    ensures Turn(e, d, id, reply).1 <==> d == B2F && Process(d, LaneOf(e, d).sides[id], reply).1 == Again
  {
    TurnHad(e, d, id, reply);
    forall x | x != id ensures Untouched(e, Turn(e, d, id, reply).0, x) {
      TurnSpares(e, d, id, reply, x);
    }
  }

  lemma {:induction false} TurnHad(e: Engine, d: Dir, id: Id, reply: Reply)
    requires id in LaneOf(e, d).sides && id in LaneOf(e, d).queue
    ensures HadTurn(e, Turn(e, d, id, reply).0, d, id, reply)
  {
  }

  lemma {:induction false} TurnSpares(e: Engine, d: Dir, id: Id, reply: Reply, x: Id)
    requires id in LaneOf(e, d).sides && x != id
    ensures Untouched(e, Turn(e, d, id, reply).0, x)
  {
    var l := LaneOf(e, d);
    var (s, st) := Process(d, l.sides[id], reply);
    var l' := l.(sides := l.sides[id := s]);
    match st
    case Done => SameInOther(e, d, Detach(l', id), x);
    case Again => SameInOther(e, d, l', x);
    case Failed =>
  }

  lemma {:induction false} SameInOther(e: Engine, d: Dir, l: Lane, x: Id)
    requires SameLane(LaneOf(e, d), l, x)
    ensures Untouched(e, WithLane(e, d, l), x)
  {
  }

  lemma {:induction false} TurnCarriesOver(e: Engine, e1: Engine, e': Engine, d: Dir, x: Id, reply: Reply)
    requires Untouched(e, e1, x) && x in LaneOf(e1, d).sides && HadTurn(e1, e', d, x, reply)
    ensures x in LaneOf(e, d).sides && HadTurn(e, e', d, x, reply)
  {
  }

  lemma {:induction false} TurnLasts(e: Engine, e1: Engine, e': Engine, d: Dir, x: Id, reply: Reply)
    requires x in LaneOf(e, d).sides && HadTurn(e, e1, d, x, reply) && Untouched(e1, e', x)
    ensures HadTurn(e, e', d, x, reply)
  {
  }

  lemma {:induction false} UntouchedTwice(e: Engine, e1: Engine, e': Engine, x: Id)
    requires Untouched(e, e1, x) && Untouched(e1, e', x)
    ensures Untouched(e, e', x)
  {
  }

  /** What is left for the loop after a turn that did not stop it. */
  lemma {:induction false} GetsFurther(e: Engine, e1: Engine, d: Dir, todo: seq<Id>, reply: Id -> Reply, n: nat)
    requires todo != [] && (forall id :: id in todo ==> id in LaneOf(e, d).sides) && GetsTo(e, d, todo, reply, n)
    requires forall x :: x in todo[1..] ==> Untouched(e, e1, x)
    requires !(d == B2F && StatusOf(e, d, todo[0], reply) == Again)
    ensures n > 0 && (forall id :: id in todo[1..] ==> id in LaneOf(e1, d).sides)
    ensures GetsTo(e1, d, todo[1..], reply, n - 1)
  {
    forall k | 0 <= k < |todo| - 1
      ensures todo[1..][k] in LaneOf(e1, d).sides
      ensures StatusOf(e1, d, todo[1..][k], reply) == StatusOf(e, d, todo[k + 1], reply)
    {
      assert todo[1..][k] == todo[k + 1] && todo[k + 1] in todo[1..];
      assert Untouched(e, e1, todo[k + 1]) && todo[k + 1] in todo;
      assert SameLane(LaneOf(e, d), LaneOf(e1, d), todo[k + 1]);
    }
  }

  ghost predicate PassDone(e: Engine, e': Engine, d: Dir, todo: seq<Id>, reply: Id -> Reply, n: nat)
    requires n <= |todo| && forall id :: id in todo ==> id in LaneOf(e, d).sides
  {
    && (forall k :: 0 <= k < n ==> HadTurn(e, e', d, todo[k], reply(todo[k])))
    && (forall x :: x !in todo[..n] ==> Untouched(e, e', x))
  }

  /** One pass of the drain loop: every session it gets to has its turn, with the outcome
      that its own answers call for, and nothing changes about any other session. */
  lemma {:induction false} PassIs(e: Engine, d: Dir, todo: seq<Id>, reply: Id -> Reply, n: nat)
    requires EngineOk(e) && Ready(e, d, todo) && (forall id :: id in todo ==> id in LaneOf(e, d).sides)
    requires GetsTo(e, d, todo, reply, n)
    ensures PassDone(e, Drain(e, d, todo, reply), d, todo, reply, n)
    decreases |todo|
  {
    if todo != [] {
      var id := todo[0];
      TurnTakes(e, d, id, reply(id));
      DrainOne(e, d, todo, reply);
      var (e1, stop) := Turn(e, d, id, reply(id));
      if stop {
        StopsHere(e, e1, d, todo, reply, n);
      } else {
        GetsFurther(e, e1, d, todo, reply, n);
        PassIs(e1, d, todo[1..], reply, n - 1);
        PassComposes(e, e1, Drain(e1, d, todo[1..], reply), d, todo, reply, n);
      }
    }
  }

  lemma {:induction false} StopsHere(e: Engine, e1: Engine, d: Dir, todo: seq<Id>, reply: Id -> Reply, n: nat)
    requires todo != [] && (forall id :: id in todo ==> id in LaneOf(e, d).sides) && GetsTo(e, d, todo, reply, n)
    requires d == B2F && StatusOf(e, d, todo[0], reply) == Again && HadTurn(e, e1, d, todo[0], reply(todo[0]))
    requires forall x :: x != todo[0] ==> Untouched(e, e1, x)
    ensures PassDone(e, e1, d, todo, reply, n)
  {
    assert n == 1;
    assert todo[..1] == [todo[0]];
  }

  lemma {:induction false} PassComposes(e: Engine, e1: Engine, e': Engine, d: Dir, todo: seq<Id>,
                                        reply: Id -> Reply, n: nat)
    requires todo != [] && NoDup(todo) && 0 < n <= |todo| && (forall id :: id in todo ==> id in LaneOf(e, d).sides)
    requires HadTurn(e, e1, d, todo[0], reply(todo[0])) && forall x :: x != todo[0] ==> Untouched(e, e1, x)
    requires (forall id :: id in todo[1..] ==> id in LaneOf(e1, d).sides)
    requires PassDone(e1, e', d, todo[1..], reply, n - 1)
    ensures PassDone(e, e', d, todo, reply, n)
  {
    var rest := todo[1..];
    assert todo[..n] == [todo[0]] + rest[..n - 1];
    forall k | 0 <= k < n ensures HadTurn(e, e', d, todo[k], reply(todo[k])) {
      if k == 0 {
        assert todo[0] !in rest[..n - 1];
        TurnLasts(e, e1, e', d, todo[0], reply(todo[0]));
      } else {
        assert rest[k - 1] == todo[k];
        TurnCarriesOver(e, e1, e', d, todo[k], reply(todo[k]));
      }
    }
    forall x | x !in todo[..n] ensures Untouched(e, e', x) {
      assert x !in rest[..n - 1] && x != todo[0];
      UntouchedTwice(e, e1, e', x);
    }
  }

  /** Step 2 of the engine loop: every queued session has its turn. */
  lemma {:induction false} EverySessionHasItsTurn(e: Engine, reply: Id -> Reply, id: Id)
    requires EngineOk(e) && id in e.f2b.queue
    ensures id in e.f2b.sides && HadTurn(e, Drain(e, F2B, e.f2b.queue, reply), F2B, id, reply(id))
  {
    var todo := e.f2b.queue;
    PassIs(e, F2B, todo, reply, |todo|);
    var k :| 0 <= k < |todo| && todo[k] == id;
  }

  /** Closing a session of the pool leaves nothing of it and touches no other. */
  lemma {:induction false} CloseEnds(e: Engine, id: Id)
    requires id in e.f2b.sides
    ensures var e' := Apply(e, Close(id));
            && id !in e'.f2b.sides && id !in e'.b2f.sides && id !in e'.f2b.queue && id !in e'.b2f.queue
            && forall x :: x != id ==> Untouched(e, e', x)
  {
  }

  // ----- Whole runs -----

  /** All that a session ever had in a direction, handled or waiting. */
  function Had(e: Engine, d: Dir, id: Id): seq<Seg>
    requires id in LaneOf(e, d).sides
  {
    LaneOf(e, d).sides[id].out + LaneOf(e, d).sides[id].msgs
  }

  lemma {:induction false} TurnHandles(e: Engine, d: Dir, x: Id, reply: Reply, dir: Dir, id: Id)
    requires x in LaneOf(e, d).sides && id in LaneOf(Turn(e, d, x, reply).0, dir).sides
    ensures id in LaneOf(e, dir).sides && Had(Turn(e, d, x, reply).0, dir, id) == Had(e, dir, id)
  {
  }

  lemma {:induction false} DrainHandles(e: Engine, d: Dir, todo: seq<Id>, reply: Id -> Reply, dir: Dir, id: Id)
    requires id in LaneOf(Drain(e, d, todo, reply), dir).sides
    ensures id in LaneOf(e, dir).sides && Had(Drain(e, d, todo, reply), dir, id) == Had(e, dir, id)
    decreases |todo|
  {
    if todo != [] && todo[0] in LaneOf(e, d).sides {
      var (e', stop) := Turn(e, d, todo[0], reply(todo[0]));
      if !stop { DrainHandles(e', d, todo[1..], reply, dir, id); }
      TurnHandles(e, d, todo[0], reply(todo[0]), dir, id);
    }
  }

  lemma {:induction false} OpHandles(e: Engine, op: Op, d: Dir, id: Id)
    requires id in LaneOf(e, d).sides && id in LaneOf(Apply(e, op), d).sides
    ensures Had(Apply(e, op), d, id) == Had(e, d, id) + Brought(op, d, id)
  {
    var s := LaneOf(e, d).sides[id];
    assert Had(e, d, id) + [] == Had(e, d, id);
    if op.Step? {
      DrainHandles(e, op.d, LaneOf(e, op.d).queue, op.reply, d, id);
    } else if Brought(op, d, id) != [] {
      assert s.out + (s.msgs + Brought(op, d, id)) == Had(e, d, id) + Brought(op, d, id);
    }
  }

  /** Segments are neither lost nor invented nor put out of order: in every run, whatever it
      strands, what a session has handled and what still waits is what it had, followed by
      what was brought to it. */
  lemma {:induction false} SegmentsConserved(e: Engine, ops: seq<Op>, d: Dir, id: Id)
    requires Lives(e, ops, d, id)
    ensures Lives(e, [], d, id) && Had(Run(e, ops), d, id) == Had(e, d, id) + SentTo(ops, d, id)
    decreases |ops|
  {
    if ops == [] {
      assert Had(e, d, id) + [] == Had(e, d, id);
    } else {
      var prior, op := ops[..|ops| - 1], ops[|ops| - 1];
      SegmentsConserved(e, prior, d, id);
      OpHandles(Run(e, prior), op, d, id);
      assert Had(e, d, id) + SentTo(prior, d, id) + Brought(op, d, id) == Had(e, d, id) + SentTo(ops, d, id);
    }
  }
}
