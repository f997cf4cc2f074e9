/** Scheduling of sessions: link bits, active queues, and the drain loops of the engine,
    as a state machine. Direction f2b is front to back, b2f back to front. */
module Sched {

  import opened Bytes
  import opened Tailq

  type Id = nat
  type Seg = seq<Byte>

  /** What one direction of a session keeps: its link bit, the segments waiting, and, as
      history, everything that arrived, everything taken out so far, and the bytes that
      reached the socket or the transmit queue. */
  datatype Side = Side(linked: bool, msgs: seq<Seg>, arrived: seq<Seg>, out: seq<Seg>, wire: seq<Byte>)

  /** One direction of all sessions in the pool, and its active queue. */
  datatype Lane = Lane(sides: map<Id, Side>, queue: seq<Id>)

  datatype Engine = Engine(f2b: Lane, b2f: Lane)

  /** How the socket or the transmit queue answers for one segment: so many bytes taken,
      no room now, or an error. */
  datatype Answer = Taken(bytes: nat) | Full | Broken

  /** The answers a session gets: whether the socket tells the size of its send buffer, which
      is asked first front to back, and one answer for each segment. */
  datatype Reply = Reply(sized: bool, answer: nat -> Answer)

  datatype Status = Done | Again | Failed

  // ----- Link bits -----

  /** BACKEND_SESS_LINK_TO_QUEUE. */
  function Link(l: Lane, id: Id): Lane
    requires id in l.sides
  {
    if l.sides[id].linked then l
    else Lane(l.sides[id := l.sides[id].(linked := true)], l.queue + [id])
  }

  /** TAILQ_REMOVE of a session. */
  function Without(q: seq<Id>, id: Id): (r: seq<Id>)
    ensures forall x :: x in r <==> x in q && x != id
    ensures |r| <= |q|
  {
    if q == [] then [] else if q[0] == id then Without(q[1..], id) else [q[0]] + Without(q[1..], id)
  }

  /** The detaching that steps 2 and 4 do when a session is drained. */
  function Detach(l: Lane, id: Id): Lane
    requires id in l.sides
  {
    Lane(l.sides[id := l.sides[id].(linked := false)], Without(l.queue, id))
  }

  /** BACKEND_SESS_UNLINK_FROM_QUEUE, and the session leaves the pool. */
  function Forget(l: Lane, id: Id): Lane {
    Lane(l.sides - {id}, Without(l.queue, id))
  }

  /** delete_sess. */
  function Delete(e: Engine, id: Id): Engine {
    Engine(Forget(e.f2b, id), Forget(e.b2f, id))
  }

  // ----- Arrivals -----

  function Push(l: Lane, id: Id, segs: seq<Seg>): Lane
    requires id in l.sides
  {
    var s := l.sides[id];
    l.(sides := l.sides[id := s.(msgs := s.msgs + segs, arrived := s.arrived + segs)])
  }

  /** Segments arrive; the session is linked unless the reader gave up half-way. */
  function Arrive(l: Lane, id: Id, segs: seq<Seg>, complete: bool): Lane
    requires id in l.sides
  {
    if complete then Link(Push(l, id, segs), id) else Push(l, id, segs)
  }

  // ----- Draining -----

  datatype Dir = F2B | B2F

  /** The answers at which processing stops. Front to back a segment without data is not
      sent at all; back to front an error does not stop the loop. */
  predicate Stops(d: Dir, seg: Seg, a: Answer) {
    if d == F2B then seg != [] && (a == Full || a == Broken) else a == Full
  }

  /** Index of the first segment from k on at which processing stops. */
  function FirstStop(d: Dir, msgs: seq<Seg>, answer: nat -> Answer, k: nat): (i: nat)
    requires k <= |msgs|
    ensures k <= i <= |msgs| && (i < |msgs| ==> Stops(d, msgs[i], answer(i)))
    ensures forall j :: k <= j < i ==> !Stops(d, msgs[j], answer(j))
    decreases |msgs| - k
  {
    if k == |msgs| || Stops(d, msgs[k], answer(k)) then k else FirstStop(d, msgs, answer, k + 1)
  }

  /** The part of a removed segment that got out: a short send is not retried, and a
      segment refused with an error is dropped. */
  function Went(seg: Seg, a: Answer): Seg {
    if a.Taken? && a.bytes < |seg| then seg[..a.bytes] else if a.Taken? then seg else []
  }

  /** What gets out of the first n segments. */
  function Carried(msgs: seq<Seg>, answer: nat -> Answer, n: nat): seq<Byte>
    requires n <= |msgs|
  {
    if n == 0 then [] else Carried(msgs, answer, n - 1) + Went(msgs[n - 1], answer(n - 1))
  }

  function Flat(msgs: seq<Seg>, n: nat): seq<Byte>
    requires n <= |msgs|
  {
    if n == 0 then [] else Flat(msgs, n - 1) + msgs[n - 1]
  }

  /** How many segments a session gets rid of. */
  function Removed(d: Dir, s: Side, reply: Reply): (n: nat)
    ensures n <= |s.msgs|
  {
    if d == F2B && !reply.sized then 0 else FirstStop(d, s.msgs, reply.answer, 0)
  }

  /** data_process_f2b and data_process_b2f: Done only when the queue is drained, Again only
      when it is not. */
  function Process(d: Dir, s: Side, reply: Reply): (r: (Side, Status))
    ensures (r.1 == Done ==> r.0.msgs == []) && (r.1 == Again ==> r.0.msgs != [])
    ensures (r.1 == Failed ==> d == F2B) && (d == F2B && !reply.sized ==> r == (s, Failed))
    ensures r.0.out + r.0.msgs == s.out + s.msgs && r.0.arrived == s.arrived && r.0.linked == s.linked
  {
    if d == F2B && !reply.sized then (s, Failed)
    else
      var n := Removed(d, s, reply);
      (s.(msgs := s.msgs[n..], out := s.out + s.msgs[..n], wire := s.wire + Carried(s.msgs, reply.answer, n)),
       if n == |s.msgs| then Done else if reply.answer(n) == Broken then Failed else Again)
  }

  lemma {:induction false} CarriedIff(msgs: seq<Seg>, answer: nat -> Answer, n: nat)
    requires n <= |msgs|
    ensures |Carried(msgs, answer, n)| <= |Flat(msgs, n)|
    ensures Carried(msgs, answer, n) == Flat(msgs, n)
       <==> forall i :: 0 <= i < n ==> msgs[i] == [] || (answer(i).Taken? && answer(i).bytes >= |msgs[i]|)
  {
    if n > 0 {
      CarriedIff(msgs, answer, n - 1);
      var a, b := Carried(msgs, answer, n - 1), Flat(msgs, n - 1);
      var x, y := Went(msgs[n - 1], answer(n - 1)), msgs[n - 1];
      if a + x == b + y {
        assert |a| == |b| && |x| == |y|;
        assert a == (a + x)[..|a|] && b == (b + y)[..|b|];
      }
    }
  }

  /** Processing loses no byte of what it removes if and only if every removed segment
      with data was taken whole. */
  lemma {:induction false} NoByteLostIff(d: Dir, s: Side, reply: Reply)
    ensures Process(d, s, reply).0.wire == s.wire + Flat(s.msgs, Removed(d, s, reply))
       <==> forall i :: 0 <= i < Removed(d, s, reply) ==>
              s.msgs[i] == [] || (reply.answer(i).Taken? && reply.answer(i).bytes >= |s.msgs[i]|)
  {
    var n := Removed(d, s, reply);
    CarriedIff(s.msgs, reply.answer, n);
    var a, b := Carried(s.msgs, reply.answer, n), Flat(s.msgs, n);
    assert (s.wire + a)[|s.wire|..] == a && (s.wire + b)[|s.wire|..] == b;
  }

  function LaneOf(e: Engine, d: Dir): Lane {
    if d.F2B? then e.f2b else e.b2f
  }

  function WithLane(e: Engine, d: Dir, l: Lane): Engine {
    if d.F2B? then e.(f2b := l) else e.(b2f := l)
  }

  /** The loop body of steps 2 and 4 on one session; `stop` is the break of step 4. */
  function Turn(e: Engine, d: Dir, id: Id, reply: Reply): (r: (Engine, bool))
    requires id in LaneOf(e, d).sides
  {
    var l := LaneOf(e, d);
    var (s, st) := Process(d, l.sides[id], reply);
    var l' := l.(sides := l.sides[id := s]);
    match st
    case Done => (WithLane(e, d, Detach(l', id)), false)
    case Failed => (Delete(e, id), false)
    case Again => (WithLane(e, d, l'), d.B2F?)
  }

  /** TAILQ_FOREACH_SAFE over the sessions that were queued at the start. */
  function Drain(e: Engine, d: Dir, todo: seq<Id>, reply: Id -> Reply): Engine
    decreases |todo|
  {
    if todo == [] || todo[0] !in LaneOf(e, d).sides then e
    else
      var (e', stop) := Turn(e, d, todo[0], reply(todo[0]));
      if stop then e' else Drain(e', d, todo[1..], reply)
  }

  // ----- The invariant -----

  predicate SideOk(l: Lane, id: Id)
    requires id in l.sides
  {
    var s := l.sides[id];
    && (s.linked <==> id in l.queue)
    && (s.msgs != [] ==> id in l.queue)
    && s.arrived == s.out + s.msgs
  }

  /** The link bit is queue membership, nobody is queued twice, nothing is stranded, and
      segments leave in the order they came. */
  predicate LaneOk(l: Lane) {
    && NoDup(l.queue)
    && (forall id :: id in l.queue ==> id in l.sides)
    && (forall id :: id in l.sides ==> SideOk(l, id))
  }

  predicate EngineOk(e: Engine) {
    LaneOk(e.f2b) && LaneOk(e.b2f) && e.f2b.sides.Keys == e.b2f.sides.Keys
  }

  lemma {:induction false} WithoutNoDup(q: seq<Id>, id: Id)
    requires NoDup(q)
    ensures NoDup(Without(q, id))
  {
    if q != [] {
      WithoutNoDup(q[1..], id);
      if q[0] != id {
        var r := Without(q[1..], id);
        assert q[0] !in r by { assert forall j :: 0 < j < |q| ==> q[j] != q[0]; }
      }
    }
  }

  lemma {:induction false} LinkKeeps(l: Lane, id: Id)
    requires id in l.sides && NoDup(l.queue) && (forall x :: x in l.queue ==> x in l.sides)
    requires forall x :: x in l.sides && x != id ==> SideOk(l, x)
    requires (l.sides[id].linked <==> id in l.queue) && l.sides[id].arrived == l.sides[id].out + l.sides[id].msgs
    ensures LaneOk(Link(l, id))
  {
    var l' := Link(l, id);
    forall x | x in l'.sides ensures SideOk(l', x) {
      if x != id { assert SideOk(l, x); }
    }
  }

  /** After an arrival the invariant holds exactly when the session was linked. */
  lemma {:induction false} ArriveKeepsIff(l: Lane, id: Id, segs: seq<Seg>, complete: bool)
    requires LaneOk(l) && id in l.sides
    ensures LaneOk(Arrive(l, id, segs, complete)) <==> complete || segs == [] || l.sides[id].linked
  {
    var l1 := Push(l, id, segs);
    assert SideOk(l, id);
    forall x | x in l1.sides && x != id ensures SideOk(l1, x) {
      assert SideOk(l, x);
    }
    if complete {
      LinkKeeps(l1, id);
    } else if segs == [] || l.sides[id].linked {
      assert SideOk(l1, id);
    } else {
      assert !SideOk(l1, id);
    }
  }

  lemma {:induction false} ForgetKeeps(l: Lane, id: Id)
    requires LaneOk(l)
    ensures LaneOk(Forget(l, id))
  {
    WithoutNoDup(l.queue, id);
    var l' := Forget(l, id);
    forall x | x in l'.sides ensures SideOk(l', x) {
      assert SideOk(l, x);
    }
  }

  lemma {:induction false} ProcessedKeeps(l: Lane, id: Id, s: Side)
    requires LaneOk(l) && id in l.queue
    requires s.linked && s.arrived == s.out + s.msgs
    ensures LaneOk(l.(sides := l.sides[id := s]))
    ensures s.msgs == [] ==> LaneOk(Detach(l.(sides := l.sides[id := s]), id))
  {
    var l' := l.(sides := l.sides[id := s]);
    forall x | x in l'.sides ensures SideOk(l', x) {
      if x != id { assert SideOk(l, x); }
    }
    if s.msgs == [] {
      WithoutNoDup(l.queue, id);
      var l'' := Detach(l', id);
      forall x | x in l''.sides ensures SideOk(l'', x) {
        if x != id { assert SideOk(l', x); }
      }
    }
  }

  lemma {:induction false} TurnKeeps(e: Engine, d: Dir, id: Id, reply: Reply)
    requires EngineOk(e) && id in LaneOf(e, d).queue
    ensures EngineOk(Turn(e, d, id, reply).0)
    ensures forall x :: x in LaneOf(e, d).queue && x != id ==> x in LaneOf(Turn(e, d, id, reply).0, d).queue
  {
    var l := LaneOf(e, d);
    var (s, st) := Process(d, l.sides[id], reply);
    if st == Failed {
      ForgetKeeps(e.f2b, id);
      ForgetKeeps(e.b2f, id);
    } else {
      assert SideOk(l, id);
      ProcessedKeeps(l, id, s);
      var l' := l.(sides := l.sides[id := s]);
      LaneReplaced(e, d, if st == Done then Detach(l', id) else l');
    }
  }

  lemma {:induction false} LaneReplaced(e: Engine, d: Dir, l: Lane)
    requires EngineOk(e) && LaneOk(l) && l.sides.Keys == LaneOf(e, d).sides.Keys
    ensures EngineOk(WithLane(e, d, l)) && LaneOf(WithLane(e, d, l), d) == l
  {
  }

  lemma {:induction false} DrainKeeps(e: Engine, d: Dir, todo: seq<Id>, reply: Id -> Reply)
    requires EngineOk(e) && Ready(e, d, todo)
    ensures EngineOk(Drain(e, d, todo, reply))
    decreases |todo|
  {
    if todo != [] {
      DrainOne(e, d, todo, reply);
      var (e', stop) := Turn(e, d, todo[0], reply(todo[0]));
      if !stop { DrainKeeps(e', d, todo[1..], reply); }
    }
  }

  lemma {:induction false} WithoutFirst(q: seq<Id>)
    requires q != [] && NoDup(q)
    ensures Without(q, q[0]) == q[1..]
  {
    WithoutAbsent(q[1..], q[0]);
  }

  lemma {:induction false} WithoutAbsent(q: seq<Id>, id: Id)
    requires id !in q
    ensures Without(q, id) == q
  {
    if q != [] { WithoutAbsent(q[1..], id); }
  }

  /** When everything is taken, the session is done with and leaves the queue. */
  lemma {:induction false} TurnDrains(e: Engine, d: Dir, id: Id, reply: Reply)
    requires id in LaneOf(e, d).sides && (d == F2B ==> reply.sized)
    requires forall seg, i :: !Stops(d, seg, reply.answer(i))
    ensures var (e', stop) := Turn(e, d, id, reply);
            && !stop && LaneOf(e', d).queue == Without(LaneOf(e, d).queue, id)
            && LaneOf(e', d).sides.Keys == LaneOf(e, d).sides.Keys
  {
    assert Process(d, LaneOf(e, d).sides[id], reply).1 == Done;
  }

  /** When everything is taken, one pass leaves the active queue and every message
      queue of the direction empty. */
  lemma {:induction false} DrainEmpties(e: Engine, d: Dir, todo: seq<Id>, reply: Id -> Reply)
    requires EngineOk(e) && LaneOf(e, d).queue == todo
    requires forall id :: d == F2B ==> reply(id).sized
    requires forall id, seg, i :: !Stops(d, seg, reply(id).answer(i))
    ensures var l := LaneOf(Drain(e, d, todo, reply), d);
            && l.queue == [] && l.sides.Keys == LaneOf(e, d).sides.Keys
            && forall id :: id in l.sides ==> l.sides[id].msgs == []
    decreases |todo|
  {
    var l := LaneOf(e, d);
    if todo == [] {
      forall id | id in l.sides ensures l.sides[id].msgs == [] {
        assert SideOk(l, id);
      }
    } else {
      TurnKeeps(e, d, todo[0], reply(todo[0]));
      TurnDrains(e, d, todo[0], reply(todo[0]));
      WithoutFirst(todo);
      DrainEmpties(Turn(e, d, todo[0], reply(todo[0])).0, d, todo[1..], reply);
    }
  }

  /** The sessions still to be visited are distinct and queued. */
  predicate Ready(e: Engine, d: Dir, todo: seq<Id>) {
    NoDup(todo) && forall x :: x in todo ==> x in LaneOf(e, d).queue
  }

  lemma {:induction false} DrainOne(e: Engine, d: Dir, todo: seq<Id>, reply: Id -> Reply)
    requires EngineOk(e) && todo != [] && Ready(e, d, todo)
    ensures todo[0] in LaneOf(e, d).sides
    ensures var (e', stop) := Turn(e, d, todo[0], reply(todo[0]));
            && EngineOk(e') && Ready(e', d, todo[1..])
            && Drain(e, d, todo, reply) == if stop then e' else Drain(e', d, todo[1..], reply)
  {
    assert todo[0] in LaneOf(e, d).queue;
    TurnKeeps(e, d, todo[0], reply(todo[0]));
    assert forall x :: x in todo[1..] ==> x in todo && x != todo[0];
  }

  // ----- Whole runs -----

  datatype Op =
    | Create(id: Id, bitF: bool, bitB: bool)
    | FromFront(id: Id, seg: Seg)
    | FromSocket(id: Id, segs: seq<Seg>, complete: bool)
    | Close(id: Id)
    | Step(d: Dir, reply: Id -> Reply)

  /** A new session's link bits are what the allocated memory held: they are masked with
      the bit, not with its complement. */
  function Fresh(bit: bool): Side {
    Side(bit, [], [], [], [])
  }

  function Apply(e: Engine, op: Op): Engine {
    match op
    case Create(id, bitF, bitB) =>
      if id in e.f2b.sides || id in e.b2f.sides then e
      else Engine(e.f2b.(sides := e.f2b.sides[id := Fresh(bitF)]), e.b2f.(sides := e.b2f.sides[id := Fresh(bitB)]))
    case FromFront(id, seg) =>
      if id !in e.f2b.sides then e else e.(f2b := Arrive(e.f2b, id, [seg], true))
    case FromSocket(id, segs, complete) =>
      if id !in e.b2f.sides then e else e.(b2f := Arrive(e.b2f, id, segs, complete))
    case Close(id) =>
      if id !in e.f2b.sides then e else Delete(e, id)
    case Step(d, reply) => Drain(e, d, LaneOf(e, d).queue, reply)
  }

  function Run(e: Engine, ops: seq<Op>): Engine {
    if ops == [] then e else Apply(Run(e, ops[..|ops| - 1]), ops[|ops| - 1])
  }

  const Empty := Engine(Lane(map[], []), Lane(map[], []))

  /** A new session enters the invariant exactly when its memory held a clear bit. */
  lemma {:induction false} FreshKeepsIff(l: Lane, id: Id, bit: bool)
    requires LaneOk(l) && id !in l.sides
    ensures LaneOk(l.(sides := l.sides[id := Fresh(bit)])) <==> !bit
  {
    var l' := l.(sides := l.sides[id := Fresh(bit)]);
    forall x | x in l.sides ensures SideOk(l', x) {
      assert SideOk(l, x);
    }
    assert SideOk(l', id) <==> !bit;
  }

  /** The operations that strand: a new session whose memory held a set bit, and a socket
      read that is cut short after a segment of a session that is not linked. */
  predicate Strands(e: Engine, op: Op) {
    || (op.Create? && op.id !in e.f2b.sides && op.id !in e.b2f.sides && (op.bitF || op.bitB))
    || (op.FromSocket? && op.id in e.b2f.sides && op.segs != [] && !op.complete && !e.b2f.sides[op.id].linked)
  }

  /** From an engine in order, one operation leaves it in order if and only if it does not
      strand. */
  lemma {:induction false} StepOkIff(e: Engine, op: Op)
    requires EngineOk(e)
    ensures EngineOk(Apply(e, op)) <==> !Strands(e, op)
  {
    match op
    case Create(id, bitF, bitB) => CreateOkIff(e, id, bitF, bitB);
    case FromFront(id, seg) =>
      if id in e.f2b.sides { ArriveKeepsIff(e.f2b, id, [seg], true); }
    case FromSocket(id, segs, complete) =>
      if id in e.b2f.sides { ArriveKeepsIff(e.b2f, id, segs, complete); }
    case Close(id) =>
      ForgetKeeps(e.f2b, id);
      ForgetKeeps(e.b2f, id);
    case Step(d, reply) =>
      DrainKeeps(e, d, LaneOf(e, d).queue, reply);
  }

  lemma {:induction false} CreateOkIff(e: Engine, id: Id, bitF: bool, bitB: bool)
    requires EngineOk(e)
    ensures EngineOk(Apply(e, Create(id, bitF, bitB))) <==> !Strands(e, Create(id, bitF, bitB))
  {
    if id !in e.f2b.sides {
      FreshKeepsIff(e.f2b, id, bitF);
      FreshKeepsIff(e.b2f, id, bitB);
    }
  }

  /** The engine is in order in every state of the run. */
  predicate AlwaysOk(ops: seq<Op>) {
    EngineOk(Run(Empty, ops)) && (ops != [] ==> AlwaysOk(ops[..|ops| - 1]))
  }

  /** No operation of the run strands. */
  predicate NeverStrands(ops: seq<Op>) {
    ops == [] || (NeverStrands(ops[..|ops| - 1]) && !Strands(Run(Empty, ops[..|ops| - 1]), ops[|ops| - 1]))
  }

  /** In every state of a run link bit and membership agree, nobody is queued twice, whoever
      has segments waiting is queued, and segments leave in order, if and only if no
      operation of the run strands. */
  lemma {:induction false} StrandedIff(ops: seq<Op>)
    ensures AlwaysOk(ops) <==> NeverStrands(ops)
    decreases |ops|
  {
    if ops != [] {
      StrandedIff(ops[..|ops| - 1]);
      var e := Run(Empty, ops[..|ops| - 1]);
      if EngineOk(e) { StepOkIff(e, ops[|ops| - 1]); }
    }
  }

  /** So nothing is stranded at the end of a run in which nothing strands. */
  lemma {:induction false} NothingStranded(ops: seq<Op>)
    requires NeverStrands(ops)
    ensures EngineOk(Run(Empty, ops))
  {
    StrandedIff(ops);
  }

  // ----- A bit that was not clear -----

  /** The session counts as linked without being queued. */
  predicate Stuck(l: Lane, id: Id) {
    id in l.sides && l.sides[id].linked && id !in l.queue
  }

  /** A new session is stuck in a direction exactly when its memory held a set bit there. */
  lemma {:induction false} CreateStuckIff(e: Engine, id: Id, bitF: bool, bitB: bool, d: Dir)
    requires EngineOk(e) && id !in e.f2b.sides
    ensures Stuck(LaneOf(Apply(e, Create(id, bitF, bitB)), d), id) <==> if d == F2B then bitF else bitB
  {
  }

  /** The session keeps all its segments and gains the new ones. */
  ghost predicate Keeps(e: Engine, e': Engine, d: Dir, id: Id, more: seq<Seg>)
    requires id in LaneOf(e, d).sides
  {
    && Stuck(LaneOf(e', d), id)
    && var s, s' := LaneOf(e, d).sides[id], LaneOf(e', d).sides[id];
    && s'.out == s.out && s'.wire == s.wire && s'.msgs == s.msgs + more
  }

  lemma {:induction false} TurnSpares(e: Engine, d: Dir, x: Id, reply: Reply, dir: Dir, id: Id)
    requires Stuck(LaneOf(e, dir), id) && x in LaneOf(e, d).sides && (d == dir ==> x != id)
    ensures var e' := Turn(e, d, x, reply).0;
            id in LaneOf(e', dir).sides ==> Keeps(e, e', dir, id, [])
    ensures dir == F2B ==> id in Turn(e, d, x, reply).0.f2b.sides
  {
    var e' := Turn(e, d, x, reply).0;
    if id in LaneOf(e', dir).sides {
      assert LaneOf(e', dir).sides[id] == LaneOf(e, dir).sides[id];
    }
  }

  lemma {:induction false} DrainSpares(e: Engine, d: Dir, todo: seq<Id>, reply: Id -> Reply, dir: Dir, id: Id)
    requires Stuck(LaneOf(e, dir), id) && (d == dir ==> id !in todo)
    ensures var e' := Drain(e, d, todo, reply);
            id in LaneOf(e', dir).sides ==> Keeps(e, e', dir, id, [])
    ensures dir == F2B ==> id in Drain(e, d, todo, reply).f2b.sides
    decreases |todo|
  {
    if todo != [] && todo[0] in LaneOf(e, d).sides {
      TurnSpares(e, d, todo[0], reply(todo[0]), dir, id);
      var (e', stop) := Turn(e, d, todo[0], reply(todo[0]));
      if !stop {
        if id in LaneOf(e', dir).sides {
          DrainSpares(e', d, todo[1..], reply, dir, id);
        } else {
          DrainCreatesNone(e', d, todo[1..], reply, dir, id);
        }
      }
    } else {
      assert LaneOf(e, dir).sides[id].msgs + [] == LaneOf(e, dir).sides[id].msgs;
    }
  }

  /** Draining makes no session. */
  lemma {:induction false} DrainCreatesNone(e: Engine, d: Dir, todo: seq<Id>, reply: Id -> Reply, dir: Dir, id: Id)
    requires id !in LaneOf(e, dir).sides
    ensures id !in LaneOf(Drain(e, d, todo, reply), dir).sides
    decreases |todo|
  {
    if todo != [] && todo[0] in LaneOf(e, d).sides {
      DrainCreatesNone(Turn(e, d, todo[0], reply(todo[0])).0, d, todo[1..], reply, dir, id);
    }
  }

  /** The segments that an operation brings to a session in a direction. */
  function Brought(op: Op, d: Dir, id: Id): seq<Seg> {
    if d == F2B && op.FromFront? && op.id == id then [op.seg]
    else if d == B2F && op.FromSocket? && op.id == id then op.segs
    else []
  }

  function SentTo(ops: seq<Op>, d: Dir, id: Id): seq<Seg> {
    if ops == [] then [] else SentTo(ops[..|ops| - 1], d, id) + Brought(ops[|ops| - 1], d, id)
  }

  lemma {:induction false} StuckStays(e: Engine, op: Op, d: Dir, id: Id)
    requires Stuck(LaneOf(e, d), id)
    ensures var e' := Apply(e, op); id in LaneOf(e', d).sides ==> Keeps(e, e', d, id, Brought(op, d, id))
    ensures d == F2B && op != Close(id) ==> id in Apply(e, op).f2b.sides
  {
    if op.Step? {
      DrainSpares(e, op.d, LaneOf(e, op.d).queue, op.reply, d, id);
    }
  }

  /** The session is in the pool in every state of the run. */
  ghost predicate Lives(e: Engine, ops: seq<Op>, d: Dir, id: Id) {
    id in LaneOf(Run(e, ops), d).sides && (ops != [] ==> Lives(e, ops[..|ops| - 1], d, id))
  }

  /** In either direction, a session whose memory held a set bit keeps every segment that
      is ever brought to it, in every run as long as it lives: not one byte goes out.
      A run that closes or deletes another such session is followed only up to that point
      by the program, which removes it through links that were never written; here its
      queue is left alone. */
  lemma {:induction false} StrandedForever(e: Engine, ops: seq<Op>, d: Dir, id: Id)
    requires Stuck(LaneOf(e, d), id) && Lives(e, ops, d, id)
    ensures Keeps(e, Run(e, ops), d, id, SentTo(ops, d, id))
    decreases |ops|
  {
    if ops == [] {
      assert LaneOf(e, d).sides[id].msgs + [] == LaneOf(e, d).sides[id].msgs;
    } else {
      StrandedForever(e, ops[..|ops| - 1], d, id);
      StuckStays(Run(e, ops[..|ops| - 1]), ops[|ops| - 1], d, id);
    }
  }

  /** Front to back only closing it can end the session. */
  lemma {:induction false} StrandedUntilClosed(e: Engine, ops: seq<Op>, id: Id)
    requires Stuck(e.f2b, id) && forall i :: 0 <= i < |ops| ==> ops[i] != Close(id)
    ensures Lives(e, ops, F2B, id) && Keeps(e, Run(e, ops), F2B, id, SentTo(ops, F2B, id))
    decreases |ops|
  {
    if ops != [] {
      StrandedUntilClosed(e, ops[..|ops| - 1], id);
      StuckStays(Run(e, ops[..|ops| - 1]), ops[|ops| - 1], F2B, id);
    }
    StrandedForever(e, ops, F2B, id);
  }
}
