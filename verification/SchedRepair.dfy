/** A socket read that was cut short: it leaves segments of a session that is not linked,
    and what puts that right. */
module SchedRepair {

  import opened Sched

  /** The engine as if nothing were waiting for session id back to front. */
  function Patch(e: Engine, id: Id): Engine {
    if id !in e.b2f.sides then e
    else
      var s := e.b2f.sides[id];
      e.(b2f := e.b2f.(sides := e.b2f.sides[id := s.(msgs := [], arrived := s.out)]))
  }

  /** Everything is in order except that session id has segments waiting back to front and
      is neither linked nor queued. */
  ghost predicate CutShort(e: Engine, id: Id) {
    && id in e.b2f.sides && EngineOk(Patch(e, id))
    && var s := e.b2f.sides[id];
    && !s.linked && s.msgs != [] && s.arrived == s.out + s.msgs
  }

  lemma {:induction false} CutShortArises(e: Engine, id: Id, segs: seq<Seg>)
    requires EngineOk(e) && id in e.b2f.sides && !e.b2f.sides[id].linked && segs != []
    ensures CutShort(Apply(e, FromSocket(id, segs, false)), id)
  {
    assert SideOk(e.b2f, id);
    var p := Patch(Apply(e, FromSocket(id, segs, false)), id);
    forall x | x in p.b2f.sides ensures SideOk(p.b2f, x) { assert SideOk(e.b2f, x); }
  }

  lemma {:induction false} CutShortIsNotOk(e: Engine, id: Id)
    requires CutShort(e, id)
    ensures !EngineOk(e)
  {
    assert SideOk(Patch(e, id).b2f, id);
    assert !SideOk(e.b2f, id);
  }

  /** A turn of another session, or of the other direction, does not see the difference. */
  lemma {:induction false} TurnPatched(e: Engine, d: Dir, x: Id, reply: Reply, id: Id)
    requires x in LaneOf(e, d).sides && !(d == B2F && x == id)
    ensures Turn(Patch(e, id), d, x, reply) == (Patch(Turn(e, d, x, reply).0, id), Turn(e, d, x, reply).1)
    ensures var e' := Turn(e, d, x, reply).0;
            id in e'.b2f.sides ==> id in e.b2f.sides && e'.b2f.sides[id] == e.b2f.sides[id]
  {
    var p, e' := Patch(e, id), Turn(e, d, x, reply).0;
    assert LaneOf(p, d).sides[x] == LaneOf(e, d).sides[x];
    if id in e.b2f.sides && d == B2F {
      var s, s' := e.b2f.sides[id], Process(d, e.b2f.sides[x], reply).0;
      var s0 := s.(msgs := [], arrived := s.out);
      assert e.b2f.sides[id := s0][x := s'] == e.b2f.sides[x := s'][id := s0];
      assert e.b2f.sides[id := s0][x := s'][x := s'.(linked := false)]
          == e.b2f.sides[x := s'][x := s'.(linked := false)][id := s0];
      assert e.b2f.sides[id := s0] - {x} == (e.b2f.sides - {x})[id := s0];
    } else if id in e.b2f.sides {
      var s := e.b2f.sides[id];
      var s0 := s.(msgs := [], arrived := s.out);
      assert x != id ==> e.b2f.sides[id := s0] - {x} == (e.b2f.sides - {x})[id := s0];
      assert e.b2f.sides[id := s0] - {id} == e.b2f.sides - {id};
    }
  }

  lemma {:induction false} DrainPatched(e: Engine, d: Dir, todo: seq<Id>, reply: Id -> Reply, id: Id)
    requires d == B2F ==> id !in todo
    ensures Drain(Patch(e, id), d, todo, reply) == Patch(Drain(e, d, todo, reply), id)
    ensures var e' := Drain(e, d, todo, reply);
            id in e'.b2f.sides ==> id in e.b2f.sides && e'.b2f.sides[id] == e.b2f.sides[id]
    decreases |todo|
  {
    assert LaneOf(Patch(e, id), d).sides.Keys == LaneOf(e, d).sides.Keys;
    if todo != [] && todo[0] in LaneOf(e, d).sides {
      TurnPatched(e, d, todo[0], reply(todo[0]), id);
      DrainPatched(Turn(e, d, todo[0], reply(todo[0])).0, d, todo[1..], reply, id);
    }
  }

  /** What puts it right: a complete read of the session, or its end. */
  predicate Repairs(e: Engine, op: Op, id: Id) {
    (op.FromSocket? && op.id == id && op.complete) || id !in Apply(e, op).b2f.sides
  }

  /** Any operation but a read of the session itself does not see the difference. */
  lemma {:induction false} ApplyPatched(e: Engine, op: Op, id: Id)
    requires CutShort(e, id) && !(op.FromSocket? && op.id == id)
    ensures Apply(Patch(e, id), op) == Patch(Apply(e, op), id)
    ensures var e' := Apply(e, op); id in e'.b2f.sides ==> e'.b2f.sides[id] == e.b2f.sides[id]
  {
    match op
    case Create(x, bitF, bitB) => CreatePatched(e, x, bitF, bitB, id);
    case FromFront(_, _) =>
    case FromSocket(x, segs, complete) => SocketPatched(e, x, segs, complete, id);
    case Close(x) => ClosePatched(e, x, id);
    case Step(d, reply) =>
      assert id !in e.b2f.queue by { assert SideOk(Patch(e, id).b2f, id); }
      DrainPatched(e, d, LaneOf(e, d).queue, reply, id);
  }

  lemma {:induction false} CreatePatched(e: Engine, x: Id, bitF: bool, bitB: bool, id: Id)
    requires id in e.b2f.sides
    ensures var op := Create(x, bitF, bitB); Apply(Patch(e, id), op) == Patch(Apply(e, op), id)
  {
    var s := e.b2f.sides[id];
    var s0 := s.(msgs := [], arrived := s.out);
    assert x != id ==> e.b2f.sides[id := s0][x := Fresh(bitB)] == e.b2f.sides[x := Fresh(bitB)][id := s0];
  }

  lemma {:induction false} ClosePatched(e: Engine, x: Id, id: Id)
    requires id in e.b2f.sides
    ensures Apply(Patch(e, id), Close(x)) == Patch(Apply(e, Close(x)), id)
  {
    var s := e.b2f.sides[id];
    var s0 := s.(msgs := [], arrived := s.out);
    assert x != id ==> e.b2f.sides[id := s0] - {x} == (e.b2f.sides - {x})[id := s0];
    assert e.b2f.sides[id := s0] - {id} == e.b2f.sides - {id};
  }

  lemma {:induction false} SocketPatched(e: Engine, x: Id, segs: seq<Seg>, complete: bool, id: Id)
    requires id in e.b2f.sides && x != id
    ensures var op := FromSocket(x, segs, complete); Apply(Patch(e, id), op) == Patch(Apply(e, op), id)
  {
    if x in e.b2f.sides {
      var s, y := e.b2f.sides[id], e.b2f.sides[x];
      var s0 := s.(msgs := [], arrived := s.out);
      var y1 := y.(msgs := y.msgs + segs, arrived := y.arrived + segs);
      assert e.b2f.sides[id := s0][x := y1] == e.b2f.sides[x := y1][id := s0];
      var y2 := y1.(linked := true);
      assert e.b2f.sides[id := s0][x := y1][x := y2] == e.b2f.sides[x := y1][x := y2][id := s0];
    }
  }

  /** A complete read of the session links it and everything is in order. */
  lemma {:induction false} ReadRepairs(e: Engine, id: Id, segs: seq<Seg>)
    requires CutShort(e, id)
    ensures EngineOk(Apply(e, FromSocket(id, segs, true)))
  {
    var p, l := Patch(e, id), Push(e.b2f, id, segs);
    assert SideOk(p.b2f, id);
    forall x | x in l.sides && x != id ensures SideOk(l, x) { assert SideOk(p.b2f, x); }
    LinkKeeps(l, id);
  }

  /** Another read cut short leaves the session cut short, with more segments. */
  lemma {:induction false} CutShortAgain(e: Engine, id: Id, segs: seq<Seg>)
    requires CutShort(e, id)
    ensures CutShort(Apply(e, FromSocket(id, segs, false)), id)
  {
    var s := e.b2f.sides[id];
    var e' := Apply(e, FromSocket(id, segs, false));
    var s0 := s.(msgs := [], arrived := s.out);
    assert e'.b2f.sides[id := s0] == e.b2f.sides[id := s0];
    assert Patch(e', id) == Patch(e, id);
    assert SideOk(Patch(e, id).b2f, id);
  }

  /** One operation either repairs the engine or leaves the session cut short, unless it
      strands another session. */
  lemma {:induction false} RepairStep(e: Engine, op: Op, id: Id)
    requires CutShort(e, id) && (Strands(e, op) ==> op.FromSocket? && op.id == id)
    ensures if Repairs(e, op, id) then EngineOk(Apply(e, op)) else CutShort(Apply(e, op), id)
  {
    if op.FromSocket? && op.id == id {
      if op.complete { ReadRepairs(e, id, op.segs); } else { CutShortAgain(e, id, op.segs); }
    } else {
      ApplyPatched(e, op, id);
      StepOkIff(Patch(e, id), op);
    }
  }

  predicate Repaired(e: Engine, ops: seq<Op>, id: Id) {
    ops != [] &&
    (Repaired(e, ops[..|ops| - 1], id) || Repairs(Run(e, ops[..|ops| - 1]), ops[|ops| - 1], id))
  }

  /** Nothing strands in the run but further reads of the session, until it is repaired. */
  predicate OthersBehave(e: Engine, ops: seq<Op>, id: Id) {
    ops == [] ||
    (var prior, op := ops[..|ops| - 1], ops[|ops| - 1];
     && OthersBehave(e, prior, id)
     && (Strands(Run(e, prior), op) ==> op.FromSocket? && op.id == id && !Repaired(e, prior, id)))
  }

  /** After a read cut short, a run in which nothing else strands ends with everything in
      order if and only if it held a complete read of that session or the session's end. */
  lemma {:induction false} RepairedIff(e: Engine, ops: seq<Op>, id: Id)
    requires CutShort(e, id) && OthersBehave(e, ops, id)
    ensures EngineOk(Run(e, ops)) <==> Repaired(e, ops, id)
    ensures !Repaired(e, ops, id) ==> CutShort(Run(e, ops), id)
    decreases |ops|
  {
    if ops == [] {
      CutShortIsNotOk(e, id);
    } else {
      var prior, op := ops[..|ops| - 1], ops[|ops| - 1];
      RepairedIff(e, prior, id);
      if Repaired(e, prior, id) {
        StepOkIff(Run(e, prior), op);
      } else {
        RepairStep(Run(e, prior), op, id);
        if !Repairs(Run(e, prior), op, id) { CutShortIsNotOk(Run(e, ops), id); }
      }
    }
  }
}
