/** A proxy message on its whole way: built by one zone, enqueued, dequeued by another
    zone under any interleaving, and dispatched. */
module EndToEnd {

  import opened Bytes
  import opened FifoSpec
  import opened Ring
  import opened ShmOperations
  import opened ShmProtocol
  import opened ShmRefinement
  import opened Wire
  import opened WireLayout
  import opened WireReceive

  /** A call that has returned: who called what, from which move to which, and the move of
      its effect. */
  datatype Call = Call(zone: nat, op: Op, start: nat, effect: nat, end: nat)

  ghost predicate Succeeds(c: Config, s: State, schedule: seq<Move>, x: Call) {
    && Completes(c, s, schedule, x.start, x.end, x.zone, x.op)
    && After(c, s, schedule, x.end + 1).zones[x.zone].ret == OK
    && x.start <= x.effect <= x.end && x.effect < |Run(c, s, schedule).1|
    && var ev := Run(c, s, schedule).1[x.effect]; Effect(ev) && ev.zone == x.zone
  }

  /** What the caller of a dequeue has in its buffer afterwards. */
  function BlockRead(c: Config, s: State, schedule: seq<Move>, y: Call): seq<Byte> {
    var es := Run(c, s, schedule).1;
    if y.effect < |es| && es[y.effect].Delivered? then es[y.effect].bytes else []
  }

  lemma {:induction false} SenderSent(c: Config, s: State, schedule: seq<Move>, x: Call)
    requires Initial(c, s) && Succeeds(c, s, schedule, x) && x.op.Enqueue?
    ensures Run(c, s, schedule).1[x.effect] == Sent(x.zone, x.op.data)
  {
    EffectOfCall(c, s, schedule, x.start, x.end, x.zone, x.op, x.effect);
  }

  lemma {:induction false} ReaderGot(c: Config, s: State, schedule: seq<Move>, y: Call)
    requires Initial(c, s) && Succeeds(c, s, schedule, y) && y.op.Dequeue?
    ensures Run(c, s, schedule).1[y.effect] == Delivered(y.zone, y.op.maxLen, BlockRead(c, s, schedule, y))
  {
    EffectOfCall(c, s, schedule, y.start, y.end, y.zone, y.op, y.effect);
  }

  lemma {:induction false} ReadCarries(c: Config, n: nat, block: seq<Byte>, h: Header, p: seq<Byte>)
    requires ValidConfig(c) && Buildable(h, |p|) && ReadOf(c.blockSize, n, block, Message(h, p))
    requires n >= |Message(h, p)| && n >= LEAST && c.blockSize >= LEAST
    ensures Carries(block, h, p) && |Message(h, p)| < U16
  {
  }

  /** Zone x.zone called enqueue with the message built from h and p, zone y.zone called
      dequeue for at least that much, both returned OK, and as many messages took effect
      before the one as blocks before the other. */
  ghost predicate Crosses(c: Config, s: State, schedule: seq<Move>, x: Call, y: Call, h: Header, p: seq<Byte>) {
    && Buildable(h, |p|) && x.op == Enqueue(Message(h, p)) && Succeeds(c, s, schedule, x)
    && y.op.Dequeue? && y.op.maxLen >= |Message(h, p)| && y.op.maxLen >= LEAST && c.blockSize >= LEAST
    && Succeeds(c, s, schedule, y)
    && var es := Run(c, s, schedule).1; |SentMsgs(es[..x.effect])| == |Deliveries(es[..y.effect])|
  }

  /** Whatever the interleaving, and whatever the other queue writes beside the messages of
      this one, the k-th block read starts with the message that the k-th enqueue was
      called with. */
  lemma {:induction false} MessageCrosses(c: Config, s: State, schedule: seq<Move>, x: Call, y: Call,
                                          h: Header, p: seq<Byte>)
    requires Initial(c, s) && Harmless(c, s, schedule) && Crosses(c, s, schedule, x, y, h, p)
    ensures Carries(BlockRead(c, s, schedule, y), h, p) && |Message(h, p)| < U16
  {
    SenderSent(c, s, schedule, x);
    ReaderGot(c, s, schedule, y);
    RunRefines(c, s, schedule);
    MatchedRead(c.capacity, c.blockSize, Run(c, s, schedule).1, x.effect, y.effect);
    ReadCarries(c, y.op.maxLen, BlockRead(c, s, schedule, y), h, p);
  }

  /** A data message reaches the dispatcher of the reading zone with its session
      identifiers and its payload intact. */
  lemma {:induction false} DataCrosses(c: Config, s: State, schedule: seq<Move>, x: Call, y: Call,
                                       h: Header, p: seq<Byte>, ready: set<nat>)
    requires Initial(c, s) && Harmless(c, s, schedule) && Crosses(c, s, schedule, x, y, h, p) && h.kind == DATA
    ensures var block := BlockRead(c, s, schedule, y);
            && |block| >= LEAST && 8 + |p| <= |block| && block[8..8 + |p|] == p
            && Receive(block, ready) == DataSegment(h.front, h.back, 8, |p|)
  {
    MessageCrosses(c, s, schedule, x, y, h, p);
    DataDelivered(BlockRead(c, s, schedule, y), h, p, ready);
  }

  /** An active create command reaches it with its session parameters unchanged. */
  lemma {:induction false} CreateCrosses(c: Config, s: State, schedule: seq<Move>, x: Call, y: Call,
                                         h: Header, q: SessPara, ready: set<nat>)
    requires Initial(c, s) && Harmless(c, s, schedule)
    requires CreateCommand(h, q) && Crosses(c, s, schedule, x, y, h, ParaBytes(q))
    ensures |BlockRead(c, s, schedule, y)| >= LEAST
    ensures Receive(BlockRead(c, s, schedule, y), ready) == CreateActive(h.front, q)
  {
    MessageCrosses(c, s, schedule, x, y, h, ParaBytes(q));
    CreateArrives(BlockRead(c, s, schedule, y), h, q, ready);
  }
}
