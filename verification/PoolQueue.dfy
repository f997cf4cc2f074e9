/** The shared memory pool queue in contiguous mapping mode: slots are handed out at the
    header, filled in place, and read without copying at the tail. */
module PoolQueue {

  import opened Bytes
  import opened Ring
  import opened ShmQueue
  import opened Wire

  // ----- Index moves -----

  /** The header after SHM_POOL_QUEUE_HEAD_ROLLBACK. */
  function RolledBack(c: Config, header: nat, tail: nat): nat
    requires c.capacity > 0
  {
    if header == tail then header else if header == 0 then c.capacity - 1 else header - 1
  }

  /** Rolling back undoes a successful allocation, across the wrap too. */
  lemma {:induction false} RollbackUndoes(c: Config, header: nat, tail: nat)
    requires ValidConfig(c) && header < c.capacity && tail < c.capacity && Wrap(c, header + 1) != tail
    ensures RolledBack(c, Wrap(c, header + 1), tail) == header
  {
    HeaderAdvances(c, header, tail);
  }

  /** Rolling back without an allocation undoes the newest one still waiting instead. */
  lemma {:induction false} StrayRollbackDrops(c: Config, mem: seq<Byte>, header: nat, tail: nat)
    requires ValidConfig(c) && Fits(c, mem) && header < c.capacity && tail < c.capacity
    ensures RolledBack(c, header, tail) < c.capacity
    ensures var q := Pending(c, mem, header, tail);
            Pending(c, mem, RolledBack(c, header, tail), tail) == if q == [] then [] else q[..|q| - 1]
  {
  }

  // ----- The queue object -----

  class Pool {
    var header: nat
    var tail: nat
    const capacity: nat
    const blockSize: nat
    const mem: array<Byte>

    function Conf(): Config {
      Config(capacity, blockSize)
    }

    ghost predicate Valid()
      reads this
    {
      && ValidConfig(Conf())
      && header < capacity && tail < capacity
      && mem.Length == (capacity + 1) * blockSize
    }

    ghost function Waiting(): seq<Msg>
      requires Valid()
      reads this, mem
    {
      Pending(Conf(), mem[..], header, tail)
    }

    /** shared_mem_pool_queue_create_backend: one block more than the capacity. */
    constructor (capacity: nat, blockSize: nat)
      requires ValidConfig(Config(capacity, blockSize))
      ensures Valid() && Conf() == Config(capacity, blockSize) && header == tail == 0 && fresh(mem) && Waiting() == []
    {
      this.capacity, this.blockSize := capacity, blockSize;
      header, tail := 0, 0;
      mem := new Byte[(capacity + 1) * blockSize](_ => 0);
    }

    /** SHM_POOL_QUEUE_ALLOC_FROM_HEADER; `base` is the address handed out. */
    method AllocFromHeader() returns (r: int, base: nat)
      requires Valid()
      modifies this`header
      ensures Valid()
      ensures r == if |old(Waiting())| == capacity - 1 then ERROR else OK
      ensures r == OK ==> base == SlotBase(Conf(), old(header)) && base + blockSize <= mem.Length
                          && header == Wrap(Conf(), old(header) + 1) != tail
      ensures r == ERROR ==> header == old(header)
    {
      LengthIsModular(Conf(), header, tail);
      var next := (header + 1) % capacity;
      if next == tail { return ERROR, 0; }
      SlotFits(Conf(), header);
      base := (header + 1) * blockSize;
      header := next;
      r := OK;
    }

    /** SHM_POOL_QUEUE_HEAD_ROLLBACK. */
    method HeadRollback()
      requires Valid()
      modifies this`header
      ensures Valid() && header == RolledBack(Conf(), old(header), tail)
      ensures var q := old(Waiting()); Waiting() == if q == [] then [] else q[..|q| - 1]
    {
      StrayRollbackDrops(Conf(), mem[..], header, tail);
      if header != tail {
        header := if header == 0 then capacity - 1 else header - 1;
      }
    }

    /** build_proxy_general_message in MEMORY_ALLOC_SHARED mode: allocate, write the outer
        header, build in the slot, and roll back when a length check fails. The two exits
        for unsupported types do not roll back and leave a stub in the ring. */
    method BuildInSlot(h: Header, p: seq<Byte>) returns (r: int)
      requires Valid()
      modifies this`header, mem
      ensures Valid()
      ensures r == if |old(Waiting())| == capacity - 1 then ERROR
                   else if |SlotOp(h, p).data| > blockSize then OVERRUN
                   else if Buildable(h, |p|) then OK else ERROR
      ensures r == OVERRUN ==> header == old(header) && mem[..] == old(mem[..])
      ensures r != OVERRUN ==>
                var s := Step(Conf(), State(old(mem[..]), old(header), tail, [], [], -1), SlotOp(h, p));
                header == s.header && mem[..] == s.mem
      ensures r == OK ==>
                Waiting() == old(Waiting())
                             + [Written(h, p) + Block(Conf(), old(mem[..]), old(header))[|Written(h, p)|..]]
      ensures r == ERROR && |old(Waiting())| < capacity - 1 ==>
                (Waiting() == old(Waiting()) && header == old(header)
                 <==> h.kind <= 3 || (h.kind == 4 && 1 <= h.inner[1] <= 6))
    {
      FullIff(Conf(), header, tail);
      SupportedIff(h);
      var next := NextByRemainder(Conf(), header);
      if next == tail { return ERROR; }
      if |SlotOp(h, p).data| > blockSize { return OVERRUN; }
      SlotEffect(Conf(), mem[..], header, tail, h, p);
      r := BuildFitting(h, p);
    }

    /** The same when there is room for it. */
    method BuildFitting(h: Header, p: seq<Byte>) returns (r: int)
      requires Valid() && Wrap(Conf(), header + 1) != tail && |SlotOp(h, p).data| <= blockSize
      modifies this`header, mem
      ensures Valid() && SlotBase(Conf(), old(header)) + |SlotOp(h, p).data| <= mem.Length
      ensures r == if Buildable(h, |p|) then OK else ERROR
      ensures mem[..] == Poke(old(mem[..]), SlotBase(Conf(), old(header)), SlotOp(h, p).data)
      ensures header == if SlotOp(h, p).Abort? then old(header) else Wrap(Conf(), old(header) + 1)
    {
      FullIff(Conf(), header, tail);
      RollbackUndoes(Conf(), header, tail);
      SlotFits(Conf(), header);
      var base: nat;
      r, base := AllocFromHeader();
      FillSlot(base, h, p);
      if !Supported(h) { return ERROR; }
      if !Buildable(h, |p|) {
        HeadRollback();
        return ERROR;
      }
    }

    /** The writes of the builder into a slot, as far as it gets. */
    method FillSlot(base: nat, h: Header, p: seq<Byte>)
      requires base + |SlotOp(h, p).data| <= mem.Length
      modifies mem
      ensures mem[..] == Poke(old(mem[..]), base, SlotOp(h, p).data)
    {
      ghost var was := mem[..];
      CopyIn(mem, base, Stub(h));
      if Buildable(h, |p|) {
        FillBody(base, h, p);
        SlotFilled(was, base, h, p);
      }
    }

    /** What a successful build adds, the length field last. */
    method FillBody(base: nat, h: Header, p: seq<Byte>)
      requires Buildable(h, |p|) && base + 8 + |Rest(h, p)| <= mem.Length
      modifies mem
      ensures mem[..] == Poke(Poke(old(mem[..]), base + 8, Rest(h, p)), base + 6, Words([(|p| + Extra(h)) % U16]))
    {
      CopyIn(mem, base + 8, Rest(h, p));
      CopyIn(mem, base + 6, Words([(|p| + Extra(h)) % U16]));
    }

    /** The two statements that move the tail on. */
    method AdvanceTail()
      requires tail < capacity
      modifies this`tail
      ensures tail == Wrap(Conf(), old(tail) + 1) < capacity
    {
      tail := tail + 1;
      if tail >= capacity { tail := tail - capacity; }
    }

    /** shared_mem_pool_queue_recv_zc; `base` is the address of the block. */
    method RecvZc() returns (r: int, base: nat)
      requires Valid()
      modifies this`tail
      ensures Valid()
      ensures r == if old(Waiting()) == [] then AGAIN else OK
      ensures r == AGAIN ==> tail == old(tail)
      ensures r == OK ==> base + blockSize <= mem.Length && base == SlotBase(Conf(), old(tail))
                          && old(Waiting()) == [mem[base..base + blockSize]] + Waiting()
    {
      if header == tail { return AGAIN, 0; }
      base := (tail + 1) * blockSize;
      ghost var bytes := mem[..];
      FrontInPlace(Conf(), bytes, header, tail);
      AdvanceTail();
      assert mem[..] == bytes && mem[base..base + blockSize] == bytes[base..base + blockSize];
      r := OK;
    }
  }

  /** The oldest block, where it lies. */
  lemma {:induction false} FrontInPlace(c: Config, mem: seq<Byte>, header: nat, tail: nat)
    requires ValidConfig(c) && Fits(c, mem) && header < c.capacity && tail < c.capacity && header != tail
    ensures var base := SlotBase(c, tail);
            && base + c.blockSize <= |mem| && Wrap(c, tail + 1) < c.capacity
            && Pending(c, mem, header, tail)
               == [mem[base..base + c.blockSize]] + Pending(c, mem, header, Wrap(c, tail + 1))
  {
    SlotFits(c, tail);
    PendingAfterDequeue(c, mem, header, tail);
  }

  /** Writing the second part last comes to the same. */
  lemma {:induction false} PokeParts(mem: seq<Byte>, base: nat, x: Msg, y: Msg, z: Msg)
    requires base + |x| + |y| + |z| <= |mem|
    ensures Poke(Poke(Poke(mem, base, x), base + |x| + |y|, z), base + |x|, y) == Poke(mem, base, x + y + z)
  {
  }

  lemma {:induction false} SlotFilled(mem: seq<Byte>, base: nat, h: Header, p: seq<Byte>)
    requires Buildable(h, |p|) && base + |Written(h, p)| <= |mem|
    ensures |Written(h, p)| == 8 + |Rest(h, p)|
    ensures Poke(Poke(Poke(mem, base, Stub(h)), base + 8, Rest(h, p)), base + 6, Words([(|p| + Extra(h)) % U16]))
         == Poke(mem, base, Written(h, p))
  {
    PokeParts(mem, base, Stub(h), Words([(|p| + Extra(h)) % U16]), Rest(h, p));
  }

  /** The message types that the builder knows, by number. */
  lemma {:induction false} SupportedIff(h: Header)
    ensures Supported(h) <==> h.kind <= 3 || (h.kind == 4 && 1 <= h.inner[1] <= 6)
  {
  }

  /** What building in a slot does to the ring. */
  function SlotOp(h: Header, p: seq<Byte>): (op: Op)
    ensures !op.Recv?
  {
    if Buildable(h, |p|) then Send(Written(h, p)) else if Supported(h) then Abort(Stub(h)) else Send(Stub(h))
  }

  lemma {:induction false} SlotEffect(c: Config, mem: seq<Byte>, header: nat, tail: nat, h: Header, p: seq<Byte>)
    requires ValidConfig(c) && Fits(c, mem) && header < c.capacity && tail < c.capacity
    requires Wrap(c, header + 1) != tail && |SlotOp(h, p).data| <= c.blockSize
    ensures SlotBase(c, header) + |SlotOp(h, p).data| <= |mem|
    ensures var s := Step(c, State(mem, header, tail, [], [], -1), SlotOp(h, p));
            && s.mem == Poke(mem, SlotBase(c, header), SlotOp(h, p).data)
            && s.header == (if SlotOp(h, p).Abort? then header else Wrap(c, header + 1))
            && Pending(c, s.mem, s.header, tail)
               == Pending(c, mem, header, tail) +
                  if SlotOp(h, p).Abort? then [] else [SlotOp(h, p).data + Block(c, mem, header)[|SlotOp(h, p).data|..]]
  {
    var data := SlotOp(h, p).data;
    PendingAfterEnqueue(c, mem, header, tail, data);
    OthersKept(c, mem, header, tail, data);
    RollbackUndoes(c, header, tail);
    assert Pending(c, mem, header, tail) + [] == Pending(c, mem, header, tail);
  }

  /** Writing the slot at the header leaves every other block alone, the waiting ones
      among them. */
  lemma {:induction false} OthersKept(c: Config, mem: seq<Byte>, header: nat, tail: nat, data: Msg)
    requires ValidConfig(c) && Fits(c, mem) && header < c.capacity && tail < c.capacity && |data| <= c.blockSize
    ensures SlotBase(c, header) + |data| <= |mem|
    ensures var mem' := Poke(mem, SlotBase(c, header), data);
            && (forall i :: 0 <= i < c.capacity && i != header ==> Block(c, mem', i) == Block(c, mem, i))
            && Pending(c, mem', header, tail) == Pending(c, mem, header, tail)
  {
    PokedBlock(c, mem, header, data, header);
    var mem' := Poke(mem, SlotBase(c, header), data);
    forall i | 0 <= i < c.capacity && i != header ensures Block(c, mem', i) == Block(c, mem, i) {
      PokedBlock(c, mem, header, data, i);
    }
    assert Pending(c, mem', header, tail) == Pending(c, mem, header, tail);
  }

  // ----- Whole runs -----

  datatype Op =
    | Send(data: Msg)
    | Abort(data: Msg)
    | Recv

  /** The queue, what was sent and what was received so far, and the block that the
      last receive handed out. */
  datatype State = State(mem: seq<Byte>, header: nat, tail: nat, sent: seq<Msg>, got: seq<Msg>, held: int)

  predicate Good(c: Config, s: State) {
    ValidConfig(c) && Fits(c, s.mem) && s.header < c.capacity && s.tail < c.capacity
  }

  function Step(c: Config, s: State, op: Op): (s': State)
    requires Good(c, s)
    ensures Good(c, s')
  {
    match op
    case Send(data) =>
      if Wrap(c, s.header + 1) == s.tail || |data| > c.blockSize then s
      else
        SlotFits(c, s.header);
        var mem' := Poke(s.mem, SlotBase(c, s.header), data);
        s.(mem := mem', header := Wrap(c, s.header + 1), sent := s.sent + [Block(c, mem', s.header)])
    case Abort(data) =>
      if Wrap(c, s.header + 1) == s.tail || |data| > c.blockSize then s
      else
        SlotFits(c, s.header);
        var mem' := Poke(s.mem, SlotBase(c, s.header), data);
        s.(mem := mem', header := RolledBack(c, Wrap(c, s.header + 1), s.tail))
    case Recv =>
      if s.header == s.tail then s
      else s.(tail := Wrap(c, s.tail + 1), got := s.got + [Block(c, s.mem, s.tail)], held := s.tail)
  }

  function Run(c: Config, s: State, ops: seq<Op>): (s': State)
    requires Good(c, s)
    ensures Good(c, s')
    decreases |ops|
  {
    if ops == [] then s else Step(c, Run(c, s, ops[..|ops| - 1]), ops[|ops| - 1])
  }

  /** What every reachable state satisfies: received messages are the oldest sent ones,
      the rest is waiting in order, and the block handed out last still reads as received. */
  ghost predicate Inv(c: Config, s: State)
    requires Good(c, s)
  {
    && s.sent == s.got + Pending(c, s.mem, s.header, s.tail)
    && (s.got == [] <==> s.held == -1)
    && (s.got != [] ==>
          && 0 <= s.held < c.capacity
          && s.tail == Wrap(c, s.held + 1)
          && Block(c, s.mem, s.held) == s.got[|s.got| - 1])
  }

  lemma {:induction false} SendKeeps(c: Config, s: State, data: Msg)
    requires Good(c, s) && Inv(c, s)
    ensures Inv(c, Step(c, s, Send(data)))
  {
    if Wrap(c, s.header + 1) != s.tail && |data| <= c.blockSize {
      PendingAfterEnqueue(c, s.mem, s.header, s.tail, data);
      PokedBlock(c, s.mem, s.header, data, s.header);
      if s.got != [] { PokedBlock(c, s.mem, s.header, data, s.held); }
    }
  }

  lemma {:induction false} AbortKeeps(c: Config, s: State, data: Msg)
    requires Good(c, s) && Inv(c, s)
    ensures Inv(c, Step(c, s, Abort(data)))
    ensures var s' := Step(c, s, Abort(data)); s' == s.(mem := s'.mem)
  {
    if Wrap(c, s.header + 1) != s.tail && |data| <= c.blockSize {
      OthersKept(c, s.mem, s.header, s.tail, data);
      RollbackUndoes(c, s.header, s.tail);
    }
  }

  lemma {:induction false} RecvKeeps(c: Config, s: State)
    requires Good(c, s) && Inv(c, s)
    ensures Inv(c, Step(c, s, Recv))
  {
    if s.header != s.tail {
      PendingAfterDequeue(c, s.mem, s.header, s.tail);
    }
  }

  /** Every run of sends, aborted sends and receives is a FIFO, and the block that the
      last receive handed out is not overwritten before the next receive. */
  lemma {:induction false} PoolRunIsFifo(c: Config, mem: seq<Byte>, ops: seq<Op>)
    requires ValidConfig(c) && Fits(c, mem)
    ensures var s := Run(c, State(mem, 0, 0, [], [], -1), ops);
            && Inv(c, s) && s.got <= s.sent && |s.sent| - |s.got| <= c.capacity - 1
    decreases |ops|
  {
    if ops != [] {
      PoolRunIsFifo(c, mem, ops[..|ops| - 1]);
      var s := Run(c, State(mem, 0, 0, [], [], -1), ops[..|ops| - 1]);
      match ops[|ops| - 1]
      case Send(data) => SendKeeps(c, s, data);
      case Abort(data) => AbortKeeps(c, s, data);
      case Recv => RecvKeeps(c, s);
    }
  }
}
