/** The HyperAMP shared-memory queue as a concurrent program.

    Any number of zones (operating systems, each on its own processing element)
    run enqueue, dequeue, peek, slot allocation and release, and trylock sections on
    one queue.  One step of the model is one access to shared memory: an exclusive
    load or store of the lock word, a load or store of an index or counter, or the
    copy of one byte.
    A schedule lists which zone moves next and how each hardware choice falls;
    between two such steps it may write any byte of the data region, as the other
    queue over the same region does. */
module ShmProtocol {

  import opened Bytes
  import opened FifoSpec
  import opened Ring

  datatype Op =
    | Enqueue(data: Msg)
    | Dequeue(maxLen: nat)
    | Peek(maxLen: nat)
    | AllocSlot
    | ReleaseSlot
    | TrySection

  /** Where a zone is in its operation, with the live C locals. */
  datatype Pc =
    | Idle
    | LockLoad
    | LockStore
    | SetOwner
    | LockCountLoad
    | LockCountStore(v: int)
    | EnqHeader
    | EnqTail(newHeader: nat)
    | EnqAddr(newHeader: nat)
    | EnqCopy(newHeader: nat, base: nat, i: nat)
    | EnqPublish(newHeader: nat)
    | EnqCountLoad
    | EnqCountStore(v: int)
    | DeqTail
    | DeqHeader(tail: nat)
    | DeqAddr
    | DeqCopy(base: nat, out: Msg)
    | DeqNext(out: Msg)
    | DeqPublish(newTail: nat, out: Msg)
    | DeqCountLoad
    | DeqCountStore(v: int)
    | UnlockOwner(code: int)
    | UnlockStore(code: int)

  /** `ret` is the code the zone's last finished operation returned. */
  datatype Zone = Zone(op: Op, pc: Pc, ret: int)

  /** Shared memory.  `monitors` are the processing elements whose exclusive
      monitor is armed for the lock word. */
  datatype Shared = Shared(
    lock: int, owner: int, lockCount: int,
    header: nat, tail: nat, enqueueCount: int, dequeueCount: int,
    mem: seq<Byte>, monitors: set<nat>)

  datatype State = State(sh: Shared, zones: seq<Zone>)

  /** Hardware and caller nondeterminism of one step: the operation an idle zone
      starts, whether an armed exclusive store goes through, and whether a
      processing element's own plain store keeps its own monitor armed. */
  datatype Choice = Choice(op: Op, storeGoesThrough: bool, keepOwnMonitor: bool)

  datatype Outcome = Outcome(sh: Shared, zone: Zone, ev: Event)

  /** Argument checks made before the lock is taken. */
  predicate ArgsOk(c: Config, op: Op) {
    match op
    case Enqueue(data) => 0 < |data| <= c.blockSize
    case Dequeue(maxLen) => maxLen > 0
    case Peek(maxLen) => maxLen > 0
    case _ => true
  }

  function DataOf(op: Op): Msg {
    match op case Enqueue(data) => data case _ => []
  }

  function MaxLenOf(op: Op): nat {
    match op case Dequeue(maxLen) => maxLen case Peek(maxLen) => maxLen case _ => 0
  }

  function Body(op: Op): Pc {
    match op
    case Enqueue(_) => EnqHeader
    case Dequeue(_) => DeqTail
    case Peek(_) => DeqTail
    case AllocSlot => EnqHeader
    case ReleaseSlot => DeqTail
    case TrySection => UnlockOwner(OK)
  }

  /** One step of zone `z`. */
  function Exec(c: Config, sh: Shared, z: nat, zn: Zone, ch: Choice): Outcome {
    match zn.pc
    case Idle =>
      if ArgsOk(c, ch.op) then Outcome(sh, Zone(ch.op, LockLoad, zn.ret), Silent)
      else Outcome(sh, Zone(ch.op, Idle, ERROR), Silent)
    // Spinlock: LDAXR, CBNZ, STLXR, CBNZ.
    case LockLoad =>
      var sh' := sh.(monitors := sh.monitors + {z});
      if sh.lock == 0 then Outcome(sh', zn.(pc := LockStore), Silent)
      else if zn.op.TrySection? then Outcome(sh', zn.(pc := Idle, ret := AGAIN), Silent)
      else Outcome(sh', zn, Silent)
    case LockStore =>
      if z in sh.monitors && ch.storeGoesThrough then
        Outcome(sh.(lock := 1, monitors := {}), zn.(pc := SetOwner), Acquire(z))
      else
        var sh' := sh.(monitors := sh.monitors - {z});
        if zn.op.TrySection? then Outcome(sh', zn.(pc := Idle, ret := AGAIN), Silent)
        else Outcome(sh', zn.(pc := LockLoad), Silent)
    case SetOwner => Outcome(sh.(owner := z), zn.(pc := LockCountLoad), Silent)
    case LockCountLoad => Outcome(sh, zn.(pc := LockCountStore(sh.lockCount)), Silent)
    case LockCountStore(v) =>
      Outcome(sh.(lockCount := (v + 1) % U32), zn.(pc := Body(zn.op)), Silent)
    // hyperamp_queue_enqueue, and hyperamp_queue_alloc_slot, which copies nothing
    case EnqHeader => Outcome(sh, zn.(pc := EnqTail(Wrap(c, (sh.header + 1) % U16))), Silent)
    case EnqTail(newHeader) =>
      if newHeader == sh.tail then
        var code := if zn.op.AllocSlot? then ERROR else AGAIN;
        Outcome(sh, zn.(pc := UnlockOwner(code)), Full(z, code))
      else Outcome(sh, zn.(pc := EnqAddr(newHeader)), Silent)
    case EnqAddr(newHeader) =>
      if zn.op.AllocSlot? then Outcome(sh, zn.(pc := EnqPublish(newHeader)), Silent)
      else Outcome(sh, zn.(pc := EnqCopy(newHeader, (sh.header + 1) * c.blockSize, 0)), Silent)
    case EnqCopy(newHeader, base, i) =>
      if i >= |DataOf(zn.op)| then Outcome(sh, zn.(pc := EnqPublish(newHeader)), Silent)
      else if base + i >= |sh.mem| then Outcome(sh, zn, Fault(z))
      else Outcome(sh.(mem := sh.mem[base + i := DataOf(zn.op)[i]]),
                   zn.(pc := EnqCopy(newHeader, base, i + 1)), Silent)
    case EnqPublish(newHeader) =>
      Outcome(sh.(header := newHeader), zn.(pc := EnqCountLoad),
              Sent(z, DataOf(zn.op)))
    case EnqCountLoad => Outcome(sh, zn.(pc := EnqCountStore(sh.enqueueCount)), Silent)
    case EnqCountStore(v) =>
      Outcome(sh.(enqueueCount := (v + 1) % U32), zn.(pc := UnlockOwner(OK)), Silent)
    // hyperamp_queue_dequeue and hyperamp_queue_peek, and hyperamp_queue_release_slot,
    // which copies nothing
    case DeqTail => Outcome(sh, zn.(pc := DeqHeader(sh.tail)), Silent)
    case DeqHeader(tail) =>
      if tail == sh.header then
        var code := if zn.op.Dequeue? then AGAIN else ERROR;
        Outcome(sh, zn.(pc := UnlockOwner(code)), Empty(z, code))
      else if zn.op.ReleaseSlot? then Outcome(sh, zn.(pc := DeqNext([])), Silent)
      else Outcome(sh, zn.(pc := DeqAddr), Silent)
    case DeqAddr =>
      Outcome(sh, zn.(pc := DeqCopy((sh.tail + 1) * c.blockSize, [])), Silent)
    case DeqCopy(base, out) =>
      if |out| < Min(MaxLenOf(zn.op), c.blockSize) then
        if base + |out| >= |sh.mem| then Outcome(sh, zn, Fault(z))
        else Outcome(sh, zn.(pc := DeqCopy(base, out + [sh.mem[base + |out|]])), Silent)
      else if zn.op.Peek? then
        Outcome(sh, zn.(pc := UnlockOwner(OK)), Peeked(z, MaxLenOf(zn.op), out))
      else Outcome(sh, zn.(pc := DeqNext(out)), Silent)
    case DeqNext(out) => Outcome(sh, zn.(pc := DeqPublish(Wrap(c, (sh.tail + 1) % U16), out)), Silent)
    case DeqPublish(newTail, out) =>
      Outcome(sh.(tail := newTail), zn.(pc := DeqCountLoad),
              Delivered(z, MaxLenOf(zn.op), out))
    case DeqCountLoad => Outcome(sh, zn.(pc := DeqCountStore(sh.dequeueCount)), Silent)
    case DeqCountStore(v) =>
      Outcome(sh.(dequeueCount := (v + 1) % U32), zn.(pc := UnlockOwner(OK)), Silent)
    // hyperamp_spinlock_unlock: clear the owner, then STLR of zero.
    case UnlockOwner(code) => Outcome(sh.(owner := 0), zn.(pc := UnlockStore(code)), Silent)
    case UnlockStore(code) =>
      Outcome(sh.(lock := 0, monitors := if ch.keepOwnMonitor then sh.monitors * {z} else {}),
              zn.(pc := Idle, ret := code), Release(z, code))
  }

  /** Zone `zone` (if there is one) takes its next step, or one byte of the data region
      is written on behalf of another queue over the same region. */
  datatype Move =
    | Move(zone: nat, choice: Choice)
    | Write(at: nat, byte: Byte)

  function Step(c: Config, s: State, m: Move): (State, Event) {
    match m
    case Write(at, byte) =>
      (if at < |s.sh.mem| then s.(sh := s.sh.(mem := s.sh.mem[at := byte])) else s, Silent)
    case Move(zone, choice) =>
      if zone >= |s.zones| then (s, Silent)
      else
        var o := Exec(c, s.sh, zone, s.zones[zone], choice);
        (State(o.sh, s.zones[zone := o.zone]), o.ev)
  }

  /** The whole run that a schedule produces, with the events seen on the way. */
  function Run(c: Config, s: State, schedule: seq<Move>): (State, seq<Event>)
    decreases |schedule|
  {
    if schedule == [] then (s, [])
    else
      var (mid, es) := Run(c, s, schedule[..|schedule| - 1]);
      var (last, ev) := Step(c, mid, schedule[|schedule| - 1]);
      (last, es + [ev])
  }

  /** A freshly created queue over any bytes, with every zone idle. */
  predicate Initial(c: Config, s: State) {
    && ValidConfig(c)
    && |s.sh.mem| >= (c.capacity + 1) * c.blockSize
    && s.sh.lock == 0 && s.sh.header == 0 && s.sh.tail == 0
    && s.sh.enqueueCount == 0 && s.sh.dequeueCount == 0
    && forall z :: 0 <= z < |s.zones| ==> s.zones[z].pc == Idle
  }
}
