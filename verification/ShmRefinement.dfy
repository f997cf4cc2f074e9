/** Every run of the concurrent HyperAMP queue is a run of the atomic,
    lock-serialised first-in first-out queue. */
module ShmRefinement {

  import opened Bytes
  import opened FifoSpec
  import opened Ring
  import opened ShmProtocol

  // ----- The simulation relation -----

  /** The block of index i starts with `msg`. */
  predicate Holds(c: Config, mem: seq<Byte>, i: nat, msg: Msg) {
    && SlotBase(c, i) + c.blockSize <= |mem|
    && |msg| <= c.blockSize
    && forall j :: 0 <= j < |msg| ==> mem[SlotBase(c, i) + j] == msg[j]
  }

  /** Writing one byte of slot h leaves every other slot alone. */
  lemma {:induction false} HoldsElsewhere(c: Config, mem: seq<Byte>, h: nat, i: nat, off: nat, b: Byte, msg: Msg)
    requires Holds(c, mem, i, msg) && i != h
    requires off < c.blockSize && SlotBase(c, h) + off < |mem|
    ensures Holds(c, mem[SlotBase(c, h) + off := b], i, msg)
  {
    if i < h { SlotsApart(c, i, h); } else { SlotsApart(c, h, i); }
  }

  predicate InCritical(pc: Pc) {
    !pc.Idle? && !pc.LockLoad? && !pc.LockStore?
  }

  /** Where zone z is, as the atomic queue sees it. */
  predicate PhaseOk(phase: Phase, z: nat, zn: Zone) {
    match zn.pc
    case Idle => phase.Free? || phase.zone != z
    case LockLoad => phase.Free? || phase.zone != z
    case LockStore => phase.Free? || phase.zone != z
    case EnqCountLoad => phase == Finished(z, OK)
    case EnqCountStore(_) => phase == Finished(z, OK)
    case DeqCountLoad => phase == Finished(z, OK)
    case DeqCountStore(_) => phase == Finished(z, OK)
    case UnlockOwner(code) =>
      if zn.op.TrySection? then phase == Held(z) && code == OK else phase == Finished(z, code)
    case UnlockStore(code) =>
      if zn.op.TrySection? then phase == Held(z) && code == OK else phase == Finished(z, code)
    case _ => phase == Held(z)
  }

  predicate Enqueuing(pc: Pc) {
    || pc.EnqHeader? || pc.EnqTail? || pc.EnqAddr? || pc.EnqCopy? || pc.EnqPublish?
    || pc.EnqCountLoad? || pc.EnqCountStore?
  }

  predicate Reading(pc: Pc) {
    pc.DeqTail? || pc.DeqHeader? || pc.DeqAddr? || pc.DeqCopy?
  }

  predicate Removing(pc: Pc) {
    pc.DeqNext? || pc.DeqPublish? || pc.DeqCountLoad? || pc.DeqCountStore?
  }

  predicate OpOk(c: Config, zn: Zone) {
    && (!zn.pc.Idle? ==> ArgsOk(c, zn.op))
    && (Enqueuing(zn.pc) ==> zn.op.Enqueue? || zn.op.AllocSlot?)
    && (Reading(zn.pc) ==> zn.op.Dequeue? || zn.op.Peek? || zn.op.ReleaseSlot?)
    && (Removing(zn.pc) ==> zn.op.Dequeue? || zn.op.ReleaseSlot?)
    && (zn.pc.EnqCopy? ==> zn.op.Enqueue?) && (zn.pc.DeqAddr? || zn.pc.DeqCopy? ==> !zn.op.ReleaseSlot?)
  }

  /** `out` has been copied from the slot at the tail and agrees with the front message. */
  predicate CopiedFrom(sh: Shared, a: Spec, out: Msg) {
    && sh.tail != sh.header
    && a.queue != [] && Agrees(out, a.queue[0])
  }

  /** How much of the message being enqueued is in the slot at the header. */
  function Filled(zn: Zone): nat {
    match zn.pc
    case EnqCopy(_, _, i) => i
    case EnqPublish(_) => |DataOf(zn.op)|
    case _ => 0
  }

  /** What the C locals of zone z mean. */
  predicate LocalsOk(c: Config, sh: Shared, z: nat, zn: Zone, a: Spec) {
    match zn.pc
    case LockStore => z in sh.monitors ==> sh.lock == 0
    case EnqTail(newHeader) => newHeader == Wrap(c, sh.header + 1)
    case EnqAddr(newHeader) => newHeader == Wrap(c, sh.header + 1) != sh.tail
    case EnqCopy(newHeader, base, i) =>
      && newHeader == Wrap(c, sh.header + 1) != sh.tail
      && base == SlotBase(c, sh.header)
      && i <= |DataOf(zn.op)|
      && Holds(c, sh.mem, sh.header, DataOf(zn.op)[..i])
    case EnqPublish(newHeader) =>
      && newHeader == Wrap(c, sh.header + 1) != sh.tail
      && Holds(c, sh.mem, sh.header, DataOf(zn.op))
    case EnqCountStore(v) => v == sh.enqueueCount
    case DeqHeader(tail) => tail == sh.tail
    case DeqAddr => sh.tail != sh.header
    case DeqCopy(base, out) =>
      && base == SlotBase(c, sh.tail)
      && |out| <= Min(MaxLenOf(zn.op), c.blockSize)
      && CopiedFrom(sh, a, out)
    case DeqNext(out) => |out| == Min(MaxLenOf(zn.op), c.blockSize) && CopiedFrom(sh, a, out)
    case DeqPublish(newTail, out) =>
      && newTail == Wrap(c, sh.tail + 1)
      && |out| == Min(MaxLenOf(zn.op), c.blockSize) && CopiedFrom(sh, a, out)
    case DeqCountStore(v) => v == sh.dequeueCount
    case _ => true
  }

  predicate ZoneOk(c: Config, sh: Shared, z: nat, zn: Zone, a: Spec) {
    PhaseOk(a.phase, z, zn) && OpOk(c, zn) && LocalsOk(c, sh, z, zn, a)
  }

  /** The ring holds exactly the abstract queue. */
  predicate RingOk(c: Config, mem: seq<Byte>, header: nat, tail: nat, queue: seq<Msg>) {
    && ValidConfig(c)
    && |mem| >= (c.capacity + 1) * c.blockSize
    && header < c.capacity && tail < c.capacity
    && |queue| == Length(c, header, tail)
    && (forall k :: 0 <= k < |queue| ==> Holds(c, mem, At(c, tail, k), queue[k]))
  }

  /** The part of it that does not speak of bytes. */
  predicate Sized(c: Config, sh: Shared, a: Spec) {
    && ValidConfig(c)
    && |sh.mem| >= (c.capacity + 1) * c.blockSize
    && sh.header < c.capacity && sh.tail < c.capacity
    && |a.queue| == Length(c, sh.header, sh.tail)
    && (sh.lock == 0 || sh.lock == 1)
    && (sh.lock == 0 <==> a.phase.Free?)
  }

  /** The ring is right, and the lock word says whether the atomic queue is free. */
  predicate SharedOk(c: Config, sh: Shared, a: Spec) {
    && RingOk(c, sh.mem, sh.header, sh.tail, a.queue)
    && (sh.lock == 0 || sh.lock == 1)
    && (sh.lock == 0 <==> a.phase.Free?)
  }

  /** Index updates that are published but not yet counted. */
  function Lag(pc: Pc): int {
    if pc.EnqCountLoad? || pc.EnqCountStore? then 1
    else if pc.DeqCountLoad? || pc.DeqCountStore? then -1
    else 0
  }

  predicate CountsOk(sh: Shared, a: Spec, lag: int) {
    && 0 <= sh.enqueueCount < U32 && 0 <= sh.dequeueCount < U32
    && (sh.enqueueCount - sh.dequeueCount + lag - |a.queue|) % U32 == 0
  }

  function HolderLag(s: State, a: Spec): int {
    if a.phase.Free? || a.phase.zone >= |s.zones| then 0 else Lag(s.zones[a.phase.zone].pc)
  }

  /** The concrete state `s` stands for the abstract state `a`. */
  ghost predicate Rel(c: Config, s: State, a: Spec) {
    && SharedOk(c, s.sh, a)
    && CountsOk(s.sh, a, HolderLag(s, a))
    && (!a.phase.Free? ==> a.phase.zone < |s.zones|)
    && forall z :: 0 <= z < |s.zones| ==> ZoneOk(c, s.sh, z, s.zones[z], a)
  }

  // ----- One step -----

  predicate StepOk(c: Config, z: nat, o: Outcome, a: Spec) {
    && Enabled(c.capacity, c.blockSize, a, o.ev)
    && SharedOk(c, o.sh, Apply(a, o.ev))
    && ZoneOk(c, o.sh, z, o.zone, Apply(a, o.ev))
  }

  /** A step that touches neither the region nor the indices. */
  ghost predicate QuietStep(c: Config, sh: Shared, z: nat, o: Outcome, a: Spec) {
    && Enabled(c.capacity, c.blockSize, a, o.ev)
    && o.sh.mem == sh.mem && o.sh.header == sh.header && o.sh.tail == sh.tail
    && Apply(a, o.ev).queue == a.queue
    && Sized(c, o.sh, Apply(a, o.ev))
    && ZoneOk(c, o.sh, z, o.zone, Apply(a, o.ev))
  }

  /** Taking the lock. */
  lemma {:induction false} LockQuiet(c: Config, sh: Shared, z: nat, zn: Zone, ch: Choice, a: Spec)
    requires Sized(c, sh, a) && ZoneOk(c, sh, z, zn, a) && !InCritical(zn.pc)
    ensures QuietStep(c, sh, z, Exec(c, sh, z, zn, ch), a)
  {
  }

  /** Owner and lock count, and the release. */
  lemma {:induction false} OwnerQuiet(c: Config, sh: Shared, z: nat, zn: Zone, ch: Choice, a: Spec)
    requires Sized(c, sh, a) && ZoneOk(c, sh, z, zn, a) && InCritical(zn.pc)
    requires !Enqueuing(zn.pc) && !Reading(zn.pc) && !Removing(zn.pc)
    ensures QuietStep(c, sh, z, Exec(c, sh, z, zn, ch), a)
  {
  }

  /** The counters. */
  predicate Counting(pc: Pc) {
    pc.EnqCountLoad? || pc.EnqCountStore? || pc.DeqCountLoad? || pc.DeqCountStore?
  }

  lemma {:induction false} CountQuiet(c: Config, sh: Shared, z: nat, zn: Zone, ch: Choice, a: Spec)
    requires Sized(c, sh, a) && ZoneOk(c, sh, z, zn, a) && Counting(zn.pc)
    ensures QuietStep(c, sh, z, Exec(c, sh, z, zn, ch), a)
  {
  }

  /** The full check of enqueue. */
  lemma {:induction false} EnqQuiet(c: Config, sh: Shared, z: nat, zn: Zone, ch: Choice, a: Spec)
    requires Sized(c, sh, a) && ZoneOk(c, sh, z, zn, a)
    requires zn.pc.EnqHeader? || zn.pc.EnqTail?
    ensures QuietStep(c, sh, z, Exec(c, sh, z, zn, ch), a)
  {
    if zn.pc.EnqTail? { EnqTailQuiet(c, sh, z, zn, ch, a); }
  }

  lemma {:induction false} EnqTailQuiet(c: Config, sh: Shared, z: nat, zn: Zone, ch: Choice, a: Spec)
    requires Sized(c, sh, a) && ZoneOk(c, sh, z, zn, a) && zn.pc.EnqTail?
    ensures QuietStep(c, sh, z, Exec(c, sh, z, zn, ch), a)
  {
  }

  /** The address to write to. */
  lemma {:induction false} EnqAddrQuiet(c: Config, sh: Shared, z: nat, zn: Zone, ch: Choice, a: Spec)
    requires Sized(c, sh, a) && ZoneOk(c, sh, z, zn, a) && zn.pc.EnqAddr?
    ensures QuietStep(c, sh, z, Exec(c, sh, z, zn, ch), a)
  {
    SlotFits(c, sh.header);
    assert DataOf(zn.op)[..0] == [];
  }

  /** The empty check of dequeue and peek. */
  lemma {:induction false} DeqQuiet(c: Config, sh: Shared, z: nat, zn: Zone, ch: Choice, a: Spec)
    requires Sized(c, sh, a) && ZoneOk(c, sh, z, zn, a)
    requires zn.pc.DeqTail? || zn.pc.DeqHeader?
    ensures QuietStep(c, sh, z, Exec(c, sh, z, zn, ch), a)
  {
  }

  /** The address to read from, and the next tail. */
  lemma {:induction false} DeqNextQuiet(c: Config, sh: Shared, z: nat, zn: Zone, ch: Choice, a: Spec)
    requires Sized(c, sh, a) && ZoneOk(c, sh, z, zn, a)
    requires zn.pc.DeqAddr? || zn.pc.DeqNext?
    ensures QuietStep(c, sh, z, Exec(c, sh, z, zn, ch), a)
  {
  }

  lemma {:induction false} QuietRefines(c: Config, sh: Shared, z: nat, o: Outcome, a: Spec)
    requires SharedOk(c, sh, a) && QuietStep(c, sh, z, o, a)
    ensures StepOk(c, z, o, a)
  {
  }

  lemma {:induction false} EnqCopyStep(c: Config, sh: Shared, z: nat, zn: Zone, ch: Choice, a: Spec)
    requires SharedOk(c, sh, a) && ZoneOk(c, sh, z, zn, a)
    requires zn.pc.EnqCopy?
    ensures StepOk(c, z, Exec(c, sh, z, zn, ch), a)
  {
    var data, i := DataOf(zn.op), zn.pc.i;
    SlotFits(c, sh.header);
    if i < |data| {
      ByteKeepsRing(c, sh, a, i, data[i]);
    } else {
      EnqCopiedQuiet(c, sh, z, zn, ch, a);
      QuietRefines(c, sh, z, Exec(c, sh, z, zn, ch), a);
    }
  }

  /** A byte written into the free slot at the header. */
  lemma {:induction false} ByteKeepsRing(c: Config, sh: Shared, a: Spec, i: nat, b: Byte)
    requires SharedOk(c, sh, a) && i < c.blockSize && SlotBase(c, sh.header) + i < |sh.mem|
    requires |a.queue| < c.capacity - 1
    ensures RingOk(c, sh.mem[SlotBase(c, sh.header) + i := b], sh.header, sh.tail, a.queue)
  {
    var mem := sh.mem[SlotBase(c, sh.header) + i := b];
    forall k | 0 <= k < |a.queue| ensures Holds(c, mem, At(c, sh.tail, k), a.queue[k]) {
      HoldsElsewhere(c, sh.mem, sh.header, At(c, sh.tail, k), i, b, a.queue[k]);
    }
  }

  /** The end of the copy. */
  lemma {:induction false} EnqCopiedQuiet(c: Config, sh: Shared, z: nat, zn: Zone, ch: Choice, a: Spec)
    requires Sized(c, sh, a) && ZoneOk(c, sh, z, zn, a) && zn.pc.EnqCopy? && zn.pc.i >= |DataOf(zn.op)|
    ensures QuietStep(c, sh, z, Exec(c, sh, z, zn, ch), a)
  {
    assert DataOf(zn.op)[..zn.pc.i] == DataOf(zn.op);
  }

  lemma {:induction false} EnqPublishStep(c: Config, sh: Shared, z: nat, zn: Zone, ch: Choice, a: Spec)
    requires SharedOk(c, sh, a) && ZoneOk(c, sh, z, zn, a)
    requires zn.pc.EnqPublish?
    ensures StepOk(c, z, Exec(c, sh, z, zn, ch), a)
  {
    assert At(c, sh.tail, |a.queue|) == sh.header;
  }

  lemma {:induction false} DeqCopyStep(c: Config, sh: Shared, z: nat, zn: Zone, ch: Choice, a: Spec)
    requires SharedOk(c, sh, a) && ZoneOk(c, sh, z, zn, a)
    requires zn.pc.DeqCopy?
    ensures StepOk(c, z, Exec(c, sh, z, zn, ch), a)
  {
    FrontIsHeld(c, sh, a, zn.pc.out);
    DeqCopyQuiet(c, sh, z, zn, ch, a);
    QuietRefines(c, sh, z, Exec(c, sh, z, zn, ch), a);
  }

  lemma {:induction false} DeqCopyQuiet(c: Config, sh: Shared, z: nat, zn: Zone, ch: Choice, a: Spec)
    requires Sized(c, sh, a) && ZoneOk(c, sh, z, zn, a) && zn.pc.DeqCopy?
    requires a.queue != [] && Holds(c, sh.mem, sh.tail, a.queue[0])
    ensures QuietStep(c, sh, z, Exec(c, sh, z, zn, ch), a)
  {
    SlotFits(c, sh.tail);
  }

  /** The slot at the tail holds the front message. */
  lemma {:induction false} FrontIsHeld(c: Config, sh: Shared, a: Spec, out: Msg)
    requires SharedOk(c, sh, a) && CopiedFrom(sh, a, out)
    ensures a.queue != [] && Holds(c, sh.mem, sh.tail, a.queue[0]) && Agrees(out, a.queue[0])
  {
    assert At(c, sh.tail, 0) == sh.tail;
    assert Holds(c, sh.mem, At(c, sh.tail, 0), a.queue[0]);
  }

  lemma {:induction false} DeqPublishStep(c: Config, sh: Shared, z: nat, zn: Zone, ch: Choice, a: Spec)
    requires SharedOk(c, sh, a) && ZoneOk(c, sh, z, zn, a)
    requires zn.pc.DeqPublish?
    ensures StepOk(c, z, Exec(c, sh, z, zn, ch), a)
  {
    FrontIsHeld(c, sh, a, zn.pc.out);
    var o := Exec(c, sh, z, zn, ch);
    forall k | 0 <= k < |a.queue| - 1
      ensures Holds(c, sh.mem, At(c, o.sh.tail, k), a.queue[1..][k])
    {
      assert At(c, o.sh.tail, k) == At(c, sh.tail, k + 1);
    }
  }

  lemma {:induction false} ExecStep(c: Config, sh: Shared, z: nat, zn: Zone, ch: Choice, a: Spec)
    requires SharedOk(c, sh, a) && ZoneOk(c, sh, z, zn, a)
    ensures StepOk(c, z, Exec(c, sh, z, zn, ch), a)
  {
    if zn.pc.EnqCopy? { EnqCopyStep(c, sh, z, zn, ch, a); }
    else if zn.pc.EnqPublish? { EnqPublishStep(c, sh, z, zn, ch, a); }
    else if zn.pc.DeqCopy? { DeqCopyStep(c, sh, z, zn, ch, a); }
    else if zn.pc.DeqPublish? { DeqPublishStep(c, sh, z, zn, ch, a); }
    else {
      if Counting(zn.pc) { CountQuiet(c, sh, z, zn, ch, a); }
      else if zn.pc.EnqAddr? { EnqAddrQuiet(c, sh, z, zn, ch, a); }
      else if Enqueuing(zn.pc) { EnqQuiet(c, sh, z, zn, ch, a); }
      else if zn.pc.DeqTail? || zn.pc.DeqHeader? { DeqQuiet(c, sh, z, zn, ch, a); }
      else if zn.pc.DeqAddr? || zn.pc.DeqNext? { DeqNextQuiet(c, sh, z, zn, ch, a); }
      else if InCritical(zn.pc) { OwnerQuiet(c, sh, z, zn, ch, a); }
      else { LockQuiet(c, sh, z, zn, ch, a); }
      QuietRefines(c, sh, z, Exec(c, sh, z, zn, ch), a);
    }
  }

  /** A step of zone z disturbs no other zone. */
  lemma {:induction false} OtherZone(c: Config, sh: Shared, z: nat, zn: Zone, ch: Choice, a: Spec, w: nat, wn: Zone)
    requires SharedOk(c, sh, a) && ZoneOk(c, sh, z, zn, a)
    requires w != z && ZoneOk(c, sh, w, wn, a)
    ensures var o := Exec(c, sh, z, zn, ch); ZoneOk(c, o.sh, w, wn, Apply(a, o.ev))
  {
    if InCritical(zn.pc) {
      OutsideStays(c, sh, z, zn, ch, a, w, wn);
    } else {
      LockingSpares(c, sh, z, zn, ch, a, w, wn);
    }
  }

  /** While z is inside the others are outside and stay there. */
  lemma {:induction false} OutsideStays(c: Config, sh: Shared, z: nat, zn: Zone, ch: Choice, a: Spec, w: nat, wn: Zone)
    requires (sh.lock == 0 <==> a.phase.Free?) && PhaseOk(a.phase, z, zn) && InCritical(zn.pc)
    requires w != z && ZoneOk(c, sh, w, wn, a)
    ensures var o := Exec(c, sh, z, zn, ch); ZoneOk(c, o.sh, w, wn, Apply(a, o.ev))
  {
    assert !InCritical(wn.pc);
    InsideLeaves(c, sh, z, zn, ch, a);
  }

  /** A zone inside keeps the lock or lets it go, and arms no monitor but its own. */
  lemma {:induction false} InsideLeaves(c: Config, sh: Shared, z: nat, zn: Zone, ch: Choice, a: Spec)
    requires PhaseOk(a.phase, z, zn) && InCritical(zn.pc)
    ensures var o := Exec(c, sh, z, zn, ch);
            && (Apply(a, o.ev).phase.Free? || Apply(a, o.ev).phase.zone == z)
            && o.sh.monitors <= sh.monitors && (o.sh.lock == sh.lock || o.sh.lock == 0)
  {
  }

  /** Steps towards the lock change nothing that another zone relies on. */
  lemma {:induction false} LockingSpares(c: Config, sh: Shared, z: nat, zn: Zone, ch: Choice, a: Spec, w: nat, wn: Zone)
    requires (sh.lock == 0 <==> a.phase.Free?) && ZoneOk(c, sh, z, zn, a) && !InCritical(zn.pc)
    requires w != z && ZoneOk(c, sh, w, wn, a)
    ensures var o := Exec(c, sh, z, zn, ch); ZoneOk(c, o.sh, w, wn, Apply(a, o.ev))
  {
    var o := Exec(c, sh, z, zn, ch);
    if o.ev.Acquire? {
      assert !InCritical(wn.pc);
    } else {
      assert Apply(a, o.ev) == a && o.sh == sh.(monitors := o.sh.monitors);
    }
  }

  /** The counters follow the indices, modulo 2^32. */
  lemma {:induction false} CountStep(c: Config, sh: Shared, z: nat, zn: Zone, ch: Choice, a: Spec)
    requires LocalsOk(c, sh, z, zn, a)
    requires zn.pc.DeqPublish? ==> a.queue != []
    requires CountsOk(sh, a, Lag(zn.pc))
    ensures var o := Exec(c, sh, z, zn, ch); CountsOk(o.sh, Apply(a, o.ev), Lag(o.zone.pc))
  {
    var o := Exec(c, sh, z, zn, ch);
    var d := o.sh.enqueueCount - o.sh.dequeueCount + Lag(o.zone.pc) - |Apply(a, o.ev).queue|;
    var d0 := sh.enqueueCount - sh.dequeueCount + Lag(zn.pc) - |a.queue|;
    assert d == d0 || d == d0 - U32 || d == d0 + U32;
    OneTurn(d, d0);
  }

  /** One step of a zone is one step of the atomic queue. */
  lemma {:induction false} StepRefines(c: Config, s: State, a: Spec, m: Move)
    requires Rel(c, s, a) && m.Move?
    ensures var (s', ev) := Step(c, s, m);
            Enabled(c.capacity, c.blockSize, a, ev) && Rel(c, s', Apply(a, ev))
  {
    if m.zone < |s.zones| {
      var z, zn := m.zone, s.zones[m.zone];
      var o := Exec(c, s.sh, z, zn, m.choice);
      var (s', ev) := Step(c, s, m);
      var a' := Apply(a, o.ev);
      ExecStep(c, s.sh, z, zn, m.choice, a);
      forall w | 0 <= w < |s'.zones| ensures ZoneOk(c, s'.sh, w, s'.zones[w], a') {
        if w != z { OtherZone(c, s.sh, z, zn, m.choice, a, w, s.zones[w]); }
      }
      StepCounts(c, s, a, m);
    }
  }

  /** With nobody else inside, the holder's lag is that of zone z. */
  lemma {:induction false} LagOf(s: State, a: Spec, z: nat)
    requires z < |s.zones| && PhaseOk(a.phase, z, s.zones[z]) && (a.phase.Free? || a.phase.zone == z)
    ensures HolderLag(s, a) == Lag(s.zones[z].pc)
  {
  }

  /** Who holds the lock after a step of zone z. */
  lemma {:induction false} HolderAfter(c: Config, sh: Shared, z: nat, zn: Zone, ch: Choice, a: Spec)
    requires PhaseOk(a.phase, z, zn)
    ensures var o := Exec(c, sh, z, zn, ch);
            if a.phase.Free? || a.phase.zone == z
            then Apply(a, o.ev).phase.Free? || Apply(a, o.ev).phase.zone == z
            else Apply(a, o.ev) == a || o.ev.Acquire?
  {
  }

  lemma {:induction false} StepCounts(c: Config, s: State, a: Spec, m: Move)
    requires Rel(c, s, a) && m.Move? && m.zone < |s.zones|
    ensures var (s', ev) := Step(c, s, m);
            CountsOk(s'.sh, Apply(a, ev), HolderLag(s', Apply(a, ev)))
  {
    var z, zn := m.zone, s.zones[m.zone];
    var o := Exec(c, s.sh, z, zn, m.choice);
    var s' := Step(c, s, m).0;
    assert ZoneOk(c, s.sh, z, zn, a);
    ExecStep(c, s.sh, z, zn, m.choice, a);
    HolderAfter(c, s.sh, z, zn, m.choice, a);
    if !a.phase.Free? && a.phase.zone != z {
      CountsAside(c, s.sh, z, zn, m.choice, a);
      assert s'.zones[a.phase.zone] == s.zones[a.phase.zone];
    } else {
      LagOf(s, a, z);
      if zn.pc.DeqPublish? { FrontIsHeld(c, s.sh, a, zn.pc.out); }
      CountStep(c, s.sh, z, zn, m.choice, a);
      LagOf(s', Apply(a, o.ev), z);
    }
  }

  /** A zone outside touches no counter while another one is inside. */
  lemma {:induction false} CountsAside(c: Config, sh: Shared, z: nat, zn: Zone, ch: Choice, a: Spec)
    requires PhaseOk(a.phase, z, zn) && !a.phase.Free? && a.phase.zone != z
    requires Enabled(c.capacity, c.blockSize, a, Exec(c, sh, z, zn, ch).ev)
    ensures var o := Exec(c, sh, z, zn, ch);
            Apply(a, o.ev) == a && o.sh.enqueueCount == sh.enqueueCount && o.sh.dequeueCount == sh.dequeueCount
  {
  }

  // ----- Writes of the other queue -----

  /** Address `at` is a byte of the k-th pending message. */
  predicate InPending(c: Config, tail: nat, queue: seq<Msg>, k: nat, at: nat)
    requires k < |queue|
  {
    SlotBase(c, At(c, tail, k)) <= at < SlotBase(c, At(c, tail, k)) + |queue[k]|
  }

  /** Address `at` is a byte that a zone has copied and not yet published. */
  predicate InFill(c: Config, sh: Shared, zn: Zone, at: nat) {
    SlotBase(c, sh.header) <= at < SlotBase(c, sh.header) + Filled(zn)
  }

  /** Address `at` is a byte of a message that is pending or being enqueued. */
  predicate MessageByte(c: Config, s: State, queue: seq<Msg>, at: nat) {
    || (exists k :: 0 <= k < |queue| && InPending(c, s.sh.tail, queue, k, at))
    || (exists z :: 0 <= z < |s.zones| && InFill(c, s.sh, s.zones[z], at))
  }

  lemma {:induction false} HoldsBeside(c: Config, mem: seq<Byte>, i: nat, msg: Msg, at: nat, b: Byte)
    requires Holds(c, mem, i, msg) && at < |mem| && !(SlotBase(c, i) <= at < SlotBase(c, i) + |msg|)
    ensures Holds(c, mem[at := b], i, msg)
  {
  }

  /** A write beside all message bytes is no event of the queue. */
  lemma {:induction false} WriteRefines(c: Config, s: State, a: Spec, m: Move)
    requires Rel(c, s, a) && m.Write? && !MessageByte(c, s, a.queue, m.at)
    ensures var (s', ev) := Step(c, s, m); ev == Silent && Rel(c, s', a)
  {
    if m.at < |s.sh.mem| {
      var s' := Step(c, s, m).0;
      forall k | 0 <= k < |a.queue| ensures Holds(c, s'.sh.mem, At(c, s.sh.tail, k), a.queue[k]) {
        assert !InPending(c, s.sh.tail, a.queue, k, m.at);
        HoldsBeside(c, s.sh.mem, At(c, s.sh.tail, k), a.queue[k], m.at, m.byte);
      }
      forall z | 0 <= z < |s'.zones| ensures ZoneOk(c, s'.sh, z, s'.zones[z], a) {
        var zn := s.zones[z];
        assert ZoneOk(c, s.sh, z, zn, a) && !InFill(c, s.sh, zn, m.at);
        if zn.pc.EnqCopy? { HoldsBeside(c, s.sh.mem, s.sh.header, DataOf(zn.op)[..zn.pc.i], m.at, m.byte); }
        if zn.pc.EnqPublish? { HoldsBeside(c, s.sh.mem, s.sh.header, DataOf(zn.op), m.at, m.byte); }
      }
    }
  }

  /** The ring holds the queue, and every unpublished copy is what its zone copied. */
  predicate Uncorrupted(c: Config, s: State, queue: seq<Msg>) {
    && (forall k :: 0 <= k < |queue| ==> Holds(c, s.sh.mem, At(c, s.sh.tail, k), queue[k]))
    && (forall z :: 0 <= z < |s.zones| && Filled(s.zones[z]) <= |DataOf(s.zones[z].op)| ==>
          Holds(c, s.sh.mem, s.sh.header, DataOf(s.zones[z].op)[..Filled(s.zones[z])]))
  }

  /** Exactly the writes beside all message bytes corrupt nothing whatever they write. */
  lemma {:induction false} WriteIff(c: Config, s: State, a: Spec, at: nat)
    requires Rel(c, s, a) && at < |s.sh.mem|
    ensures (forall b: Byte :: Uncorrupted(c, Step(c, s, Write(at, b)).0, a.queue)) <==> !MessageByte(c, s, a.queue, at)
  {
    if MessageByte(c, s, a.queue, at) {
      var b: Byte := if s.sh.mem[at] == 0 then 1 else 0;
      WriteCorrupts(c, s, a, at, b);
    } else {
      forall b: Byte ensures Uncorrupted(c, Step(c, s, Write(at, b)).0, a.queue) {
        WriteRefines(c, s, a, Write(at, b));
        RelUncorrupted(c, Step(c, s, Write(at, b)).0, a);
      }
    }
  }

  lemma {:induction false} RelUncorrupted(c: Config, s: State, a: Spec)
    requires Rel(c, s, a)
    ensures Uncorrupted(c, s, a.queue)
  {
    SlotFits(c, s.sh.header);
    forall z | 0 <= z < |s.zones| && Filled(s.zones[z]) <= |DataOf(s.zones[z].op)|
      ensures Holds(c, s.sh.mem, s.sh.header, DataOf(s.zones[z].op)[..Filled(s.zones[z])])
    {
      assert ZoneOk(c, s.sh, z, s.zones[z], a);
      var data := DataOf(s.zones[z].op);
      assert data[..|data|] == data;
    }
  }

  lemma {:induction false} WriteCorrupts(c: Config, s: State, a: Spec, at: nat, b: Byte)
    requires Rel(c, s, a) && at < |s.sh.mem| && b != s.sh.mem[at] && MessageByte(c, s, a.queue, at)
    ensures !Uncorrupted(c, Step(c, s, Write(at, b)).0, a.queue)
  {
    var s' := Step(c, s, Write(at, b)).0;
    if k :| 0 <= k < |a.queue| && InPending(c, s.sh.tail, a.queue, k, at) {
      HoldsNot(c, s.sh.mem, At(c, s.sh.tail, k), a.queue[k], at, b);
    } else {
      var z :| 0 <= z < |s.zones| && InFill(c, s.sh, s.zones[z], at);
      assert ZoneOk(c, s.sh, z, s.zones[z], a);
      RelUncorrupted(c, s, a);
      HoldsNot(c, s.sh.mem, s.sh.header, DataOf(s.zones[z].op)[..Filled(s.zones[z])], at, b);
    }
  }

  lemma {:induction false} HoldsNot(c: Config, mem: seq<Byte>, i: nat, msg: Msg, at: nat, b: Byte)
    requires Holds(c, mem, i, msg) && at < |mem| && SlotBase(c, i) <= at < SlotBase(c, i) + |msg| && b != mem[at]
    ensures !Holds(c, mem[at := b], i, msg)
  {
    assert mem[SlotBase(c, i) + (at - SlotBase(c, i))] == msg[at - SlotBase(c, i)];
  }

  /** What the other queue can check: slot h is not pending here, and if it is the slot at
      the header, nobody has begun to fill it. */
  predicate SlotIsIdle(c: Config, s: State, h: nat) {
    && (forall k :: 0 <= k < Length(c, s.sh.header, s.sh.tail) ==> At(c, s.sh.tail, k) != h)
    && (h == s.sh.header ==> forall z :: 0 <= z < |s.zones| ==> Filled(s.zones[z]) == 0)
  }

  /** A slot that is idle holds no message byte. */
  lemma {:induction false} OtherSlotIsBeside(c: Config, s: State, a: Spec, h: nat, off: nat)
    requires Rel(c, s, a) && off < c.blockSize && SlotIsIdle(c, s, h)
    ensures !MessageByte(c, s, a.queue, SlotBase(c, h) + off)
  {
    var at := SlotBase(c, h) + off;
    forall k | 0 <= k < |a.queue| ensures !InPending(c, s.sh.tail, a.queue, k, at) {
      var i := At(c, s.sh.tail, k);
      assert Holds(c, s.sh.mem, i, a.queue[k]);
      if i < h { SlotsApart(c, i, h); } else { SlotsApart(c, h, i); }
    }
    forall z | 0 <= z < |s.zones| ensures !InFill(c, s.sh, s.zones[z], at) {
      assert ZoneOk(c, s.sh, z, s.zones[z], a);
      if s.sh.header < h { SlotsApart(c, s.sh.header, h); }
      if h < s.sh.header { SlotsApart(c, h, s.sh.header); }
    }
  }

  lemma {:induction false} InitRefines(c: Config, s: State)
    requires Initial(c, s)
    ensures Rel(c, s, Start)
  {
  }

  // ----- Whole runs -----

  /** Every write of the schedule falls beside all message bytes of its moment. */
  ghost predicate Harmless(c: Config, s: State, schedule: seq<Move>)
    decreases |schedule|
  {
    schedule == [] ||
    (var before, m := schedule[..|schedule| - 1], schedule[|schedule| - 1];
     && Harmless(c, s, before)
     && var (mid, es) := Run(c, s, before);
     && (m.Write? ==> !MessageByte(c, mid, ApplyAll(Start, es).queue, m.at)))
  }

  /** A schedule without writes of the other queue is harmless. */
  lemma {:induction false} AloneIsHarmless(c: Config, s: State, schedule: seq<Move>)
    requires forall i :: 0 <= i < |schedule| ==> schedule[i].Move?
    ensures Harmless(c, s, schedule)
    decreases |schedule|
  {
    if schedule != [] { AloneIsHarmless(c, s, schedule[..|schedule| - 1]); }
  }

  /** Refinement: whatever the schedule, as long as the other queue writes beside the
      messages, the atomic queue accepts the trace of the concurrent run and ends in the
      corresponding state. */
  lemma {:induction false} RunRefines(c: Config, s: State, schedule: seq<Move>)
    requires Initial(c, s) && Harmless(c, s, schedule)
    ensures var (s', es) := Run(c, s, schedule);
            Accepts(c.capacity, c.blockSize, Start, es) && Rel(c, s', ApplyAll(Start, es))
    decreases |schedule|
  {
    if schedule != [] {
      var before := schedule[..|schedule| - 1];
      RunRefines(c, s, before);
      var (mid, es) := Run(c, s, before);
      var m := schedule[|schedule| - 1];
      if m.Write? {
        WriteRefines(c, mid, ApplyAll(Start, es), m);
      } else {
        StepRefines(c, mid, ApplyAll(Start, es), m);
      }
      AcceptsSnoc(c.capacity, c.blockSize, Start, es, Step(c, mid, schedule[|schedule| - 1]).1);
    }
  }

  /** First in, first out, over every run: the blocks handed to dequeuers are, in
      order, the messages enqueued (in order of effect inside the lock), each
      delivered block starts with exactly the bytes enqueued when the reader asked
      for at least that many, and what is neither delivered nor lost is still in
      the ring. */
  lemma {:induction false} RunIsFifo(c: Config, s: State, schedule: seq<Move>)
    requires Initial(c, s) && Harmless(c, s, schedule)
    ensures var (s', es) := Run(c, s, schedule);
            && var (sent, got) := (SentMsgs(es), Deliveries(es));
            && |got| <= |sent|
            && (forall k :: 0 <= k < |got| ==> Agrees(got[k].1, sent[k]))
            && (forall k :: 0 <= k < |got| && got[k].0 >= |sent[k]| ==> sent[k] <= got[k].1)
            && RingOk(c, s'.sh.mem, s'.sh.header, s'.sh.tail, sent[|got|..])
  {
    var (s', es) := Run(c, s, schedule);
    RunRefines(c, s, schedule);
    AcceptedIsFifo(c.capacity, c.blockSize, Start, es);
    var (sent, got) := (SentMsgs(es), Deliveries(es));
    assert Start.queue + sent == sent;
    forall k | 0 <= k < |got|
      ensures Agrees(got[k].1, sent[k])
      ensures got[k].0 >= |sent[k]| ==> sent[k] <= got[k].1
    {
      assert ReadOf(c.blockSize, got[k].0, got[k].1, sent[k]);
    }
  }

  // ----- What does not depend on the bytes of the region -----

  /** Equal up to the bytes that a reader has copied. */
  predicate SamePc(p: Pc, q: Pc) {
    match p
    case DeqCopy(base, out) => q.DeqCopy? && q.base == base && |q.out| == |out|
    case DeqNext(out) => q.DeqNext? && |q.out| == |out|
    case DeqPublish(newTail, out) => q.DeqPublish? && q.newTail == newTail && |q.out| == |out|
    case _ => p == q
  }

  predicate SameZone(x: Zone, y: Zone) {
    x.op == y.op && x.ret == y.ret && SamePc(x.pc, y.pc)
  }

  predicate SameShared(x: Shared, y: Shared) {
    x == y.(mem := x.mem) && |x.mem| == |y.mem|
  }

  /** Two states that differ only in bytes of the region and copies of them. */
  predicate Alike(s: State, t: State) {
    && SameShared(s.sh, t.sh) && |s.zones| == |t.zones|
    && forall z :: 0 <= z < |s.zones| ==> SameZone(s.zones[z], t.zones[z])
  }

  /** The accesses that touch the region, and what follows them with its bytes. */
  predicate Copying(pc: Pc) {
    pc.EnqCopy? || pc.DeqCopy? || pc.DeqNext? || pc.DeqPublish?
  }

  lemma {:induction false} ControlAlike(c: Config, x: Shared, y: Shared, z: nat, zn: Zone, ch: Choice)
    requires SameShared(x, y) && !Copying(zn.pc)
    ensures var o, p := Exec(c, x, z, zn, ch), Exec(c, y, z, zn, ch); SameShared(o.sh, p.sh) && o.zone == p.zone
  {
  }

  lemma {:induction false} CopyAlike(c: Config, x: Shared, y: Shared, z: nat, xn: Zone, yn: Zone, ch: Choice)
    requires SameShared(x, y) && SameZone(xn, yn) && Copying(xn.pc)
    ensures var o, p := Exec(c, x, z, xn, ch), Exec(c, y, z, yn, ch); SameShared(o.sh, p.sh) && SameZone(o.zone, p.zone)
  {
  }

  lemma {:induction false} ExecAlike(c: Config, x: Shared, y: Shared, z: nat, xn: Zone, yn: Zone, ch: Choice)
    requires SameShared(x, y) && SameZone(xn, yn)
    ensures var o, p := Exec(c, x, z, xn, ch), Exec(c, y, z, yn, ch); SameShared(o.sh, p.sh) && SameZone(o.zone, p.zone)
  {
    if Copying(xn.pc) {
      CopyAlike(c, x, y, z, xn, yn, ch);
    } else {
      ControlAlike(c, x, y, z, xn, ch);
    }
  }

  lemma {:induction false} StepAlike(c: Config, s: State, t: State, m: Move)
    requires Alike(s, t)
    ensures Alike(Step(c, s, m).0, if m.Move? then Step(c, t, m).0 else t)
  {
    if m.Move? && m.zone < |s.zones| {
      ExecAlike(c, s.sh, t.sh, m.zone, s.zones[m.zone], t.zones[m.zone], m.choice);
    }
  }

  /** The schedule without the writes of the other queue. */
  function OnlyMoves(schedule: seq<Move>): (r: seq<Move>)
    ensures forall i :: 0 <= i < |r| ==> r[i].Move?
  {
    if schedule == [] then []
    else
      var r := OnlyMoves(schedule[..|schedule| - 1]);
      if schedule[|schedule| - 1].Move? then r + [schedule[|schedule| - 1]] else r
  }

  /** Any run is alike to the run without the other queue's writes, harmful or not. */
  lemma {:induction false} RunAlike(c: Config, s: State, schedule: seq<Move>)
    ensures Alike(Run(c, s, schedule).0, Run(c, s, OnlyMoves(schedule)).0)
    decreases |schedule|
  {
    if schedule != [] {
      var before, m := schedule[..|schedule| - 1], schedule[|schedule| - 1];
      RunAlike(c, s, before);
      StepAlike(c, Run(c, s, before).0, Run(c, s, OnlyMoves(before)).0, m);
      if m.Move? {
        var r := OnlyMoves(before) + [m];
        assert r[..|r| - 1] == OnlyMoves(before);
      }
    }
  }

  /** The zones between acquire and release. */
  ghost predicate Inside(s: State, z: nat) {
    z < |s.zones| && InCritical(s.zones[z].pc)
  }

  ghost predicate OneInside(s: State) {
    && (forall z, w :: Inside(s, z) && Inside(s, w) ==> z == w)
    && (s.sh.lock == 1 <==> exists z :: Inside(s, z))
    && (s.sh.lock == 0 <==> forall z :: !Inside(s, z))
  }

  lemma {:induction false} RelOneInside(c: Config, s: State, a: Spec)
    requires Rel(c, s, a)
    ensures OneInside(s)
  {
    forall z: nat | Inside(s, z) ensures !a.phase.Free? && a.phase.zone == z {
      assert ZoneOk(c, s.sh, z, s.zones[z], a);
    }
    if !a.phase.Free? {
      assert ZoneOk(c, s.sh, a.phase.zone, s.zones[a.phase.zone], a);
      assert Inside(s, a.phase.zone);
    }
  }

  lemma {:induction false} AlikeInside(s: State, t: State)
    requires Alike(s, t)
    ensures forall z :: Inside(s, z) <==> Inside(t, z)
  {
  }

  /** In every reachable state at most one zone is inside, and the lock word is 1
      exactly when one is: whatever the other queue writes to the region. */
  lemma {:induction false} MutualExclusion(c: Config, s: State, schedule: seq<Move>)
    requires Initial(c, s)
    ensures OneInside(Run(c, s, schedule).0)
  {
    var alone := OnlyMoves(schedule);
    AloneIsHarmless(c, s, alone);
    RunRefines(c, s, alone);
    RelOneInside(c, Run(c, s, alone).0, ApplyAll(Start, Run(c, s, alone).1));
    RunAlike(c, s, schedule);
    AlikeInside(Run(c, s, schedule).0, Run(c, s, alone).0);
  }

  /** The exclusive store is exact: in every run, when a zone comes to it, the store goes
      through only if the lock word is 0 with nobody inside, and then that zone alone is
      inside behind a lock word of 1; if it fails, the lock word, the ring, the counters
      and who is inside are as before. */
  lemma {:induction false} StoreExclusiveIsExact(c: Config, s: State, schedule: seq<Move>, z: nat, ch: Choice)
    requires Initial(c, s)
    requires z < |Run(c, s, schedule).0.zones| && Run(c, s, schedule).0.zones[z].pc.LockStore?
    ensures var s1 := Run(c, s, schedule).0;
            var s2 := Step(c, s1, Move(z, ch)).0;
            && (Inside(s2, z) ==>
                  s1.sh.lock == 0 && s2.sh.lock == 1 && forall w :: !Inside(s1, w) && (Inside(s2, w) ==> w == z))
            && (!Inside(s2, z) ==>
                  s2.sh == s1.sh.(monitors := s2.sh.monitors) && forall w :: Inside(s2, w) <==> Inside(s1, w))
  {
    var alone, s1 := OnlyMoves(schedule), Run(c, s, schedule).0;
    AloneIsHarmless(c, s, alone);
    RunRefines(c, s, alone);
    RunAlike(c, s, schedule);
    var t1 := Run(c, s, alone).0;
    assert ZoneOk(c, t1.sh, z, t1.zones[z], ApplyAll(Start, Run(c, s, alone).1));
    MutualExclusion(c, s, schedule);
  }

  /** In every reachable state, whatever the other queue writes: the indices stay below
      the capacity, the length is their modular difference and below the capacity, and
      with the lock free it is the difference of the 32-bit counters. */
  lemma {:induction false} IndicesAlways(c: Config, s: State, schedule: seq<Move>)
    requires Initial(c, s)
    ensures var sh := Run(c, s, schedule).0.sh;
            && sh.header < c.capacity && sh.tail < c.capacity
            && Length(c, sh.header, sh.tail) == (sh.header - sh.tail) % c.capacity < c.capacity
            && (sh.lock == 0 ==> Length(c, sh.header, sh.tail) == (sh.enqueueCount - sh.dequeueCount) % U32)
  {
    var alone := OnlyMoves(schedule);
    AloneIsHarmless(c, s, alone);
    IndicesAndCounters(c, s, alone);
    RunAlike(c, s, schedule);
  }

  /** In every reachable state the indices stay below the capacity, the pending
      length is the one the header computes, never reaches the capacity, and
      equals the difference of the 32-bit counters up to the one update that the
      lock holder has published but not yet counted. */
  lemma {:induction false} IndicesAndCounters(c: Config, s: State, schedule: seq<Move>)
    requires Initial(c, s) && Harmless(c, s, schedule)
    ensures var (s', es) := Run(c, s, schedule);
            var sh, a := s'.sh, ApplyAll(Start, es);
            && sh.header < c.capacity && sh.tail < c.capacity
            && |a.queue| == Length(c, sh.header, sh.tail) == (sh.header - sh.tail) % c.capacity < c.capacity
            && |a.queue| % U32 == (sh.enqueueCount - sh.dequeueCount + HolderLag(s', a)) % U32
            && (sh.lock == 0 ==> |a.queue| == (sh.enqueueCount - sh.dequeueCount) % U32)
  {
    var (s', es) := Run(c, s, schedule);
    RunRefines(c, s, schedule);
    RelatedCounters(c, s', ApplyAll(Start, es));
  }

  lemma {:induction false} RelatedCounters(c: Config, s: State, a: Spec)
    requires Rel(c, s, a)
    ensures |a.queue| == Length(c, s.sh.header, s.sh.tail) == (s.sh.header - s.sh.tail) % c.capacity < c.capacity
    ensures |a.queue| % U32 == (s.sh.enqueueCount - s.sh.dequeueCount + HolderLag(s, a)) % U32
    ensures s.sh.lock == 0 ==> |a.queue| == (s.sh.enqueueCount - s.sh.dequeueCount) % U32
  {
    RingLength(c, s.sh, a);
    Congruent(s.sh.enqueueCount - s.sh.dequeueCount + HolderLag(s, a), |a.queue|);
  }

  lemma {:induction false} RingLength(c: Config, sh: Shared, a: Spec)
    requires RingOk(c, sh.mem, sh.header, sh.tail, a.queue)
    ensures |a.queue| == Length(c, sh.header, sh.tail) == (sh.header - sh.tail) % c.capacity < c.capacity < U32
  {
    LengthIsModular(c, sh.header, sh.tail);
  }

  lemma {:induction false} Congruent(x: int, y: nat)
    requires (x - y) % U32 == 0
    ensures x % U32 == y % U32
    ensures y < U32 ==> y % U32 == y
  {
  }

  /** Differences that are equal up to one turn of a counter vanish together. */
  lemma {:induction false} OneTurn(d: int, d0: int)
    requires d0 % U32 == 0 && (d == d0 || d == d0 - U32 || d == d0 + U32)
    ensures d % U32 == 0
  {
  }
}
