/** Geometry of the HyperAMP ring: indices, wrap-around and block addresses. */
module Ring {

  import opened Arith
  import opened Bytes

  /** Queue parameters, fixed once the queue is initialised. */
  datatype Config = Config(capacity: nat, blockSize: nat)

  predicate ValidConfig(c: Config) {
    0 < c.capacity < U16 && 0 < c.blockSize < U16
  }

  /** The C wrap: subtract the capacity once it is reached. */
  function Wrap(c: Config, i: nat): nat {
    if i >= c.capacity then i - c.capacity else i
  }

  /** HYPERAMP_QUEUE_LENGTH. */
  function Length(c: Config, header: nat, tail: nat): int {
    if header >= tail then header - tail else c.capacity - tail + header
  }

  /** Index of the k-th pending message. */
  function At(c: Config, tail: nat, k: nat): nat {
    Wrap(c, tail + k)
  }

  /** Index i lives one block above its position: block 0 is never used. */
  function SlotBase(c: Config, i: nat): nat {
    (i + 1) * c.blockSize
  }

  lemma {:induction false} SlotFits(c: Config, i: nat)
    requires i < c.capacity
    ensures SlotBase(c, i) + c.blockSize <= (c.capacity + 1) * c.blockSize
  {
    BlocksApart(i + 1, c.capacity + 1, c.blockSize);
  }

  lemma {:induction false} SlotsApart(c: Config, i: nat, j: nat)
    requires i < j
    ensures SlotBase(c, i) + c.blockSize <= SlotBase(c, j)
  {
    BlocksApart(i + 1, j + 1, c.blockSize);
  }

  /** Compare-and-subtract wrapping and the length macro are the modular forms,
      and the 16-bit increment never overflows. */
  lemma {:induction false} LengthIsModular(c: Config, header: nat, tail: nat)
    requires ValidConfig(c) && header < c.capacity && tail < c.capacity
    ensures Length(c, header, tail) == (header - tail) % c.capacity
    ensures (header + 1) % U16 == header + 1
    ensures Wrap(c, header + 1) == (header + 1) % c.capacity
    ensures Wrap(c, header + 1) == tail <==> Length(c, header, tail) == c.capacity - 1
  {
    var d := Length(c, header, tail);
    if header >= tail {
      SmallMod(header - tail, c.capacity);
    } else {
      AddMod(header - tail, c.capacity);
      SmallMod(d, c.capacity);
    }
    if header + 1 < c.capacity { SmallMod(header + 1, c.capacity); }
  }

  /** The ring is full when the next header is the tail. */
  lemma {:induction false} FullIff(c: Config, header: nat, tail: nat)
    requires ValidConfig(c) && header < c.capacity && tail < c.capacity
    ensures Wrap(c, header + 1) == tail <==> Length(c, header, tail) == c.capacity - 1
  {
  }

  /** The next index by 16-bit increment, compare and subtract. */
  method NextByCompare(c: Config, i: nat) returns (n: nat)
    requires ValidConfig(c) && i < c.capacity
    ensures n == Wrap(c, i + 1) < c.capacity
  {
    n := (i + 1) % U16;
    if n >= c.capacity {
      n := n - c.capacity;
    }
  }

  /** The next index by remainder, as the slot functions compute it. */
  method NextByRemainder(c: Config, i: nat) returns (n: nat)
    requires ValidConfig(c) && i < c.capacity
    ensures n == Wrap(c, i + 1) < c.capacity
  {
    if i + 1 < c.capacity { SmallMod(i + 1, c.capacity); }
    n := ((i + 1) % c.capacity) % U16;
  }

  /** Advancing the header of a ring that is not full adds one pending index at the end. */
  lemma {:induction false} HeaderAdvances(c: Config, header: nat, tail: nat)
    requires ValidConfig(c) && header < c.capacity && tail < c.capacity
    requires Wrap(c, header + 1) != tail
    ensures Wrap(c, header + 1) < c.capacity
    ensures Length(c, Wrap(c, header + 1), tail) == Length(c, header, tail) + 1 < c.capacity
    ensures At(c, tail, Length(c, header, tail)) == header
  {
  }

  /** Advancing the tail of a ring that is not empty drops the first pending index. */
  lemma {:induction false} TailAdvances(c: Config, header: nat, tail: nat)
    requires ValidConfig(c) && header < c.capacity && tail < c.capacity
    requires header != tail
    ensures Wrap(c, tail + 1) < c.capacity
    ensures Length(c, header, Wrap(c, tail + 1)) == Length(c, header, tail) - 1
  {
  }

  /** Wrapping 32-bit counters keep measuring a length below 2^32. */
  lemma {:induction false} CountersMeasure(enq: nat, deq: nat, len: nat)
    requires enq < U32 && deq < U32 && len == (enq - deq) % U32
    ensures len + 1 < U32 ==> len + 1 == ((enq + 1) % U32 - deq) % U32
    ensures len > 0 ==> len - 1 == (enq - (deq + 1) % U32) % U32
  {
    var e, d := (enq + 1) % U32, (deq + 1) % U32;
    assert e == enq + 1 || e == enq + 1 - U32;
    assert d == deq + 1 || d == deq + 1 - U32;
    assert len == enq - deq || len == enq - deq + U32;
  }

  /** The indices are in range, and the length is the difference of the counters. */
  predicate InStep(c: Config, header: nat, tail: nat, enq: nat, deq: nat) {
    && ValidConfig(c)
    && header < c.capacity && tail < c.capacity
    && enq < U32 && deq < U32
    && Length(c, header, tail) == (enq - deq) % U32
  }

  lemma {:induction false} HeaderInStep(c: Config, header: nat, tail: nat, enq: nat, deq: nat)
    requires InStep(c, header, tail, enq, deq) && Wrap(c, header + 1) != tail
    ensures InStep(c, Wrap(c, header + 1), tail, (enq + 1) % U32, deq)
  {
    HeaderAdvances(c, header, tail);
    CountersMeasure(enq, deq, Length(c, header, tail));
  }

  lemma {:induction false} TailInStep(c: Config, header: nat, tail: nat, enq: nat, deq: nat)
    requires InStep(c, header, tail, enq, deq) && header != tail
    ensures InStep(c, header, Wrap(c, tail + 1), enq, (deq + 1) % U32)
  {
    TailAdvances(c, header, tail);
    CountersMeasure(enq, deq, Length(c, header, tail));
  }
}
