/** The HyperAMP queue as one processing element runs it: a control block whose
    fields are updated in place, and a data region passed to every call, since
    the engine gives the same region to its receive and its transmit queue. */
module ShmQueue {

  import opened Bytes
  import opened Ring

  type Msg = seq<Byte>

  // ----- Specification functions over the region's bytes -----

  /** The region with `data` written at `base`. */
  function Poke(mem: seq<Byte>, base: nat, data: Msg): (r: seq<Byte>)
    requires base + |data| <= |mem|
    ensures |r| == |mem|
  {
    mem[..base] + data + mem[base + |data|..]
  }

  predicate Fits(c: Config, mem: seq<Byte>) {
    |mem| >= (c.capacity + 1) * c.blockSize
  }

  /** The whole block of index i. */
  function Block(c: Config, mem: seq<Byte>, i: nat): (b: Msg)
    requires Fits(c, mem) && i < c.capacity
    ensures |b| == c.blockSize
  {
    SlotFits(c, i);
    mem[SlotBase(c, i)..SlotBase(c, i) + c.blockSize]
  }

  /** The blocks waiting between tail and header, oldest first. */
  function Pending(c: Config, mem: seq<Byte>, header: nat, tail: nat): (q: seq<Msg>)
    requires Fits(c, mem) && header < c.capacity && tail < c.capacity
    ensures |q| == Length(c, header, tail)
  {
    seq(Length(c, header, tail), k requires 0 <= k < Length(c, header, tail) => Block(c, mem, At(c, tail, k)))
  }

  /** Index i is one of the pending ones. */
  predicate InWindow(c: Config, header: nat, tail: nat, i: nat) {
    exists k :: 0 <= k < Length(c, header, tail) && At(c, tail, k) == i
  }

  lemma {:induction false} PokedBlock(c: Config, mem: seq<Byte>, h: nat, data: Msg, i: nat)
    requires Fits(c, mem) && h < c.capacity && i < c.capacity && |data| <= c.blockSize
    ensures SlotBase(c, h) + |data| <= |mem|
    ensures var mem' := Poke(mem, SlotBase(c, h), data);
            Block(c, mem', i) == if i == h then data + Block(c, mem, i)[|data|..] else Block(c, mem, i)
  {
    SlotFits(c, h);
    SlotFits(c, i);
    var base, n := SlotBase(c, i), c.blockSize;
    if i == h {
      PokeInside(mem, base, data, n);
    } else {
      if i < h { SlotsApart(c, i, h); } else { SlotsApart(c, h, i); }
      PokeOutside(mem, SlotBase(c, h), data, base, n);
    }
  }

  lemma {:induction false} PokeInside(mem: seq<Byte>, base: nat, data: Msg, n: nat)
    requires |data| <= n && base + n <= |mem|
    ensures Poke(mem, base, data)[base..base + n] == data + mem[base..base + n][|data|..]
  {
  }

  lemma {:induction false} PokeOutside(mem: seq<Byte>, at: nat, data: Msg, base: nat, n: nat)
    requires at + |data| <= |mem| && base + n <= |mem|
    requires base + n <= at || at + |data| <= base
    ensures Poke(mem, at, data)[base..base + n] == mem[base..base + n]
  {
  }

  /** Filling the slot at the header and advancing it appends one block. */
  lemma {:induction false} PendingAfterEnqueue(c: Config, mem: seq<Byte>, header: nat, tail: nat, data: Msg)
    requires ValidConfig(c) && Fits(c, mem) && header < c.capacity && tail < c.capacity
    requires |data| <= c.blockSize && Wrap(c, header + 1) != tail
    ensures SlotBase(c, header) + |data| <= |mem|
    ensures var mem' := Poke(mem, SlotBase(c, header), data);
            Pending(c, mem', Wrap(c, header + 1), tail)
            == Pending(c, mem, header, tail) + [data + Block(c, mem, header)[|data|..]]
  {
    PokedBlock(c, mem, header, data, header);
    var mem' := Poke(mem, SlotBase(c, header), data);
    var q, q' := Pending(c, mem, header, tail), Pending(c, mem', Wrap(c, header + 1), tail);
    assert |q'| == |q| + 1;
    forall k | 0 <= k < |q'|
      ensures q'[k] == (q + [data + Block(c, mem, header)[|data|..]])[k]
    {
      PokedBlock(c, mem, header, data, At(c, tail, k));
    }
  }

  lemma {:induction false} PendingAfterDequeue(c: Config, mem: seq<Byte>, header: nat, tail: nat)
    requires ValidConfig(c) && Fits(c, mem) && header < c.capacity && tail < c.capacity
    requires header != tail
    ensures Pending(c, mem, header, tail)
            == [Block(c, mem, tail)] + Pending(c, mem, header, Wrap(c, tail + 1))
  {
    var q, q' := Pending(c, mem, header, tail), Pending(c, mem, header, Wrap(c, tail + 1));
    assert |q| == |q'| + 1;
    forall k | 0 <= k < |q|
      ensures q[k] == ([Block(c, mem, tail)] + q')[k]
    {
      assert k > 0 ==> At(c, Wrap(c, tail + 1), k - 1) == At(c, tail, k);
    }
  }

  // ----- Byte copies -----

  /** hyperamp_safe_memcpy into shared memory. */
  method CopyIn(region: array<Byte>, base: nat, data: Msg)
    requires base + |data| <= region.Length
    modifies region
    ensures region[..] == Poke(old(region[..]), base, data)
  {
    var i := 0;
    while i < |data|
      invariant 0 <= i <= |data|
      invariant region[..] == Poke(old(region[..]), base, data[..i])
    {
      region[base + i] := data[i];
      i := i + 1;
    }
    assert data[..i] == data;
  }

  /** hyperamp_safe_memcpy out of shared memory. */
  method CopyOut(region: array<Byte>, base: nat, len: nat) returns (out: Msg)
    requires base + len <= region.Length
    ensures out == region[base..base + len]
  {
    out := [];
    while |out| < len
      invariant |out| <= len
      invariant out == region[base..base + |out|]
      decreases len - |out|
    {
      out := out + [region[base + |out|]];
    }
  }

  /** Popping, as values: the front block from its start on, and what is left. */
  lemma {:induction false} FrontAndRest(c: Config, mem: seq<Byte>, header: nat, tail: nat, n: nat)
    requires ValidConfig(c) && Fits(c, mem) && header < c.capacity && tail < c.capacity
    requires header != tail && n <= c.blockSize
    ensures Wrap(c, tail + 1) < c.capacity && SlotBase(c, tail) + n <= |mem|
    ensures var q := Pending(c, mem, header, tail);
            && |q| > 0 && q[1..] == Pending(c, mem, header, Wrap(c, tail + 1))
            && |q[0]| == c.blockSize && q[0][..n] == mem[SlotBase(c, tail)..SlotBase(c, tail) + n]
  {
    PendingAfterDequeue(c, mem, header, tail);
    SlotFits(c, tail);
    var b := SlotBase(c, tail);
    assert mem[b..b + c.blockSize][..n] == mem[b..b + n];
  }

  // ----- The control block -----

  class Queue {
    var header: nat
    var tail: nat
    var capacity: nat
    var blockSize: nat
    var enqueueCount: nat
    var dequeueCount: nat
    var lockValue: nat
    var ownerZone: nat
    var lockCount: nat

    function Conf(): Config
      reads this
    {
      Config(capacity, blockSize)
    }

    /** The indices are in range and the pending length is the difference of the
        counters modulo 2^32. */
    ghost predicate Consistent()
      reads this
    {
      InStep(Conf(), header, tail, enqueueCount, dequeueCount)
    }

    /** Between operations the lock is free. */
    ghost predicate Valid()
      reads this
    {
      Consistent() && lockCount < U32 && lockValue == 0
    }

    ghost function Waiting(mem: seq<Byte>): seq<Msg>
      requires Consistent() && Fits(Conf(), mem)
      reads this
    {
      Pending(Conf(), mem, header, tail)
    }

    /** hyperamp_queue_init by the creator. */
    constructor (c: Config)
      requires ValidConfig(c)
      ensures Valid() && Conf() == c && header == tail == 0
      ensures enqueueCount == dequeueCount == 0
    {
      capacity, blockSize := c.capacity, c.blockSize;
      header, tail, enqueueCount, dequeueCount := 0, 0, 0, 0;
      lockValue, ownerZone, lockCount := 0, 0, 0;
    }

    method Lock(zone: nat)
      requires lockValue == 0 && lockCount < U32
      modifies this`lockValue, this`ownerZone, this`lockCount
      ensures lockValue == 1 && ownerZone == zone && lockCount == (old(lockCount) + 1) % U32
    {
      lockValue := 1;
      ownerZone := zone;
      lockCount := (lockCount + 1) % U32;
    }

    method Unlock()
      requires lockValue == 1
      modifies this`lockValue, this`ownerZone
      ensures lockValue == 0 && ownerZone == 0
    {
      ownerZone := 0;
      lockValue := 0;
    }

    /** The critical section of enqueue. */
    method Push(data: Msg, region: array<Byte>) returns (r: int)
      requires Consistent() && Fits(Conf(), region[..]) && 0 < |data| <= blockSize
      modifies this`header, this`enqueueCount, region
      ensures Consistent()
      ensures r == if |old(Waiting(region[..]))| == capacity - 1 then AGAIN else OK
      ensures r != OK ==> header == old(header) && enqueueCount == old(enqueueCount)
                          && region[..] == old(region[..])
      ensures r == OK ==>
                && SlotBase(Conf(), old(header)) + |data| <= |old(region[..])|
                && region[..] == Poke(old(region[..]), SlotBase(Conf(), old(header)), data)
                && enqueueCount == (old(enqueueCount) + 1) % U32
                && Waiting(region[..])
                   == old(Waiting(region[..])) + [data + Block(Conf(), old(region[..]), old(header))[|data|..]]
    {
      FullIff(Conf(), header, tail);
      var newHeader := NextByCompare(Conf(), header);
      if newHeader == tail {
        return AGAIN;
      }
      HeaderInStep(Conf(), header, tail, enqueueCount, dequeueCount);
      PendingAfterEnqueue(Conf(), region[..], header, tail, data);
      var writeAddr := (header + 1) * blockSize;
      CopyIn(region, writeAddr, data);
      header := newHeader;
      enqueueCount := (enqueueCount + 1) % U32;
      return OK;
    }

    /** hyperamp_queue_enqueue. */
    method Enqueue(zone: nat, data: Msg, region: array<Byte>) returns (r: int)
      requires Valid() && Fits(Conf(), region[..])
      modifies this, region
      ensures Valid() && Conf() == old(Conf()) && tail == old(tail) && dequeueCount == old(dequeueCount)
      ensures r == if |data| == 0 || |data| > blockSize then ERROR
                   else if |old(Waiting(region[..]))| == capacity - 1 then AGAIN else OK
      ensures r != OK ==> header == old(header) && enqueueCount == old(enqueueCount)
                          && region[..] == old(region[..])
      ensures r == OK ==>
                && SlotBase(Conf(), old(header)) + |data| <= |old(region[..])|
                && region[..] == Poke(old(region[..]), SlotBase(Conf(), old(header)), data)
                && enqueueCount == (old(enqueueCount) + 1) % U32
                && Waiting(region[..])
                   == old(Waiting(region[..])) + [data + Block(Conf(), old(region[..]), old(header))[|data|..]]
    {
      if |data| == 0 || |data| > blockSize { return ERROR; }
      Lock(zone);
      r := Push(data, region);
      Unlock();
    }

    /** The critical section of dequeue. */
    method Pop(maxLen: nat, region: array<Byte>) returns (r: int, out: Msg)
      requires Consistent() && Fits(Conf(), region[..]) && maxLen > 0
      modifies this`tail, this`dequeueCount
      ensures Consistent()
      ensures r == if old(Waiting(region[..])) == [] then AGAIN else OK
      ensures r != OK ==> tail == old(tail) && dequeueCount == old(dequeueCount) && out == []
      ensures r == OK ==>
                && var q := old(Waiting(region[..]));
                && out == q[0][..if maxLen < blockSize then maxLen else blockSize]
                && Waiting(region[..]) == q[1..]
                && dequeueCount == (old(dequeueCount) + 1) % U32
    {
      if tail == header {
        return AGAIN, [];
      }
      TailInStep(Conf(), header, tail, enqueueCount, dequeueCount);
      var readAddr := (tail + 1) * blockSize;
      var readLen := if maxLen < blockSize then maxLen else blockSize;
      FrontAndRest(Conf(), region[..], header, tail, readLen);
      out := CopyOut(region, readAddr, readLen);
      tail := NextByCompare(Conf(), tail);
      dequeueCount := (dequeueCount + 1) % U32;
      r := OK;
    }

    /** hyperamp_queue_dequeue. */
    method Dequeue(zone: nat, maxLen: nat, region: array<Byte>) returns (r: int, out: Msg)
      requires Valid() && Fits(Conf(), region[..])
      modifies this
      ensures Valid() && Conf() == old(Conf()) && header == old(header) && enqueueCount == old(enqueueCount)
      ensures r == if maxLen == 0 then ERROR else if old(Waiting(region[..])) == [] then AGAIN else OK
      ensures r != OK ==> tail == old(tail) && dequeueCount == old(dequeueCount) && out == []
      ensures r == OK ==>
                && var q := old(Waiting(region[..]));
                && out == q[0][..if maxLen < blockSize then maxLen else blockSize]
                && Waiting(region[..]) == q[1..]
                && dequeueCount == (old(dequeueCount) + 1) % U32
    {
      if maxLen == 0 { return ERROR, []; }
      Lock(zone);
      r, out := Pop(maxLen, region);
      Unlock();
    }

    /** hyperamp_queue_peek: an empty queue is an error here, not AGAIN. */
    method Peek(zone: nat, maxLen: nat, region: array<Byte>) returns (r: int, out: Msg)
      requires Valid() && Fits(Conf(), region[..])
      modifies this
      ensures Valid() && Conf() == old(Conf()) && header == old(header) && tail == old(tail)
      ensures enqueueCount == old(enqueueCount) && dequeueCount == old(dequeueCount)
      ensures r == if maxLen == 0 || old(Waiting(region[..])) == [] then ERROR else OK
      ensures r == OK ==> out == Waiting(region[..])[0][..if maxLen < blockSize then maxLen else blockSize]
    {
      if maxLen == 0 { return ERROR, []; }
      Lock(zone);
      if tail == header {
        Unlock();
        return ERROR, [];
      }
      SlotFits(Conf(), tail);
      var readAddr := (tail + 1) * blockSize;
      var readLen := if maxLen < blockSize then maxLen else blockSize;
      out := CopyOut(region, readAddr, readLen);
      Unlock();
      r := OK;
    }

    /** hyperamp_queue_alloc_slot: publishes the header before any data is there. */
    method AllocSlot(zone: nat) returns (r: int, slot: nat)
      requires Valid()
      modifies this
      ensures Valid() && Conf() == old(Conf()) && tail == old(tail) && dequeueCount == old(dequeueCount)
      ensures r == if Length(Conf(), old(header), old(tail)) == capacity - 1 then ERROR else OK
      ensures r != OK ==> header == old(header) && enqueueCount == old(enqueueCount)
      ensures r == OK ==>
                && slot == SlotBase(Conf(), old(header)) && slot + blockSize <= (capacity + 1) * blockSize
                && Length(Conf(), header, tail) == Length(Conf(), old(header), old(tail)) + 1
                && At(Conf(), tail, Length(Conf(), header, tail) - 1) == old(header)
                && enqueueCount == (old(enqueueCount) + 1) % U32
    {
      FullIff(Conf(), header, tail);
      SlotFits(Conf(), header);
      Lock(zone);
      var nextHeader := NextByRemainder(Conf(), header);
      if nextHeader == tail {
        Unlock();
        return ERROR, 0;
      }
      HeaderAdvances(Conf(), header, tail);
      HeaderInStep(Conf(), header, tail, enqueueCount, dequeueCount);
      slot := (header + 1) * blockSize;
      header := nextHeader;
      enqueueCount := (enqueueCount + 1) % U32;
      Unlock();
      r := OK;
    }

    /** hyperamp_queue_release_slot. */
    method ReleaseSlot(zone: nat) returns (r: int)
      requires Valid()
      modifies this
      ensures Valid() && Conf() == old(Conf()) && header == old(header) && enqueueCount == old(enqueueCount)
      ensures r == if old(header) == old(tail) then ERROR else OK
      ensures r != OK ==> tail == old(tail) && dequeueCount == old(dequeueCount)
      ensures r == OK ==>
                && Length(Conf(), header, tail) == Length(Conf(), old(header), old(tail)) - 1
                && (forall k :: 0 <= k < Length(Conf(), header, tail) ==>
                      At(Conf(), tail, k) == At(Conf(), old(tail), k + 1))
                && dequeueCount == (old(dequeueCount) + 1) % U32
    {
      Lock(zone);
      if tail == header {
        Unlock();
        return ERROR;
      }
      TailAdvances(Conf(), header, tail);
      TailInStep(Conf(), header, tail, enqueueCount, dequeueCount);
      tail := NextByRemainder(Conf(), tail);
      dequeueCount := (dequeueCount + 1) % U32;
      Unlock();
      r := OK;
    }
  }

  // ----- Two queues over one region -----

  /** With both queues addressed from one base, filling transmit slot h keeps all
      pending receive blocks, whatever the payload, exactly when h lies outside
      the receive queue's circular pending window. */
  lemma {:induction false} SharedRegionIff(c: Config, mem: seq<Byte>, rxHeader: nat, rxTail: nat, h: nat)
    requires ValidConfig(c) && Fits(c, mem)
    requires rxHeader < c.capacity && rxTail < c.capacity && h < c.capacity
    ensures (forall data: Msg :: 0 < |data| <= c.blockSize ==>
               && SlotBase(c, h) + |data| <= |mem|
               && Pending(c, Poke(mem, SlotBase(c, h), data), rxHeader, rxTail) == Pending(c, mem, rxHeader, rxTail))
            <==> !InWindow(c, rxHeader, rxTail, h)
  {
    SlotFits(c, h);
    if InWindow(c, rxHeader, rxTail, h) {
      Clobbers(c, mem, rxHeader, rxTail, h);
    } else {
      forall data: Msg | 0 < |data| <= c.blockSize
        ensures Pending(c, Poke(mem, SlotBase(c, h), data), rxHeader, rxTail) == Pending(c, mem, rxHeader, rxTail)
      {
        forall k | 0 <= k < Length(c, rxHeader, rxTail)
          ensures Block(c, Poke(mem, SlotBase(c, h), data), At(c, rxTail, k)) == Block(c, mem, At(c, rxTail, k))
        {
          PokedBlock(c, mem, h, data, At(c, rxTail, k));
        }
      }
    }
  }

  /** Inside the window some payload destroys a pending receive block. */
  lemma {:induction false} Clobbers(c: Config, mem: seq<Byte>, rxHeader: nat, rxTail: nat, h: nat)
    requires ValidConfig(c) && Fits(c, mem)
    requires rxHeader < c.capacity && rxTail < c.capacity && h < c.capacity
    requires InWindow(c, rxHeader, rxTail, h)
    ensures exists data: Msg :: 0 < |data| <= c.blockSize && SlotBase(c, h) + |data| <= |mem|
              && Pending(c, Poke(mem, SlotBase(c, h), data), rxHeader, rxTail) != Pending(c, mem, rxHeader, rxTail)
  {
    SlotFits(c, h);
    var k :| 0 <= k < Length(c, rxHeader, rxTail) && At(c, rxTail, k) == h;
    var first := Block(c, mem, h)[0];
    var other: Byte := if first == 0 then 1 else 0;
    var data := [other];
    PokedBlock(c, mem, h, data, h);
    var mem' := Poke(mem, SlotBase(c, h), data);
    assert Block(c, mem', h)[0] == other;
    assert Pending(c, mem', rxHeader, rxTail)[k] == Block(c, mem', h);
    assert Pending(c, mem, rxHeader, rxTail)[k] == Block(c, mem, h);
  }
}
