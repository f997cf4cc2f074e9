/** The control page of a HyperAMP queue, byte by byte, and the capacity that
    hyperamp_linux_init derives from the size of the data region. */
module ShmLayout {

  import opened Arith
  import opened Bytes
  import opened Ring

  const PAGE: nat := 4096
  const DEFAULT_CAPACITY: nat := 256
  const DEFAULT_BLOCK: nat := 4096
  const MAGIC: nat := 0x4841_5150

  /** HyperampQueueConfig: the values are as wide as the C fields. */
  datatype QueueConfig = QueueConfig(mapMode: nat, capacity: nat, blockSize: nat, phyAddr: nat, virtAddr: nat)

  predicate InRange(cfg: QueueConfig) {
    && cfg.mapMode < U16 && cfg.capacity < U16 && cfg.blockSize < U16
    && cfg.phyAddr < Pow256(8) && cfg.virtAddr < Pow256(8)
  }

  // ----- Little-endian numbers -----

  function Pow256(n: nat): (p: nat)
    ensures p > 0
  {
    if n == 0 then 1 else 256 * Pow256(n - 1)
  }

  function ToLE(v: nat, n: nat): (s: seq<Byte>)
    ensures |s| == n
  {
    if n == 0 then [] else [v % 256] + ToLE(v / 256, n - 1)
  }

  function FromLE(s: seq<Byte>): nat {
    if s == [] then 0 else s[0] + 256 * FromLE(s[1..])
  }

  lemma {:induction false} ConsLE(b: Byte, s: seq<Byte>)
    ensures FromLE([b] + s) == b + 256 * FromLE(s)
  {
    assert ([b] + s)[1..] == s;
  }

  lemma {:induction false} RoundTripLE(v: nat, n: nat)
    ensures FromLE(ToLE(v, n)) == v % Pow256(n)
  {
    if n > 0 {
      RoundTripLE(v / 256, n - 1);
      ConsLE(v % 256, ToLE(v / 256, n - 1));
      SplitMod(v, 256, Pow256(n - 1));
    }
  }

  /** The byte the C code writes at position i is digit i of the number. */
  lemma {:induction false} DigitLE(v: nat, n: nat, i: nat)
    requires i < n
    ensures ToLE(v, n)[i] == (v / Pow256(i)) % 256
    decreases i
  {
    if i == 0 {
      assert v / Pow256(0) == v;
    } else {
      DigitLE(v / 256, n - 1, i - 1);
      SplitMod(v, 256, Pow256(i - 1));
    }
  }

  /** A page with the bytes s written at `off`. */
  function Stored(page: seq<Byte>, off: nat, s: seq<Byte>): (r: seq<Byte>)
    requires off + |s| <= |page|
    ensures |r| == |page| && r[off..off + |s|] == s
    ensures r[..off] == page[..off] && r[off + |s|..] == page[off + |s|..]
  {
    page[..off] + s + page[off + |s|..]
  }

  /** Two consecutive writes are one. */
  lemma {:induction false} StoredTwice(page: seq<Byte>, off: nat, s: seq<Byte>, t: seq<Byte>)
    requires off + |s| + |t| <= |page|
    ensures Stored(Stored(page, off, s), off + |s|, t) == Stored(page, off, s + t)
  {
    var mid, k := Stored(page, off, s), off + |s| + |t|;
    assert mid[..off + |s|] == page[..off] + s;
    assert mid[k..] == mid[off + |s|..][|t|..] && page[k..] == page[off + |s|..][|t|..];
  }

  /** for (i = 0; i < n; i++) p[off + i] = (v >> (i * 8)) & 0xFF; */
  method WriteLE(p: array<Byte>, off: nat, n: nat, v: nat)
    requires off + n <= p.Length
    modifies p
    ensures p[..] == Stored(old(p[..]), off, ToLE(v, n))
  {
    var i := 0;
    while i < n
      invariant 0 <= i <= n
      invariant p[off..off + i] == ToLE(v, n)[..i]
      invariant p[..off] == old(p[..off]) && p[off + n..] == old(p[off + n..])
    {
      DigitLE(v, n, i);
      p[off + i] := (v / Pow256(i)) % 256;
      i := i + 1;
    }
    assert ToLE(v, n)[..n] == ToLE(v, n);
    assert p[..] == p[..off] + p[off..off + n] + p[off + n..];
  }

  /** hyperamp_safe_read_u16, _u32 and _u64: the or of disjoint shifted bytes. */
  method SafeRead(p: array<Byte>, off: nat, n: nat) returns (v: nat)
    requires off + n <= p.Length
    ensures v == FromLE(p[off..off + n])
  {
    v := 0;
    var i := 0;
    while i < n
      invariant 0 <= i <= n
      invariant v == FromLE(p[off..off + i])
    {
      SnocLE(p[off..off + i], p[off + i]);
      assert p[off..off + i + 1] == p[off..off + i] + [p[off + i]];
      v := v + p[off + i] * Pow256(i);
      i := i + 1;
    }
  }

  lemma {:induction false} SnocLE(s: seq<Byte>, b: Byte)
    ensures FromLE(s + [b]) == FromLE(s) + b * Pow256(|s|)
  {
    if s == [] {
      assert [] + [b] == [b];
    } else {
      SnocLE(s[1..], b);
      assert (s + [b])[1..] == s[1..] + [b];
      assert 256 * (b * Pow256(|s| - 1)) == b * Pow256(|s|);
    }
  }

  // ----- The control page -----

  /** Offsets of struct HyperampShmQueue (packed). */
  const HEADER_OFF := 2
  const TAIL_OFF := 4
  const CAPACITY_OFF := 6
  const BLOCK_SIZE_OFF := 8
  const RESERVED_OFF := 10
  const PHY_ADDR_OFF := 12
  const VIRT_ADDR1_OFF := 20
  const VIRT_ADDR2_OFF := 28
  const TABLES_OFF := 36
  const LOCK_OFF := 4036
  const MAGIC_OFF := 4052
  const VERSION_OFF := 4056
  const ENQUEUE_COUNT_OFF := 4060
  const DEQUEUE_COUNT_OFF := 4064
  const QUEUE_SIZE := 4068

  /** Where each field written before the tables starts, and where the tables start. */
  function FrontStarts(): seq<nat> {
    [0, 1, HEADER_OFF, TAIL_OFF, CAPACITY_OFF, BLOCK_SIZE_OFF, RESERVED_OFF,
     PHY_ADDR_OFF, VIRT_ADDR1_OFF, VIRT_ADDR2_OFF, TABLES_OFF]
  }

  /** Where each field behind the tables starts, and where the structure ends. */
  function BackStarts(): seq<nat> {
    [LOCK_OFF, LOCK_OFF + 4, LOCK_OFF + 8, LOCK_OFF + 12, MAGIC_OFF, VERSION_OFF,
     ENQUEUE_COUNT_OFF, DEQUEUE_COUNT_OFF, QUEUE_SIZE]
  }

  /** Every named offset is the end of the field before it, so no two fields overlap and none
      leaves a gap; the two mapping tables of 125 entries of two 64-bit addresses lie between
      the front fields and the lock, the lock is 4-byte aligned, and the whole structure is
      in one page. */
  lemma {:induction false} LayoutFitsPage(cfg: QueueConfig)
    ensures |FrontStarts()| == |Front(cfg)| + 1 && |BackStarts()| == |Back()| + 1
    ensures forall k :: 0 <= k < |Front(cfg)| ==> FrontStarts()[k + 1] == FrontStarts()[k] + Front(cfg)[k].0
    ensures forall k :: 0 <= k < |Back()| ==> BackStarts()[k + 1] == BackStarts()[k] + Back()[k].0
    ensures forall k :: 0 <= k <= |Front(cfg)| ==> FrontStarts()[k] == Sum(Front(cfg), k)
    ensures forall k :: 0 <= k <= |Back()| ==> BackStarts()[k] == LOCK_OFF + Sum(Back(), k)
    ensures LOCK_OFF == TABLES_OFF + 2 * 125 * (8 + 8) && LOCK_OFF % 4 == 0
    ensures QUEUE_SIZE <= PAGE
  {
    FrontOffsets(cfg);
    BackOffsets();
  }

  /** An n-byte field at `off`, as the byte-wise readers see it. */
  function Field(page: seq<Byte>, off: nat, n: nat): nat
    requires off + n <= |page|
  {
    FromLE(page[off..off + n])
  }

  /** What a connecting zone reads back from a page the creator initialised. */
  predicate Initialised(page: seq<Byte>, cfg: QueueConfig)
    requires |page| >= PAGE
  {
    && Field(page, 0, 1) == cfg.mapMode % 256 && Field(page, 1, 1) == cfg.mapMode % 256
    && Field(page, HEADER_OFF, 2) == 0 && Field(page, TAIL_OFF, 2) == 0
    && Field(page, CAPACITY_OFF, 2) == cfg.capacity && Field(page, BLOCK_SIZE_OFF, 2) == cfg.blockSize
    && Field(page, PHY_ADDR_OFF, 8) == cfg.phyAddr && Field(page, VIRT_ADDR1_OFF, 8) == cfg.virtAddr
    && Field(page, VIRT_ADDR2_OFF, 8) == 0
    && Field(page, LOCK_OFF, 4) == 0 && Field(page, LOCK_OFF + 4, 4) == 0
    && Field(page, LOCK_OFF + 8, 4) == 0 && Field(page, LOCK_OFF + 12, 4) == 0
    && Field(page, MAGIC_OFF, 4) == MAGIC && Field(page, VERSION_OFF, 4) == 1
    && Field(page, ENQUEUE_COUNT_OFF, 4) == 0 && Field(page, DEQUEUE_COUNT_OFF, 4) == 0
  }

  /** The first 36 bytes, in the order in which they are written. */
  function Front(cfg: QueueConfig): seq<(nat, nat)> {
    [(1, cfg.mapMode), (1, cfg.mapMode), (2, 0), (2, 0), (2, cfg.capacity), (2, cfg.blockSize), (2, 0),
     (8, cfg.phyAddr), (8, cfg.virtAddr), (8, 0)]
  }

  /** The extension fields behind the tables. */
  function Back(): seq<(nat, nat)> {
    [(4, 0), (4, 0), (4, 0), (4, 0), (4, MAGIC), (4, 1), (4, 0), (4, 0)]
  }

  function Width(fs: seq<(nat, nat)>): nat {
    if fs == [] then 0 else fs[0].0 + Width(fs[1..])
  }

  /** Consecutive fields (width, value) as bytes. */
  function Image(fs: seq<(nat, nat)>): (s: seq<Byte>)
    ensures |s| == Width(fs)
  {
    if fs == [] then [] else ToLE(fs[0].1, fs[0].0) + Image(fs[1..])
  }

  /** Writing consecutive fields: each lands behind the previous one. */
  method WriteFields(p: array<Byte>, off: nat, fs: seq<(nat, nat)>)
    requires off + Width(fs) <= p.Length
    modifies p
    ensures p[..] == Stored(old(p[..]), off, Image(fs))
    decreases |fs|
  {
    if fs != [] {
      WriteLE(p, off, fs[0].0, fs[0].1);
      WriteFields(p, off + fs[0].0, fs[1..]);
      StoredTwice(old(p[..]), off, ToLE(fs[0].1, fs[0].0), Image(fs[1..]));
    }
  }

  /** hyperamp_queue_init as creator: a bad configuration changes nothing; otherwise
      every field reads back as configured, and nothing else is touched. */
  method InitQueue(p: array<Byte>, cfg: QueueConfig) returns (r: int)
    requires p.Length >= PAGE && InRange(cfg)
    modifies p
    ensures r == if cfg.blockSize == 0 || cfg.capacity == 0 then ERROR else OK
    ensures r == ERROR ==> p[..] == old(p[..])
    ensures r == OK ==>
              && Initialised(p[..], cfg)
              && p[TABLES_OFF..LOCK_OFF] == old(p[TABLES_OFF..LOCK_OFF])
              && p[QUEUE_SIZE..] == old(p[QUEUE_SIZE..])
  {
    if cfg.blockSize == 0 || cfg.capacity == 0 { return ERROR; }
    Widths(cfg);
    WriteFields(p, 0, Front(cfg));
    ghost var mid := p[..];
    WriteFields(p, LOCK_OFF, Back());
    PageParts(old(p[..]), mid, p[..]);
    ImageReadsBack(p[..], cfg);
    return OK;
  }

  /** What two writes, of the front and of the back fields, leave elsewhere. */
  lemma {:induction false} PageParts(was: seq<Byte>, mid: seq<Byte>, now: seq<Byte>)
    requires |was| == |mid| == |now| >= PAGE
    requires mid[TABLES_OFF..] == was[TABLES_OFF..]
    requires now[..LOCK_OFF] == mid[..LOCK_OFF] && now[QUEUE_SIZE..] == mid[QUEUE_SIZE..]
    ensures now[..TABLES_OFF] == mid[..TABLES_OFF]
    ensures now[TABLES_OFF..LOCK_OFF] == was[TABLES_OFF..LOCK_OFF] && now[QUEUE_SIZE..] == was[QUEUE_SIZE..]
  {
    assert now[..TABLES_OFF] == now[..LOCK_OFF][..TABLES_OFF] && mid[..TABLES_OFF] == mid[..LOCK_OFF][..TABLES_OFF];
    assert now[TABLES_OFF..LOCK_OFF] == now[..LOCK_OFF][TABLES_OFF..] == mid[TABLES_OFF..LOCK_OFF];
    assert mid[TABLES_OFF..LOCK_OFF] == mid[TABLES_OFF..][..LOCK_OFF - TABLES_OFF];
    assert was[TABLES_OFF..LOCK_OFF] == was[TABLES_OFF..][..LOCK_OFF - TABLES_OFF];
    assert mid[QUEUE_SIZE..] == mid[TABLES_OFF..][QUEUE_SIZE - TABLES_OFF..];
    assert was[QUEUE_SIZE..] == was[TABLES_OFF..][QUEUE_SIZE - TABLES_OFF..];
  }

  lemma {:induction false} Widths(cfg: QueueConfig)
    ensures Width(Front(cfg)) == TABLES_OFF && Width(Back()) == QUEUE_SIZE - LOCK_OFF
  {
    FrontOffsets(cfg);
    BackOffsets();
    WidthOf(Front(cfg), 10);
    WidthOf(Back(), 8);
    assert Front(cfg)[..10] == Front(cfg) && Back()[..8] == Back();
  }

  function Sum(fs: seq<(nat, nat)>, n: nat): nat
    requires n <= |fs|
  {
    if n == 0 then 0 else Sum(fs, n - 1) + fs[n - 1].0
  }

  lemma {:induction false} WidthOf(fs: seq<(nat, nat)>, n: nat)
    requires n <= |fs|
    ensures Width(fs[..n]) == Sum(fs, n)
  {
    if n > 0 { WidthOf(fs, n - 1); WidthSnoc(fs[..n - 1], fs[n - 1]); assert fs[..n] == fs[..n - 1] + [fs[n - 1]]; }
  }

  lemma {:induction false} WidthSnoc(fs: seq<(nat, nat)>, f: (nat, nat))
    ensures Width(fs + [f]) == Width(fs) + f.0
  {
    if fs != [] { WidthSnoc(fs[1..], f); assert (fs + [f])[1..] == fs[1..] + [f]; }
  }

  /** Field k of a written run starts at the sum of the widths before it. */
  lemma {:induction false} FieldOfImage(fs: seq<(nat, nat)>, k: nat)
    requires k < |fs|
    ensures Sum(fs, k) + fs[k].0 <= |Image(fs)|
    ensures FromLE(Image(fs)[Sum(fs, k)..Sum(fs, k) + fs[k].0]) == fs[k].1 % Pow256(fs[k].0)
    decreases k
  {
    if k == 0 {
      assert Image(fs)[0..fs[0].0] == ToLE(fs[0].1, fs[0].0);
      RoundTripLE(fs[0].1, fs[0].0);
    } else {
      FieldOfImage(fs[1..], k - 1);
      SumShift(fs, k);
      var off := Sum(fs[1..], k - 1);
      assert Image(fs)[Sum(fs, k)..Sum(fs, k) + fs[k].0] == Image(fs[1..])[off..off + fs[k].0];
    }
  }

  lemma {:induction false} SumShift(fs: seq<(nat, nat)>, k: nat)
    requires 0 < k <= |fs|
    ensures Sum(fs, k) == fs[0].0 + Sum(fs[1..], k - 1)
  {
    if k > 1 { SumShift(fs, k - 1); }
  }

  lemma {:induction false} ImageReadsBack(page: seq<Byte>, cfg: QueueConfig)
    requires |page| >= PAGE && InRange(cfg)
    requires page[..TABLES_OFF] == Image(Front(cfg)) && page[LOCK_OFF..QUEUE_SIZE] == Image(Back())
    ensures Initialised(page, cfg)
  {
    FrontReadsBack(page, cfg);
    BackReadsBack(page, cfg);
  }

  /** Field k of a run of fields sitting at `start` in the page. */
  lemma {:induction false} FieldOfPage(page: seq<Byte>, start: nat, fs: seq<(nat, nat)>, k: nat, off: nat, n: nat)
    requires start + Width(fs) <= |page| && page[start..start + Width(fs)] == Image(fs)
    requires k < |fs| && off == start + Sum(fs, k) && n == fs[k].0
    ensures off + n <= |page| && Field(page, off, n) == fs[k].1 % Pow256(n)
  {
    FieldOfImage(fs, k);
    SliceOfSlice(page, start, Width(fs), Sum(fs, k), n);
  }

  lemma {:induction false} SliceOfSlice(s: seq<Byte>, start: nat, w: nat, lo: nat, n: nat)
    requires start + w <= |s| && lo + n <= w
    ensures s[start..start + w][lo..lo + n] == s[start + lo..start + lo + n]
  {
    var a, b := s[start..start + w][lo..lo + n], s[start + lo..start + lo + n];
    assert forall i :: 0 <= i < n ==> a[i] == b[i];
  }

  lemma {:induction false} Powers()
    ensures Pow256(1) == 0x100 && Pow256(2) == U16 && Pow256(4) == U32
  {
    assert Pow256(1) == 256 * Pow256(0);
    assert Pow256(2) == 256 * Pow256(1);
    assert Pow256(3) == 256 * Pow256(2);
    assert Pow256(4) == 256 * Pow256(3);
  }

  lemma {:induction false} FrontOffsets(cfg: QueueConfig)
    ensures var fs := Front(cfg);
            && Sum(fs, 1) == 1 && Sum(fs, 2) == 2 && Sum(fs, 3) == 4 && Sum(fs, 4) == 6 && Sum(fs, 5) == 8
            && Sum(fs, 6) == 10 && Sum(fs, 7) == 12 && Sum(fs, 8) == 20 && Sum(fs, 9) == 28 && Sum(fs, 10) == 36
  {
    var fs := Front(cfg);
    assert Sum(fs, 1) == 1;
    assert Sum(fs, 2) == 2;
    assert Sum(fs, 3) == 4;
    assert Sum(fs, 4) == 6;
    assert Sum(fs, 5) == 8;
    assert Sum(fs, 6) == 10;
    assert Sum(fs, 7) == 12;
    assert Sum(fs, 8) == 20;
    assert Sum(fs, 9) == 28;
  }

  lemma {:induction false} BackOffsets()
    ensures var fs := Back();
            && Sum(fs, 1) == 4 && Sum(fs, 2) == 8 && Sum(fs, 3) == 12 && Sum(fs, 4) == 16
            && Sum(fs, 5) == 20 && Sum(fs, 6) == 24 && Sum(fs, 7) == 28 && Sum(fs, 8) == 32
  {
    var fs := Back();
    assert Sum(fs, 1) == 4;
    assert Sum(fs, 2) == 8;
    assert Sum(fs, 3) == 12;
    assert Sum(fs, 4) == 16;
    assert Sum(fs, 5) == 20;
    assert Sum(fs, 6) == 24;
    assert Sum(fs, 7) == 28;
  }

  lemma {:induction false} FrontReadsBack(page: seq<Byte>, cfg: QueueConfig)
    requires |page| >= PAGE && InRange(cfg) && page[..TABLES_OFF] == Image(Front(cfg))
    ensures Field(page, 0, 1) == cfg.mapMode % 256 && Field(page, 1, 1) == cfg.mapMode % 256
    ensures Field(page, HEADER_OFF, 2) == 0 && Field(page, TAIL_OFF, 2) == 0
    ensures Field(page, CAPACITY_OFF, 2) == cfg.capacity && Field(page, BLOCK_SIZE_OFF, 2) == cfg.blockSize
    ensures Field(page, PHY_ADDR_OFF, 8) == cfg.phyAddr && Field(page, VIRT_ADDR1_OFF, 8) == cfg.virtAddr
    ensures Field(page, VIRT_ADDR2_OFF, 8) == 0
  {
    var fs := Front(cfg);
    Widths(cfg);
    FrontOffsets(cfg);
    Powers();
    assert page[0..0 + Width(fs)] == Image(fs);
    FieldOfPage(page, 0, fs, 0, 0, 1);
    FieldOfPage(page, 0, fs, 1, 1, 1);
    FieldOfPage(page, 0, fs, 2, HEADER_OFF, 2);
    FieldOfPage(page, 0, fs, 3, TAIL_OFF, 2);
    FieldOfPage(page, 0, fs, 4, CAPACITY_OFF, 2);
    FieldOfPage(page, 0, fs, 5, BLOCK_SIZE_OFF, 2);
    FieldOfPage(page, 0, fs, 7, PHY_ADDR_OFF, 8);
    FieldOfPage(page, 0, fs, 8, VIRT_ADDR1_OFF, 8);
    FieldOfPage(page, 0, fs, 9, VIRT_ADDR2_OFF, 8);
    SmallMod(0, Pow256(8));
    SmallMod(cfg.phyAddr, Pow256(8));
    SmallMod(cfg.virtAddr, Pow256(8));
  }

  lemma {:induction false} BackReadsBack(page: seq<Byte>, cfg: QueueConfig)
    requires |page| >= PAGE && page[LOCK_OFF..QUEUE_SIZE] == Image(Back())
    ensures Field(page, LOCK_OFF, 4) == 0 && Field(page, LOCK_OFF + 4, 4) == 0
    ensures Field(page, LOCK_OFF + 8, 4) == 0 && Field(page, LOCK_OFF + 12, 4) == 0
    ensures Field(page, MAGIC_OFF, 4) == MAGIC && Field(page, VERSION_OFF, 4) == 1
    ensures Field(page, ENQUEUE_COUNT_OFF, 4) == 0 && Field(page, DEQUEUE_COUNT_OFF, 4) == 0
  {
    var fs := Back();
    Widths(cfg);
    BackOffsets();
    Powers();
    FieldOfPage(page, LOCK_OFF, fs, 0, LOCK_OFF, 4);
    FieldOfPage(page, LOCK_OFF, fs, 1, LOCK_OFF + 4, 4);
    FieldOfPage(page, LOCK_OFF, fs, 2, LOCK_OFF + 8, 4);
    FieldOfPage(page, LOCK_OFF, fs, 3, LOCK_OFF + 12, 4);
    FieldOfPage(page, LOCK_OFF, fs, 4, MAGIC_OFF, 4);
    FieldOfPage(page, LOCK_OFF, fs, 5, VERSION_OFF, 4);
    FieldOfPage(page, LOCK_OFF, fs, 6, ENQUEUE_COUNT_OFF, 4);
    FieldOfPage(page, LOCK_OFF, fs, 7, DEQUEUE_COUNT_OFF, 4);
  }

  // ----- Capacity of a channel -----

  /** hyperamp_linux_init: the quotient is cast to 16 bits before one is taken off. */
  function ChannelCapacity(dataSize: nat): nat {
    var quotient := (dataSize / DEFAULT_BLOCK) % U16;
    var maxCapacity := if quotient > 0 then quotient - 1 else 0;
    if DEFAULT_CAPACITY > maxCapacity then maxCapacity else DEFAULT_CAPACITY
  }

  /** For every region size, a queue that initialisation accepts with the computed
      capacity keeps every slot inside the region, truncating cast included; and
      it is accepted exactly when the truncated quotient is at least two. */
  lemma {:induction false} ChannelFits(dataSize: nat, i: nat)
    ensures var c := Config(ChannelCapacity(dataSize), DEFAULT_BLOCK);
            && (c.capacity > 0 <==> (dataSize / DEFAULT_BLOCK) % U16 >= 2)
            && (c.capacity > 0 ==> ValidConfig(c) && (c.capacity + 1) * c.blockSize <= dataSize)
            && (i < c.capacity ==> SlotBase(c, i) + c.blockSize <= dataSize)
            && c.capacity <= 256 && (c.capacity < 256 ==> (dataSize / DEFAULT_BLOCK) % U16 <= c.capacity + 1)
  {
    var c := Config(ChannelCapacity(dataSize), DEFAULT_BLOCK);
    if i < c.capacity { SlotFits(c, i); }
  }
}
