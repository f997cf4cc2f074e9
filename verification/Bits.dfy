/** Powers of two, right shift and bitwise and on natural numbers. */
module Bits {

  import opened Arith

  function Pow2(k: nat): (p: nat)
    ensures p > 0
  {
    if k == 0 then 1 else 2 * Pow2(k - 1)
  }

  /** x >> k. */
  function Shr(x: nat, k: nat): int {
    x / Pow2(k)
  }

  /** x & y, bit by bit. */
  function And(x: nat, y: nat): nat
    decreases x
  {
    if x == 0 || y == 0 then 0
    else 2 * And(x / 2, y / 2) + (if x % 2 == 1 && y % 2 == 1 then 1 else 0)
  }

  lemma {:induction false} HalfMod(x: nat, p: nat)
    requires p > 0
    ensures x % (2 * p) == 2 * ((x / 2) % p) + x % 2
  {
    SplitMod(x, 2, p);
  }

  /** Masking with 2^k - 1 is the remainder modulo 2^k. */
  lemma {:induction false} MaskIsMod(x: nat, k: nat)
    ensures And(x, Pow2(k) - 1) == x % Pow2(k)
    decreases k
  {
    if k > 0 {
      MaskIsMod(x / 2, k - 1);
      WiderMask(x, Pow2(k - 1));
    }
  }

  lemma {:induction false} WiderMask(x: nat, p: nat)
    requires p > 0 && And(x / 2, p - 1) == (x / 2) % p
    ensures And(x, 2 * p - 1) == x % (2 * p)
  {
    HalfMod(x, p);
    AndLow(x, p - 1);
  }

  /** Adding a low one to a mask lets one more bit through. */
  lemma {:induction false} AndLow(x: nat, m: nat)
    ensures And(x, 2 * m + 1) == 2 * And(x / 2, m) + x % 2
  {
    assert (2 * m + 1) / 2 == m && (2 * m + 1) % 2 == 1;
  }

  /** h modulo n by repeated subtraction. */
  function Slot(h: nat, n: nat): (r: nat)
    requires n > 0
    ensures r < n
    decreases h
  {
    if h < n then h else Slot(h - n, n)
  }

  lemma {:induction false} SlotIsMod(h: nat, n: nat)
    requires n > 0
    ensures Slot(h, n) == h % n
    decreases h
  {
    if h < n {
      SmallMod(h, n);
    } else {
      SlotIsMod(h - n, n);
      AddMod(h - n, n);
    }
  }

  /** HASH_TO_BKT picks the slot, as long as the number of buckets is a power of two. */
  lemma {:induction false} MaskIsSlot(h: nat, k: nat)
    ensures And(h, Pow2(k) - 1) == Slot(h, Pow2(k))
  {
    MaskIsMod(h, k);
    SlotIsMod(h, Pow2(k));
  }

  /** The number of groups of n that x items need. */
  function CeilDiv(x: nat, n: nat): (c: nat)
    requires n > 0
    ensures x > 0 ==> c > 0
    decreases x
  {
    if x == 0 then 0 else if x <= n then 1 else 1 + CeilDiv(x - n, n)
  }

  lemma {:induction false} CeilDivBounds(x: nat, n: nat)
    requires n > 0
    ensures var c := CeilDiv(x, n); (c - 1) * n < x || x == 0
    ensures x <= CeilDiv(x, n) * n
    decreases x
  {
    if x > n {
      CeilDivBounds(x - n, n);
      var c := CeilDiv(x - n, n);
      assert (c + 1) * n == c * n + n && c * n == (c - 1) * n + n;
    }
  }

  lemma {:induction false} CeilDivIs(x: nat, n: nat)
    requires n > 0
    ensures CeilDiv(x, n) == x / n + (if x % n != 0 then 1 else 0)
    decreases x
  {
    if x < n {
      DivModUnique(x, n, 0, x);
    } else {
      CeilDivIs(x - n, n);
      var q, r := (x - n) / n, (x - n) % n;
      assert (q + 1) * n == q * n + n;
      DivModUnique(x, n, q + 1, r);
      if x == n { DivModUnique(0, n, 0, 0); }
    }
  }

  /** The shift-and-mask form of the ceiling of x / 2^k. */
  lemma {:induction false} CeilByShift(x: nat, k: nat)
    ensures Shr(x, k) + (if And(x, Pow2(k) - 1) != 0 then 1 else 0) == CeilDiv(x, Pow2(k))
  {
    MaskIsMod(x, k);
    CeilDivIs(x, Pow2(k));
  }
}
