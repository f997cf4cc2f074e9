/** The few facts about multiplication and remainder that the models rely on. */
module Arith {

  lemma {:induction false} BlocksApart(x: nat, y: nat, n: nat)
    requires x < y
    ensures x * n + n <= y * n
  {
    var k := y - x - 1;
    ThreeParts(x, 1, k, n);
    NonNegative(k, n);
  }

  lemma {:induction false} ThreeParts(x: int, y: int, z: int, n: int)
    ensures (x + y + z) * n == x * n + y * n + z * n
  {
  }

  lemma {:induction false} NonNegative(k: nat, n: nat)
    ensures k * n >= 0
  {
  }

  lemma {:induction false} SmallMod(x: nat, n: nat)
    requires x < n
    ensures x % n == x
  {
  }

  lemma {:induction false} AtLeastOnce(k: int, n: int)
    requires k >= 1 && n > 0
    ensures k * n >= n
  {
    assert k * n == (k - 1) * n + n;
  }

  lemma {:induction false} DivModUnique(x: int, n: int, q: int, r: int)
    requires n > 0 && x == q * n + r && 0 <= r < n
    ensures x / n == q && x % n == r
  {
    var q', r' := x / n, x % n;
    assert x == q' * n + r';
    assert (q - q') * n == r' - r by { assert (q - q') * n == q * n - q' * n; }
    if q > q' { AtLeastOnce(q - q', n); }
    if q < q' { AtLeastOnce(q' - q, n); }
  }

  lemma {:induction false} AddMod(x: int, n: nat)
    requires n > 0
    ensures (x + n) % n == x % n
  {
    var q, r := x / n, x % n;
    assert x + n == (q + 1) * n + r;
    DivModUnique(x + n, n, q + 1, r);
  }

  /** Dividing in two steps: quotients compose, and the remainders are the digits of one. */
  lemma {:induction false} SplitMod(x: nat, d: nat, p: nat)
    requires d > 0 && p > 0
    ensures d * p > 0 && x / (d * p) == (x / d) / p && x % (d * p) == d * ((x / d) % p) + x % d
  {
    var h, low := x / d, x % d;
    var q, r := h / p, h % p;
    var whole := d * p;
    Regroup(q, p, d, r, low);
    BlocksApart(r, p, d);
    DivModUnique(x, whole, q, d * r + low);
  }

  lemma {:induction false} Regroup(q: int, p: int, d: int, r: int, low: int)
    ensures (q * p + r) * d + low == q * (d * p) + (d * r + low)
  {
    ThreeParts(q * p, r, 0, d);
  }
}
