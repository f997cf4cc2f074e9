/** Buckets of a uthash table and the redistribution done by HASH_EXPAND_BUCKETS. */
module HashBuckets {

  import opened Bits
  import opened HashElem

  datatype Bucket = Bucket(hhHead: Elem?, count: nat, expandMult: nat)

  const EmptyBucket: Bucket := Bucket(null, 0, 0)

  /** Bucket order, head pointer and count of one bucket, as HASH_FSCK checks them. */
  ghost predicate BucketOk(bk: Bucket, ch: seq<Elem>)
    reads (set e | e in ch)`hhNext, (set e | e in ch)`hhPrev
  {
    Chained(ch) && bk.hhHead == Ptr(ch, 0) && bk.count == |ch|
  }

  /** The elements of `all`, and nothing else, each in the chain its hash selects. */
  ghost predicate Placed(chains: seq<seq<Elem>>, all: set<Elem>)
    reads all`hashv
  {
    && |chains| > 0
    && (forall b, e :: 0 <= b < |chains| && e in chains[b] ==> e in all && Slot(e.hashv, |chains|) == b)
    && (forall e :: e in all ==> e in chains[Slot(e.hashv, |chains|)])
  }

  /** A whole bucket array holding exactly the elements of `all`. */
  ghost predicate BucketsOk(bs: seq<Bucket>, chains: seq<seq<Elem>>, all: set<Elem>)
    reads all`hashv, all`hhNext, all`hhPrev
  {
    && |bs| == |chains| && Placed(chains, all)
    && forall b :: 0 <= b < |bs| ==> BucketOk(bs[b], chains[b])
  }

  ghost function CountSum(bs: seq<Bucket>, n: nat): nat
    requires n <= |bs|
  {
    if n == 0 then 0 else CountSum(bs, n - 1) + bs[n - 1].count
  }

  ghost function Members(s: seq<Elem>): set<Elem> {
    set e | e in s
  }

  ghost function InChains(chains: seq<seq<Elem>>, n: nat): set<Elem>
    requires n <= |chains|
  {
    if n == 0 then {} else InChains(chains, n - 1) + Members(chains[n - 1])
  }

  /** A sequence without repetition has as many members as positions. */
  lemma {:induction false} DistinctSize(s: seq<Elem>)
    requires Distinct(s)
    ensures |Members(s)| == |s|
  {
    if s != [] {
      var last := |s| - 1;
      DistinctSize(s[..last]);
      assert Members(s) == Members(s[..last]) + {s[last]};
    }
  }

  lemma {:induction false} InChainsIff(chains: seq<seq<Elem>>, all: set<Elem>, n: nat)
    requires Placed(chains, all) && n <= |chains|
    ensures InChains(chains, n) <= all
    ensures forall e :: e in all ==> (e in InChains(chains, n) <==> Slot(e.hashv, |chains|) < n)
  {
    if n > 0 {
      InChainsIff(chains, all, n - 1);
      forall e | e in all && Slot(e.hashv, |chains|) == n - 1 ensures e in chains[n - 1] {
        assert e in chains[Slot(e.hashv, |chains|)];
      }
    }
  }

  lemma {:induction false} NextChainIsNew(chains: seq<seq<Elem>>, all: set<Elem>, n: nat)
    requires Placed(chains, all) && 0 < n <= |chains|
    ensures InChains(chains, n - 1) !! Members(chains[n - 1])
  {
    InChainsIff(chains, all, n - 1);
    var here, before := Members(chains[n - 1]), InChains(chains, n - 1);
    forall e | e in here ensures e !in before {
      assert e in chains[n - 1];
    }
  }

  lemma {:induction false} ChainSizes(bs: seq<Bucket>, chains: seq<seq<Elem>>, all: set<Elem>, n: nat)
    requires BucketsOk(bs, chains, all) && n <= |bs|
    ensures |InChains(chains, n)| == CountSum(bs, n)
  {
    if n > 0 {
      ChainSizes(bs, chains, all, n - 1);
      NextChainIsNew(chains, all, n);
      assert BucketOk(bs[n - 1], chains[n - 1]);
      DistinctSize(chains[n - 1]);
    }
  }

  /** The bucket counts add up to the number of elements. */
  lemma {:induction false} CountsAddUp(bs: seq<Bucket>, chains: seq<seq<Elem>>, all: set<Elem>)
    requires BucketsOk(bs, chains, all)
    ensures CountSum(bs, |bs|) == |all|
  {
    ChainSizes(bs, chains, all, |bs|);
    InChainsIff(chains, all, |bs|);
    forall e | e in all ensures e in InChains(chains, |bs|) {
      assert Slot(e.hashv, |chains|) < |bs|;
    }
    assert InChains(chains, |bs|) == all;
  }

  /** How far the buckets exceed the ideal chain length. */
  ghost function Excess(bs: seq<Bucket>, ideal: nat): nat {
    if bs == [] then 0
    else (if bs[0].count > ideal then bs[0].count - ideal else 0) + Excess(bs[1..], ideal)
  }

  /** expand_mult of a bucket after redistribution. */
  ghost predicate MultOk(bk: Bucket, ideal: nat) {
    && (bk.count <= ideal ==> bk.expandMult == 0)
    && (bk.count > ideal ==> (bk.expandMult - 1) * ideal < bk.count <= bk.expandMult * ideal + 1)
  }

  lemma {:induction false} ExcessUpdate(bs: seq<Bucket>, b: nat, bk: Bucket, ideal: nat)
    requires b < |bs| && bk.count == bs[b].count + 1
    ensures Excess(bs[b := bk], ideal) == Excess(bs, ideal) + if bk.count > ideal then 1 else 0
  {
    if b > 0 {
      ExcessUpdate(bs[1..], b - 1, bk, ideal);
      assert bs[b := bk][1..] == bs[1..][b - 1 := bk];
    } else {
      assert bs[b := bk][1..] == bs[1..];
    }
  }

  /** The counters one moved element changes: `++count > ideal` and the rest. */
  function Grow(bk: Bucket, ideal: nat): Bucket {
    var count := bk.count + 1;
    var mult := if count > ideal && count > bk.expandMult * ideal then bk.expandMult + 1 else bk.expandMult;
    Bucket(bk.hhHead, count, mult)
  }

  lemma {:induction false} GrowKeepsMult(bk: Bucket, ideal: nat)
    requires MultOk(bk, ideal) && ideal > 0
    ensures MultOk(Grow(bk, ideal), ideal)
  {
    var m := bk.expandMult;
    assert (m - 1) * ideal == m * ideal - ideal && (m + 1) * ideal == m * ideal + ideal;
  }

  // ----- Single-bucket changes inside a table -----

  lemma {:induction false} InsertPlaced(chains: seq<seq<Elem>>, all: set<Elem>, e: Elem, b: nat)
    requires Placed(chains, all) && b == Slot(e.hashv, |chains|)
    ensures Placed(chains[b := [e] + chains[b]], all + {e})
  {
    var chains' := chains[b := [e] + chains[b]];
    forall c, x | 0 <= c < |chains'| && x in chains'[c] ensures x in all + {e} && Slot(x.hashv, |chains'|) == c {
      assert x == e || x in chains[c];
    }
    forall x | x in all + {e} ensures x in chains'[Slot(x.hashv, |chains'|)] {
      if x != e { assert x in chains[Slot(x.hashv, |chains|)]; }
    }
  }

  /** Put e in front of chain b. */
  method Insert(e: Elem, bs: seq<Bucket>, b: nat, bk: Bucket, ghost chains: seq<seq<Elem>>, ghost all: set<Elem>)
    returns (bs': seq<Bucket>, ghost chains': seq<seq<Elem>>)
    requires BucketsOk(bs, chains, all) && e !in all
    requires b < |bs| && b == Slot(e.hashv, |bs|)
    requires bk.hhHead == bs[b].hhHead && bk.count == bs[b].count + 1
    modifies e`hhNext, e`hhPrev, all`hhPrev
    ensures BucketsOk(bs', chains', all + {e})
    ensures bs' == bs[b := bk.(hhHead := e)] && chains' == chains[b := [e] + chains[b]]
  {
    assert BucketOk(bs[b], chains[b]);
    var h := bs[b].hhHead;
    assert h != null ==> h in chains[b];
    ghost var ch' := PushFront(e, h, chains[b]);
    forall c | 0 <= c < |bs| && c != b ensures BucketOk(bs[c], chains[c]) {
      assert old(BucketOk(bs[c], chains[c]));
      forall x | x in chains[c] ensures x != e && x != h {
        assert Slot(x.hashv, |chains|) == c;
      }
    }
    bs' := bs[b := bk.(hhHead := e)];
    chains' := chains[b := ch'];
    InsertPlaced(chains, all, e, b);
  }

  lemma {:induction false} RemovePlaced(chains: seq<seq<Elem>>, all: set<Elem>, e: Elem, b: nat, i: nat)
    requires Placed(chains, all) && b < |chains| && i < |chains[b]| && chains[b][i] == e && Distinct(chains[b])
    ensures Placed(chains[b := Without(chains[b], i)], all - {e})
  {
    var ch, chains' := chains[b], chains[b := Without(chains[b], i)];
    forall c, x | 0 <= c < |chains'| && x in chains'[c] ensures x in all - {e} && Slot(x.hashv, |chains'|) == c {
      if c == b {
        var k :| 0 <= k < |chains'[b]| && chains'[b][k] == x;
        assert x == ch[if k < i then k else k + 1];
      } else {
        assert Slot(x.hashv, |chains|) == c && e in chains[b];
      }
    }
    forall x | x in all - {e} ensures x in chains'[Slot(x.hashv, |chains'|)] {
      if Slot(x.hashv, |chains|) == b {
        assert x in ch;
        var k :| 0 <= k < |ch| && ch[k] == x;
        assert Without(ch, i)[if k < i then k else k - 1] == x;
      }
    }
  }

  /** Take e, the i-th element of chain b, out of its bucket. */
  method Remove(e: Elem, bs: seq<Bucket>, b: nat, ghost chains: seq<seq<Elem>>, ghost all: set<Elem>, ghost i: nat)
    returns (bs': seq<Bucket>, ghost chains': seq<seq<Elem>>)
    requires BucketsOk(bs, chains, all)
    requires b < |bs| && i < |chains[b]| && chains[b][i] == e
    modifies all`hhNext, all`hhPrev
    ensures BucketsOk(bs', chains', all - {e})
    ensures chains' == chains[b := Without(chains[b], i)] && |bs'| == |bs|
  {
    assert BucketOk(bs[b], chains[b]);
    RemovePlaced(chains, all, e, b, i);
    var h', ch' := UnlinkBucket(e, bs[b].hhHead, chains[b], i);
    forall c | 0 <= c < |bs| && c != b ensures BucketOk(bs[c], chains[c]) {
      assert old(BucketOk(bs[c], chains[c]));
      forall x | x in chains[c] ensures x !in chains[b] {
        assert Slot(x.hashv, |chains|) == c;
      }
    }
    bs' := bs[b := bs[b].(hhHead := h', count := bs[b].count - 1)];
    chains' := chains[b := ch'];
  }

  /** Take e out of its bucket. */
  method RemoveFrom(e: Elem, bs: seq<Bucket>, b: nat, ghost chains: seq<seq<Elem>>, ghost all: set<Elem>)
    returns (bs': seq<Bucket>, ghost chains': seq<seq<Elem>>)
    requires BucketsOk(bs, chains, all) && e in all && b == Slot(e.hashv, |bs|)
    modifies all`hhNext, all`hhPrev
    ensures BucketsOk(bs', chains', all - {e}) && |bs'| == |bs|
  {
    assert e in chains[b];
    ghost var i :| 0 <= i < |chains[b]| && chains[b][i] == e;
    bs', chains' := Remove(e, bs, b, chains, all, i);
  }

  // ----- Redistribution -----

  /** The new table so far: the moved elements, correctly bucketed and measured. */
  ghost predicate Moved(nbs: seq<Bucket>, nchains: seq<seq<Elem>>, moved: set<Elem>, ideal: nat, nonideal: nat)
    reads moved`hashv, moved`hhNext, moved`hhPrev
  {
    && BucketsOk(nbs, nchains, moved)
    && (forall b :: 0 <= b < |nbs| ==> MultOk(nbs[b], ideal))
    && nonideal == Excess(nbs, ideal)
  }

  /** Move one element into the new buckets. */
  method MoveOne(e: Elem, nbs: seq<Bucket>, ideal: nat, nonideal: nat, k: nat,
                 ghost nchains: seq<seq<Elem>>, ghost moved: set<Elem>)
    returns (nbs': seq<Bucket>, nonideal': nat, ghost nchains': seq<seq<Elem>>)
    requires Moved(nbs, nchains, moved, ideal, nonideal) && ideal > 0 && e !in moved && |nbs| == Pow2(k)
    modifies e`hhNext, e`hhPrev, moved`hhPrev
    ensures Moved(nbs', nchains', moved + {e}, ideal, nonideal') && |nbs'| == |nbs|
  {
    MaskIsSlot(e.hashv, k);
    var b := And(e.hashv, |nbs| - 1);
    var bk := Grow(nbs[b], ideal);
    nonideal' := if bk.count > ideal then nonideal + 1 else nonideal;
    GrowKeepsMult(nbs[b], ideal);
    ExcessUpdate(nbs, b, bk.(hhHead := e), ideal);
    nbs', nchains' := Insert(e, nbs, b, bk, nchains, moved);
  }

  /** The inner loop: everything on one old chain moves. */
  method MoveChain(h: Elem?, nbs0: seq<Bucket>, ideal: nat, nonideal0: nat, k: nat,
                   ghost ch: seq<Elem>, ghost nchains0: seq<seq<Elem>>,
                   ghost moved0: set<Elem>, ghost touched: set<Elem>)
    returns (nbs: seq<Bucket>, nonideal: nat, ghost nchains: seq<seq<Elem>>, ghost moved: set<Elem>)
    requires Moved(nbs0, nchains0, moved0, ideal, nonideal0) && ideal > 0 && |nbs0| == Pow2(k)
    requires Chained(ch) && h == Ptr(ch, 0) && forall e :: e in ch ==> e !in moved0
    requires forall e :: e in touched <==> e in moved0 || e in ch
    modifies touched`hhNext, touched`hhPrev
    ensures Moved(nbs, nchains, moved, ideal, nonideal) && |nbs| == |nbs0|
    ensures moved == touched
  {
    var thh := h;
    nbs, nonideal, nchains, moved := nbs0, nonideal0, nchains0, moved0;
    ghost var j := 0;
    while thh != null
      invariant 0 <= j <= |ch| && thh == Ptr(ch, j)
      invariant |nbs| == |nbs0|
      invariant Moved(nbs, nchains, moved, ideal, nonideal)
      invariant moved0 <= moved <= touched
      invariant forall i :: 0 <= i < j ==> ch[i] in moved
      invariant forall i {:trigger ch[i].hhNext} :: j <= i < |ch| ==> ch[i].hhNext == Ptr(ch, i + 1)
      invariant forall i :: j <= i < |ch| ==> ch[i] !in moved
      decreases |ch| - j
    {
      var next := thh.hhNext;
      nbs, nonideal, nchains := MoveOne(thh, nbs, ideal, nonideal, k, nchains, moved);
      moved := moved + {thh};
      thh, j := next, j + 1;
    }
  }

  lemma {:induction false} ExcessOfEmpty(bs: seq<Bucket>, ideal: nat)
    requires forall b :: 0 <= b < |bs| ==> bs[b].count == 0
    ensures Excess(bs, ideal) == 0
  {
    if bs != [] { ExcessOfEmpty(bs[1..], ideal); }
  }

  /** uthash_bzero of a bucket array. */
  method ZeroBuckets(n: nat, ghost ideal: nat) returns (bs: seq<Bucket>, ghost chains: seq<seq<Elem>>)
    requires n > 0
    ensures |bs| == n && Moved(bs, chains, {}, ideal, 0)
    ensures forall b :: 0 <= b < n ==> bs[b] == EmptyBucket && chains[b] == []
  {
    bs := seq(n, _ => EmptyBucket);
    chains := seq(n, _ => []);
    ExcessOfEmpty(bs, ideal);
  }

  /** Exactly the chains below i have been moved. */
  ghost predicate SplitAt(chains: seq<seq<Elem>>, i: nat, moved: set<Elem>) {
    && (forall c, e :: 0 <= c < |chains| && c < i && e in chains[c] ==> e in moved)
    && (forall c, e :: i <= c < |chains| && e in chains[c] ==> e !in moved)
  }

  lemma {:induction false} SplitNext(chains: seq<seq<Elem>>, all: set<Elem>, i: nat, before: set<Elem>,
                                     moved: set<Elem>)
    requires Placed(chains, all) && i < |chains| && before <= all && SplitAt(chains, i, before)
    requires forall e :: e in moved <==> e in before || e in chains[i]
    ensures SplitAt(chains, i + 1, moved) && moved <= all
  {
    forall c, e | i < c < |chains| && e in chains[c] ensures e !in moved {
      assert Slot(e.hashv, |chains|) == c;
    }
  }

  lemma {:induction false} SplitEnd(chains: seq<seq<Elem>>, all: set<Elem>, moved: set<Elem>)
    requires Placed(chains, all) && moved <= all && SplitAt(chains, |chains|, moved)
    ensures moved == all
  {
    forall e | e in all ensures e in moved {
      assert e in chains[Slot(e.hashv, |chains|)];
    }
  }

  /** The outer loop of HASH_EXPAND_BUCKETS: every element of every old chain moves
      to the bucket its hash selects among 2^k; the excess over `ideal` is counted
      and each crowded bucket gets its multiplier. */
  method Redistribute(bs: seq<Bucket>, ideal: nat, k: nat, ghost chains: seq<seq<Elem>>, ghost all: set<Elem>)
    returns (nbs: seq<Bucket>, nonideal: nat, ghost nchains: seq<seq<Elem>>)
    requires BucketsOk(bs, chains, all) && ideal > 0
    modifies all`hhNext, all`hhPrev
    ensures |nbs| == Pow2(k) && Moved(nbs, nchains, all, ideal, nonideal)
  {
    nbs, nchains := ZeroBuckets(Pow2(k), ideal);
    nonideal := 0;
    ghost var moved: set<Elem> := {};
    var i := 0;
    while i < |bs|
      invariant 0 <= i <= |bs| && |nbs| == Pow2(k)
      invariant Moved(nbs, nchains, moved, ideal, nonideal)
      invariant moved <= all && SplitAt(chains, i, moved)
      invariant forall c :: i <= c < |bs| ==> BucketOk(bs[c], chains[c])
    {
      assert BucketOk(bs[i], chains[i]);
      ghost var touched := moved + set e | e in chains[i];
      SplitNext(chains, all, i, moved, touched);
      nbs, nonideal, nchains, moved :=
        MoveChain(bs[i].hhHead, nbs, ideal, nonideal, k, chains[i], nchains, moved, touched);
      i := i + 1;
    }
    SplitEnd(chains, all, moved);
  }
}
