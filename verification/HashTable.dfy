/** A uthash table: find, add, delete, bucket doubling and sort, refining an
    insertion-ordered map from keys to elements. */
module HashTable {

  import opened Bits
  import opened HashBuckets
  import opened HashElem
  import opened HashSort
  import opened MergeSortSpec

  const INITIAL_BUCKETS: nat := 32
  const INITIAL_LOG2: nat := 5
  const CAPACITY_THRESH: nat := 10

  /** No two elements of `s` share a key. */
  ghost predicate KeysDistinct(s: seq<Elem>) {
    forall x, y {:trigger x.key, y.key} :: x in s && y in s && x != y ==> x.key != y.key
  }

  lemma {:induction false} KeysStay(s: seq<Elem>, r: seq<Elem>)
    requires KeysDistinct(s) && forall x :: x in r ==> x in s
    ensures KeysDistinct(r)
  {
  }

  lemma {:induction false} WithoutMembers(s: seq<Elem>, i: nat)
    requires i < |s| && Distinct(s)
    ensures forall x :: x in s && x != s[i] ==> x in Without(s, i)
    ensures forall x :: x in Without(s, i) ==> x in s && x != s[i]
  {
    var r := Without(s, i);
    assert forall k :: 0 <= k < |r| ==> r[k] == s[if k < i then k else k + 1];
    forall x | x in s && x != s[i] ensures x in r {
      var k :| 0 <= k < |s| && s[k] == x;
      assert r[if k < i then k else k - 1] == x;
    }
  }

  lemma {:induction false} PassesMembers(cmp: Cmp<Elem>, s: seq<Elem>)
    ensures |Passes(cmp, s, 1)| == |s|
    ensures forall x :: x in s ==> x in Passes(cmp, s, 1)
    ensures forall x :: x in Passes(cmp, s, 1) ==> x in s
  {
    var r := Passes(cmp, s, 1);
    PassesElements(cmp, s, 1);
    forall x | x in s ensures x in r { SameMembers(s, r, x); }
    forall x | x in r ensures x in s { SameMembers(s, r, x); }
  }

  /** For a total preorder, `r` is the sorted stable permutation of `s`. */
  ghost predicate SortsStably(cmp: Cmp<Elem>, s: seq<Elem>, r: seq<Elem>) {
    Preorder(cmp, s) ==> Sorted(cmp, r) && StablePermutation(cmp, s, r)
  }

  lemma {:induction false} StableIfPreorder(cmp: Cmp<Elem>, s: seq<Elem>)
    ensures SortsStably(cmp, s, Passes(cmp, s, 1))
  {
    if Preorder(cmp, s) { MergeSortIsStable(cmp, s); }
  }

  /** Everything about the sorted order that does not depend on the heap. */
  lemma {:induction false} SortedOrder(cmp: Cmp<Elem>, s: seq<Elem>)
    requires KeysDistinct(s)
    ensures var r := Passes(cmp, s, 1);
            |r| == |s| && SortsStably(cmp, s, r) && KeysDistinct(r) && MapOf(r) == MapOf(s)
  {
    StableIfPreorder(cmp, s);
    PassesMembers(cmp, s);
    MapSame(s, Passes(cmp, s, 1));
  }

  // ----- The map that a table stands for -----

  /** Keys to elements. */
  ghost function MapOf(s: seq<Elem>): map<Key, Elem>
    requires KeysDistinct(s)
  {
    map e | e in s :: e.key := e
  }

  lemma {:induction false} MapAppend(s: seq<Elem>, e: Elem)
    requires KeysDistinct(s + [e]) && e !in s
    ensures KeysDistinct(s) && MapOf(s + [e]) == MapOf(s)[e.key := e]
  {
    assert KeysDistinct(s) by { assert forall x :: x in s ==> x in s + [e]; }
    assert forall x :: x in s + [e] <==> x in s || x == e;
  }

  lemma {:induction false} MapRemove(s: seq<Elem>, r: seq<Elem>, e: Elem)
    requires KeysDistinct(s) && e in s && (forall x :: x in r <==> x in s && x != e)
    ensures KeysDistinct(r) && MapOf(r) == MapOf(s) - {e.key}
  {
  }

  lemma {:induction false} MapWithout(s: seq<Elem>, i: nat)
    requires KeysDistinct(s) && Distinct(s) && i < |s|
    ensures KeysDistinct(Without(s, i)) && MapOf(Without(s, i)) == MapOf(s) - {s[i].key}
  {
    WithoutMembers(s, i);
    MapRemove(s, Without(s, i), s[i]);
  }

  lemma {:induction false} MapSame(s: seq<Elem>, r: seq<Elem>)
    requires KeysDistinct(s) && (forall x :: x in r <==> x in s)
    ensures KeysDistinct(r) && MapOf(r) == MapOf(s)
  {
  }

  /** ideal_chain_maxlen by shift and mask, for n = 2^k buckets. */
  method IdealLength(items: nat, n: nat, k: nat) returns (ideal: nat)
    requires n == Pow2(k) && items > 0
    ensures ideal == CeilDiv(items, n) > 0
  {
    CeilByShift(items, k);
    ideal := Shr(items, k) + if And(items, n - 1) != 0 then 1 else 0;
  }

  /** The bookkeeping of UT_hash_table (its tail pointer is kept with the head). */
  datatype Tbl = Tbl(
    buckets: seq<Bucket>, numBuckets: nat, log2NumBuckets: nat, numItems: nat,
    idealChainMaxlen: nat, nonidealItems: nat, ineffExpands: nat, noexpand: bool)

  /** A power of two of buckets, holding exactly the elements of `all`. */
  ghost predicate TblOk(t: Tbl, chains: seq<seq<Elem>>, all: set<Elem>)
    reads all`hashv, all`hhNext, all`hhPrev
  {
    && t.numBuckets == |t.buckets| == Pow2(t.log2NumBuckets)
    && BucketsOk(t.buckets, chains, all)
  }

  /** HASH_MAKE_TABLE: a zeroed table with 32 empty buckets. */
  method MakeTable() returns (t: Tbl, ghost chains: seq<seq<Elem>>)
    ensures TblOk(t, chains, {}) && t.numItems == 0 && !t.noexpand && t.numBuckets == 32
  {
    assert Pow2(5) == 32 by { assert Pow2(2) == 4; assert Pow2(4) == 16; }
    var bs;
    bs, chains := ZeroBuckets(INITIAL_BUCKETS, 0);
    t := Tbl(bs, INITIAL_BUCKETS, INITIAL_LOG2, 0, 0, 0, 0, false);
  }

  /** HASH_EXPAND_BUCKETS: twice as many buckets, the same elements; the ideal chain
      length is the ceiling of items over new buckets, the non-ideal items are the
      total excess over it, and every crowded bucket's multiplier brackets its length. */
  method Expand(t: Tbl, ghost chains: seq<seq<Elem>>, ghost all: set<Elem>)
    returns (t': Tbl, ghost chains': seq<seq<Elem>>)
    requires TblOk(t, chains, all) && t.numItems > 0
    modifies all`hhNext, all`hhPrev
    ensures TblOk(t', chains', all) && t'.numBuckets == 2 * t.numBuckets && t'.numItems == t.numItems
    ensures t'.idealChainMaxlen == CeilDiv(t.numItems, t'.numBuckets)
    ensures t'.nonidealItems == Excess(t'.buckets, t'.idealChainMaxlen)
    ensures forall b :: 0 <= b < t'.numBuckets ==> MultOk(t'.buckets[b], t'.idealChainMaxlen)
    ensures t'.ineffExpands == if t'.nonidealItems > t.numItems / 2 then t.ineffExpands + 1 else 0
    ensures t'.noexpand == (t.noexpand || (t'.nonidealItems > t.numItems / 2 && t.ineffExpands > 0))
  {
    var k, n := t.log2NumBuckets + 1, t.numBuckets * 2;
    var ideal := IdealLength(t.numItems, n, k);
    var bs, nonideal;
    bs, nonideal, chains' := Redistribute(t.buckets, ideal, k, chains, all);
    var ineff := if nonideal > t.numItems / 2 then t.ineffExpands + 1 else 0;
    t' := Tbl(bs, n, k, t.numItems, ideal, nonideal, ineff, t.noexpand || ineff > 1);
  }

  /** HASH_ADD_TO_TABLE: bucket the element and double the buckets when its bucket
      has grown too long. */
  method AddToTable(t: Tbl, e: Elem, ghost chains: seq<seq<Elem>>, ghost all: set<Elem>, ghost all': set<Elem>)
    returns (t': Tbl, ghost chains': seq<seq<Elem>>)
    requires TblOk(t, chains, all) && e !in all && all' == all + {e}
    modifies all'`hhNext, all'`hhPrev
    ensures TblOk(t', chains', all') && t'.numItems == t.numItems + 1
    ensures var bk := t.buckets[Slot(e.hashv, t.numBuckets)];
            t'.numBuckets
            == if bk.count + 1 >= 10 * (bk.expandMult + 1) && !t.noexpand then 2 * t.numBuckets else t.numBuckets
  {
    MaskIsSlot(e.hashv, t.log2NumBuckets);
    var b := And(e.hashv, t.numBuckets - 1);
    var bk := t.buckets[b].(count := t.buckets[b].count + 1);
    var bs;
    bs, chains' := Insert(e, t.buckets, b, bk, chains, all);
    t' := t.(numItems := t.numItems + 1, buckets := bs);
    if bk.count >= (bk.expandMult + 1) * CAPACITY_THRESH && !t.noexpand {
      t', chains' := Expand(t', chains', all');
    }
  }

  /** The user's head pointer and its table.  `head == null` means that there is none. */
  class Table {
    const hash: Key -> nat
    var head: Elem?
    var tail: Elem?
    var tbl: Tbl

    /** Application order, and the elements of each bucket in bucket order. */
    ghost var order: seq<Elem>
    ghost var chains: seq<seq<Elem>>
    ghost var elems: set<Elem>

    ghost predicate ListOk()
      reads this`head, this`tail, this`order, this`elems, elems`next, elems`prev
    {
      && (forall e :: e in elems ==> e in order)
      && (forall i :: 0 <= i < |order| ==> order[i] in elems)
      && if order == [] then head == null
      else Linked(order) && head == order[0] && tail == order[|order| - 1]
    }

    ghost predicate HashesOk()
      reads this`elems, elems`hashv
    {
      forall e {:trigger e.hashv} :: e in elems ==> e.hashv == hash(e.key)
    }

    /** What HASH_FSCK checks, and that lookups need. */
    ghost predicate Valid()
      reads this, elems
    {
      && ListOk()
      && KeysDistinct(order)
      && (order != [] ==> TblOk(tbl, chains, elems) && HashesOk() && tbl.numItems == |order|)
    }

    /** num_items is the number of elements and the sum of the bucket counts. */
    lemma {:induction false} ItemsAreCounted()
      requires Valid() && order != []
      ensures tbl.numItems == |elems| == CountSum(tbl.buckets, |tbl.buckets|)
    {
      CountsAddUp(tbl.buckets, chains, elems);
      DistinctSize(order);
      assert elems == Members(order);
    }

    constructor (hash: Key -> nat)
      ensures Valid() && order == [] && this.hash == hash
    {
      this.hash := hash;
      head, tail := null, null;
      order, chains, elems := [], [], {};
      tbl := Tbl([], 0, 0, 0, 0, 0, 0, false);
    }

    /** HASH_FIND: the live element with that key, or NULL when there is none. */
    method Find(key: Key) returns (out: Elem?)
      requires Valid()
      ensures out == null ==> forall e :: e in order ==> e.key != key
      ensures out != null ==> out in order && out.key == key
      ensures out == if key in MapOf(order) then MapOf(order)[key] else null
    {
      out := null;
      if head == null { return; }
      var h := hash(key);
      MaskIsSlot(h, tbl.log2NumBuckets);
      var b := And(h, tbl.numBuckets - 1);
      ghost var ch := chains[b];
      assert BucketOk(tbl.buckets[b], ch);
      out := tbl.buckets[b].hhHead;
      ghost var i := 0;
      while out != null
        invariant 0 <= i <= |ch| && out == Ptr(ch, i)
        invariant forall j :: 0 <= j < i ==> ch[j].key != key
        decreases |ch| - i
      {
        if out.hashv == h && out.key == key {
          assert out in ch;
          return;
        }
        assert ch[i] in ch && ch[i] in order;
        out, i := out.hhNext, i + 1;
      }
      forall e | e in order ensures e.key != key {
        assert e in chains[Slot(e.hashv, |chains|)];
      }
    }

    /** The application-order half of HASH_ADD. */
    method PutInList(e: Elem)
      requires ListOk() && e !in order
      modifies this`head, this`tail, this`order, this`elems, e`next, e`prev, elems`next
      ensures ListOk() && order == old(order) + [e] && elems == old(elems) + {e}
    {
      if head == null {
        e.next, e.prev := null, null;
        head, tail := e, e;
        order := [e];
      } else {
        order := AppendList(e, tail, order);
        tail := e;
      }
      elems := elems + {e};
    }

    /** An element with its hash value joins a table that is ready for it. */
    method Admit(e: Elem)
      requires ListOk() && HashesOk() && KeysDistinct(order) && e.hashv == hash(e.key)
      requires e !in order && forall x :: x in order ==> x.key != e.key
      requires TblOk(tbl, chains, elems) && tbl.numItems == |order|
      modifies this`head, this`tail, this`order, this`elems, e`next, e`prev, elems`next
      ensures order == old(order) + [e] && elems == old(elems) + {e}
      ensures ListOk() && HashesOk() && KeysDistinct(order)
      ensures TblOk(tbl, chains, old(elems)) && tbl.numItems + 1 == |order|
    {
      PutInList(e);
    }

    /** Everything of HASH_ADD up to the bucketing. */
    method Enter(e: Elem)
      requires Valid() && e !in order && forall x :: x in order ==> x.key != e.key
      modifies this, e`hashv, e`next, e`prev, elems`next
      ensures order == old(order) + [e] && elems == old(elems) + {e}
      ensures ListOk() && HashesOk() && KeysDistinct(order)
      ensures TblOk(tbl, chains, old(elems)) && tbl.numItems + 1 == |order|
    {
      ghost var all := elems;
      e.hashv := hash(e.key);
      if head == null {
        assert all == {};
        tbl, chains := MakeTable();
      }
      Admit(e);
    }

    /** The bucketing half of HASH_ADD. */
    method BucketUp(e: Elem, ghost all: set<Elem>)
      requires TblOk(tbl, chains, all) && e !in all && elems == all + {e}
      modifies this`tbl, this`chains, elems`hhNext, elems`hhPrev
      ensures TblOk(tbl, chains, elems) && tbl.numItems == old(tbl.numItems) + 1
    {
      var t, cs := AddToTable(tbl, e, chains, all, elems);
      tbl, chains := t, cs;
    }

    /** HASH_ADD of an element with a new key: it becomes the last in application
        order, and everything else keeps its place. */
    method Add(e: Elem)
      requires Valid() && e !in order && forall x :: x in order ==> x.key != e.key
      modifies this, e, elems
      ensures Valid() && order == old(order) + [e]
      ensures MapOf(order) == old(MapOf(order))[e.key := e]
    {
      ghost var all, s := elems, order;
      Enter(e);
      BucketUp(e, all);
      MapAppend(s, e);
    }

    /** The bucket half of HASH_DELETE. */
    method RemoveFromBucket(e: Elem, ghost all: set<Elem>)
      requires TblOk(tbl, chains, all) && e in all && tbl.numItems > 0
      modifies this`tbl, this`chains, all`hhNext, all`hhPrev
      ensures TblOk(tbl, chains, all - {e}) && tbl.numItems == old(tbl.numItems) - 1
    {
      MaskIsSlot(e.hashv, tbl.log2NumBuckets);
      var b := And(e.hashv, tbl.numBuckets - 1);
      var bs, cs := RemoveFrom(e, tbl.buckets, b, chains, all);
      tbl, chains := tbl.(buckets := bs, numItems := tbl.numItems - 1), cs;
    }

    /** The list half of HASH_DELETE when other elements remain. */
    method RemoveFromList(e: Elem, ghost i: nat)
      requires ListOk() && i < |order| && order[i] == e && |order| > 1
      modifies this`head, this`tail, this`order, this`elems, elems`next, elems`prev
      ensures ListOk() && order == Without(old(order), i) && elems == old(elems) - {e} && order != []
      ensures forall x :: x in order ==> x in old(order)
    {
      WithoutMembers(order, i);
      head, tail, order := UnlinkList(e, head, tail, order, i);
      elems := elems - {e};
    }

    /** HASH_DELETE: the element leaves its place in application order and its bucket;
        deleting the last one frees the table. */
    method Delete(e: Elem) returns (ghost i: nat)
      requires Valid() && e in order
      modifies this, elems
      ensures Valid() && i < |old(order)| && old(order)[i] == e
      ensures order == Without(old(order), i)
      ensures MapOf(order) == old(MapOf(order)) - {e.key}
    {
      i :| i < |order| && order[i] == e;
      MapWithout(order, i);
      if e.prev == null && e.next == null {
        assert order == [e];
        head := null;
        order, elems := [], {};
      } else {
        DeleteOneOfMany(e, i);
      }
    }

    /** Everything of HASH_DELETE up to the bucket. */
    method Leave(e: Elem, ghost i: nat)
      requires Valid() && i < |order| && order[i] == e && |order| > 1
      modifies this`head, this`tail, this`order, this`elems, elems`next, elems`prev
      ensures ListOk() && HashesOk() && KeysDistinct(order) && order != []
      ensures order == Without(old(order), i) && elems == old(elems) - {e}
      ensures TblOk(tbl, chains, old(elems)) && tbl.numItems == |order| + 1
    {
      ghost var s := order;
      RemoveFromList(e, i);
      KeysStay(s, order);
    }

    /** The rest of HASH_DELETE: with the bucket emptied of it, the table is whole again. */
    method LeaveBucket(e: Elem, ghost all: set<Elem>)
      requires ListOk() && HashesOk() && KeysDistinct(order) && order != []
      requires e in all && elems == all - {e} && TblOk(tbl, chains, all) && tbl.numItems == |order| + 1
      modifies this`tbl, this`chains, all`hhNext, all`hhPrev
      ensures Valid()
    {
      RemoveFromBucket(e, all);
    }

    method DeleteOneOfMany(e: Elem, ghost i: nat)
      requires Valid() && i < |order| && order[i] == e && |order| > 1
      modifies this, elems
      ensures Valid() && order == Without(old(order), i)
    {
      ghost var all := elems;
      Leave(e, i);
      LeaveBucket(e, all);
    }

    method SortOrder(cmp: Cmp<Elem>)
      requires ListOk() && head != null
      modifies this`head, this`tail, this`order, elems`next, elems`prev
      ensures ListOk() && order == Passes(cmp, old(order), 1)
    {
      ghost var s := order;
      PassesMembers(cmp, s);
      head, tail, order := SortList(cmp, head, order);
      forall i | 0 <= i < |order| ensures order[i] in elems {
        assert order[i] in s;
      }
      forall e | e in elems ensures e in order {
        assert e in s;
      }
    }

    /** Sorting touches neither buckets nor keys. */
    method SortLinked(cmp: Cmp<Elem>)
      requires Valid() && head != null
      requires |Passes(cmp, order, 1)| == |order| && KeysDistinct(Passes(cmp, order, 1))
      modifies this`head, this`tail, this`order, elems`next, elems`prev
      ensures Valid() && order == Passes(cmp, old(order), 1)
    {
      SortOrder(cmp);
    }

    /** HASH_SRT: the application order becomes the merge sort of the old one; for
        a total preorder that is the sorted stable permutation.  The buckets, and so
        every lookup, stay as they are. */
    method Sort(cmp: Cmp<Elem>)
      requires Valid()
      modifies this`head, this`tail, this`order, elems`next, elems`prev
      ensures Valid() && order == Passes(cmp, old(order), 1)
      ensures SortsStably(cmp, old(order), order) && MapOf(order) == old(MapOf(order))
    {
      SortedOrder(cmp, order);
      if head != null {
        SortLinked(cmp);
      }
    }
  }
}
