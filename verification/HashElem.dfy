/** Elements of a uthash table: UT_hash_handle embedded in a user structure. */
module HashElem {

  import opened Bytes

  type Key = seq<Byte>

  class Elem {
    const key: Key
    var hashv: nat
    var next: Elem?
    var prev: Elem?
    var hhNext: Elem?
    var hhPrev: Elem?

    constructor (key: Key)
      ensures this.key == key
    {
      this.key := key;
      hashv, next, prev, hhNext, hhPrev := 0, null, null, null, null;
    }
  }

  /** The i-th element, or NULL past the end. */
  ghost function Ptr(s: seq<Elem>, i: nat): Elem? {
    if i < |s| then s[i] else null
  }

  ghost predicate Distinct(s: seq<Elem>) {
    forall i, j :: 0 <= i < j < |s| ==> s[i] != s[j]
  }

  /** Application order: `next` and `prev` are mutually inverse along `s`. */
  ghost predicate Linked(s: seq<Elem>)
    reads (set e | e in s)`next, (set e | e in s)`prev
  {
    && Distinct(s)
    && (forall i {:trigger s[i].next} :: 0 <= i < |s| ==> s[i].next == Ptr(s, i + 1))
    && (forall i {:trigger s[i].prev} :: 0 <= i < |s| ==> s[i].prev == if i == 0 then null else s[i - 1])
  }

  /** Bucket order: the same for `hh_next` and `hh_prev`. */
  ghost predicate Chained(s: seq<Elem>)
    reads (set e | e in s)`hhNext, (set e | e in s)`hhPrev
  {
    && Distinct(s)
    && (forall i {:trigger s[i].hhNext} :: 0 <= i < |s| ==> s[i].hhNext == Ptr(s, i + 1))
    && (forall i {:trigger s[i].hhPrev} :: 0 <= i < |s| ==> s[i].hhPrev == if i == 0 then null else s[i - 1])
  }

  ghost function Without(s: seq<Elem>, i: nat): seq<Elem>
    requires i < |s|
  {
    s[..i] + s[i + 1..]
  }

  /** The bucket half of HASH_ADD_TO_BKT and of the redistribution: put e in front. */
  method PushFront(e: Elem, h: Elem?, ghost ch: seq<Elem>) returns (ghost ch': seq<Elem>)
    requires Chained(ch) && h == Ptr(ch, 0) && e !in ch
    modifies e`hhNext, e`hhPrev, (if h == null then {} else {h})`hhPrev
    ensures ch' == [e] + ch && Chained(ch')
  {
    e.hhNext := h;
    e.hhPrev := null;
    if h != null {
      h.hhPrev := e;
    }
    ch' := [e] + ch;
    assert forall i :: 0 < i < |ch'| ==> ch'[i] == ch[i - 1] && ch'[i] != e;
    forall i {:trigger ch'[i].hhNext} | 0 <= i < |ch'| ensures ch'[i].hhNext == Ptr(ch', i + 1) {
      if i > 0 { assert ch[i - 1].hhNext == Ptr(ch, i); }
    }
    forall i {:trigger ch'[i].hhPrev} | 0 <= i < |ch'| ensures ch'[i].hhPrev == if i == 0 then null else ch'[i - 1] {
      if i > 1 { assert old(ch[i - 1].hhPrev) == ch[i - 2] && ch[i - 1] != ch[0]; }
    }
  }

  /** HASH_DEL_IN_BKT: unlink the i-th element of a chain; returns the new head. */
  method UnlinkBucket(e: Elem, h: Elem?, ghost ch: seq<Elem>, ghost i: nat) returns (h': Elem?, ghost ch': seq<Elem>)
    requires Chained(ch) && i < |ch| && ch[i] == e && h == Ptr(ch, 0)
    modifies (set x | x in ch)`hhNext, (set x | x in ch)`hhPrev
    ensures ch' == Without(ch, i) && Chained(ch') && h' == Ptr(ch', 0)
  {
    assert e.hhNext == Ptr(ch, i + 1) && e.hhPrev == if i == 0 then null else ch[i - 1];
    h' := h;
    if h == e {
      h' := e.hhNext;
    }
    if e.hhPrev != null {
      e.hhPrev.hhNext := e.hhNext;
    }
    if e.hhNext != null {
      e.hhNext.hhPrev := e.hhPrev;
    }
    ch' := Without(ch, i);
    assert forall k :: 0 <= k < |ch'| ==> ch'[k] == ch[if k < i then k else k + 1];
    forall k {:trigger ch'[k].hhNext} | 0 <= k < |ch'| ensures ch'[k].hhNext == Ptr(ch', k + 1) {
      var j := if k < i then k else k + 1;
      assert old(ch[j].hhNext) == Ptr(ch, j + 1);
    }
    forall k {:trigger ch'[k].hhPrev} | 0 <= k < |ch'| ensures ch'[k].hhPrev == if k == 0 then null else ch'[k - 1] {
      var j := if k < i then k else k + 1;
      assert old(ch[j].hhPrev) == if j == 0 then null else ch[j - 1];
    }
  }

  /** HASH_APPEND_LIST. */
  method AppendList(e: Elem, tail: Elem, ghost s: seq<Elem>) returns (ghost s': seq<Elem>)
    requires Linked(s) && s != [] && tail == s[|s| - 1] && e !in s
    modifies e`next, e`prev, tail`next
    ensures s' == s + [e] && Linked(s')
  {
    e.next := null;
    e.prev := tail;
    tail.next := e;
    s' := s + [e];
    assert forall i :: 0 <= i < |s| ==> s'[i] == s[i] && s'[i] != e;
    forall i {:trigger s'[i].next} | 0 <= i < |s'| ensures s'[i].next == Ptr(s', i + 1) {
      if i < |s| { assert old(s[i].next) == Ptr(s, i + 1); }
    }
    forall i {:trigger s'[i].prev} | 0 <= i < |s'| ensures s'[i].prev == if i == 0 then null else s'[i - 1] {
      if i < |s| { assert old(s[i].prev) == if i == 0 then null else s[i - 1]; }
    }
  }

  /** The list half of HASH_DELETE_HH for an element that is not alone. */
  method UnlinkList(e: Elem, head: Elem, tail: Elem, ghost s: seq<Elem>, ghost i: nat)
    returns (head': Elem, tail': Elem, ghost s': seq<Elem>)
    requires Linked(s) && |s| > 1 && i < |s| && s[i] == e && head == s[0] && tail == s[|s| - 1]
    modifies (set x | x in s)`next, (set x | x in s)`prev
    ensures s' == Without(s, i) && Linked(s')
    ensures head' == s'[0] && tail' == s'[|s'| - 1]
  {
    assert e.next == Ptr(s, i + 1) && e.prev == if i == 0 then null else s[i - 1];
    head', tail' := head, tail;
    if e == tail {
      tail' := e.prev;
    }
    if e.prev != null {
      e.prev.next := e.next;
    } else {
      head' := e.next;
    }
    if e.next != null {
      e.next.prev := e.prev;
    }
    s' := Without(s, i);
    assert forall k :: 0 <= k < |s'| ==> s'[k] == s[if k < i then k else k + 1];
    forall k {:trigger s'[k].next} | 0 <= k < |s'| ensures s'[k].next == Ptr(s', k + 1) {
      var j := if k < i then k else k + 1;
      assert old(s[j].next) == Ptr(s, j + 1);
    }
    forall k {:trigger s'[k].prev} | 0 <= k < |s'| ensures s'[k].prev == if k == 0 then null else s'[k - 1] {
      var j := if k < i then k else k + 1;
      assert old(s[j].prev) == if j == 0 then null else s[j - 1];
    }
  }
}
