/** The BSD tail queue that carries every list of the proxy, at the level of its links.
    tqe_prev is kept as the element whose link points here, None standing for the head. */
module Tailq {

  import opened Dictionary

  type Ptr = Option<nat>

  datatype Tailq = Tailq(first: Ptr, last: Ptr, next: map<nat, Ptr>, prev: map<nat, Ptr>)

  function At(s: seq<nat>, i: int): Ptr {
    if 0 <= i < |s| then Some(s[i]) else None
  }

  predicate NoDup(s: seq<nat>) {
    forall i, j :: 0 <= i < j < |s| ==> s[i] != s[j]
  }

  /** The links of the i-th element lead to its neighbours. */
  predicate Joined(q: Tailq, s: seq<nat>, i: nat)
    requires i < |s|
  {
    && s[i] in q.next && q.next[s[i]] == At(s, i + 1)
    && s[i] in q.prev && q.prev[s[i]] == At(s, i - 1)
  }

  /** A walk from the first element along the links visits the sequence s. */
  predicate Walks(q: Tailq, s: seq<nat>) {
    NoDup(s) && q.first == At(s, 0) && forall i :: 0 <= i < |s| ==> Joined(q, s, i)
  }

  /** The links spell out the sequence s, and the tail pointer is right. */
  predicate Spells(q: Tailq, s: seq<nat>) {
    Walks(q, s) && q.last == At(s, |s| - 1)
  }

  /** TAILQ_INSERT_TAIL. */
  function InsertTail(q: Tailq, n: nat): Tailq {
    var linked := q.(next := q.next[n := None], prev := q.prev[n := q.last], last := Some(n));
    match q.last
    case None => linked.(first := Some(n))
    case Some(l) => linked.(next := linked.next[l := Some(n)])
  }

  /** TAILQ_REMOVE: the element keeps its own links. */
  function Remove(q: Tailq, n: nat): Tailq
    requires n in q.next && n in q.prev
  {
    var q1 := match q.next[n]
              case Some(m) => q.(prev := q.prev[m := q.prev[n]])
              case None => q.(last := q.prev[n]);
    match q.prev[n]
    case Some(p) => q1.(next := q1.next[p := q.next[n]])
    case None => q1.(first := q.next[n])
  }

  function Drop(s: seq<nat>, i: nat): (r: seq<nat>)
    requires i < |s|
    ensures |r| == |s| - 1
    ensures forall j :: 0 <= j < |r| ==> r[j] == if j < i then s[j] else s[j + 1]
  {
    s[..i] + s[i + 1..]
  }

  lemma {:induction false} InsertTailAppends(q: Tailq, s: seq<nat>, n: nat)
    requires Spells(q, s) && n !in s
    ensures Spells(InsertTail(q, n), s + [n])
  {
    var s', q' := s + [n], InsertTail(q, n);
    forall i | 0 <= i < |s'| ensures Joined(q', s', i) {
      if i < |s| { assert Joined(q, s, i); }
      if i < |s| - 1 { assert s[i] != s[|s| - 1]; }
    }
  }

  /** The links of the other elements after a removal. */
  lemma {:induction false} LinksAfter(q: Tailq, s: seq<nat>, i: nat, k: nat)
    requires Walks(q, s) && i < |s| && k < |s| && k != i
    ensures Joined(q, s, i)
    ensures var q' := Remove(q, s[i]);
            && s[k] in q'.next && q'.next[s[k]] == At(s, if k + 1 == i then i + 1 else k + 1)
            && s[k] in q'.prev && q'.prev[s[k]] == At(s, if k == i + 1 then i - 1 else k - 1)
  {
    assert Joined(q, s, i) && Joined(q, s, k);
    assert i > 0 && k + 1 != i ==> s[k] != s[i - 1];
    assert i + 1 < |s| && k != i + 1 ==> s[k] != s[i + 1];
  }

  /** Removal takes the element out of the walk whatever the tail pointer says; it leaves a
      right tail pointer right, and puts a wrong one right when the last element goes. */
  lemma {:induction false} RemoveWalks(q: Tailq, s: seq<nat>, i: nat)
    requires Walks(q, s) && i < |s|
    ensures Joined(q, s, i) && Walks(Remove(q, s[i]), Drop(s, i))
    ensures Spells(q, s) || i + 1 == |s| ==> Spells(Remove(q, s[i]), Drop(s, i))
  {
    assert Joined(q, s, i);
    var r, q' := Drop(s, i), Remove(q, s[i]);
    forall j | 0 <= j < |r| ensures Joined(q', r, j) {
      LinksAfter(q, s, i, if j < i then j else j + 1);
    }
  }

  lemma {:induction false} RemoveDrops(q: Tailq, s: seq<nat>, i: nat)
    requires Spells(q, s) && i < |s|
    ensures Joined(q, s, i) && Spells(Remove(q, s[i]), Drop(s, i))
  {
    RemoveWalks(q, s, i);
  }

  /** Removing the element that was removed last changes nothing: the error path of the
      engine does so through delete_sess. */
  lemma {:induction false} RemoveTwice(q: Tailq, s: seq<nat>, i: nat)
    requires Spells(q, s) && i < |s|
    ensures Joined(q, s, i)
    ensures var q' := Remove(q, s[i]); s[i] in q'.next && s[i] in q'.prev && Remove(q', s[i]) == q'
  {
    assert Joined(q, s, i);
    var n, q' := s[i], Remove(q, s[i]);
    assert i + 1 < |s| ==> s[i + 1] != n;
    assert i > 0 ==> s[i - 1] != n;
    assert q'.next[n] == q.next[n] && q'.prev[n] == q.prev[n];
    var q'' := Remove(q', n);
    assert q''.next == q'.next;
    assert q''.prev == q'.prev;
  }

  /** TAILQ_REMOVE of an element of `own` with the head of another queue: the links of the
      neighbours are found through the element, but the tail pointer is the other head's. */
  function RemoveVia(own: Tailq, other: Tailq, n: nat): (Tailq, Tailq)
    requires n in own.next && n in own.prev
  {
    var (own1, other1) := match own.next[n]
                          case Some(m) => (own.(prev := own.prev[m := own.prev[n]]), other)
                          case None => (own, other.(last := own.prev[n]));
    match own.prev[n]
    case Some(p) => (own1.(next := own1.next[p := own.next[n]]), other1)
    case None => (own1.(first := own.next[n]), other1)
  }

  /** The element leaves the walk of its queue and the walk of the other queue stays as it
      is, but for the last element the tail pointers go wrong: its queue's is right
      afterwards if and only if it was not the last one. */
  lemma {:induction false} RemoveViaIff(own: Tailq, other: Tailq, s: seq<nat>, t: seq<nat>, i: nat)
    requires Walks(own, s) && Walks(other, t) && i < |s|
    ensures Joined(own, s, i)
    ensures var (own', other') := RemoveVia(own, other, s[i]);
            && Walks(own', Drop(s, i)) && Walks(other', t)
            && (Spells(own, s) ==> (Spells(own', Drop(s, i)) <==> i + 1 < |s|))
            && (i + 1 < |s| ==> other' == other)
  {
    RemoveWalks(own, s, i);
    var (own', other') := RemoveVia(own, other, s[i]);
    var q' := Remove(own, s[i]);
    assert own' == q'.(last := own.last);
    forall j | 0 <= j < |Drop(s, i)| ensures Joined(own', Drop(s, i), j) { assert Joined(q', Drop(s, i), j); }
    forall j | 0 <= j < |t| ensures Joined(other', t, j) { assert Joined(other, t, j); }
    assert i > 0 ==> s[i - 1] != s[i];
  }
}
