/** HASH_SRT: Tatham's bottom-up merge sort run in place on the application-order
    list of a hash table.  Elements are heap objects whose `next` and `prev`
    pointers are rewritten while the list is being read. */
module HashSort {

  import opened HashElem
  import opened MergeSortSpec

  /** `next` pointers of the part of `s` from index lo up to hi still run through `s`. */
  ghost predicate Threaded(s: seq<Elem>, lo: nat, hi: nat)
    requires hi <= |s|
    reads s
  {
    forall j {:trigger s[j].next} :: lo <= j < hi ==> s[j].next == Ptr(s, j + 1)
  }

  /** `out` is linked both ways, except that its last `next` is still to be set. */
  ghost predicate Output(out: seq<Elem>, list: Elem?, tail: Elem?)
    reads out
  {
    && Distinct(out)
    && list == Ptr(out, 0)
    && tail == (if out == [] then null else out[|out| - 1])
    && (forall i {:trigger out[i].next} :: 0 <= i < |out| - 1 ==> out[i].next == out[i + 1])
    && (forall i {:trigger out[i].prev} :: 0 <= i < |out| ==> out[i].prev == if i == 0 then null else out[i - 1])
  }

  /** Nothing from index lo up to hi has been moved to `out` yet. */
  ghost predicate Unmoved(s: seq<Elem>, lo: nat, hi: nat, out: seq<Elem>)
    requires hi <= |s|
  {
    forall j :: lo <= j < hi ==> s[j] !in out
  }

  /** The inner `for`: step over at most k elements. */
  method StepOver(p: Elem, k: nat, ghost s: seq<Elem>, ghost c: nat) returns (q: Elem?, psize: nat)
    requires k > 0 && c < |s| && p == s[c] && Threaded(s, c, |s|)
    ensures psize == Cut(k, |s| - c)
    ensures q == Ptr(s, c + psize)
  {
    q, psize := p, 0;
    var i := 0;
    while i < k
      invariant 0 <= i <= k && psize == i && c + i < |s|
      invariant q == s[c + i]
      decreases k - i
    {
      psize := psize + 1;
      q := q.next;
      if q == null { return; }
      i := i + 1;
    }
  }

  /** Append e behind tail: `_hs_tail->next = e; e->prev = _hs_tail; _hs_tail = e`. */
  method Append(e: Elem, list: Elem?, tail: Elem?, ghost out: seq<Elem>) returns (list': Elem, ghost out': seq<Elem>)
    requires Output(out, list, tail) && e !in out
    modifies (if tail == null then {} else {tail})`next, e`prev
    ensures out' == out + [e] && Output(out', list', e)
  {
    if tail != null {
      tail.next := e;
      list' := list;
    } else {
      list' := e;
    }
    e.prev := tail;
    out' := out + [e];
    assert forall i :: 0 <= i < |out| ==> out'[i] == out[i] && out'[i] != e;
    assert out'[|out|] == e && (out != [] ==> out'[|out| - 1] == tail);
    forall i | 0 <= i < |out'| ensures out'[i].prev == if i == 0 then null else out'[i - 1] {
      if i < |out| {
        assert out'[i] == out[i] && old(out[i].prev) == if i == 0 then null else out[i - 1];
      }
    }
    assert forall i :: 0 <= i < |out| - 1 ==> out'[i] != tail && out'[i].next == old(out[i].next);
  }

  /** The state in the middle of a merge: the left run is consumed up to pi, the
      right run up to qi, and `out` holds everything emitted so far. */
  ghost predicate Merging(s: seq<Elem>, pi: nat, m: nat, qi: nat, out: seq<Elem>, list: Elem?, tail: Elem?)
    requires m <= |s|
    reads s, out
  {
    && Threaded(s, pi, m) && Threaded(s, qi, |s|)
    && Output(out, list, tail)
    && Unmoved(s, pi, m, out) && Unmoved(s, qi, |s|, out)
    && (forall e :: e in out ==> e in s)
  }

  /** Emit the front of the left or of the right run. */
  method Emit(e: Elem, list: Elem?, tail: Elem?, ghost left: bool,
              ghost s: seq<Elem>, ghost pi: nat, ghost m: nat, ghost qi: nat, ghost out: seq<Elem>)
    returns (list': Elem, ghost out': seq<Elem>)
    requires pi <= m <= qi <= |s| && Distinct(s) && Merging(s, pi, m, qi, out, list, tail)
    requires if left then pi < m && e == s[pi] else qi < |s| && e == s[qi]
    modifies (set x | x in s)`next, (set x | x in s)`prev
    ensures out' == out + [e]
    ensures Merging(s, if left then pi + 1 else pi, m, if left then qi else qi + 1, out', list', e)
  {
    assert tail != null ==> tail == out[|out| - 1] && tail in out;
    list', out' := Append(e, list, tail, out);
    assert forall x :: x in out' <==> x in out || x == e;
  }

  /** Taking the front of the left run is the next step of Merge. */
  lemma {:induction false} TakeLeft(cmp: Cmp<Elem>, s: seq<Elem>, pi: nat, m: nat, qi: nat, n: nat, out: seq<Elem>)
    requires pi < m <= qi <= n <= |s| && (qi == n || cmp(s[pi], s[qi]) <= 0)
    ensures (out + [s[pi]]) + Merge(cmp, s[pi + 1..m], s[qi..n]) == out + Merge(cmp, s[pi..m], s[qi..n])
  {
    var a, b := s[pi..m], s[qi..n];
    assert a[1..] == s[pi + 1..m];
    assert Merge(cmp, a, b) == [a[0]] + Merge(cmp, a[1..], b);
  }

  /** Taking the front of the right run is the next step of Merge. */
  lemma {:induction false} TakeRight(cmp: Cmp<Elem>, s: seq<Elem>, pi: nat, m: nat, qi: nat, n: nat, out: seq<Elem>)
    requires pi <= m <= qi < n <= |s| && (pi == m || cmp(s[pi], s[qi]) > 0)
    ensures (out + [s[qi]]) + Merge(cmp, s[pi..m], s[qi + 1..n]) == out + Merge(cmp, s[pi..m], s[qi..n])
  {
    var a, b := s[pi..m], s[qi..n];
    assert b[1..] == s[qi + 1..n];
    assert Merge(cmp, a, b) == [b[0]] + Merge(cmp, a, b[1..]);
  }

  /** What the output will be once both runs are used up. */
  ghost function Total(cmp: Cmp<Elem>, s: seq<Elem>, pi: nat, m: nat, qi: nat, n: nat, out: seq<Elem>): seq<Elem>
    requires pi <= m <= qi <= n <= |s|
  {
    out + Merge(cmp, s[pi..m], s[qi..n])
  }

  /** `_hs_e = _hs_p; _hs_p = _hs_p->next`, then link it behind the tail. */
  method MoveLeft(cmp: Cmp<Elem>, p: Elem, list: Elem?, tail: Elem?,
                  ghost s: seq<Elem>, ghost pi: nat, ghost m: nat, ghost qi: nat, ghost n: nat, ghost out: seq<Elem>)
    returns (p': Elem?, list': Elem, ghost out': seq<Elem>)
    requires pi < m <= qi <= n <= |s| && Distinct(s) && Merging(s, pi, m, qi, out, list, tail)
    requires p == s[pi] && (qi == n || cmp(s[pi], s[qi]) <= 0)
    modifies (set e | e in s)`next, (set e | e in s)`prev
    ensures p' == Ptr(s, pi + 1) && Merging(s, pi + 1, m, qi, out', list', p)
    ensures Total(cmp, s, pi + 1, m, qi, n, out') == Total(cmp, s, pi, m, qi, n, out)
  {
    p' := p.next;
    TakeLeft(cmp, s, pi, m, qi, n, out);
    list', out' := Emit(p, list, tail, true, s, pi, m, qi, out);
  }

  /** The same for the front of the right run. */
  method MoveRight(cmp: Cmp<Elem>, q: Elem, list: Elem?, tail: Elem?,
                   ghost s: seq<Elem>, ghost pi: nat, ghost m: nat, ghost qi: nat, ghost n: nat, ghost out: seq<Elem>)
    returns (q': Elem?, list': Elem, ghost out': seq<Elem>)
    requires pi <= m <= qi < n <= |s| && Distinct(s) && Merging(s, pi, m, qi, out, list, tail)
    requires q == s[qi] && (pi == m || cmp(s[pi], s[qi]) > 0)
    modifies (set e | e in s)`next, (set e | e in s)`prev
    ensures q' == Ptr(s, qi + 1) && Merging(s, pi, m, qi + 1, out', list', q)
    ensures Total(cmp, s, pi, m, qi + 1, n, out') == Total(cmp, s, pi, m, qi, n, out)
  {
    q' := q.next;
    TakeRight(cmp, s, pi, m, qi, n, out);
    list', out' := Emit(q, list, tail, false, s, pi, m, qi, out);
  }

  /** The cursors of the merge loop: p and psize for the left run, q and qsize for the
      right one, which may hold fewer than k elements at the end of the list. */
  ghost predicate Cursors(s: seq<Elem>, pi: nat, m: nat, qi: nat, n: nat, k: nat, p: Elem?, psize: nat, q: Elem?,
                          qsize: nat) {
    && pi <= m <= qi <= n <= |s| && n - m <= k && (n < |s| ==> n - m == k)
    && psize == m - pi && qsize == k - (qi - m)
    && (pi < m ==> p == s[pi]) && q == Ptr(s, qi)
  }

  /** One turn of the merge loop. */
  method MergeStep(cmp: Cmp<Elem>, p: Elem?, psize: nat, q: Elem?, qsize: nat, list: Elem?, tail: Elem?,
                   ghost s: seq<Elem>, ghost pi: nat, ghost m: nat, ghost qi: nat,
                   ghost n: nat, ghost k: nat, ghost out: seq<Elem>)
    returns (p': Elem?, psize': nat, q': Elem?, qsize': nat, list': Elem, tail': Elem,
             ghost pi': nat, ghost qi': nat, ghost out': seq<Elem>)
    requires Cursors(s, pi, m, qi, n, k, p, psize, q, qsize) && (psize != 0 || (qsize != 0 && q != null))
    requires Distinct(s) && Merging(s, pi, m, qi, out, list, tail)
    modifies (set e | e in s)`next, (set e | e in s)`prev
    ensures Cursors(s, pi', m, qi', n, k, p', psize', q', qsize') && psize' + qsize' < psize + qsize
    ensures Merging(s, pi', m, qi', out', list', tail')
    ensures Total(cmp, s, pi', m, qi', n, out') == Total(cmp, s, pi, m, qi, n, out)
  {
    p', q', psize', qsize', pi', qi' := p, q, psize, qsize, pi, qi;
    if psize != 0 && (qsize == 0 || q == null || cmp(p, q) <= 0) {
      p', list', out' := MoveLeft(cmp, p, list, tail, s, pi, m, qi, n, out);
      tail', psize', pi' := p, psize - 1, pi + 1;
    } else {
      q', list', out' := MoveRight(cmp, q, list, tail, s, pi, m, qi, n, out);
      tail', qsize', qi' := q, qsize - 1, qi + 1;
    }
  }

  /** The merge loop: the runs s[c..m] and s[m..n] go to the output. */
  method MergeRuns(cmp: Cmp<Elem>, p0: Elem, psize0: nat, q0: Elem?, k: nat, list0: Elem?, tail0: Elem?,
                   ghost s: seq<Elem>, ghost c: nat, ghost m: nat, ghost n: nat, ghost out0: seq<Elem>)
    returns (q: Elem?, list: Elem?, tail: Elem?, ghost out: seq<Elem>)
    requires c < m <= n <= |s| && n - m <= k && (n < |s| ==> n - m == k)
    requires p0 == s[c] && psize0 == m - c && q0 == Ptr(s, m)
    requires Distinct(s) && Merging(s, c, m, m, out0, list0, tail0)
    modifies (set e | e in s)`next, (set e | e in s)`prev
    ensures out == out0 + Merge(cmp, s[c..m], s[m..n])
    ensures q == Ptr(s, n) && Merging(s, m, m, n, out, list, tail)
  {
    var p: Elem?, psize, qsize := p0, psize0, k;
    q, list, tail, out := q0, list0, tail0, out0;
    ghost var pi, qi, goal := c, m, Total(cmp, s, c, m, m, n, out0);
    while psize != 0 || (qsize != 0 && q != null)
      invariant Cursors(s, pi, m, qi, n, k, p, psize, q, qsize)
      invariant Merging(s, pi, m, qi, out, list, tail)
      invariant Total(cmp, s, pi, m, qi, n, out) == goal
      decreases psize + qsize
    {
      p, psize, q, qsize, list, tail, pi, qi, out :=
        MergeStep(cmp, p, psize, q, qsize, list, tail, s, pi, m, qi, n, k, out);
    }
    assert pi == m && qi == n;
    TotalDone(cmp, s, m, n, out);
  }

  lemma {:induction false} TotalDone(cmp: Cmp<Elem>, s: seq<Elem>, m: nat, n: nat, out: seq<Elem>)
    requires m <= n <= |s|
    ensures Total(cmp, s, m, m, n, n, out) == out
  {
    assert s[m..m] == [] && s[n..n] == [];
  }

  /** What a pass will have produced once everything from index c on is merged. */
  ghost function PassTotal(cmp: Cmp<Elem>, s: seq<Elem>, c: nat, k: nat, out: seq<Elem>): seq<Elem>
    requires c <= |s| && k > 0
  {
    out + Pass(cmp, s[c..], k)
  }

  /** Before the first merge nothing is out; after the last one everything is. */
  lemma {:induction false} PassEnds(cmp: Cmp<Elem>, s: seq<Elem>, k: nat, out: seq<Elem>)
    requires k > 0
    ensures PassTotal(cmp, s, 0, k, []) == Pass(cmp, s, k)
    ensures PassTotal(cmp, s, |s|, k, out) == out
  {
    assert s[0..] == s && s[|s|..] == [];
  }

  lemma {:induction false} PassAdvances(cmp: Cmp<Elem>, s: seq<Elem>, c: nat, m: nat, n: nat, k: nat, out: seq<Elem>)
    requires k > 0 && c < |s| && m == c + Cut(k, |s| - c) && n == c + Cut(2 * k, |s| - c)
    ensures PassTotal(cmp, s, n, k, out + Merge(cmp, s[c..m], s[m..n])) == PassTotal(cmp, s, c, k, out)
  {
    var merged, rest := Merge(cmp, s[c..m], s[m..n]), Pass(cmp, s[n..], k);
    Slices(s, c, m, n);
    assert Pass(cmp, s[c..], k) == merged + rest;
    assert (out + merged) + rest == out + (merged + rest);
  }

  lemma {:induction false} Slices(s: seq<Elem>, c: nat, m: nat, n: nat)
    requires c <= m <= n <= |s|
    ensures s[c..][..m - c] == s[c..m] && s[c..][m - c..n - c] == s[m..n] && s[c..][n - c..] == s[n..]
  {
    var a, b := s[c..][m - c..n - c], s[m..n];
    assert forall i :: 0 <= i < n - m ==> a[i] == b[i];
  }

  /** `_hs_tail->next = NULL` ends the list. */
  method Terminate(list: Elem?, tail: Elem, ghost out: seq<Elem>)
    requires Output(out, list, tail)
    modifies tail`next
    ensures Linked(out) && out != [] && list == out[0] && tail == out[|out| - 1]
  {
    tail.next := null;
    assert forall i {:trigger out[i].next} :: 0 <= i < |out| - 1 ==> out[i] != tail && out[i].next == old(out[i].next);
  }

  /** One round of a pass: find the second run and merge it with the first. */
  method MergePair(cmp: Cmp<Elem>, p: Elem, k: nat, list: Elem?, tail: Elem?,
                   ghost s: seq<Elem>, ghost c: nat, ghost out: seq<Elem>)
    returns (q: Elem?, list': Elem?, tail': Elem?, ghost n: nat, ghost out': seq<Elem>)
    requires k > 0 && c < |s| && p == s[c] && Distinct(s) && Merging(s, c, c, c, out, list, tail)
    modifies (set e | e in s)`next, (set e | e in s)`prev
    ensures n == c + Cut(2 * k, |s| - c)
    ensures q == Ptr(s, n) && Merging(s, n, n, n, out', list', tail')
    ensures PassTotal(cmp, s, n, k, out') == PassTotal(cmp, s, c, k, out)
  {
    var psize;
    q, psize := StepOver(p, k, s, c);
    ghost var m := c + psize;
    n := c + Cut(2 * k, |s| - c);
    PassAdvances(cmp, s, c, m, n, k, out);
    assert Merging(s, c, m, m, out, list, tail);
    q, list', tail', out' := MergeRuns(cmp, p, psize, q, k, list, tail, s, c, m, n, out);
  }

  /** `while (_hs_p != NULL)`: merge pair after pair until the list is used up. */
  method MergePairs(cmp: Cmp<Elem>, head: Elem, k: nat, ghost s: seq<Elem>)
    returns (list: Elem?, tail: Elem?, nmerges: nat, ghost out: seq<Elem>)
    requires k > 0 && s != [] && head == s[0] && Distinct(s) && Threaded(s, 0, |s|)
    modifies (set e | e in s)`next, (set e | e in s)`prev
    ensures PassTotal(cmp, s, |s|, k, out) == PassTotal(cmp, s, 0, k, [])
    ensures Merging(s, |s|, |s|, |s|, out, list, tail)
    ensures nmerges <= 1 <==> |s| <= 2 * k
  {
    var p: Elem? := head;
    list, tail, nmerges, out := null, null, 0, [];
    ghost var c, goal := 0, PassTotal(cmp, s, 0, k, []);
    while p != null
      invariant c <= |s| && p == Ptr(s, c)
      invariant Merging(s, c, c, c, out, list, tail)
      invariant PassTotal(cmp, s, c, k, out) == goal
      invariant nmerges == 0 ==> c == 0
      invariant nmerges == 1 ==> c == Cut(2 * k, |s|)
      invariant nmerges > 1 ==> |s| > 2 * k
      decreases |s| - c
    {
      p, list, tail, c, out := MergePair(cmp, p, k, list, tail, s, c, out);
      nmerges := nmerges + 1;
    }
  }

  /** The body of the outer loop: one pass over the list with runs of length k. */
  method MergePass(cmp: Cmp<Elem>, head: Elem, k: nat, ghost s: seq<Elem>)
    returns (list: Elem?, tail: Elem?, nmerges: nat, ghost out: seq<Elem>)
    requires k > 0 && s != [] && head == s[0] && Distinct(s) && Threaded(s, 0, |s|)
    modifies (set e | e in s)`next, (set e | e in s)`prev
    ensures out == Pass(cmp, s, k) && Linked(out) && forall e :: e in out ==> e in s
    ensures list == out[0] && tail == out[|out| - 1]
    ensures nmerges <= 1 <==> |s| <= 2 * k
  {
    list, tail, nmerges, out := MergePairs(cmp, head, k, s);
    PassEnds(cmp, s, k, out);
    Terminate(list, tail, out);
  }

  /** HASH_SRT on a non-empty list. */
  method SortList(cmp: Cmp<Elem>, head: Elem, ghost s: seq<Elem>)
    returns (head': Elem, tail': Elem, ghost sorted: seq<Elem>)
    requires s != [] && head == s[0] && Linked(s)
    modifies (set e | e in s)`next, (set e | e in s)`prev
    ensures sorted == Passes(cmp, s, 1) && Linked(sorted)
    ensures head' == sorted[0] && tail' == sorted[|sorted| - 1]
  {
    ghost var goal := Passes(cmp, s, 1);
    var insize, looping := 1, true;
    var list: Elem?, tail: Elem? := head, null;
    sorted := s;
    while looping
      invariant |sorted| == |s| && insize > 0 && Linked(sorted) && list == sorted[0]
      invariant forall e :: e in sorted ==> e in s
      invariant looping ==> Passes(cmp, sorted, insize) == goal && (insize == 1 || insize < |s|)
      invariant !looping ==> sorted == goal && tail == sorted[|sorted| - 1]
      decreases looping, |s| - insize
    {
      var nmerges;
      list, tail, nmerges, sorted := MergePass(cmp, list, insize, sorted);
      if nmerges <= 1 {
        looping := false;
      }
      insize := insize * 2;
    }
    head', tail' := list, tail;
  }
}
