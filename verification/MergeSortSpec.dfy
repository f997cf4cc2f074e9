/** Bottom-up merge sort on sequences: the mathematics behind HASH_SRT. */
module MergeSortSpec {

  type Cmp<!T> = (T, T) -> int

  function Merge<T>(cmp: Cmp<T>, a: seq<T>, b: seq<T>): (r: seq<T>)
    ensures |r| == |a| + |b|
    decreases |a| + |b|
  {
    if a == [] then b
    else if b == [] then a
    else if cmp(a[0], b[0]) <= 0 then [a[0]] + Merge(cmp, a[1..], b)
    else [b[0]] + Merge(cmp, a, b[1..])
  }

  function Cut(k: nat, n: nat): nat {
    if k < n then k else n
  }

  /** One pass: merge neighbouring runs of length k. */
  function Pass<T>(cmp: Cmp<T>, s: seq<T>, k: nat): (r: seq<T>)
    requires k > 0
    ensures |r| == |s|
    decreases |s|
  {
    if s == [] then []
    else
      var m, n := Cut(k, |s|), Cut(2 * k, |s|);
      Merge(cmp, s[..m], s[m..n]) + Pass(cmp, s[n..], k)
  }

  /** Passes with doubling run length until one pass needs a single merge. */
  function Passes<T>(cmp: Cmp<T>, s: seq<T>, k: nat): (r: seq<T>)
    requires k > 0
    ensures |r| == |s|
    decreases |s| - k
  {
    var s' := Pass(cmp, s, k);
    if |s| <= 2 * k then s' else Passes(cmp, s', 2 * k)
  }

  // ----- What sorting means -----

  /** The comparator orders the elements of `s` by a total preorder. */
  ghost predicate Preorder<T>(cmp: Cmp<T>, s: seq<T>) {
    && (forall x, y :: x in s && y in s ==> cmp(x, y) <= 0 || cmp(y, x) <= 0)
    && (forall x, y, z :: x in s && y in s && z in s && cmp(x, y) <= 0 && cmp(y, z) <= 0 ==> cmp(x, z) <= 0)
  }

  ghost predicate Sorted<T>(cmp: Cmp<T>, s: seq<T>) {
    forall i, j :: 0 <= i < j < |s| ==> cmp(s[i], s[j]) <= 0
  }

  predicate Tie<T>(cmp: Cmp<T>, y: T, x: T) {
    cmp(y, x) <= 0 && cmp(x, y) <= 0
  }

  /** The elements of `s` that tie with `x`, in the order in which they occur. */
  ghost function Ties<T>(cmp: Cmp<T>, s: seq<T>, x: T): seq<T> {
    if s == [] then []
    else if Tie(cmp, s[0], x) then [s[0]] + Ties(cmp, s[1..], x)
    else Ties(cmp, s[1..], x)
  }

  /** `r` is a stable rearrangement of `s`: the same elements, ties in the same order. */
  ghost predicate StablePermutation<T>(cmp: Cmp<T>, s: seq<T>, r: seq<T>) {
    && multiset(r) == multiset(s)
    && forall x :: x in s ==> Ties(cmp, r, x) == Ties(cmp, s, x)
  }

  // ----- Merge -----

  lemma {:induction false} TailOfConcat<T>(a: seq<T>, b: seq<T>)
    requires a != []
    ensures (a + b)[0] == a[0] && (a + b)[1..] == a[1..] + b
  {
  }

  lemma {:induction false} Regroup<T>(a: seq<T>, b: seq<T>, c: seq<T>)
    ensures (a + b) + c == a + (b + c)
  {
  }

  lemma {:induction false} TiesConcat<T>(cmp: Cmp<T>, a: seq<T>, b: seq<T>, x: T)
    ensures Ties(cmp, a + b, x) == Ties(cmp, a, x) + Ties(cmp, b, x)
  {
    if a == [] {
      assert a + b == b;
    } else {
      TiesConcat(cmp, a[1..], b, x);
      TailOfConcat(a, b);
      Regroup([a[0]], Ties(cmp, a[1..], x), Ties(cmp, b, x));
    }
  }

  lemma {:induction false} TiesSplit<T>(cmp: Cmp<T>, s: seq<T>, m: nat, n: nat, x: T)
    requires m <= n <= |s|
    ensures Ties(cmp, s, x) == Ties(cmp, s[..m], x) + Ties(cmp, s[m..n], x) + Ties(cmp, s[n..], x)
  {
    assert s == s[..m] + s[m..n] + s[n..];
    TiesConcat(cmp, s[..m] + s[m..n], s[n..], x);
    TiesConcat(cmp, s[..m], s[m..n], x);
  }

  /** Elements none of which tie with x. */
  lemma {:induction false} NoTies<T>(cmp: Cmp<T>, s: seq<T>, x: T)
    requires forall y :: y in s ==> !Tie(cmp, y, x)
    ensures Ties(cmp, s, x) == []
  {
    if s != [] {
      assert s[0] in s;
      assert forall y :: y in s[1..] ==> y in s;
      NoTies(cmp, s[1..], x);
    }
  }

  lemma {:induction false} ConsElements<T>(x: T, s: seq<T>)
    ensures multiset([x] + s) == multiset{x} + multiset(s)
  {
  }

  lemma {:induction false} HeadElements<T>(s: seq<T>)
    requires s != []
    ensures multiset(s) == multiset{s[0]} + multiset(s[1..])
  {
    assert s == [s[0]] + s[1..];
  }

  lemma {:induction false} MergeElements<T>(cmp: Cmp<T>, a: seq<T>, b: seq<T>)
    ensures multiset(Merge(cmp, a, b)) == multiset(a) + multiset(b)
    decreases |a| + |b|
  {
    if a != [] && b != [] {
      if cmp(a[0], b[0]) <= 0 {
        MergeElements(cmp, a[1..], b);
        HeadElements(a);
        ConsElements(a[0], Merge(cmp, a[1..], b));
      } else {
        MergeElements(cmp, a, b[1..]);
        HeadElements(b);
        ConsElements(b[0], Merge(cmp, a, b[1..]));
      }
    }
  }

  lemma {:induction false} SameMembers<T>(s: seq<T>, r: seq<T>, x: T)
    requires multiset(s) == multiset(r)
    ensures x in s <==> x in r
  {
    assert x in s <==> x in multiset(s);
    assert x in r <==> x in multiset(r);
  }

  lemma {:induction false} MergeMember<T>(cmp: Cmp<T>, a: seq<T>, b: seq<T>, x: T)
    ensures x in Merge(cmp, a, b) <==> x in a || x in b
  {
    MergeElements(cmp, a, b);
    assert x in Merge(cmp, a, b) <==> x in multiset(Merge(cmp, a, b));
    assert x in a <==> x in multiset(a);
    assert x in b <==> x in multiset(b);
  }

  lemma {:induction false} SortedTail<T>(cmp: Cmp<T>, s: seq<T>)
    requires Sorted(cmp, s) && s != []
    ensures Sorted(cmp, s[1..])
    ensures forall y :: y in s[1..] ==> cmp(s[0], y) <= 0
  {
    forall y | y in s[1..] ensures cmp(s[0], y) <= 0 {
      var i :| 0 <= i < |s[1..]| && s[1..][i] == y;
      assert cmp(s[0], s[i + 1]) <= 0;
    }
  }

  lemma {:induction false} SortedCons<T>(cmp: Cmp<T>, x: T, s: seq<T>)
    requires Sorted(cmp, s) && forall y :: y in s ==> cmp(x, y) <= 0
    ensures Sorted(cmp, [x] + s)
  {
  }

  /** Merging sorted runs gives a sorted run. */
  lemma {:induction false} MergeSorts<T>(cmp: Cmp<T>, a: seq<T>, b: seq<T>, all: seq<T>)
    requires Preorder(cmp, all) && Sorted(cmp, a) && Sorted(cmp, b)
    requires forall x :: x in a || x in b ==> x in all
    ensures Sorted(cmp, Merge(cmp, a, b))
    decreases |a| + |b|
  {
    if a != [] && b != [] {
      SortedTail(cmp, a);
      SortedTail(cmp, b);
      var x, rest := if cmp(a[0], b[0]) <= 0 then a[0] else b[0],
                     if cmp(a[0], b[0]) <= 0 then Merge(cmp, a[1..], b) else Merge(cmp, a, b[1..]);
      if cmp(a[0], b[0]) <= 0 {
        MergeSorts(cmp, a[1..], b, all);
      } else {
        MergeSorts(cmp, a, b[1..], all);
      }
      forall y | y in rest ensures cmp(x, y) <= 0 {
        if cmp(a[0], b[0]) <= 0 {
          MergeMember(cmp, a[1..], b, y);
          assert y in a[1..] || y == b[0] || y in b[1..];
        } else {
          MergeMember(cmp, a, b[1..], y);
          assert y == a[0] || y in a[1..] || y in b[1..];
        }
      }
      SortedCons(cmp, x, rest);
    }
  }

  lemma {:induction false} TiesCons<T>(cmp: Cmp<T>, y: T, s: seq<T>, x: T)
    ensures Ties(cmp, [y] + s, x) == if Tie(cmp, y, x) then [y] + Ties(cmp, s, x) else Ties(cmp, s, x)
  {
    assert ([y] + s)[1..] == s;
  }

  /** What lies strictly below a sorted run and ties with x leaves no ties in the run. */
  lemma {:induction false} NoTiesAbove<T>(cmp: Cmp<T>, a: seq<T>, y: T, x: T, all: seq<T>)
    requires Preorder(cmp, all) && Sorted(cmp, a) && a != [] && x in all && y in all
    requires forall z :: z in a ==> z in all
    requires !(cmp(a[0], y) <= 0) && Tie(cmp, y, x)
    ensures Ties(cmp, a, x) == []
  {
    SortedTail(cmp, a);
    forall z | z in a ensures !Tie(cmp, z, x) {
      assert z == a[0] || z in a[1..];
      assert cmp(a[0], z) <= 0 by { assert a[0] in all && (cmp(a[0], a[0]) <= 0); }
    }
    NoTies(cmp, a, x);
  }

  /** Merging keeps ties in order, the left run first. */
  lemma {:induction false} MergeStable<T>(cmp: Cmp<T>, a: seq<T>, b: seq<T>, x: T, all: seq<T>)
    requires Preorder(cmp, all) && Sorted(cmp, a) && Sorted(cmp, b)
    requires x in all && forall y :: y in a || y in b ==> y in all
    ensures Ties(cmp, Merge(cmp, a, b), x) == Ties(cmp, a, x) + Ties(cmp, b, x)
    decreases |a| + |b|
  {
    if a == [] || b == [] {
    } else if cmp(a[0], b[0]) <= 0 {
      SortedTail(cmp, a);
      MergeStable(cmp, a[1..], b, x, all);
      TiesCons(cmp, a[0], Merge(cmp, a[1..], b), x);
      Regroup([a[0]], Ties(cmp, a[1..], x), Ties(cmp, b, x));
    } else {
      SortedTail(cmp, b);
      MergeStable(cmp, a, b[1..], x, all);
      TiesCons(cmp, b[0], Merge(cmp, a, b[1..]), x);
      if Tie(cmp, b[0], x) {
        NoTiesAbove(cmp, a, b[0], x, all);
        NothingBefore(Ties(cmp, b[1..], x));
        NothingBefore(Ties(cmp, b, x));
      }
    }
  }

  lemma {:induction false} NothingBefore<T>(s: seq<T>)
    ensures [] + s == s
  {
  }

  // ----- Passes -----

  /** Every aligned run of length k is sorted. */
  ghost predicate Runs<T>(cmp: Cmp<T>, s: seq<T>, k: nat)
    requires k > 0
    decreases |s|
  {
    s == [] || (Sorted(cmp, s[..Cut(k, |s|)]) && Runs(cmp, s[Cut(k, |s|)..], k))
  }

  /** The two leading runs of a sequence made of sorted runs, and the rest. */
  lemma {:induction false} LeadingRuns<T>(cmp: Cmp<T>, s: seq<T>, k: nat)
    requires k > 0 && Runs(cmp, s, k) && s != []
    ensures var m, n := Cut(k, |s|), Cut(2 * k, |s|);
            Sorted(cmp, s[..m]) && Sorted(cmp, s[m..n]) && Runs(cmp, s[n..], k)
  {
    var m, n := Cut(k, |s|), Cut(2 * k, |s|);
    var t := s[m..];
    if t == [] {
      assert s[m..n] == [] && s[n..] == [];
    } else {
      var c := Cut(k, |t|);
      SecondRun(s, m, n);
      assert c == n - m;
      assert Sorted(cmp, t[..c]) && Runs(cmp, t[c..], k);
    }
  }

  lemma {:induction false} SecondRun<T>(s: seq<T>, m: nat, n: nat)
    requires m <= n <= |s|
    ensures s[m..][..n - m] == s[m..n] && s[m..][n - m..] == s[n..]
  {
  }

  lemma {:induction false} PassElements<T>(cmp: Cmp<T>, s: seq<T>, k: nat)
    requires k > 0
    ensures multiset(Pass(cmp, s, k)) == multiset(s)
    decreases |s|
  {
    if s != [] {
      var m, n := Cut(k, |s|), Cut(2 * k, |s|);
      PassElements(cmp, s[n..], k);
      MergeElements(cmp, s[..m], s[m..n]);
      ThreeParts(s, m, n);
    }
  }

  lemma {:induction false} ThreeParts<T>(s: seq<T>, m: nat, n: nat)
    requires m <= n <= |s|
    ensures multiset(s) == multiset(s[..m]) + multiset(s[m..n]) + multiset(s[n..])
  {
    assert s == s[..m] + s[m..n] + s[n..];
  }

  lemma {:induction false} PassDoublesRuns<T>(cmp: Cmp<T>, s: seq<T>, k: nat, all: seq<T>)
    requires k > 0 && Preorder(cmp, all) && Runs(cmp, s, k)
    requires forall x :: x in s ==> x in all
    ensures Runs(cmp, Pass(cmp, s, k), 2 * k)
    decreases |s|
  {
    if s != [] {
      var m, n := Cut(k, |s|), Cut(2 * k, |s|);
      LeadingRuns(cmp, s, k);
      PassDoublesRuns(cmp, s[n..], k, all);
      MergeSorts(cmp, s[..m], s[m..n], all);
      var r := Pass(cmp, s, k);
      assert r[..Cut(2 * k, |r|)] == Merge(cmp, s[..m], s[m..n]);
      assert r[Cut(2 * k, |r|)..] == Pass(cmp, s[n..], k);
    }
  }

  lemma {:induction false} PassStable<T>(cmp: Cmp<T>, s: seq<T>, k: nat, all: seq<T>, x: T)
    requires k > 0 && Preorder(cmp, all) && Runs(cmp, s, k)
    requires x in all && forall y :: y in s ==> y in all
    ensures Ties(cmp, Pass(cmp, s, k), x) == Ties(cmp, s, x)
    decreases |s|
  {
    if s != [] {
      var m, n := Cut(k, |s|), Cut(2 * k, |s|);
      var a, b, rest := s[..m], s[m..n], s[n..];
      LeadingRuns(cmp, s, k);
      assert Ties(cmp, Pass(cmp, rest, k), x) == Ties(cmp, rest, x) by { PassStable(cmp, rest, k, all, x); }
      MergeStable(cmp, a, b, x, all);
      TiesConcat(cmp, Merge(cmp, a, b), Pass(cmp, rest, k), x);
      TiesSplit(cmp, s, m, n, x);
    }
  }

  /** Single elements are sorted runs. */
  lemma {:induction false} RunsOfOne<T>(cmp: Cmp<T>, s: seq<T>)
    ensures Runs(cmp, s, 1)
  {
    if s != [] { RunsOfOne(cmp, s[1..]); }
  }

  lemma {:induction false} SamePreorder<T>(cmp: Cmp<T>, s: seq<T>, r: seq<T>)
    requires Preorder(cmp, s) && multiset(s) == multiset(r)
    ensures Preorder(cmp, r)
  {
    forall x | x in r ensures x in s { SameMembers(s, r, x); }
  }

  lemma {:induction false} PassesSort<T>(cmp: Cmp<T>, s: seq<T>, k: nat)
    requires k > 0 && Preorder(cmp, s) && Runs(cmp, s, k)
    ensures Sorted(cmp, Passes(cmp, s, k))
    ensures StablePermutation(cmp, s, Passes(cmp, s, k))
    decreases |s| - k
  {
    var s' := Pass(cmp, s, k);
    PassElements(cmp, s, k);
    PassDoublesRuns(cmp, s, k, s);
    forall x | x in s ensures Ties(cmp, s', x) == Ties(cmp, s, x) { PassStable(cmp, s, k, s, x); }
    if |s| <= 2 * k {
      if s' != [] { assert s'[..Cut(2 * k, |s'|)] == s'; }
    } else {
      SamePreorder(cmp, s, s');
      PassesSort(cmp, s', 2 * k);
      forall x | x in s ensures x in s' { SameMembers(s, s', x); }
    }
  }

  /** Sorting only rearranges, whatever the comparator. */
  lemma {:induction false} PassesElements<T>(cmp: Cmp<T>, s: seq<T>, k: nat)
    requires k > 0
    ensures multiset(Passes(cmp, s, k)) == multiset(s)
    decreases |s| - k
  {
    PassElements(cmp, s, k);
    if |s| > 2 * k { PassesElements(cmp, Pass(cmp, s, k), 2 * k); }
  }

  /** Bottom-up merge sort from runs of one sorts, for every total preorder, and is
      a stable permutation. */
  lemma {:induction false} MergeSortIsStable<T>(cmp: Cmp<T>, s: seq<T>)
    requires Preorder(cmp, s)
    ensures Sorted(cmp, Passes(cmp, s, 1)) && StablePermutation(cmp, s, Passes(cmp, s, 1))
  {
    RunsOfOne(cmp, s);
    PassesSort(cmp, s, 1);
  }
}
