/** The INI dictionary: three parallel arrays of slots that agree with a map from
    keys to optional values. */
module Dictionary {

  const DICTMINSZ: nat := 128

  datatype Option<T> = None | Some(value: T)

  /** A C string pointer: NULL or the characters. */
  type Text = Option<string>

  /** Number of occupied slots. */
  function Occupied(ks: seq<Text>): nat {
    if ks == [] then 0 else (if ks[0].Some? then 1 else 0) + Occupied(ks[1..])
  }

  lemma {:induction false} OccupiedUpdate(ks: seq<Text>, i: nat, k: Text)
    requires i < |ks|
    ensures Occupied(ks[i := k]) == Occupied(ks) - (if ks[i].Some? then 1 else 0) + (if k.Some? then 1 else 0)
  {
    if i == 0 {
      assert ks[i := k][1..] == ks[1..];
    } else {
      OccupiedUpdate(ks[1..], i - 1, k);
      assert ks[i := k][1..] == ks[1..][i - 1 := k];
    }
  }

  /** Fewer occupied slots than slots: one is free. */
  lemma {:induction false} FreeSlot(ks: seq<Text>) returns (f: nat)
    requires Occupied(ks) < |ks|
    ensures f < |ks| && ks[f] == None
  {
    if ks[0] == None {
      f := 0;
    } else {
      f := FreeSlot(ks[1..]);
      f := f + 1;
    }
  }

  lemma {:induction false} AllFree(ks: seq<Text>)
    requires forall i :: 0 <= i < |ks| ==> ks[i] == None
    ensures Occupied(ks) == 0
  {
    if ks != [] { AllFree(ks[1..]); }
  }

  lemma {:induction false} OccupiedConcat(a: seq<Text>, b: seq<Text>)
    ensures Occupied(a + b) == Occupied(a) + Occupied(b)
  {
    if a == [] {
      assert a + b == b;
    } else {
      OccupiedConcat(a[1..], b);
      assert (a + b)[1..] == a[1..] + b;
    }
  }

  lemma {:induction false} OccupiedBound(ks: seq<Text>)
    ensures Occupied(ks) <= |ks|
    ensures Occupied(ks) == 0 ==> forall i :: 0 <= i < |ks| ==> ks[i] == None
  {
    if ks != [] {
      OccupiedBound(ks[1..]);
      if Occupied(ks) == 0 {
        forall i | 0 <= i < |ks| ensures ks[i] == None {
          if i > 0 { assert ks[i] == ks[1..][i - 1]; }
        }
      }
    }
  }

  /** No key sits in two slots. */
  predicate DistinctKeys(ks: seq<Text>) {
    forall i, j :: 0 <= i < j < |ks| && ks[i].Some? ==> ks[i] != ks[j]
  }

  /** The slots hold exactly the bindings of `m`. */
  predicate Represents(ks: seq<Text>, vs: seq<Text>, m: map<string, Text>) {
    && |ks| == |vs|
    && DistinctKeys(ks)
    && (forall i :: 0 <= i < |ks| && ks[i].Some? ==> ks[i].value in m && m[ks[i].value] == vs[i])
    && (forall k :: k in m ==> Some(k) in ks)
  }

  /** Overwriting the value in the slot of a key. */
  lemma {:induction false} RepresentsUpdate(ks: seq<Text>, vs: seq<Text>, m: map<string, Text>, i: nat, k: string,
                                            v: Text)
    requires Represents(ks, vs, m) && i < |ks| && ks[i] == Some(k)
    ensures Represents(ks, vs[i := v], m[k := v])
  {
    assert k in m;
  }

  /** Filling a free slot with a new key. */
  lemma {:induction false} RepresentsInsert(ks: seq<Text>, vs: seq<Text>, m: map<string, Text>, i: nat, k: string,
                                            v: Text)
    requires Represents(ks, vs, m) && i < |ks| && ks[i] == None && Some(k) !in ks
    ensures Represents(ks[i := Some(k)], vs[i := v], m[k := v])
  {
    var ks', m' := ks[i := Some(k)], m[k := v];
    forall x | x in m' ensures Some(x) in ks' {
      if x != k {
        var j :| 0 <= j < |ks| && ks[j] == Some(x);
        assert ks'[j] == Some(x);
      } else {
        assert ks'[i] == Some(x);
      }
    }
  }

  /** Emptying the slot of a key. */
  lemma {:induction false} RepresentsRemove(ks: seq<Text>, vs: seq<Text>, m: map<string, Text>, i: nat, k: string)
    requires Represents(ks, vs, m) && i < |ks| && ks[i] == Some(k)
    ensures Represents(ks[i := None], vs[i := None], m - {k})
  {
    var ks', m' := ks[i := None], m - {k};
    forall x | x in m' ensures Some(x) in ks' {
      var j :| 0 <= j < |ks| && ks[j] == Some(x);
      assert ks'[j] == Some(x);
    }
    forall j | 0 <= j < |ks'| && ks'[j].Some? ensures ks'[j].value in m' {
      assert ks[j].value != k;
    }
  }

  /** Doubling with free slots. */
  lemma {:induction false} RepresentsGrow(ks: seq<Text>, vs: seq<Text>, m: map<string, Text>, pad: seq<Text>,
                                          padv: seq<Text>)
    requires Represents(ks, vs, m) && |pad| == |padv| && forall i :: 0 <= i < |pad| ==> pad[i] == None
    ensures Represents(ks + pad, vs + padv, m)
  {
    var ks' := ks + pad;
    forall k | k in m ensures Some(k) in ks' {
      var j :| 0 <= j < |ks| && ks[j] == Some(k);
      assert ks'[j] == Some(k);
    }
  }

  /** Every occupied slot carries the hash of its key. */
  predicate HashesMatch(hashOf: string -> nat, ks: seq<Text>, hs: seq<nat>) {
    |ks| == |hs| && forall i :: 0 <= i < |ks| && ks[i].Some? ==> hs[i] == hashOf(ks[i].value)
  }

  lemma {:induction false} HashesAfter(hashOf: string -> nat, ks: seq<Text>, hs: seq<nat>, i: nat, k: Text, h: nat)
    requires HashesMatch(hashOf, ks, hs) && i < |ks| && (k.Some? ==> h == hashOf(k.value))
    ensures HashesMatch(hashOf, ks[i := k], hs[i := h])
  {
  }

  lemma {:induction false} HashesGrow(hashOf: string -> nat, ks: seq<Text>, hs: seq<nat>, pad: seq<Text>,
                                      zeros: seq<nat>)
    requires HashesMatch(hashOf, ks, hs) && |pad| == |zeros| && forall i :: 0 <= i < |pad| ==> pad[i] == None
    ensures HashesMatch(hashOf, ks + pad, hs + zeros)
  {
  }

  /** Doubling all three arrays keeps what they stand for. */
  lemma {:induction false} GrowKeeps(hashOf: string -> nat, ks: seq<Text>, vs: seq<Text>, hs: seq<nat>,
                                     m: map<string, Text>)
    requires Represents(ks, vs, m) && HashesMatch(hashOf, ks, hs)
    ensures var free: seq<Text> := seq(|ks|, _ => None);
            && Occupied(ks + free) == Occupied(ks)
            && Represents(ks + free, vs + free, m)
            && HashesMatch(hashOf, ks + free, hs + seq(|ks|, _ => 0))
  {
    var free: seq<Text> := seq(|ks|, _ => None);
    AllFree(free);
    OccupiedConcat(ks, free);
    RepresentsGrow(ks, vs, m, free, free);
    HashesGrow(hashOf, ks, hs, free, seq(|ks|, _ => 0));
  }

  /** calloc of twice the space and memcpy of the old content. */
  method Doubled<T>(a: array<T>, zero: T) returns (b: array<T>)
    ensures fresh(b) && b.Length == 2 * a.Length
    ensures b[..] == a[..] + seq(a.Length, _ => zero)
  {
    b := new T[2 * a.Length](_ => zero);
    var i := 0;
    while i < a.Length
      invariant 0 <= i <= a.Length
      invariant b[..i] == a[..i] && forall j :: i <= j < b.Length ==> b[j] == zero
    {
      b[i] := a[i];
      i := i + 1;
    }
    assert b[..] == b[..a.Length] + b[a.Length..];
    assert b[a.Length..] == seq(a.Length, _ => zero);
  }

  class Dict {
    const hashOf: string -> nat
    var n: nat
    var size: nat
    var key: array<Text>
    var val: array<Text>
    var hash: array<nat>

    /** The map the dictionary stands for. */
    ghost var model: map<string, Text>

    ghost predicate Valid()
      reads this, key, val, hash
    {
      && key != val && key.Length == val.Length == hash.Length == size && size >= DICTMINSZ
      && n == Occupied(key[..])
      && HashesMatch(hashOf, key[..], hash[..])
      && Represents(key[..], val[..], model)
    }

    /** dictionary_new. */
    constructor (requested: nat, hashOf: string -> nat)
      ensures Valid() && model == map[] && fresh(key) && fresh(val) && fresh(hash) && this.hashOf == hashOf
      ensures n == 0 && size == if requested < 128 then 128 else requested
    {
      this.hashOf := hashOf;
      var sz := if requested < DICTMINSZ then DICTMINSZ else requested;
      n, size := 0, sz;
      key := new Text[sz](_ => None);
      val := new Text[sz](_ => None);
      hash := new nat[sz](_ => 0);
      model := map[];
      new;
      AllFree(key[..]);
    }

    /** The scan shared by get, set and unset: the slot of the key, or size. */
    method Scan(k: string) returns (i: nat)
      requires Valid()
      ensures i <= size
      ensures i < size ==> key[i] == Some(k)
      ensures i == size ==> k !in model && Some(k) !in key[..]
    {
      var h := hashOf(k);
      i := 0;
      while i < size
        invariant i <= size
        invariant forall j :: 0 <= j < i ==> key[j] != Some(k)
      {
        if key[i].Some? && h == hash[i] && k == key[i].value {
          return;
        }
        i := i + 1;
      }
    }

    /** dictionary_get. */
    method Get(k: string, def: Text) returns (v: Text)
      requires Valid()
      ensures v == if k in model then model[k] else def
    {
      var i := Scan(k);
      v := if i < size then val[i] else def;
    }

    /** dictionary_grow, with memory available. */
    method Grow()
      requires Valid()
      modifies this`size, this`key, this`val, this`hash
      ensures Valid() && size == 2 * old(size)
      ensures fresh(key) && fresh(val) && fresh(hash)
    {
      ghost var ks, vs, hs := key[..], val[..], hash[..];
      var newVal := Doubled(val, None);
      var newKey := Doubled(key, None);
      var newHash := Doubled(hash, 0);
      GrowKeeps(hashOf, ks, vs, hs, model);
      size, val, key, hash := 2 * size, newVal, newKey, newHash;
    }

    /** The first free slot from n on, wrapping at size. */
    method FindFree() returns (i: nat)
      requires Valid() && n < size
      ensures i < size && key[i] == None
      ensures forall j :: n <= j < (if i < n then size else i) ==> key[j].Some?
      ensures i < n ==> forall j :: 0 <= j < i ==> key[j].Some?
    {
      ghost var f := FreeSlot(key[..]);
      assert key[f] == None;
      i := n;
      while key[i].Some?
        invariant i < size
        invariant forall j :: n <= j < (if i < n then size else i) ==> key[j].Some?
        invariant i < n ==> forall j :: 0 <= j < i ==> key[j].Some?
        decreases if i <= f then f - i else f - i + size
      {
        i := i + 1;
        if i == size {
          i := 0;
        }
      }
    }

    /** Write the found slot of an existing key. */
    method Overwrite(i: nat, k: string, v: Text)
      requires Valid() && i < size && key[i] == Some(k)
      modifies this`model, val
      ensures Valid() && model == old(model)[k := v]
    {
      RepresentsUpdate(key[..], val[..], model, i, k, v);
      val[i] := v;
      model := model[k := v];
      assert val[..] == old(val[..])[i := v];
    }

    /** Fill a free slot with a new key. */
    method Fill(i: nat, k: string, v: Text)
      requires Valid() && i < size && key[i] == None && Some(k) !in key[..]
      modifies this`model, this`n, key, val, hash
      ensures Valid() && model == old(model)[k := v]
    {
      RepresentsInsert(key[..], val[..], model, i, k, v);
      OccupiedUpdate(key[..], i, Some(k));
      HashesAfter(hashOf, key[..], hash[..], i, Some(k), hashOf(k));
      key[i] := Some(k);
      val[i] := v;
      hash[i] := hashOf(k);
      n := n + 1;
      model := model[k := v];
      assert key[..] == old(key[..])[i := Some(k)] && val[..] == old(val[..])[i := v];
      assert hash[..] == old(hash[..])[i := hashOf(k)];
    }

    /** dictionary_set, with memory available. */
    method Set(k: Text, v: Text) returns (r: int)
      requires Valid()
      modifies this, key, val, hash
      ensures Valid()
      ensures r == if k == None then -1 else 0
      ensures model == if k == None then old(model) else old(model)[k.value := v]
      ensures (key == old(key) || fresh(key)) && (val == old(val) || fresh(val)) && (hash == old(hash) || fresh(hash))
    {
      if k == None { return -1; }
      OccupiedBound(key[..]);
      var i := size;
      if n > 0 {
        i := Scan(k.value);
      }
      if i < size {
        Overwrite(i, k.value, v);
        return 0;
      }
      if n == size {
        Grow();
      }
      i := FindFree();
      Fill(i, k.value, v);
      r := 0;
    }

    /** Empty the slot of a key. */
    method Clear(i: nat, k: string)
      requires Valid() && i < size && key[i] == Some(k)
      modifies this`model, this`n, key, val, hash
      ensures Valid() && model == old(model) - {k}
    {
      RepresentsRemove(key[..], val[..], model, i, k);
      OccupiedUpdate(key[..], i, None);
      OccupiedBound(key[..][i := None]);
      HashesAfter(hashOf, key[..], hash[..], i, None, 0);
      key[i] := None;
      val[i] := None;
      hash[i] := 0;
      n := n - 1;
      model := model - {k};
      assert key[..] == old(key[..])[i := None] && val[..] == old(val[..])[i := None];
      assert hash[..] == old(hash[..])[i := 0];
    }

    /** dictionary_unset. */
    method Unset(k: Text)
      requires Valid()
      modifies this`model, this`n, key, val, hash
      ensures Valid()
      ensures model == if k == None then old(model) else old(model) - {k.value}
    {
      if k == None { return; }
      var i := Scan(k.value);
      if i < size {
        Clear(i, k.value);
      }
    }
  }
}
