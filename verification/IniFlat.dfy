/** The dump of a dictionary without sections: what each line says, and how it reads back. */
module IniFlat {

  import opened Dictionary
  import opened IniFile
  import opened IniRoundTrip
  import opened IniText

  /** A NULL value prints as glibc prints it. */
  function Shown(v: Text): string {
    if v.Some? then v.value else "(null)"
  }

  predicate FlatEntry(k: string, v: string) {
    !IsSection(k) && GoodKey(k) && GoodPair(k, v) && |k| + 3 + |v| + 1 < ASCIILINESZ
  }

  /** No sections, and everything printable. */
  predicate FlatForm(m: map<string, Text>) {
    forall k :: k in m ==> FlatEntry(k, Shown(m[k]))
  }

  lemma {:induction false} FlatLineText(k: string, v: string)
    requires FlatEntry(k, v)
    ensures var l := k + " = " + v; '\n' !in l && RTrim(l) == Trimmed(k, " ", v)
    ensures var t := Trimmed(k, " ", v); t != "" && t[|t| - 1] != '\\'
  {
    var l, t := k + " = " + v, Trimmed(k, " ", v);
    assert l == (k + " ") + "= " + v;
    if v == "" {
      assert l == t + " ";
      RTrimPadded(t, " ");
    } else {
      assert l == t;
    }
    assert t[|t| - 1] == if v == "" then '=' else v[|v| - 1];
  }

  /** A printed key is read back whole, under the section that is current. */
  lemma {:induction false} LoadFlatLine(k: string, v: string, rest: string, st: Progress)
    requires FlatEntry(k, v)
    ensures Reading(k + " = " + v + "\n" + rest, st)
         == Reading(rest, st.(dict := st.dict[st.section + ":" + k := Some(v)]))
  {
    FlatLineText(k, v);
    LoadLine(k + " = " + v, Trimmed(k, " ", v), rest, st);
    ParseValue(k, " ", v, st.section);
  }

  /** d holds the shown value of every key of slots [0, i) behind a colon, and nothing else. */
  predicate HoldsFlat(ks: seq<Text>, vs: seq<Text>, i: nat, d: map<string, Text>)
    requires |ks| == |vs| && i <= |ks|
  {
    && (forall a :: 0 <= a < i && ks[a].Some? ==> ":" + ks[a].value in d && d[":" + ks[a].value] == Some(Shown(vs[a])))
    && (forall x :: x in d ==> x != "" && x[0] == ':' && Some(x[1..]) in ks[..i])
  }

  lemma {:induction false} HoldsOneMore(ks: seq<Text>, vs: seq<Text>, i: nat, d: map<string, Text>)
    requires |ks| == |vs| && i < |ks| && DistinctKeys(ks) && HoldsFlat(ks, vs, i, d)
    ensures HoldsFlat(ks, vs, i + 1, OneMore(ks, vs, i, d))
  {
    assert ks[..i + 1] == ks[..i] + [ks[i]];
    if ks[i].Some? {
      var k := ks[i].value;
      assert (":" + k)[1..] == k;
      forall a | 0 <= a < i && ks[a].Some? ensures ":" + ks[a].value != ":" + k {
        assert (":" + ks[a].value)[1..] == ks[a].value;
        assert ks[a] != ks[i];
      }
    }
  }

  lemma {:induction false} FlatText(ks: seq<Text>, vs: seq<Text>, i: nat)
    requires |ks| == |vs| && i < |ks|
    ensures DumpFlat(ks, vs, i)
         == (if ks[i].Some? then ks[i].value + " = " + Shown(vs[i]) + "\n" else "") + DumpFlat(ks, vs, i + 1)
  {
  }

  lemma {:induction false} LoadFlat(ks: seq<Text>, vs: seq<Text>, m: map<string, Text>, i: nat, d: map<string, Text>)
    returns (d': map<string, Text>)
    requires Represents(ks, vs, m) && FlatForm(m) && i <= |ks| && HoldsFlat(ks, vs, i, d)
    ensures Reading(DumpFlat(ks, vs, i), Progress("", d, false)) == Loaded(d') && HoldsFlat(ks, vs, |ks|, d')
    decreases |ks| - i
  {
    if i == |ks| {
      d' := d;
    } else {
      HoldsOneMore(ks, vs, i, d);
      LoadFlatSlot(ks, vs, m, i, d);
      d' := LoadFlat(ks, vs, m, i + 1, OneMore(ks, vs, i, d));
    }
  }

  function OneMore(ks: seq<Text>, vs: seq<Text>, i: nat, d: map<string, Text>): map<string, Text>
    requires |ks| == |vs| && i < |ks|
  {
    if ks[i].Some? then d[":" + ks[i].value := Some(Shown(vs[i]))] else d
  }

  /** What the dump wrote for slot i. */
  lemma {:induction false} LoadFlatSlot(ks: seq<Text>, vs: seq<Text>, m: map<string, Text>, i: nat,
                                        d: map<string, Text>)
    requires Represents(ks, vs, m) && FlatForm(m) && i < |ks|
    ensures Reading(DumpFlat(ks, vs, i), Progress("", d, false))
         == Reading(DumpFlat(ks, vs, i + 1), Progress("", OneMore(ks, vs, i, d), false))
  {
    var rest := DumpFlat(ks, vs, i + 1);
    FlatText(ks, vs, i);
    if ks[i].Some? {
      var k := ks[i].value;
      assert FlatEntry(k, Shown(m[k]));
      LoadFlatLine(k, Shown(vs[i]), rest, Progress("", d, false));
      assert "" + ":" + k == ":" + k;
    } else {
      assert "" + rest == rest;
    }
  }

  lemma {:induction false} NoSections(ks: seq<Text>, vs: seq<Text>, m: map<string, Text>)
    requires Represents(ks, vs, m) && FlatForm(m)
    ensures !HasSection(ks)
  {
    forall a | 0 <= a < |ks| && ks[a].Some? ensures !IsSection(ks[a].value) {
      assert FlatEntry(ks[a].value, Shown(m[ks[a].value]));
    }
  }

  /** Loading the dump of a dictionary without sections gives, for every arrangement of its
      slots, exactly its keys with an empty section in front and the values as shown. */
  lemma {:induction false} FlatDumpThenLoad(ks: seq<Text>, vs: seq<Text>, m: map<string, Text>)
    requires Represents(ks, vs, m) && FlatForm(m)
    ensures var r := LoadText(DumpIni(ks, vs));
            && r.Loaded?
            && (forall k :: k in m ==> ":" + k in r.dict && r.dict[":" + k] == Some(Shown(m[k])))
            && (forall x :: x in r.dict ==> x != "" && x[0] == ':' && x[1..] in m)
  {
    NoSections(ks, vs, m);
    var d := LoadFlat(ks, vs, m, 0, map[]);
    forall k | k in m ensures ":" + k in d && d[":" + k] == Some(Shown(m[k])) {
      assert Some(k) in ks;
      var a :| 0 <= a < |ks| && ks[a] == Some(k);
    }
    forall x | x in d ensures x[1..] in m {
      assert Some(x[1..]) in ks[..|ks|];
      var a :| 0 <= a < |ks| && ks[a] == Some(x[1..]);
    }
  }

  // ----- With sections -----

  /** A section is dumped when its name, in lower case, is a key. */
  lemma {:induction false} FoundIff(ks: seq<Text>, s: string)
    requires |s| <= ASCIILINESZ
    ensures Found(ks, s) <==> Some(Lower(s)) in ks
  {
    assert s[..|s|] == s;
  }

  /** The line for a key of the section, with nothing printed for a NULL value. */
  lemma {:induction false} KeyLine(ks: seq<Text>, vs: seq<Text>, s: string, name: string, j: nat)
    requires |ks| == |vs| && j < |ks| && ks[j] == Some(s + ":" + name)
    ensures DumpKeys(ks, vs, s, j)
         == Pad30(name) + " = " + (if vs[j].Some? then vs[j].value else "") + "\n" + DumpKeys(ks, vs, s, j + 1)
  {
    var k := s + ":" + name;
    assert k[..|s|] == s && k[|s|] == ':' && k[|s| + 1..] == name;
  }
}
