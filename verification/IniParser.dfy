/** The loops of iniparser.c over a dictionary object, proved against the text functions. */
module IniParser {

  import opened Dictionary
  import opened IniAccept
  import opened IniFile
  import opened IniText

  // ----- Loading -----

  /** "Get rid of \n and spaces at end of line". */
  method TrimRight(line: string) returns (t: string)
    ensures t == RTrim(line)
  {
    var len := |line|;
    assert line[..len] == line;
    while len > 0 && IsSpace(line[len - 1])
      invariant len <= |line| && RTrim(line) == RTrim(line[..len])
    {
      assert line[..len][..len - 1] == line[..len - 1];
      len := len - 1;
    }
    t := line[..len];
  }

  /** One turn: read, check the length, trim, look for a continuation. */
  method TakeTurn(text: string, prefix: string) returns (r: Turn)
    requires |prefix| < ASCIILINESZ && text != ""
    ensures r == NextTurn(text, prefix)
  {
    var room := ASCIILINESZ - |prefix|;
    var n := Fgets(text, room);
    var line, rest := prefix + text[..n], text[n..];
    if n == 0 { return Stop; }
    if |line| <= 1 { return Skip(rest); }
    var eof := rest == "" && n < room - 1;
    if line[|line| - 1] != '\n' && !eof { return Stop; }
    var t := TrimRight(line);
    RTrimShort(line);
    if t != "" && t[|t| - 1] == '\\' {
      return Continued(rest, t[..|t| - 1]);
    }
    return Take(rest, t);
  }

  /** The switch over the line status, on the dictionary object. */
  method StoreLine(p: Line, section: string, errs: nat, dict: Dict) returns (section': string, errs': nat)
    requires dict.Valid()
    modifies dict, dict.key, dict.val, dict.hash
    ensures dict.Valid()
    ensures Progress(section', dict.model, errs' > 0) == Store(p, Progress(section, old(dict.model), errs > 0))
    ensures (dict.key == old(dict.key) || fresh(dict.key)) && (dict.val == old(dict.val) || fresh(dict.val))
    ensures dict.hash == old(dict.hash) || fresh(dict.hash)
  {
    section', errs' := section, errs;
    match p {
      case EmptyLine =>
      case CommentLine =>
      case SectionLine(name) =>
        section' := name;
        var memErr := dict.Set(Some(name), None);
      case ValueLine(key, value) =>
        var memErr := dict.Set(Some(section + ":" + key), Some(value));
      case ErrorLine =>
        errs' := errs + 1;
    }
  }

  /** One turn of the reading loop; `more` is false when the file is given up. */
  method ReadTurn(text: string, prefix: string, section: string, errs: nat, dict: Dict)
    returns (more: bool, text': string, prefix': string, section': string, errs': nat)
    requires text != "" && |prefix| < ASCIILINESZ && dict.Valid()
    modifies dict, dict.key, dict.val, dict.hash
    ensures dict.Valid() && |prefix'| < ASCIILINESZ && |text'| < |text|
    ensures LoadFrom(text, prefix, Progress(section, old(dict.model), errs > 0))
         == if more then LoadFrom(text', prefix', Progress(section', dict.model, errs' > 0)) else TooLong
    ensures (dict.key == old(dict.key) || fresh(dict.key)) && (dict.val == old(dict.val) || fresh(dict.val))
    ensures dict.hash == old(dict.hash) || fresh(dict.hash)
  {
    more, text', prefix', section', errs' := true, "", prefix, section, errs;
    var turn := TakeTurn(text, prefix);
    match turn {
      case Stop => more := false;
      case Skip(rest) => text' := rest;
      case Continued(rest, p) => text', prefix' := rest, p;
      case Take(rest, t) =>
        section', errs' := StoreLine(ParseLine(t, section), section, errs, dict);
        text', prefix' := rest, "";
    }
  }

  /** iniparser_load on the contents of the file: NULL, or a dictionary that stands
      for what the text says. */
  method Load(input: string, hashOf: string -> nat) returns (dict: Dict?)
    ensures (dict != null) <==> Acceptable(input)
    ensures (dict != null) <==> LoadText(input).Loaded?
    ensures dict != null ==> fresh(dict) && dict.Valid() && dict.model == LoadText(input).dict
  {
    var d := new Dict(0, hashOf);
    var more, text, prefix, section, errs := true, input, "", "", 0;
    ghost var goal := LoadText(input);
    LoadTextIff(input);
    while text != ""
      invariant fresh(d) && fresh(d.key) && fresh(d.val) && fresh(d.hash) && d.Valid()
      invariant |prefix| < ASCIILINESZ
      invariant LoadFrom(text, prefix, Progress(section, d.model, errs > 0)) == goal
      decreases |text|
    {
      more, text, prefix, section, errs := ReadTurn(text, prefix, section, errs, d);
      if !more { return null; }
    }
    dict := if errs > 0 then null else d;
  }

  // ----- Sections -----

  /** The section names in slot order. */
  function SectionNames(ks: seq<Text>, i: nat): seq<string>
    requires i <= |ks|
    decreases |ks| - i
  {
    if i == |ks| then []
    else if ks[i].Some? && IsSection(ks[i].value) then [ks[i].value] + SectionNames(ks, i + 1)
    else SectionNames(ks, i + 1)
  }

  lemma {:induction false} NamesMeanSections(ks: seq<Text>, i: nat)
    requires i <= |ks|
    ensures SectionNames(ks, i) != [] <==> exists a :: i <= a < |ks| && ks[a].Some? && IsSection(ks[a].value)
    decreases |ks| - i
  {
    if i < |ks| { NamesMeanSections(ks, i + 1); }
  }

  /** iniparser_getnsec. */
  method SectionCount(d: Dict) returns (nsec: nat)
    requires d.Valid()
    ensures nsec == |SectionNames(d.key[..], 0)|
  {
    nsec := 0;
    ghost var ks := d.key[..];
    for i := 0 to d.size
      invariant |SectionNames(ks, 0)| == nsec + |SectionNames(ks, i)|
    {
      if d.key[i].Some? && IsSection(d.key[i].value) {
        nsec := nsec + 1;
      }
    }
  }

  /** iniparser_getsecname. */
  method SectionName(d: Dict, n: int) returns (name: Text)
    requires d.Valid()
    ensures name == var names := SectionNames(d.key[..], 0);
                    if 0 <= n < |names| then Some(names[n]) else None
  {
    if n < 0 { return None; }
    var found, i := 0, 0;
    ghost var ks := d.key[..];
    ghost var names := SectionNames(ks, 0);
    while i < d.size
      invariant i <= d.size && found <= n
      invariant found + |SectionNames(ks, i)| == |names|
      invariant names[found..] == SectionNames(ks, i)
      decreases d.size - i
    {
      if d.key[i].Some? && IsSection(d.key[i].value) {
        assert names[found] == names[found..][0];
        found := found + 1;
        if found > n { return d.key[i]; }
        assert names[found..] == names[found - 1..][1..];
      }
      i := i + 1;
    }
    return None;
  }

  // ----- Dumping -----

  /** The lines for the keys of section s. */
  method WriteKeys(d: Dict, s: string) returns (out: string)
    requires d.Valid()
    ensures out == DumpKeys(d.key[..], d.val[..], s, 0)
  {
    ghost var ks, vs := d.key[..], d.val[..];
    ghost var goal := DumpKeys(ks, vs, s, 0);
    out := "";
    for j := 0 to d.size
      invariant out + DumpKeys(ks, vs, s, j) == goal
    {
      if d.key[j].Some? && Under(s, d.key[j].value) {
        var l := Pad30(d.key[j].value[|s| + 1..]) + " = " + ValueText(d.val[j]) + "\n";
        Regroup(out, l, DumpKeys(ks, vs, s, j + 1));
        out := out + l;
      }
    }
    assert out + "" == out;
  }

  /** iniparser_dumpsection_ini: the text it prints, if the entry is found. */
  method WriteSection(d: Dict, s: string) returns (out: string)
    requires d.Valid()
    ensures out == if Found(d.key[..], s) then DumpSection(d.key[..], d.val[..], s) else ""
  {
    var i := d.Scan(LowerCut(s, ASCIILINESZ + 1));
    if i == d.size { return ""; }
    assert d.key[..][i] in d.key[..];
    var keys := WriteKeys(d, s);
    out := "\n[" + s + "]\n" + keys + "\n";
  }

  /** What dumping a list of section names prints. */
  function DumpNames(ks: seq<Text>, vs: seq<Text>, names: seq<string>): string
    requires |ks| == |vs|
  {
    if names == [] then ""
    else (if Found(ks, names[0]) then DumpSection(ks, vs, names[0]) else "") + DumpNames(ks, vs, names[1..])
  }

  /** One name, and the rest. */
  lemma {:induction false} DumpNamesCons(ks: seq<Text>, vs: seq<Text>, name: string, names: seq<string>)
    requires |ks| == |vs|
    ensures DumpNames(ks, vs, [name] + names)
         == if Found(ks, name) then DumpSection(ks, vs, name) + DumpNames(ks, vs, names) else DumpNames(ks, vs, names)
  {
    assert ([name] + names)[1..] == names;
    assert "" + DumpNames(ks, vs, names) == DumpNames(ks, vs, names);
  }

  /** From slot i on, dumping by name prints what dumping by slot prints. */
  predicate SameDump(ks: seq<Text>, vs: seq<Text>, i: nat)
    requires |ks| == |vs| && i <= |ks|
  {
    DumpNames(ks, vs, SectionNames(ks, i)) == DumpSections(ks, vs, i)
  }

  lemma {:induction false} DumpByNames(ks: seq<Text>, vs: seq<Text>)
    requires |ks| == |vs|
    ensures SameDump(ks, vs, 0)
  {
    var i := |ks|;
    SameAtEnd(ks, vs);
    while i > 0
      invariant 0 <= i <= |ks| && SameDump(ks, vs, i)
    {
      i := i - 1;
      SameAt(ks, vs, i);
    }
  }

  lemma {:induction false} SameAtEnd(ks: seq<Text>, vs: seq<Text>)
    requires |ks| == |vs|
    ensures SameDump(ks, vs, |ks|)
  {
  }

  lemma {:induction false} SameAt(ks: seq<Text>, vs: seq<Text>, i: nat)
    requires |ks| == |vs| && i < |ks| && SameDump(ks, vs, i + 1)
    ensures SameDump(ks, vs, i)
  {
    if ks[i].Some? && IsSection(ks[i].value) {
      DumpNamesCons(ks, vs, ks[i].value, SectionNames(ks, i + 1));
    }
  }

  /** The branch for a dictionary without sections. */
  method WriteFlat(d: Dict) returns (out: string)
    requires d.Valid()
    ensures out == DumpFlat(d.key[..], d.val[..], 0)
  {
    ghost var ks, vs := d.key[..], d.val[..];
    out := "";
    for i := 0 to d.size
      invariant out + DumpFlat(ks, vs, i) == DumpFlat(ks, vs, 0)
    {
      ghost var more := DumpFlat(ks, vs, i + 1);
      if d.key[i].Some? {
        var l := d.key[i].value + " = " + (if d.val[i].Some? then d.val[i].value else "(null)") + "\n";
        Regroup(out, l, more);
        out := out + l;
      }
    }
    assert out + "" == out;
  }

  lemma {:induction false} NextName(ks: seq<Text>, vs: seq<Text>, names: seq<string>, i: nat)
    requires |ks| == |vs| && i < |names|
    ensures DumpNames(ks, vs, names[i..])
         == (if Found(ks, names[i]) then DumpSection(ks, vs, names[i]) else "") + DumpNames(ks, vs, names[i + 1..])
  {
    assert names[i..][0] == names[i] && names[i..][1..] == names[i + 1..];
  }

  /** The loop over the section numbers. */
  method WriteSections(d: Dict, nsec: nat) returns (out: string)
    requires d.Valid() && nsec == |SectionNames(d.key[..], 0)|
    ensures out == DumpNames(d.key[..], d.val[..], SectionNames(d.key[..], 0))
  {
    ghost var ks, vs, names := d.key[..], d.val[..], SectionNames(d.key[..], 0);
    ghost var goal := DumpNames(ks, vs, names);
    out := "";
    assert names[0..] == names && "" + goal == goal;
    for i := 0 to nsec
      invariant out + DumpNames(ks, vs, names[i..]) == goal
    {
      var name := SectionName(d, i);
      var text := WriteSection(d, name.value);
      NextName(ks, vs, names, i);
      Regroup(out, text, DumpNames(ks, vs, names[i + 1..]));
      out := out + text;
    }
    assert out + "" == out;
  }

  /** iniparser_dump_ini: the text it prints. */
  method Dump(d: Dict) returns (out: string)
    requires d.Valid()
    ensures out == DumpIni(d.key[..], d.val[..])
  {
    ghost var ks, vs := d.key[..], d.val[..];
    NamesMeanSections(ks, 0);
    var nsec := SectionCount(d);
    if nsec < 1 {
      out := WriteFlat(d);
      return;
    }
    out := WriteSections(d, nsec);
    DumpByNames(ks, vs);
    out := out + "\n";
  }
}
