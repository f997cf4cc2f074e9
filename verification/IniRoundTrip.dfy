/** Loading what iniparser_dump_ini wrote gives the dictionary back. */
module IniRoundTrip {

  import opened Dictionary
  import opened IniFile
  import opened IniText

  // ----- Well-formed contents -----

  predicate GoodSection(s: string) {
    && s != "" && NoBlankEdges(s) && LowerCase(s)
    && ':' !in s && ']' !in s && '\n' !in s
    && |s| + 3 < ASCIILINESZ
  }

  /** What the parser can return as a key. */
  predicate KeyShape(k: string) {
    k != "" && NoBlankEdges(k) && LowerCase(k) && '=' !in k && k[0] != '#' && k[0] != ';'
  }

  predicate GoodKey(k: string) {
    KeyShape(k) && '\n' !in k
  }

  predicate IsQuote(c: char) {
    c == '"' || c == '\''
  }

  /** The text opens a quoted value that is not empty. */
  predicate OpensQuote(v: string) {
    |v| >= 2 && IsQuote(v[0]) && v[1] != v[0]
  }

  /** The parser gives the text back as it stands. */
  predicate Survives(v: string) {
    ';' !in v && '#' !in v && v != "\"\"" && v != "''" && !OpensQuote(v)
  }

  predicate GoodValue(v: string) {
    NoBlankEdges(v) && Survives(v) && '\n' !in v && (v != "" ==> v[|v| - 1] != '\\')
  }

  /** A line that begins with the key and ends with the value would be a section header. */
  predicate LooksLikeSection(k: string, v: string)
    requires k != ""
  {
    k[0] == '[' && v != "" && v[|v| - 1] == ']'
  }

  /** The key and value of a line that reads back. */
  predicate GoodPair(k: string, v: string)
    requires k != ""
  {
    GoodValue(v) && !LooksLikeSection(k, v)
  }

  function SectionOf(k: string): string {
    k[..Until(k, {':'})]
  }

  /** A key "s:k" with value v that can be written and read back. */
  predicate GoodEntry(m: map<string, Text>, k: string)
    requires k in m && !IsSection(k)
  {
    var s := SectionOf(k);
    && s in m && Under(s, k)
    && var name := k[|s| + 1..];
    && GoodKey(name)
    && m[k].Some? && GoodPair(name, m[k].value)
    && |Pad30(name)| + 3 + |m[k].value| + 1 < ASCIILINESZ
  }

  /** Sections without values, keys under existing sections, everything printable. */
  predicate WellFormed(m: map<string, Text>) {
    forall k :: k in m ==> if IsSection(k) then GoodSection(k) && m[k] == None else GoodEntry(m, k)
  }

  // ----- One line -----

  lemma {:induction false} ParseSection(s: string, section: string)
    requires GoodSection(s)
    ensures ParseLine("[" + s + "]", section) == SectionLine(s)
  {
    var line := "[" + s + "]";
    StripIdle(line);
    assert line[1..] == s + "]";
    UntilIs(s, "]", {']'});
    assert line[1..1 + |s|] == s;
    StripIdle(s);
    LowerIdle(s);
  }

  /** What the parser takes for the value when the text after the equals sign is w. */
  function ReadBack(w: string): (r: string)
    ensures |r| <= |w|
  {
    if OpensQuote(w) then w[1..1 + Until(w[1..], {w[0]})]
    else
      var p := Strip(w[..Until(w, {';', '#'})]);
      StripShort(w[..Until(w, {';', '#'})]);
      if p == "\"\"" || p == "''" then "" else p
  }

  lemma {:induction false} StripShort(s: string)
    ensures |Strip(s)| <= |s|
  {
    var a, b := StripSplits(s);
  }

  lemma {:induction false} ReadBackIff(w: string)
    requires NoBlankEdges(w)
    ensures ReadBack(w) == w <==> Survives(w)
  {
    var u := Until(w, {';', '#'});
    if !OpensQuote(w) {
      StripShort(w[..u]);
      if u < |w| {
        assert w[u] in w;
      } else {
        assert w[..u] == w;
        StripIdle(w);
      }
    }
  }

  /** The parts of a stripped assignment line. */
  predicate IsAssignment(line: string, key: string, gap: string, w: string) {
    && line == key + "=" + gap + w
    && key != "" && '=' !in key
    && Blank(gap) && NoBlankEdges(w)
  }

  lemma {:induction false} ScanAssignment(line: string, key: string, gap: string, w: string)
    requires IsAssignment(line, key, gap, w)
    ensures ScanKey(line) == Some((key, w))
  {
    var tail := "=" + gap + w;
    assert line == key + tail;
    UntilIs(key, tail, {'='});
    assert line[|key| + 1..] == gap + w;
    LTrimPadded(gap, w);
    StripIdle(w);
  }

  /** The forms tried in turn come to ReadBack. */
  lemma {:induction false} ParseForms(line: string, key: string, w: string)
    requires line != "" && ScanKey(line) == Some((key, w)) && NoBlankEdges(w)
    ensures ParseAssignment(line) == ValueLine(LowerCut(Strip(key), |line|), ReadBack(w))
  {
    ScanForms(line, key, w, '"');
    ScanForms(line, key, w, '\'');
    var u := Until(w, {';', '#'});
    if u == 0 {
      assert w[..u] == "";
      StripIdle("");
    }
  }

  lemma {:induction false} ScanForms(line: string, key: string, w: string, q: char)
    requires ScanKey(line) == Some((key, w)) && IsQuote(q)
    ensures ScanQuoted(line, q)
         == if OpensQuote(w) && w[0] == q then Some((key, w[1..1 + Until(w[1..], {q})])) else None
  {
    if w != "" && w[0] == q {
      assert |w| >= 2 ==> w[1..][0] == w[1];
    }
  }

  /** A key line after the trailing blanks are gone. */
  function Trimmed(k: string, pad: string, v: string): string {
    k + pad + "=" + if v == "" then "" else " " + v
  }

  lemma {:induction false} LineEdges(line: string, k: string, pad: string, gap: string, w: string)
    requires k != "" && (w == "" ==> gap == "") && line == (k + pad) + "=" + gap + w
    ensures |line| > |k| + |pad| && line[0] == k[0]
    ensures line[|line| - 1] == if w == "" then '=' else w[|w| - 1]
  {
  }

  lemma {:induction false} GoesToAssignment(line: string, section: string)
    requires line != "" && NoBlankEdges(line) && line[0] != '#' && line[0] != ';'
    requires !(line[0] == '[' && line[|line| - 1] == ']')
    ensures Strip(line) == line && ParseLine(line, section) == ParseAssignment(line)
  {
    StripIdle(line);
    TrimmedAssignment(line, section);
  }

  lemma {:induction false} TrimmedAssignment(line: string, section: string)
    requires line != "" && line[0] != '#' && line[0] != ';' && !(line[0] == '[' && line[|line| - 1] == ']')
    ensures ParseTrimmed(line, section) == ParseAssignment(line)
  {
  }

  /** The line of key k, in whatever blanks, with text w after the equals sign. */
  lemma {:induction false} ParseStripped(line: string, k: string, pad: string, gap: string, w: string, section: string)
    requires KeyShape(k) && Blank(pad) && NoBlankEdges(w) && Blank(gap) && (w == "" ==> gap == "") && |pad| > 0
    requires '=' !in pad && line == (k + pad) + "=" + gap + w && !LooksLikeSection(k, w)
    ensures Strip(line) == line
    ensures ParseLine(line, section) == ValueLine(k, ReadBack(w))
  {
    LineEdges(line, k, pad, gap, w);
    GoesToAssignment(line, section);
    ScanAssignment(line, k + pad, gap, w);
    ParseForms(line, k + pad, w);
    KeyOf(k, pad, |line|);
  }

  lemma {:induction false} ParseValue(k: string, pad: string, v: string, section: string)
    requires GoodKey(k) && GoodPair(k, v) && pad != "" && forall i :: 0 <= i < |pad| ==> pad[i] == ' '
    ensures ParseLine(Trimmed(k, pad, v), section) == ValueLine(k, v)
  {
    var line := Trimmed(k, pad, v);
    var gap := if v == "" then "" else " ";
    assert line == (k + pad) + "=" + gap + v;
    ParseStripped(line, k, pad, gap, v, section);
    ReadBackIff(v);
  }

  lemma {:induction false} ParsesStripped(line: string, section: string)
    ensures ParseLine(line, section) == ParseLine(Strip(line), section)
  {
    var a, b := StripSplits(line);
    StripIdle(Strip(line));
  }

  /** The line printed for a key and any value text, with its blanks stripped. */
  lemma {:induction false} StripLine(k: string, pad: string, v: string) returns (gap: string)
    requires KeyShape(k)
    ensures Strip(k + pad + "= " + v) == (k + pad) + "=" + gap + Strip(v)
    ensures Blank(gap) && (Strip(v) == "" ==> gap == "")
  {
    var a, b := StripSplits(v);
    var w := Strip(v);
    var line := k + pad + "= " + v;
    assert line[0] == k[0];
    assert LTrim(line) == line;
    if w == "" {
      gap := "";
      var head := k + pad + "=";
      assert line == head + (" " + a + b);
      RTrimPadded(head, " " + a + b);
      assert head[|head| - 1] == '=';
    } else {
      gap := " " + a;
      var head := (k + pad) + "=" + gap + w;
      assert line == head + b;
      RTrimPadded(head, b);
      assert head[|head| - 1] == w[|w| - 1];
    }
  }

  /** Lower case keeps the shape of a stripped key. */
  lemma {:induction false} LowerShape(x: string)
    requires x != "" && NoBlankEdges(x) && '=' !in x && x[0] != '#' && x[0] != ';'
    ensures KeyShape(Lower(x))
  {
    assert forall i :: 0 <= i < |x| ==> x[i] != '=';
  }

  /** Every key that the parser returns has that shape. */
  lemma {:induction false} ParsedKey(input: string, section: string)
    ensures var p := ParseLine(input, section); p.ValueLine? ==> KeyShape(p.key)
  {
    var a, b := StripSplits(input);
    var line := Strip(input);
    if ParseLine(input, section).ValueLine? {
      var k := Until(line, {'='});
      ScannedKey(line, line[..k]);
    }
  }

  lemma {:induction false} ScannedKey(line: string, key: string)
    requires line != "" && !IsSpace(line[0]) && line[0] != '#' && line[0] != ';'
    requires key == line[..Until(line, {'='})] && ScanKey(line).Some?
    ensures KeyShape(LowerCut(Strip(key), |line|))
  {
    var a, b := StripSplits(key);
    var x := Strip(key);
    assert key[0] == line[0];
    assert x != "" && x[0] == key[0];
    assert '=' !in x by { assert forall c :: c in x ==> c in key; }
    assert x[..|x|] == x;
    LowerShape(x);
  }

  /** A printed line parses back to its key and value exactly when the key has the shape of
      a key and the value has no blank edges, no comment character, does not look like a
      quoted or an empty value, and does not make the line look like a section header. */
  lemma {:induction false} ValueSurvivesIff(k: string, pad: string, v: string, section: string)
    requires |pad| > 0 && forall i :: 0 <= i < |pad| ==> pad[i] == ' '
    ensures ParseLine(k + pad + "= " + v, section) == ValueLine(k, v)
       <==> KeyShape(k) && NoBlankEdges(v) && Survives(v) && !LooksLikeSection(k, v)
  {
    ParsedKey(k + pad + "= " + v, section);
    if KeyShape(k) { ShapedSurvivesIff(k, pad, v, section); }
  }

  lemma {:induction false} ShapedSurvivesIff(k: string, pad: string, v: string, section: string)
    requires KeyShape(k) && |pad| > 0 && forall i :: 0 <= i < |pad| ==> pad[i] == ' '
    ensures ParseLine(k + pad + "= " + v, section) == ValueLine(k, v)
       <==> NoBlankEdges(v) && Survives(v) && !LooksLikeSection(k, v)
  {
    var a, b := StripSplits(v);
    var line := k + pad + "= " + v;
    var gap := StripLine(k, pad, v);
    ParsesStripped(line, section);
    if NoBlankEdges(v) { StripIdle(v); } else { assert |Strip(v)| < |v|; }
    if LooksLikeSection(k, Strip(v)) {
      HeaderLine(Strip(line), k, pad, gap, Strip(v), section);
    } else {
      ParseStripped(Strip(line), k, pad, gap, Strip(v), section);
      ReadBackIff(Strip(v));
    }
  }

  /** A line that looks like a section header is taken for one. */
  lemma {:induction false} HeaderLine(line: string, k: string, pad: string, gap: string, w: string, section: string)
    requires KeyShape(k) && NoBlankEdges(w) && line == (k + pad) + "=" + gap + w && LooksLikeSection(k, w)
    ensures ParseLine(line, section).SectionLine?
  {
    assert line[0] == '[' && line[|line| - 1] == ']';
    StripIdle(line);
  }

  lemma {:induction false} KeyOf(k: string, pad: string, len: nat)
    requires KeyShape(k) && len > |k| + 1 && Blank(pad)
    ensures LowerCut(Strip(k + pad), len) == k
  {
    assert (k + pad)[0] == k[0];
    RTrimPadded(k, pad);
    StripIdle(k);
    LowerIdle(k);
  }

  // ----- Reading one line of the file -----

  lemma {:induction false} FgetsLine(l: string, rest: string)
    requires '\n' !in l && |l| + 1 < ASCIILINESZ
    ensures var text := l + "\n" + rest;
            Fgets(text, ASCIILINESZ) == |l| + 1 && text[..|l| + 1] == l + "\n" && text[|l| + 1..] == rest
  {
    var text := l + "\n" + rest;
    assert text == l + ("\n" + rest);
    UntilIs(l, "\n" + rest, {'\n'});
  }

  /** A blank line is skipped. */
  lemma {:induction false} LoadBlank(rest: string, st: Progress)
    ensures LoadFrom("\n" + rest, "", st) == LoadFrom(rest, "", st)
  {
    FgetsLine("", rest);
    assert "" + "\n" + rest == "\n" + rest;
    assert "" + ("\n" + rest)[..1] == "\n";
  }

  lemma {:induction false} LoadStep(text: string, n: nat, line: string, rest: string, t: string)
    requires text != "" && Fgets(text, ASCIILINESZ) == n && 1 < n <= |text|
    requires line == text[..n] && rest == text[n..] && line[n - 1] == '\n'
    requires t == RTrim(line) && t != "" && t[|t| - 1] != '\\'
    ensures NextTurn(text, "") == Take(rest, t)
  {
    assert "" + line == line;
  }

  lemma {:induction false} LoadTaken(text: string, rest: string, t: string, st: Progress)
    requires text != "" && NextTurn(text, "") == Take(rest, t)
    ensures LoadFrom(text, "", st) == LoadFrom(rest, "", Store(ParseLine(t, st.section), st))
  {
  }

  /** A line that is not continued is parsed and stored. */
  lemma {:induction false} LoadLine(l: string, t: string, rest: string, st: Progress)
    requires l != "" && '\n' !in l && |l| + 1 < ASCIILINESZ
    requires t == RTrim(l) && t != "" && t[|t| - 1] != '\\'
    ensures LoadFrom(l + "\n" + rest, "", st) == LoadFrom(rest, "", Store(ParseLine(t, st.section), st))
  {
    FgetsLine(l, rest);
    RTrimPadded(l, "\n");
    LoadStep(l + "\n" + rest, |l| + 1, l + "\n", rest, t);
    LoadTaken(l + "\n" + rest, rest, t, st);
  }

  // ----- Reading the lines of a dump -----

  /** Everything stored so far agrees with the dictionary that was dumped. */
  predicate Within(d: map<string, Text>, m: map<string, Text>) {
    forall k :: k in d ==> k in m && d[k] == m[k]
  }

  /** The blanks between a padded name and the equals sign. */
  function Gap(name: string): (pad: string)
    ensures pad != "" && forall i :: 0 <= i < |pad| ==> pad[i] == ' '
    ensures Pad30(name) + " " == name + pad
  {
    if |name| < 30 then Spaces(30 - |name|) + " " else " "
  }

  lemma {:induction false} ValueLineText(name: string, v: string)
    requires GoodKey(name) && GoodValue(v)
    ensures RTrim(Pad30(name) + " = " + v) == Trimmed(name, Gap(name), v)
  {
    var t := Trimmed(name, Gap(name), v);
    var l := Pad30(name) + " = " + v;
    assert Pad30(name) + " = " + v == (Pad30(name) + " ") + "= " + v;
    if v == "" {
      assert l == t + " ";
      RTrimPadded(t, " ");
    } else {
      assert l == t;
    }
    assert t[|t| - 1] == if v == "" then '=' else v[|v| - 1];
  }

  lemma {:induction false} ValueLineIsOneLine(name: string, v: string)
    requires GoodKey(name) && GoodValue(v)
    ensures '\n' !in Pad30(name) + " = " + v
  {
    assert Pad30(name) + " = " + v == (name + Gap(name)) + "= " + v;
  }

  /** Reading one dumped key stores it under the current section. */
  lemma {:induction false} LoadEntry(name: string, v: string, rest: string, st: Progress)
    requires GoodKey(name) && GoodPair(name, v) && |Pad30(name)| + 3 + |v| + 1 < ASCIILINESZ
    ensures LoadFrom(Pad30(name) + " = " + v + "\n" + rest, "", st)
         == LoadFrom(rest, "", st.(dict := st.dict[st.section + ":" + name := Some(v)]))
  {
    var l, t := Pad30(name) + " = " + v, Trimmed(name, Gap(name), v);
    ValueLineText(name, v);
    ValueLineIsOneLine(name, v);
    assert t[|t| - 1] == if v == "" then '=' else v[|v| - 1];
    LoadLine(l, t, rest, st);
    ParseValue(name, Gap(name), v, st.section);
  }

  /** Reading a section header makes it current. */
  lemma {:induction false} LoadHeader(s: string, rest: string, st: Progress)
    requires GoodSection(s)
    ensures LoadFrom("[" + s + "]" + "\n" + rest, "", st)
         == LoadFrom(rest, "", st.(section := s, dict := st.dict[s := None]))
  {
    var l := "[" + s + "]";
    StripIdle(l);
    assert '\n' !in l;
    LoadLine(l, l, rest, st);
    ParseSection(s, st.section);
  }

  lemma {:induction false} KeySplits(s: string, k: string)
    requires Under(s, k) && IsSection(s)
    ensures SectionOf(k) == s && !IsSection(k)
    ensures s + ":" + k[|s| + 1..] == k
  {
    assert k == s + (":" + k[|s| + 1..]);
    UntilIs(s, ":" + k[|s| + 1..], {':'});
    assert k[|s|] in k;
  }

  /** What a well-formed dictionary says about a slot that belongs to section s. */
  lemma {:induction false} SlotOfSection(ks: seq<Text>, vs: seq<Text>, m: map<string, Text>, s: string, j: nat)
    requires Represents(ks, vs, m) && WellFormed(m) && IsSection(s) && j < |ks|
    requires ks[j].Some? && Under(s, ks[j].value)
    ensures var k := ks[j].value; var name := k[|s| + 1..];
            && GoodKey(name) && vs[j].Some? && GoodPair(name, vs[j].value)
            && |Pad30(name)| + 3 + |vs[j].value| + 1 < ASCIILINESZ
            && k in m && m[k] == vs[j] && s + ":" + name == k
  {
    KeySplits(s, ks[j].value);
    assert GoodEntry(m, ks[j].value);
  }

  /** One dumped key, in front of the remaining ones. */
  lemma {:induction false} LoadKey(ks: seq<Text>, vs: seq<Text>, m: map<string, Text>, s: string, j: nat,
                                   rest: string, d: map<string, Text>)
    requires Represents(ks, vs, m) && WellFormed(m) && IsSection(s) && j < |ks|
    requires ks[j].Some? && Under(s, ks[j].value)
    ensures LoadFrom(DumpKeys(ks, vs, s, j) + rest, "", Progress(s, d, false))
         == LoadFrom(DumpKeys(ks, vs, s, j + 1) + rest, "", Progress(s, d[ks[j].value := vs[j]], false))
  {
    SlotOfSection(ks, vs, m, s, j);
    var name, v, more := ks[j].value[|s| + 1..], vs[j].value, DumpKeys(ks, vs, s, j + 1);
    var l := Pad30(name) + " = " + v + "\n";
    assert DumpKeys(ks, vs, s, j) == l + more;
    Regroup(l, more, rest);
    LoadEntry(name, v, more + rest, Progress(s, d, false));
  }

  lemma {:induction false} NoKey(ks: seq<Text>, vs: seq<Text>, s: string, j: nat)
    requires |ks| == |vs| && j < |ks| && !(ks[j].Some? && Under(s, ks[j].value))
    ensures DumpKeys(ks, vs, s, j) == DumpKeys(ks, vs, s, j + 1)
  {
  }

  /** Every key of section s from slot j on is in d. */
  predicate HasKeys(ks: seq<Text>, s: string, j: nat, d: map<string, Text>) {
    forall i :: j <= i < |ks| && ks[i].Some? && Under(s, ks[i].value) ==> ks[i].value in d
  }

  lemma {:induction false} WithinAfter(ks: seq<Text>, vs: seq<Text>, m: map<string, Text>, j: nat, d: map<string, Text>)
    requires Represents(ks, vs, m) && Within(d, m) && j < |ks| && ks[j].Some?
    ensures var d1 := d[ks[j].value := vs[j]];
            Within(d1, m) && d.Keys <= d1.Keys && ks[j].value in d1.Keys
  {
  }

  lemma {:induction false} HasKeysFrom(ks: seq<Text>, s: string, j: nat, d: map<string, Text>)
    requires j < |ks| && HasKeys(ks, s, j + 1, d)
    requires ks[j].Some? ==> ks[j].value in d.Keys || !Under(s, ks[j].value)
    ensures HasKeys(ks, s, j, d)
  {
  }

  /** The keys of one section, from slot j on. */
  lemma {:induction false} LoadKeys(ks: seq<Text>, vs: seq<Text>, m: map<string, Text>, s: string, j: nat,
                                    rest: string, d: map<string, Text>)
    returns (d': map<string, Text>)
    requires Represents(ks, vs, m) && WellFormed(m) && IsSection(s) && j <= |ks| && Within(d, m)
    ensures LoadFrom(DumpKeys(ks, vs, s, j) + rest, "", Progress(s, d, false))
         == LoadFrom(rest, "", Progress(s, d', false))
    ensures Within(d', m) && d.Keys <= d'.Keys && HasKeys(ks, s, j, d')
    decreases |ks| - j
  {
    if j == |ks| {
      assert DumpKeys(ks, vs, s, j) + rest == rest;
      d' := d;
    } else if ks[j].Some? && Under(s, ks[j].value) {
      LoadKey(ks, vs, m, s, j, rest, d);
      var d1 := d[ks[j].value := vs[j]];
      WithinAfter(ks, vs, m, j, d);
      d' := LoadKeys(ks, vs, m, s, j + 1, rest, d1);
      HasKeysFrom(ks, s, j, d');
    } else {
      NoKey(ks, vs, s, j);
      d' := LoadKeys(ks, vs, m, s, j + 1, rest, d);
      HasKeysFrom(ks, s, j, d');
    }
  }

  /** The text of a section and what follows it, line by line. */
  lemma {:induction false} SectionText(ks: seq<Text>, vs: seq<Text>, s: string, rest: string)
    requires |ks| == |vs|
    ensures DumpSection(ks, vs, s) + rest
         == "\n" + ("[" + s + "]" + "\n" + (DumpKeys(ks, vs, s, 0) + ("\n" + rest)))
  {
  }

  /** One dumped section. */
  lemma {:induction false} LoadSection(ks: seq<Text>, vs: seq<Text>, m: map<string, Text>, s: string,
                                       rest: string, st: Progress)
    returns (st': Progress)
    requires Represents(ks, vs, m) && WellFormed(m) && s in m && IsSection(s) && Within(st.dict, m) && !st.errs
    ensures LoadFrom(DumpSection(ks, vs, s) + rest, "", st) == LoadFrom(rest, "", st')
    ensures !st'.errs && Within(st'.dict, m) && st.dict.Keys <= st'.dict.Keys && s in st'.dict
    ensures HasKeys(ks, s, 0, st'.dict)
  {
    var body := DumpKeys(ks, vs, s, 0) + ("\n" + rest);
    SectionText(ks, vs, s, rest);
    LoadBlank("[" + s + "]" + "\n" + body, st);
    LoadHeader(s, body, st);
    var d1 := st.dict[s := None];
    assert Within(d1, m) && s in d1;
    var d := LoadKeys(ks, vs, m, s, 0, "\n" + rest, d1);
    st' := Progress(s, d, false);
    LoadBlank(rest, st');
  }

  /** A section in slot a is in d with all its keys. */
  predicate HasSectionAt(ks: seq<Text>, a: nat, d: map<string, Text>)
    requires a < |ks|
  {
    ks[a].Some? && IsSection(ks[a].value) ==> ks[a].value in d && HasKeys(ks, ks[a].value, 0, d)
  }

  /** Every section from slot i on is in d with all its keys. */
  predicate HasSections(ks: seq<Text>, i: nat, d: map<string, Text>) {
    forall a :: i <= a < |ks| ==> HasSectionAt(ks, a, d)
  }

  lemma {:induction false} OneMoreSection(ks: seq<Text>, i: nat, d: map<string, Text>, d': map<string, Text>)
    requires i < |ks| && HasSectionAt(ks, i, d) && d.Keys <= d'.Keys && HasSections(ks, i + 1, d')
    ensures HasSections(ks, i, d')
  {
    assert HasSectionAt(ks, i, d');
  }

  lemma {:induction false} SectionIsFound(ks: seq<Text>, vs: seq<Text>, m: map<string, Text>, i: nat)
    requires Represents(ks, vs, m) && WellFormed(m) && i < |ks| && ks[i].Some? && IsSection(ks[i].value)
    ensures ks[i].value in m && Found(ks, ks[i].value)
  {
    var s := ks[i].value;
    assert GoodSection(s);
    LowerIdle(s);
    assert ks[i] in ks;
  }

  lemma {:induction false} DumpsSection(ks: seq<Text>, vs: seq<Text>, i: nat)
    requires |ks| == |vs| && i < |ks| && ks[i].Some? && IsSection(ks[i].value) && Found(ks, ks[i].value)
    ensures DumpSections(ks, vs, i) == DumpSection(ks, vs, ks[i].value) + DumpSections(ks, vs, i + 1)
  {
  }

  /** A section of a well-formed dictionary is written by the dump. */
  lemma {:induction false} SectionIsDumped(ks: seq<Text>, vs: seq<Text>, m: map<string, Text>, i: nat, rest: string)
    requires Represents(ks, vs, m) && WellFormed(m) && i < |ks| && ks[i].Some? && IsSection(ks[i].value)
    ensures ks[i].value in m
    ensures DumpSections(ks, vs, i) + rest
         == DumpSection(ks, vs, ks[i].value) + (DumpSections(ks, vs, i + 1) + rest)
  {
    var s := ks[i].value;
    SectionIsFound(ks, vs, m, i);
    DumpsSection(ks, vs, i);
    Regroup(DumpSection(ks, vs, s), DumpSections(ks, vs, i + 1), rest);
  }

  lemma {:induction false} NoSection(ks: seq<Text>, vs: seq<Text>, i: nat)
    requires |ks| == |vs| && i < |ks| && !(ks[i].Some? && IsSection(ks[i].value))
    ensures DumpSections(ks, vs, i) == DumpSections(ks, vs, i + 1)
  {
  }

  /** What loading sections does to the progress: nothing is lost, and nothing foreign comes in. */
  predicate Grows(st: Progress, st': Progress, m: map<string, Text>) {
    !st'.errs && Within(st'.dict, m) && st.dict.Keys <= st'.dict.Keys
  }

  /** What comes of the text from the start of a line on. */
  function Reading(text: string, st: Progress): Loaded {
    LoadFrom(text, "", st)
  }

  /** What the dump wrote for slot i. */
  lemma {:induction false} LoadSlot(ks: seq<Text>, vs: seq<Text>, m: map<string, Text>, i: nat,
                                    rest: string, st: Progress)
    returns (st': Progress)
    requires Represents(ks, vs, m) && WellFormed(m) && i < |ks| && Within(st.dict, m) && !st.errs
    ensures Reading(DumpSections(ks, vs, i) + rest, st) == Reading(DumpSections(ks, vs, i + 1) + rest, st')
    ensures Grows(st, st', m) && HasSectionAt(ks, i, st'.dict)
  {
    if ks[i].Some? && IsSection(ks[i].value) {
      SectionIsDumped(ks, vs, m, i, rest);
      st' := LoadSection(ks, vs, m, ks[i].value, DumpSections(ks, vs, i + 1) + rest, st);
    } else {
      NoSection(ks, vs, i);
      st' := st;
    }
  }

  /** All sections from slot i on. */
  lemma {:induction false} LoadSections(ks: seq<Text>, vs: seq<Text>, m: map<string, Text>, i: nat,
                                        rest: string, st: Progress)
    returns (st': Progress)
    requires Represents(ks, vs, m) && WellFormed(m) && i <= |ks| && Within(st.dict, m) && !st.errs
    ensures Reading(DumpSections(ks, vs, i) + rest, st) == Reading(rest, st')
    ensures Grows(st, st', m) && HasSections(ks, i, st'.dict)
    decreases |ks| - i
  {
    if i == |ks| {
      assert DumpSections(ks, vs, i) + rest == rest;
      st' := st;
    } else {
      var st1 := LoadSlot(ks, vs, m, i, rest, st);
      st' := LoadSections(ks, vs, m, i + 1, rest, st1);
      OneMoreSection(ks, i, st1.dict, st'.dict);
    }
  }

  /** In a well-formed dictionary every key has its section. */
  lemma {:induction false} SectionExists(ks: seq<Text>, vs: seq<Text>, m: map<string, Text>, k: string)
    requires Represents(ks, vs, m) && WellFormed(m) && k in m
    ensures HasSection(ks)
  {
    var s := if IsSection(k) then k else SectionOf(k);
    assert s in m && IsSection(s) by {
      if !IsSection(k) { assert GoodEntry(m, k); }
    }
    assert Some(s) in ks;
    var a :| 0 <= a < |ks| && ks[a] == Some(s);
    assert ks[a].Some? && IsSection(ks[a].value);
  }

  lemma {:induction false} NothingFlat(ks: seq<Text>, vs: seq<Text>, i: nat)
    requires |ks| == |vs| && i <= |ks| && forall j :: 0 <= j < |ks| ==> ks[j] == None
    ensures DumpFlat(ks, vs, i) == ""
    decreases |ks| - i
  {
    if i < |ks| { NothingFlat(ks, vs, i + 1); }
  }

  lemma {:induction false} KeyIsLoaded(ks: seq<Text>, vs: seq<Text>, m: map<string, Text>, d: map<string, Text>,
                                       k: string)
    requires Represents(ks, vs, m) && WellFormed(m) && HasSections(ks, 0, d) && k in m
    ensures k in d
  {
    var b :| 0 <= b < |ks| && ks[b] == Some(k);
    if !IsSection(k) {
      var s := SectionOf(k);
      assert GoodEntry(m, k);
      assert IsSection(s);
      var a :| 0 <= a < |ks| && ks[a] == Some(s);
      assert HasSectionAt(ks, a, d);
    } else {
      assert HasSectionAt(ks, b, d);
    }
  }

  lemma {:induction false} AllLoaded(ks: seq<Text>, vs: seq<Text>, m: map<string, Text>, d: map<string, Text>)
    requires Represents(ks, vs, m) && WellFormed(m) && HasSections(ks, 0, d) && Within(d, m)
    ensures d == m
  {
    forall k | k in m ensures k in d {
      KeyIsLoaded(ks, vs, m, d, k);
    }
  }

  /** Without a section a well-formed dictionary is empty, and so is its dump. */
  lemma {:induction false} NothingDumped(ks: seq<Text>, vs: seq<Text>, m: map<string, Text>)
    requires Represents(ks, vs, m) && WellFormed(m) && !HasSection(ks)
    ensures m == map[] && DumpIni(ks, vs) == ""
  {
    if m != map[] {
      var k :| k in m;
      SectionExists(ks, vs, m, k);
    }
    NothingFlat(ks, vs, 0);
  }

  /** Dump then load is the identity on the map, for every well-formed dictionary and
      every arrangement of its slots. */
  lemma {:induction false} DumpThenLoad(ks: seq<Text>, vs: seq<Text>, m: map<string, Text>)
    requires Represents(ks, vs, m) && WellFormed(m)
    ensures LoadText(DumpIni(ks, vs)) == Loaded(m)
  {
    if HasSection(ks) {
      var st' := LoadSections(ks, vs, m, 0, "\n", Progress("", map[], false));
      assert "\n" + "" == "\n";
      LoadBlank("", st');
      AllLoaded(ks, vs, m, st'.dict);
    } else {
      NothingDumped(ks, vs, m);
    }
  }
}
