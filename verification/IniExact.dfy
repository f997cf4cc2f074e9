/** Exactly which dumped entries the load loop reads back. */
module IniExact {

  import opened Dictionary
  import opened IniFile
  import opened IniRoundTrip
  import opened IniText

  // ----- No stored value holds a newline -----

  predicate OneLine(s: string) {
    '\n' !in s
  }

  lemma {:induction false} StripOneLine(s: string)
    requires OneLine(s)
    ensures OneLine(LTrim(s)) && OneLine(RTrim(s)) && OneLine(Strip(s))
  {
    var a := LeftBlanks(s);
    var b := RightBlanks(s);
    var c := RightBlanks(LTrim(s));
    assert forall x :: x in LTrim(s) ==> x in s;
    assert forall x :: x in RTrim(s) ==> x in s;
    assert forall x :: x in Strip(s) ==> x in LTrim(s);
  }

  lemma {:induction false} ScanOneLine(line: string)
    requires OneLine(line)
    ensures ScanKey(line).Some? ==> OneLine(ScanKey(line).value.1)
    ensures forall q :: ScanQuoted(line, q).Some? ==> OneLine(ScanQuoted(line, q).value.1)
    ensures ScanPlain(line).Some? ==> OneLine(ScanPlain(line).value.1)
  {
    var k := Until(line, {'='});
    if 0 < k < |line| { StripOneLine(line[k + 1..]); }
  }

  /** A value parsed from one line holds no newline. */
  lemma {:induction false} ParsedOneLine(line: string, section: string)
    requires OneLine(line)
    ensures var p := ParseLine(line, section); p.ValueLine? ==> OneLine(p.value)
  {
    StripOneLine(line);
    ScanOneLine(Strip(line));
    if ScanPlain(Strip(line)).Some? { StripOneLine(ScanPlain(Strip(line)).value.1); }
  }

  /** A newline can only be the last character that fgets takes, and trimming removes it. */
  lemma {:induction false} TakenOneLine(text: string, prefix: string)
    requires |prefix| < ASCIILINESZ && text != "" && OneLine(prefix)
    ensures var n := Fgets(text, ASCIILINESZ - |prefix|); OneLine(RTrim(prefix + text[..n]))
  {
    var n := Fgets(text, ASCIILINESZ - |prefix|);
    var line := prefix + text[..n];
    assert forall i :: 0 <= i < |line| - 1 ==> line[i] != '\n';
    var b := RightBlanks(line);
    var t := RTrim(line);
    assert forall i :: 0 <= i < |t| ==> t[i] == line[i];
    if t != "" { assert t[|t| - 1] != '\n'; }
  }

  predicate CleanValues(d: map<string, Text>) {
    forall k :: k in d && d[k].Some? ==> OneLine(d[k].value)
  }

  /** Whatever the text, no value in the loaded dictionary holds a newline. */
  lemma {:induction false} LoadedOneLine(text: string, prefix: string, st: Progress)
    requires |prefix| < ASCIILINESZ && OneLine(prefix) && CleanValues(st.dict)
    ensures var r := LoadFrom(text, prefix, st); r.Loaded? ==> CleanValues(r.dict)
    decreases |text|
  {
    if text != "" {
      TakenOneLine(text, prefix);
      match NextTurn(text, prefix)
      case Stop =>
      case Skip(rest) => LoadedOneLine(rest, prefix, st);
      case Continued(rest, p) => LoadedOneLine(rest, p, st);
      case Take(rest, t) =>
        ParsedOneLine(t, st.section);
        LoadedOneLine(rest, "", Store(ParseLine(t, st.section), st));
    }
  }

  // ----- Nor does a key -----

  lemma {:induction false} LowerOneLine(s: string, len: nat)
    requires OneLine(s) && len > 0
    ensures OneLine(LowerCut(s, len))
  {
    var x := if |s| < len - 1 then s else s[..len - 1];
    assert forall i :: 0 <= i < |x| ==> x[i] != '\n';
    assert forall i :: 0 <= i < |x| ==> Lower(x)[i] != '\n';
  }

  lemma {:induction false} KeyPartOneLine(line: string)
    requires OneLine(line)
    ensures ScanKey(line).Some? ==> OneLine(Strip(ScanKey(line).value.0))
  {
    StripOneLine(line[..Until(line, {'='})]);
  }

  lemma {:induction false} AssignedKeyOneLine(line: string)
    requires OneLine(line) && line != ""
    ensures var p := ParseAssignment(line); p.ValueLine? ==> OneLine(p.key)
  {
    KeyPartOneLine(line);
    if ScanKey(line).Some? { LowerOneLine(Strip(ScanKey(line).value.0), |line|); }
  }

  lemma {:induction false} HeaderOneLine(line: string, section: string)
    requires OneLine(line) && line != "" && OneLine(section)
    ensures OneLine(HeaderName(line, section))
  {
    var n := Until(line[1..], {']'});
    var name := if n == 0 then section else line[1..1 + n];
    StripOneLine(name);
    LowerOneLine(Strip(name), |line|);
  }

  /** Keys and section names parsed from one line hold no newline. */
  lemma {:induction false} ParsedNameOneLine(input: string, section: string)
    requires OneLine(input) && OneLine(section)
    ensures var p := ParseLine(input, section);
            (p.ValueLine? ==> OneLine(p.key)) && (p.SectionLine? ==> OneLine(p.name))
  {
    StripOneLine(input);
    TrimmedNameOneLine(Strip(input), section);
  }

  lemma {:induction false} TrimmedNameOneLine(line: string, section: string)
    requires OneLine(line) && OneLine(section)
    ensures var p := ParseTrimmed(line, section);
            (p.ValueLine? ==> OneLine(p.key)) && (p.SectionLine? ==> OneLine(p.name))
  {
    if line != "" {
      HeaderOneLine(line, section);
      AssignedKeyOneLine(line);
      AssignsValue(line);
    }
  }

  lemma {:induction false} AssignsValue(line: string)
    requires line != ""
    ensures !ParseAssignment(line).SectionLine?
  {
  }

  predicate CleanKeys(d: map<string, Text>) {
    forall k :: k in d ==> OneLine(k)
  }

  /** Whatever the text, no key in the loaded dictionary holds a newline. */
  lemma {:induction false} LoadedKeysOneLine(text: string, prefix: string, st: Progress)
    requires |prefix| < ASCIILINESZ && OneLine(prefix) && OneLine(st.section) && CleanKeys(st.dict)
    ensures var r := LoadFrom(text, prefix, st); r.Loaded? ==> CleanKeys(r.dict)
    decreases |text|
  {
    if text != "" {
      TakenOneLine(text, prefix);
      match NextTurn(text, prefix)
      case Stop =>
      case Skip(rest) => LoadedKeysOneLine(rest, prefix, st);
      case Continued(rest, p) => LoadedKeysOneLine(rest, p, st);
      case Take(rest, t) =>
        ParsedNameOneLine(t, st.section);
        StoredKeys(ParseLine(t, st.section), st);
        LoadedKeysOneLine(rest, "", Store(ParseLine(t, st.section), st));
    }
  }

  lemma {:induction false} StoredKeys(p: Line, st: Progress)
    requires OneLine(st.section) && CleanKeys(st.dict)
    requires (p.ValueLine? ==> OneLine(p.key)) && (p.SectionLine? ==> OneLine(p.name))
    ensures OneLine(Store(p, st).section) && CleanKeys(Store(p, st).dict)
  {
    if p.ValueLine? { assert OneLine(st.section + ":" + p.key); }
  }

  // ----- The exact condition -----

  function Entry(name: string, v: string): string {
    Pad30(name) + " = " + v + "\n"
  }

  /** The load loop takes the printed entry for the key and value it was printed from. */
  predicate ReadsBack(name: string, v: string, rest: string, st: Progress) {
    LoadFrom(Entry(name, v) + rest, "", st)
    == LoadFrom(rest, "", st.(dict := st.dict[st.section + ":" + name := Some(v)]))
  }

  const Nothing: Progress := Progress("", map[], false)

  /** The dictionary that holds the entry and nothing else. */
  function Only(name: string, v: string): map<string, Text> {
    map["" + ":" + name := Some(v)]
  }

  lemma {:induction false} LoadsOnly(name: string, v: string)
    requires ReadsBack(name, v, "", Nothing)
    ensures LoadFrom(Entry(name, v), "", Nothing) == Loaded(Only(name, v))
  {
    assert Entry(name, v) + "" == Entry(name, v);
  }

  /** A newline in key or value is lost. */
  lemma {:induction false} NewlineIsLost(name: string, v: string)
    requires ReadsBack(name, v, "", Nothing)
    ensures OneLine(name) && OneLine(v)
  {
    LoadsOnly(name, v);
    LoadedOneLine(Entry(name, v), "", Nothing);
    LoadedKeysOneLine(Entry(name, v), "", Nothing);
    var key, d := "" + ":" + name, Only(name, v);
    assert key in d && d[key] == Some(v);
    assert key[1..] == name && OneLine(key);
  }

  lemma {:induction false} OneLineEntry(name: string, v: string)
    requires OneLine(name) && OneLine(v)
    ensures var l := Pad30(name) + " = " + v;
            OneLine(l) && l == name + Gap(name) + "= " + v && (v != "" ==> l[|l| - 1] == v[|v| - 1])
  {
    var l := Pad30(name) + " = " + v;
    assert l == (Pad30(name) + " ") + "= " + v;
    assert l == (name + Gap(name)) + "= " + v;
  }

  /** A line that does not fit the buffer ends the reading. */
  lemma {:induction false} LongLineStops(l: string)
    requires OneLine(l) && |l| + 1 >= ASCIILINESZ
    ensures LoadFrom(l + "\n", "", Nothing) == TooLong
  {
    var text := l + "\n";
    UntilIs(l, "\n", {'\n'});
    var n := Fgets(text, ASCIILINESZ);
    assert n == ASCIILINESZ - 1;
    var line := "" + text[..n];
    assert line[|line| - 1] == l[n - 1];
    assert text[n..] != "";
    assert NextTurn(text, "") == Stop;
  }

  /** A line whose last character is a backslash waits for the next line, and at the end
      of the file nothing of it is stored. */
  lemma {:induction false} BackslashIsLost(l: string, t: string)
    requires OneLine(l) && |l| + 1 < ASCIILINESZ && t == RTrim(l) && t != "" && t[|t| - 1] == '\\'
    ensures LoadFrom(l + "\n", "", Nothing) == Loaded(map[])
  {
    FgetsLine(l, "");
    var text := l + "\n";
    assert text == l + "\n" + "";
    RTrimPadded(l, "\n");
    assert "" + text == text;
    assert text[..|text|] == text;
    assert NextTurn(text, "") == Continued("", t[..|t| - 1]);
  }

  /** Trimming first makes no difference to the parser. */
  lemma {:induction false} SameParse(l: string)
    ensures ParseLine(l, "") == ParseLine(RTrim(l), "")
  {
    var a, b := StripSplits(l);
    var w := Strip(l);
    RTrimPadded(a + w, b);
    if w == "" {
      assert a + w == a && l == a + b;
      AllBlank(a + b);
      AllBlank(a);
    } else {
      assert (a + w)[|a + w| - 1] == w[|w| - 1];
      TrimStops(a + w);
      LTrimPadded(a, w);
      StripIdle(w);
    }
    ParsesStripped(l, "");
    ParsesStripped(RTrim(l), "");
  }

  lemma {:induction false} AllBlank(s: string)
    requires Blank(s)
    ensures RTrim(s) == "" && LTrim(s) == "" && Strip(s) == ""
  {
    RTrimPadded("", s);
    LTrimPadded(s, "");
    assert "" + s == s && s + "" == s;
  }

  /** Only a value line leaves exactly the wanted binding. */
  lemma {:induction false} ParsedFrom(p: Line, name: string, v: string)
    requires LoadFrom("", "", Store(p, Nothing)) == Loaded(Only(name, v))
    ensures p == ValueLine(name, v)
  {
    var key, wanted := "" + ":" + name, Only(name, v);
    assert key in wanted && wanted[key] == Some(v) && key !in Nothing.dict;
    match p
    case EmptyLine =>
    case CommentLine =>
    case ErrorLine =>
    case SectionLine(s) =>
    case ValueLine(k, w) =>
      var key' := "" + ":" + k;
      assert key in map[key' := Some(w)];
      assert key == key';
      assert key[1..] == name && key'[1..] == k;
  }

  /** What is stored from an entry that is read back is what its line parses to. */
  lemma {:induction false} StoredIsParsed(name: string, v: string)
    requires ReadsBack(name, v, "", Nothing) && OneLine(name) && OneLine(v)
    ensures |Pad30(name)| + 3 + |v| + 1 < ASCIILINESZ && (v != "" ==> v[|v| - 1] != '\\')
    ensures ParseLine(name + Gap(name) + "= " + v, "") == ValueLine(name, v)
  {
    var l := Pad30(name) + " = " + v;
    LoadsOnly(name, v);
    OneLineEntry(name, v);
    if |l| + 1 >= ASCIILINESZ { LongLineStops(l); }
    var t := RTrim(l);
    TrimmedEntry(l, name, v);
    var wanted := Only(name, v);
    assert "" + ":" + name in wanted;
    TrimStops(l);
    if t[|t| - 1] == '\\' {
      BackslashIsLost(l, t);
    } else {
      assert l + "\n" + "" == l + "\n";
      LoadLine(l, t, "", Nothing);
      ParsedFrom(ParseLine(t, ""), name, v);
      SameParse(l);
    }
  }

  lemma {:induction false} TrimmedEntry(l: string, name: string, v: string)
    requires l == Pad30(name) + " = " + v
    ensures RTrim(l) != ""
  {
    var b := RightBlanks(l);
    assert l[|Pad30(name)| + 1] == '=';
    assert RTrim(l) + b == l;
  }

  /** The key has the shape of a key, the line fits, and the value survives. */
  predicate Printable(name: string, v: string) {
    GoodKey(name) && GoodPair(name, v) && |Pad30(name)| + 3 + |v| + 1 < ASCIILINESZ
  }

  /** A printed entry is read back, in whatever it is embedded, if and only if its key is
      lower case without newline, equals sign, blank edges and leading comment character,
      its line fits the buffer, and its value has no newline, no blank edges, no comment
      character and no backslash at the end, does not look quoted or empty, and does not
      make the line look like a section header. */
  lemma {:induction false} EntrySurvivesIff(name: string, v: string)
    ensures (forall rest, st :: ReadsBack(name, v, rest, st)) <==> Printable(name, v)
  {
    if Printable(name, v) {
      forall rest, st ensures ReadsBack(name, v, rest, st) {
        LoadEntry(name, v, rest, st);
      }
    }
    if forall rest, st :: ReadsBack(name, v, rest, st) {
      assert ReadsBack(name, v, "", Nothing);
      NewlineIsLost(name, v);
      StoredIsParsed(name, v);
      ValueSurvivesIff(name, Gap(name), v, "");
    }
  }
}
