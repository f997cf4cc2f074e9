/** Which texts iniparser_load accepts, and what each line of them means, said on the
    characters of the text. */
module IniAccept {

  import opened Dictionary
  import opened IniFile
  import opened IniRoundTrip
  import opened IniText

  // ----- Lines -----

  /** The text up to the first newline, and the text behind it. */
  function FirstLine(text: string): string {
    text[..Until(text, {'\n'})]
  }

  function Remainder(text: string): (r: string)
    ensures text != "" ==> |r| < |text|
  {
    var n := Until(text, {'\n'});
    if n < |text| then text[n + 1..] else ""
  }

  predicate EndsInBackslash(t: string) {
    t != "" && t[|t| - 1] == '\\'
  }

  /** A last line of one character and no newline is overlooked. */
  predicate Overlooked(text: string, prefix: string) {
    prefix == "" && |text| == 1 && text != "\n"
  }

  /** Every line, joined to what continued lines before it left, is shorter than the buffer
      by at least two characters. */
  predicate Fits(text: string, prefix: string)
    decreases |text|
  {
    text == "" ||
    (var line := prefix + FirstLine(text);
     var t := RTrim(line);
     && |line| + 1 < ASCIILINESZ
     && Fits(Remainder(text), if EndsInBackslash(t) then t[..|t| - 1] else ""))
  }

  /** The logical lines: a line whose last visible character is a backslash is joined, without
      it, to the next; one joined to nothing is dropped. */
  function Logical(text: string, prefix: string): seq<string>
    decreases |text|
  {
    if text == "" || Overlooked(text, prefix) then []
    else
      var t := RTrim(prefix + FirstLine(text));
      if EndsInBackslash(t) then Logical(Remainder(text), t[..|t| - 1])
      else [t] + Logical(Remainder(text), "")
  }

  /** A line that is neither blank nor comment nor bracketed, and has no equals sign behind
      a first character. */
  predicate Malformed(l: string) {
    var w := Strip(l);
    && w != "" && w[0] != '#' && w[0] != ';' && !(w[0] == '[' && w[|w| - 1] == ']')
    && (w[0] == '=' || '=' !in w)
  }

  // ----- Acceptance -----

  lemma {:induction false} ErrorIff(l: string, section: string)
    ensures ParseLine(l, section).ErrorLine? <==> Malformed(l)
  {
    var w := Strip(l);
    if w != "" {
      var k := Until(w, {'='});
      assert '=' in w <==> k < |w|;
      AssignmentFails(w);
    }
  }

  lemma {:induction false} AssignmentFails(w: string)
    requires w != ""
    ensures ParseAssignment(w).ErrorLine? <==> ScanKey(w).None?
  {
  }

  /** One turn of the reading loop, by lines. */
  lemma {:induction false} TurnIs(text: string, prefix: string)
    requires |prefix| < ASCIILINESZ && text != ""
    ensures var line, rest := prefix + FirstLine(text), Remainder(text);
            var t := RTrim(line);
            NextTurn(text, prefix)
            == if |line| + 1 >= ASCIILINESZ then Stop
               else if line == "" || Overlooked(text, prefix) then Skip(rest)
               else if EndsInBackslash(t) then Continued(rest, t[..|t| - 1])
               else Take(rest, t)
  {
    var m, room := Until(text, {'\n'}), ASCIILINESZ - |prefix|;
    var n := Fgets(text, room);
    if |prefix| + m + 1 < ASCIILINESZ {
      if m < |text| {
        assert prefix + text[..m + 1] == (prefix + text[..m]) + "\n";
        RTrimPadded(prefix + text[..m], "\n");
      } else {
        assert text[..m] == text;
      }
    } else if n > 0 {
      assert (prefix + text[..n])[|prefix| + n - 1] == text[n - 1];
    }
  }

  predicate Clean(ls: seq<string>) {
    forall i :: 0 <= i < |ls| ==> !Malformed(ls[i])
  }

  lemma {:induction false} CleanCons(t: string, ls: seq<string>)
    ensures Clean([t] + ls) <==> !Malformed(t) && Clean(ls)
  {
    assert ([t] + ls)[0] == t;
    assert forall i :: 0 <= i < |ls| ==> ([t] + ls)[i + 1] == ls[i];
  }

  /** The text is given up for a line that does not fit; otherwise it is refused exactly when
      there was an error or a logical line is malformed, and accepted in all other cases. */
  predicate Decided(text: string, prefix: string, st: Progress)
    requires |prefix| < ASCIILINESZ
  {
    LoadFrom(text, prefix, st)
    == if !Fits(text, prefix) then TooLong
       else if st.errs || !Clean(Logical(text, prefix)) then SyntaxErrors
       else Loaded(Contents(Logical(text, prefix), st).dict)
  }

  /** What the logical lines put into the dictionary, one after another. */
  function Contents(ls: seq<string>, st: Progress): Progress {
    if ls == [] then st else Contents(ls[1..], Store(ParseLine(ls[0], st.section), st))
  }

  lemma {:induction false} TakeDecides(text: string, prefix: string, st: Progress, rest: string, t: string)
    requires |prefix| < ASCIILINESZ && text != "" && NextTurn(text, prefix) == Take(rest, t)
    requires Decided(rest, "", Store(ParseLine(t, st.section), st))
    ensures Decided(text, prefix, st)
  {
    TurnIs(text, prefix);
    ErrorIff(t, st.section);
    var ls := Logical(rest, "");
    CleanCons(t, ls);
    assert Logical(text, prefix) == [t] + ls;
    assert ([t] + ls)[1..] == ls;
  }

  lemma {:induction false} OtherDecides(text: string, prefix: string, st: Progress)
    requires |prefix| < ASCIILINESZ && text != ""
    requires match NextTurn(text, prefix)
             case Stop => true
             case Skip(rest) => Decided(rest, prefix, st)
             case Continued(rest, p) => Decided(rest, p, st)
             case Take(_, _) => false
    ensures Decided(text, prefix, st)
  {
    TurnIs(text, prefix);
    var line, rest := prefix + FirstLine(text), Remainder(text);
    if line == "" && |line| + 1 < ASCIILINESZ {
      var ls := Logical(rest, "");
      CleanCons("", ls);
      assert Logical(text, prefix) == [""] + ls;
      assert ([""] + ls)[1..] == ls;
    }
  }

  lemma {:induction false} LoadsIff(text: string, prefix: string, st: Progress)
    requires |prefix| < ASCIILINESZ
    ensures Decided(text, prefix, st)
    decreases |text|
  {
    if text != "" {
      match NextTurn(text, prefix)
      case Stop => OtherDecides(text, prefix, st);
      case Skip(rest) => LoadsIff(rest, prefix, st); OtherDecides(text, prefix, st);
      case Continued(rest, p) => LoadsIff(rest, p, st); OtherDecides(text, prefix, st);
      case Take(rest, t) =>
        LoadsIff(rest, "", Store(ParseLine(t, st.section), st));
        TakeDecides(text, prefix, st, rest, t);
    }
  }

  /** The texts that iniparser_load turns into a dictionary. */
  predicate Acceptable(text: string) {
    Fits(text, "") && Clean(Logical(text, ""))
  }

  /** The outcome for a whole text. */
  lemma {:induction false} LoadTextIff(text: string)
    ensures LoadText(text).Loaded? <==> Acceptable(text)
    ensures LoadText(text).TooLong? <==> !Fits(text, "")
  {
    LoadsIff(text, "", Progress("", map[], false));
  }

  // ----- What a line means -----

  /** A stripped name is not cut when it is put in lower case. */
  lemma {:induction false} NotCut(s: string, len: nat)
    requires |s| + 1 < len
    ensures LowerCut(Strip(s), len) == Lower(Strip(s))
  {
    StripShort(s);
  }

  /** A bracketed line names the section up to the first closing bracket, in lower case and
      without blank edges. */
  lemma {:induction false} HeaderIs(l: string, name: string, tail: string, section: string)
    requires Strip(l) == "[" + name + tail && name != "" && ']' !in name
    requires tail != "" && tail[0] == ']' && tail[|tail| - 1] == ']'
    ensures ParseLine(l, section) == SectionLine(Lower(Strip(name)))
  {
    var w := Strip(l);
    assert w[|w| - 1] == tail[|tail| - 1];
    HeaderNameIs(w, name, tail, section);
    Bracketed(w, section);
  }

  lemma {:induction false} HeaderNameIs(w: string, name: string, tail: string, section: string)
    requires w == "[" + name + tail && name != "" && ']' !in name && tail != "" && tail[0] == ']'
    ensures HeaderName(w, section) == Lower(Strip(name))
  {
    assert w[1..] == name + tail;
    UntilIs(name, tail, {']'});
    assert w[1..1 + |name|] == name;
    NotCut(name, |w|);
  }

  lemma {:induction false} Bracketed(w: string, section: string)
    requires w != "" && w[0] == '[' && w[|w| - 1] == ']'
    ensures ParseTrimmed(w, section) == SectionLine(HeaderName(w, section))
  {
  }

  /** A line that is an assignment: a key in front of the first equals sign, some blanks,
      and text. */
  predicate Assigns(l: string, key: string, gap: string, x: string) {
    && Strip(l) == key + "=" + gap + x && Blank(gap) && key != "" && '=' !in key
    && (x == "" || !IsSpace(x[0]))
    && key[0] != '#' && key[0] != ';' && !(key[0] == '[' && Strip(l)[|Strip(l)| - 1] == ']')
  }

  /** The key is stripped and in lower case, and the value depends on the text alone. */
  lemma {:induction false} AssignmentIs(l: string, key: string, gap: string, x: string, section: string)
    requires Assigns(l, key, gap, x)
    ensures ParseLine(l, section) == ValueLine(Lower(Strip(key)), ReadBack(x))
  {
    var a, b := StripSplits(l);
    var w := Strip(l);
    if x != "" { assert w[|w| - 1] == x[|x| - 1]; }
    assert w[0] == key[0];
    ScanAssignment(w, key, gap, x);
    TrimmedAssignment(w, section);
    ParseForms(w, key, x);
    StripShort(key);
    assert Strip(key)[..|Strip(key)|] == Strip(key);
  }

  /** A value in quotes is what is between them, comment characters and blanks included; the
      closing quote may be missing. */
  lemma {:induction false} QuotedText(q: char, v: string, tail: string)
    requires IsQuote(q) && v != "" && q !in v && (tail == "" || tail[0] == q)
    ensures ReadBack([q] + v + tail) == v
  {
    var w := [q] + v + tail;
    assert w[1..] == v + tail;
    UntilIs(v, tail, {q});
    assert w[1] == v[0];
    assert w[1..1 + |v|] == v;
  }

  /** A value without quotes ends before a comment and loses its blank edges; an empty pair
      of quotes is the empty text. */
  lemma {:induction false} PlainText(v: string, tail: string)
    requires ';' !in v && '#' !in v && (tail == "" || tail[0] == ';' || tail[0] == '#') && !OpensQuote(v + tail)
    ensures ReadBack(v + tail) == if Strip(v) == "\"\"" || Strip(v) == "''" then "" else Strip(v)
  {
    UntilIs(v, tail, {';', '#'});
    assert (v + tail)[..|v|] == v;
  }

  // ----- Names are in lower case -----

  predicate LowerKeys(d: map<string, Text>) {
    forall k :: k in d ==> LowerCase(k)
  }

  lemma {:induction false} NamesLower(l: string, section: string)
    requires LowerCase(section)
    ensures var p := ParseLine(l, section);
            (p.ValueLine? ==> LowerCase(p.key)) && (p.SectionLine? ==> LowerCase(p.name))
  {
    ParsedKey(l, section);
    var w := Strip(l);
    if w != "" { HeaderLower(w, section); SectionIsHeader(w, section); }
  }

  lemma {:induction false} HeaderLower(w: string, section: string)
    requires w != ""
    ensures LowerCase(HeaderName(w, section))
  {
  }

  lemma {:induction false} SectionIsHeader(w: string, section: string)
    requires w != ""
    ensures var p := ParseTrimmed(w, section); p.SectionLine? ==> p.name == HeaderName(w, section)
  {
  }

  /** Whatever the text, every section name and every key of the loaded dictionary is in
      lower case. */
  lemma {:induction false} LoadedLower(text: string, prefix: string, st: Progress)
    requires |prefix| < ASCIILINESZ && LowerCase(st.section) && LowerKeys(st.dict)
    ensures var r := LoadFrom(text, prefix, st); r.Loaded? ==> LowerKeys(r.dict)
    decreases |text|
  {
    if text != "" {
      match NextTurn(text, prefix)
      case Stop =>
      case Skip(rest) => LoadedLower(rest, prefix, st);
      case Continued(rest, p) => LoadedLower(rest, p, st);
      case Take(rest, t) =>
        NamesLower(t, st.section);
        LoadedLower(rest, "", Store(ParseLine(t, st.section), st));
    }
  }

  // ----- Characters -----

  /** Lower case shifts the 26 capitals to the small letters and leaves every other character
      alone. */
  lemma {:induction false} LettersAre(c: char)
    ensures ToLower('A') == 'a' && ToLower('Z') == 'z'
    ensures 'A' <= c <= 'Z' ==> 'a' <= ToLower(c) <= 'z' && ToLower(c) as int - 'a' as int == c as int - 'A' as int
    ensures !('A' <= c <= 'Z') ==> ToLower(c) == c
  {
  }

  /** Blanks are space, tab, newline, vertical tab, form feed and carriage return. */
  lemma {:induction false} BlanksAre(c: char)
    ensures IsSpace(c) <==>
            c == ' ' || c == '\t' || c == '\n' || c == 11 as char || c == 12 as char || c == '\r'
  {
  }

  /** A printed key takes at least 30 columns, filled up with spaces. */
  lemma {:induction false} PaddedIs(s: string)
    ensures s <= Pad30(s) && |Pad30(s)| == (if |s| < 30 then 30 else |s|)
    ensures forall i :: |s| <= i < |Pad30(s)| ==> Pad30(s)[i] == ' '
  {
  }
}
