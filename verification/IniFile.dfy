/** iniparser_line, iniparser_load and iniparser_dump_ini as functions of text. */
module IniFile {

  import opened Dictionary
  import opened IniText

  const ASCIILINESZ: nat := 1024

  // ----- One line -----

  datatype Line =
    | EmptyLine
    | CommentLine
    | SectionLine(name: string)
    | ValueLine(key: string, value: string)
    | ErrorLine

  /** "%[^=] =": the text before the first '=', and what follows it and any blanks. */
  function ScanKey(line: string): (r: Option<(string, string)>) {
    var k := Until(line, {'='});
    if k == 0 || k == |line| then None else Some((line[..k], LTrim(line[k + 1..])))
  }

  /** "%[^=] = Q%[^Q]Q" for a quote character Q. */
  function ScanQuoted(line: string, quote: char): Option<(string, string)> {
    match ScanKey(line)
    case None => None
    case Some((key, rest)) =>
      if rest == "" || rest[0] != quote then None
      else
        var v := Until(rest[1..], {quote});
        if v == 0 then None else Some((key, rest[1..1 + v]))
  }

  /** "%[^=] = %[^;#]". */
  function ScanPlain(line: string): Option<(string, string)> {
    match ScanKey(line)
    case None => None
    case Some((key, rest)) =>
      var v := Until(rest, {';', '#'});
      if v == 0 then None else Some((key, rest[..v]))
  }

  /** strlwc into a buffer of `len` characters. */
  function LowerCut(s: string, len: nat): string
    requires len > 0
  {
    Lower(if |s| < len - 1 then s else s[..len - 1])
  }

  /** iniparser_line; `section` is what the section buffer holds from before. */
  function ParseLine(input: string, section: string): Line {
    ParseTrimmed(Strip(input), section)
  }

  function ParseTrimmed(line: string, section: string): Line {
    var len := |line|;
    if len < 1 then EmptyLine
    else if line[0] == '#' || line[0] == ';' then CommentLine
    else if line[0] == '[' && line[len - 1] == ']' then SectionLine(HeaderName(line, section))
    else ParseAssignment(line)
  }

  /** An empty pair of brackets leaves the buffer with the current section in it. */
  function HeaderName(line: string, section: string): string
    requires line != ""
  {
    var n := Until(line[1..], {']'});
    LowerCut(Strip(if n == 0 then section else line[1..1 + n]), |line|)
  }

  /** The key and value forms, tried in the order of the sscanf calls. */
  function ParseAssignment(line: string): Line
    requires line != ""
  {
    var quoted := if ScanQuoted(line, '"').Some? then ScanQuoted(line, '"') else ScanQuoted(line, '\'');
    if quoted.Some? then
      ValueLine(LowerCut(Strip(quoted.value.0), |line|), quoted.value.1)
    else if ScanPlain(line).Some? then
      var (key, value) := ScanPlain(line).value;
      var v := Strip(value);
      ValueLine(LowerCut(Strip(key), |line|), if v == "\"\"" || v == "''" then "" else v)
    else if ScanKey(line).Some? then
      // key=   key=;   key=#
      ValueLine(LowerCut(Strip(ScanKey(line).value.0), |line|), "")
    else ErrorLine
  }

  // ----- Loading -----

  /** How much fgets takes from `text` into a buffer of `room` characters. */
  function Fgets(text: string, room: nat): (n: nat)
    requires room > 0
    ensures n <= |text| && n <= room - 1
    ensures text != "" && room > 1 ==> n > 0
  {
    var m := Until(text, {'\n'});
    var whole := if m < |text| then m + 1 else m;
    if whole < room then whole else room - 1
  }

  datatype Loaded = TooLong | SyntaxErrors | Loaded(dict: map<string, Text>)

  /** The section buffer, what has been stored, and whether a syntax error occurred. */
  datatype Progress = Progress(section: string, dict: map<string, Text>, errs: bool)

  /** The switch over the line status. */
  function Store(p: Line, st: Progress): Progress {
    match p
    case EmptyLine => st
    case CommentLine => st
    case SectionLine(name) => st.(section := name, dict := st.dict[name := None])
    case ValueLine(key, value) => st.(dict := st.dict[st.section + ":" + key := Some(value)])
    case ErrorLine => st.(errs := true)
  }

  /** What one turn of the reading loop finds. */
  datatype Turn =
    | Stop
    | Skip(rest: string)
    | Continued(rest: string, prefix: string)
    | Take(rest: string, line: string)

  function NextTurn(text: string, prefix: string): (r: Turn)
    requires |prefix| < ASCIILINESZ && text != ""
    ensures r.Continued? ==> |r.prefix| < ASCIILINESZ
    ensures !r.Stop? ==> |r.rest| < |text|
  {
    var room := ASCIILINESZ - |prefix|;
    var n := Fgets(text, room);
    var line, rest := prefix + text[..n], text[n..];
    if n == 0 then Stop  // the buffer is full and more is to come
    else if |line| <= 1 then Skip(rest)
    else if line[|line| - 1] != '\n' && !(rest == "" && n < room - 1) then Stop
    else
      var t := RTrim(line);
      RTrimShort(line);
      if t != "" && t[|t| - 1] == '\\' then Continued(rest, t[..|t| - 1]) else Take(rest, t)
  }

  lemma {:induction false} RTrimShort(s: string)
    ensures |RTrim(s)| <= |s|
    decreases |s|
  {
    if s != "" && IsSpace(s[|s| - 1]) { RTrimShort(s[..|s| - 1]); }
  }

  /** The reading loop of iniparser_load; `prefix` is what a continued line left in
      the line buffer. */
  function LoadFrom(text: string, prefix: string, st: Progress): Loaded
    requires |prefix| < ASCIILINESZ
    decreases |text|
  {
    if text == "" then (if st.errs then SyntaxErrors else Loaded(st.dict))
    else
      match NextTurn(text, prefix)
      case Stop => TooLong
      case Skip(rest) => LoadFrom(rest, prefix, st)
      case Continued(rest, p) => LoadFrom(rest, p, st)
      case Take(rest, t) => LoadFrom(rest, "", Store(ParseLine(t, st.section), st))
  }

  function LoadText(text: string): Loaded {
    LoadFrom(text, "", Progress("", map[], false))
  }

  // ----- Dumping -----

  function Spaces(n: nat): (s: string)
    ensures |s| == n && forall i :: 0 <= i < n ==> s[i] == ' '
  {
    if n == 0 then "" else " " + Spaces(n - 1)
  }

  /** "%-30s". */
  function Pad30(s: string): string {
    if |s| < 30 then s + Spaces(30 - |s|) else s
  }

  predicate IsSection(k: string) {
    ':' !in k
  }

  /** `k` is "s:" followed by something. */
  predicate Under(s: string, k: string) {
    |s| + 1 <= |k| && k[..|s|] == s && k[|s|] == ':'
  }

  function ValueText(v: Text): string {
    if v.Some? then v.value else ""
  }

  /** The lines for the keys of section s, from slot j on. */
  function DumpKeys(ks: seq<Text>, vs: seq<Text>, s: string, j: nat): string
    requires |ks| == |vs| && j <= |ks|
    decreases |ks| - j
  {
    if j == |ks| then ""
    else
      var rest := DumpKeys(ks, vs, s, j + 1);
      if ks[j].Some? && Under(s, ks[j].value) then
        Pad30(ks[j].value[|s| + 1..]) + " = " + ValueText(vs[j]) + "\n" + rest
      else rest
  }

  /** iniparser_dumpsection_ini for a section that iniparser_find_entry finds. */
  function DumpSection(ks: seq<Text>, vs: seq<Text>, s: string): string
    requires |ks| == |vs|
  {
    "\n[" + s + "]\n" + DumpKeys(ks, vs, s, 0) + "\n"
  }

  /** iniparser_find_entry: the lower-cased (and cut) name is a key. */
  predicate Found(ks: seq<Text>, s: string) {
    Some(LowerCut(s, ASCIILINESZ + 1)) in ks
  }

  /** The sections from slot i on, each dumped when found. */
  function DumpSections(ks: seq<Text>, vs: seq<Text>, i: nat): string
    requires |ks| == |vs| && i <= |ks|
    decreases |ks| - i
  {
    if i == |ks| then ""
    else
      var rest := DumpSections(ks, vs, i + 1);
      if ks[i].Some? && IsSection(ks[i].value) && Found(ks, ks[i].value)
      then DumpSection(ks, vs, ks[i].value) + rest
      else rest
  }

  /** Without sections: every key as it is (a NULL value prints as glibc prints it). */
  function DumpFlat(ks: seq<Text>, vs: seq<Text>, i: nat): string
    requires |ks| == |vs| && i <= |ks|
    decreases |ks| - i
  {
    if i == |ks| then ""
    else
      var rest := DumpFlat(ks, vs, i + 1);
      if ks[i].Some? then ks[i].value + " = " + (if vs[i].Some? then vs[i].value else "(null)") + "\n" + rest
      else rest
  }

  predicate HasSection(ks: seq<Text>) {
    exists i :: 0 <= i < |ks| && ks[i].Some? && IsSection(ks[i].value)
  }

  /** iniparser_dump_ini. */
  function DumpIni(ks: seq<Text>, vs: seq<Text>): string
    requires |ks| == |vs|
  {
    if HasSection(ks) then DumpSections(ks, vs, 0) + "\n" else DumpFlat(ks, vs, 0)
  }
}
