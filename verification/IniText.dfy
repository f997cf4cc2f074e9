/** C string helpers of the INI parser and the sscanf scan sets it uses. */
module IniText {

  /** isspace in the C locale. */
  predicate IsSpace(c: char) {
    c == ' ' || 9 <= c as int <= 13
  }

  /** tolower in the C locale. */
  function ToLower(c: char): char {
    if 'A' <= c <= 'Z' then (c as int + 32) as char else c
  }

  function Lower(s: string): (r: string)
    ensures |r| == |s|
    ensures forall i :: 0 <= i < |s| ==> r[i] == ToLower(s[i])
  {
    if s == "" then "" else [ToLower(s[0])] + Lower(s[1..])
  }

  /** Blanks removed on the left. */
  function LTrim(s: string): string {
    if s != "" && IsSpace(s[0]) then LTrim(s[1..]) else s
  }

  /** Blanks removed on the right. */
  function RTrim(s: string): string {
    if s != "" && IsSpace(s[|s| - 1]) then RTrim(s[..|s| - 1]) else s
  }

  /** strstrip. */
  function Strip(s: string): string {
    RTrim(LTrim(s))
  }

  /** Length of the longest prefix without a character of `stop`: a %[^...] scan. */
  function Until(s: string, stop: set<char>): (n: nat)
    ensures n <= |s|
    ensures forall i :: 0 <= i < n ==> s[i] !in stop
    ensures n < |s| ==> s[n] in stop
  {
    if s == "" || s[0] in stop then 0 else 1 + Until(s[1..], stop)
  }

  // ----- In-place forms -----

  lemma {:induction false} LTrimStep(s: string, i: nat)
    requires i < |s| && IsSpace(s[i])
    ensures LTrim(s[i..]) == LTrim(s[i + 1..])
  {
    assert s[i..][1..] == s[i + 1..];
  }

  lemma {:induction false} RTrimStep(s: string, i: nat, j: nat)
    requires i < j <= |s| && IsSpace(s[j - 1])
    ensures RTrim(s[i..j]) == RTrim(s[i..j - 1])
  {
    assert s[i..j][..j - i - 1] == s[i..j - 1];
  }

  /** A text without a blank at the end in question is not trimmed there. */
  lemma {:induction false} TrimStops(s: string)
    ensures s == "" || !IsSpace(s[0]) ==> LTrim(s) == s
    ensures s == "" || !IsSpace(s[|s| - 1]) ==> RTrim(s) == s
  {
  }

  /** The scan for the first character that is no blank. */
  method LeftEdge(buf: array<char>, len: nat) returns (s: nat)
    requires len <= buf.Length
    ensures s <= len && buf[s..len] == LTrim(buf[..len])
  {
    ghost var text := buf[..len];
    s := 0;
    assert text[0..] == text;
    while s < len && IsSpace(buf[s])
      invariant s <= len && LTrim(text) == LTrim(text[s..])
    {
      LTrimStep(text, s);
      s := s + 1;
    }
    TrimStops(text[s..]);
    assert text[s..] == buf[s..len];
  }

  /** The scan for the last one. */
  method RightEdge(buf: array<char>, s: nat, len: nat) returns (last: nat)
    requires s <= len <= buf.Length
    ensures s <= last <= len && buf[s..last] == RTrim(buf[s..len])
  {
    ghost var text := buf[..len];
    last := len;
    assert text[s..len] == buf[s..len];
    while last > s && IsSpace(buf[last - 1])
      invariant s <= last <= len && RTrim(buf[s..len]) == RTrim(text[s..last])
    {
      RTrimStep(text, s, last);
      last := last - 1;
    }
    assert text[s..last] == buf[s..last];
    TrimStops(text[s..last]);
  }

  /** memmove of the text and its terminator to the front. */
  method MoveDown(buf: array<char>, s: nat, n: nat)
    requires s + n < buf.Length
    modifies buf
    ensures buf[..n] == old(buf[s..s + n]) && buf[n] == '\0'
  {
    var i := 0;
    while i < n
      invariant 0 <= i <= n
      invariant forall j :: 0 <= j < i ==> buf[j] == old(buf[s + j])
      invariant forall j :: i <= j < buf.Length ==> buf[j] == old(buf[j])
    {
      buf[i] := buf[s + i];
      i := i + 1;
    }
    buf[n] := '\0';
  }

  /** strstrip on a NUL-terminated buffer. */
  method StrStrip(buf: array<char>, len: nat) returns (n: nat)
    requires len < buf.Length
    modifies buf
    ensures n <= len && buf[..n] == Strip(old(buf[..len])) && buf[n] == '\0'
  {
    var s := LeftEdge(buf, len);
    var last := RightEdge(buf, s, len);
    n := last - s;
    MoveDown(buf, s, n);
  }

  /** strlwc: at most len - 1 characters, then a NUL. */
  method StrLwc(src: string, out: array<char>, len: nat) returns (n: nat)
    requires 0 < len <= out.Length
    modifies out
    ensures n == (if |src| < len - 1 then |src| else len - 1)
    ensures out[..n] == Lower(src[..n]) && out[n] == '\0'
  {
    n := 0;
    while n < |src| && n < len - 1
      invariant 0 <= n <= |src| && n <= len - 1
      invariant out[..n] == Lower(src[..n])
    {
      out[n] := ToLower(src[n]);
      n := n + 1;
    }
    out[n] := '\0';
  }

  // ----- Facts used by the round trip -----

  lemma {:induction false} Regroup(a: string, b: string, c: string)
    ensures (a + b) + c == a + (b + c)
  {
  }

  predicate NoBlankEdges(s: string) {
    s == "" || (!IsSpace(s[0]) && !IsSpace(s[|s| - 1]))
  }

  predicate Blank(s: string) {
    forall i :: 0 <= i < |s| ==> IsSpace(s[i])
  }

  predicate LowerCase(s: string) {
    forall i :: 0 <= i < |s| ==> !('A' <= s[i] <= 'Z')
  }

  lemma {:induction false} StripIdle(s: string)
    requires NoBlankEdges(s)
    ensures LTrim(s) == s && RTrim(s) == s && Strip(s) == s
  {
  }

  lemma {:induction false} LowerIdle(s: string)
    requires LowerCase(s)
    ensures Lower(s) == s
  {
  }

  /** Trailing blanks go. */
  lemma {:induction false} RTrimPadded(s: string, pad: string)
    requires Blank(pad)
    ensures RTrim(s + pad) == RTrim(s)
    decreases |pad|
  {
    if pad == "" {
      assert s + pad == s;
    } else {
      var t := s + pad;
      assert t[..|t| - 1] == s + pad[..|pad| - 1];
      RTrimPadded(s, pad[..|pad| - 1]);
    }
  }

  /** Leading blanks go. */
  lemma {:induction false} LTrimPadded(pad: string, s: string)
    requires Blank(pad)
    ensures LTrim(pad + s) == LTrim(s)
  {
    if pad == "" {
      assert pad + s == s;
    } else {
      assert (pad + s)[1..] == pad[1..] + s;
      LTrimPadded(pad[1..], s);
    }
  }

  /** Stripping takes blanks from both ends and leaves none there. */
  lemma {:induction false} StripSplits(s: string) returns (a: string, b: string)
    ensures s == a + Strip(s) + b && Blank(a) && Blank(b) && NoBlankEdges(Strip(s))
  {
    a := LeftBlanks(s);
    b := RightBlanks(LTrim(s));
    assert s == a + (Strip(s) + b);
  }

  lemma {:induction false} LeftBlanks(s: string) returns (a: string)
    ensures s == a + LTrim(s) && Blank(a) && (LTrim(s) != "" ==> !IsSpace(LTrim(s)[0]))
  {
    a := "";
    if s != "" && IsSpace(s[0]) {
      a := LeftBlanks(s[1..]);
      a := [s[0]] + a;
      assert s == [s[0]] + s[1..];
    }
  }

  lemma {:induction false} RightBlanks(s: string) returns (b: string)
    ensures s == RTrim(s) + b && Blank(b) && (RTrim(s) != "" ==> !IsSpace(RTrim(s)[|RTrim(s)| - 1]))
    decreases |s|
  {
    b := "";
    if s != "" && IsSpace(s[|s| - 1]) {
      b := RightBlanks(s[..|s| - 1]);
      b := b + [s[|s| - 1]];
      assert s == s[..|s| - 1] + [s[|s| - 1]];
    }
  }

  /** A scan stops exactly where the first stop character is. */
  lemma {:induction false} UntilIs(a: string, b: string, stop: set<char>)
    requires forall i :: 0 <= i < |a| ==> a[i] !in stop
    requires b == "" || b[0] in stop
    ensures Until(a + b, stop) == |a|
  {
    assert forall i :: 0 <= i < |a| ==> (a + b)[i] == a[i];
    assert b != "" ==> (a + b)[|a|] == b[0];
  }
}
