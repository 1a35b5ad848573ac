/** The two Python `str` methods the core relies on: `strip()` with no
    argument (used on the router's decision) and `lower()` (used on the
    search tool's query). */
module PyStr {

  /** Python's `str.isspace()` set, which `str.strip()` removes: the ASCII
      controls 0x09-0x0D and 0x1C-0x1F, the space, and the Unicode
      separators Python counts as whitespace. */
  predicate IsSpace(c: char) {
    || ('\t' <= c <= '\r')
    || ('\U{1C}' <= c <= '\U{1F}')
    || c == ' '
    || c == '\U{85}'
    || c == '\U{A0}'
    || c == '\U{1680}'
    || ('\U{2000}' <= c <= '\U{200A}')
    || c == '\U{2028}'
    || c == '\U{2029}'
    || c == '\U{202F}'
    || c == '\U{205F}'
    || c == '\U{3000}'
  }

  predicate AllSpace(s: string) {
    forall i :: 0 <= i < |s| ==> IsSpace(s[i])
  }

  /** Neither end of `s` is whitespace: what `strip()` leaves behind. */
  predicate Trimmed(s: string) {
    s == [] || (!IsSpace(s[0]) && !IsSpace(s[|s| - 1]))
  }

  /** Drops the leading whitespace: the result is the longest suffix of `s`
      that does not start with whitespace. */
  function LStrip(s: string): (r: string)
    ensures |r| <= |s| && r == s[|s| - |r|..]
    ensures AllSpace(s[..|s| - |r|])
    ensures r == [] || !IsSpace(r[0])
  {
    if s != [] && IsSpace(s[0]) then
      var r := LStrip(s[1..]);
      assert s[..|s| - |r|] == [s[0]] + s[1..][..|s| - 1 - |r|];
      r
    else s
  }

  /** Drops the trailing whitespace: the result is the longest prefix of `s`
      that does not end with whitespace. */
  function RStrip(s: string): (r: string)
    ensures |r| <= |s| && r == s[..|r|]
    ensures AllSpace(s[|r|..])
    ensures r == [] || !IsSpace(r[|r| - 1])
  {
    if s != [] && IsSpace(s[|s| - 1]) then
      var r := RStrip(s[..|s| - 1]);
      assert s[|r|..] == s[..|s| - 1][|r|..] + [s[|s| - 1]];
      r
    else s
  }

  /** `s.strip()`. */
  function Strip(s: string): (r: string)
    ensures Trimmed(r)
    ensures |r| <= |s|
  {
    RStrip(LStrip(s))
  }

  lemma {:induction false} LStripPadded(ws: string, t: string)
    requires AllSpace(ws)
    requires t == [] || !IsSpace(t[0])
    ensures LStrip(ws + t) == t
  {
    if ws != [] {
      assert (ws + t)[1..] == ws[1..] + t;
      LStripPadded(ws[1..], t);
    } else {
      assert ws + t == t;
    }
  }

  lemma {:induction false} RStripPadded(t: string, ws: string)
    requires AllSpace(ws)
    requires t == [] || !IsSpace(t[|t| - 1])
    ensures RStrip(t + ws) == t
  {
    if ws != [] {
      var n := |ws| - 1;
      assert (t + ws)[..|t + ws| - 1] == t + ws[..n];
      RStripPadded(t, ws[..n]);
    } else {
      assert t + ws == t;
    }
  }

  /** Stripping undoes any whitespace padding around a trimmed string. */
  lemma StripPadded(ws1: string, d: string, ws2: string)
    requires AllSpace(ws1) && AllSpace(ws2) && Trimmed(d)
    ensures Strip(ws1 + d + ws2) == d
  {
    if d == [] {
      assert ws1 + d + ws2 == ws1 + ws2;
      assert AllSpace(ws1 + ws2);
    } else {
      assert ws1 + d + ws2 == ws1 + (d + ws2);
      LStripPadded(ws1, d + ws2);
      RStripPadded(d, ws2);
    }
  }

  /** A string that is already trimmed is left unchanged by `strip()`. */
  lemma StripTrimmed(d: string)
    requires Trimmed(d)
    ensures Strip(d) == d
  {
    StripPadded([], d, []);
    assert [] + d + [] == d;
  }

  /** Every string is its stripped form padded with whitespace on both sides;
      with StripPadded this characterises `strip()` completely. */
  lemma StripSplits(s: string) returns (ws1: string, ws2: string)
    ensures AllSpace(ws1) && AllSpace(ws2)
    ensures s == ws1 + Strip(s) + ws2
  {
    var l := LStrip(s);
    var r := RStrip(l);
    ws1 := s[..|s| - |l|];
    ws2 := l[|r|..];
    PrefixOfSuffix(s, l, r);
  }

  /** `s` is put back together from what precedes its suffix `l`, a prefix
      `r` of `l`, and what follows `r` in `l`. */
  lemma PrefixOfSuffix(s: string, l: string, r: string)
    requires |l| <= |s| && l == s[|s| - |l|..]
    requires |r| <= |l| && r == l[..|r|]
    ensures s == s[..|s| - |l|] + r + l[|r|..]
  {
    assert l == r + l[|r|..];
    assert s == s[..|s| - |l|] + l;
  }

  /** Stripping twice is stripping once. */
  lemma StripIdempotent(s: string)
    ensures Strip(Strip(s)) == Strip(s)
  {
    StripTrimmed(Strip(s));
  }

  predicate IsUpper(c: char) {
    'A' <= c <= 'Z'
  }

  /** `c.lower()` on ASCII: an upper-case letter becomes its lower-case
      partner, every other character is kept. */
  function LowerChar(c: char): (l: char)
    ensures !IsUpper(l)
    ensures IsUpper(c) ==> l as int == c as int + 32 && 'a' <= l <= 'z'
    ensures !IsUpper(c) ==> l == c
  {
    if IsUpper(c) then (c as int + 32) as char else c
  }

  /** `s.lower()`, character by character. */
  function Lower(s: string): (r: string)
    ensures |r| == |s|
    ensures forall i :: 0 <= i < |s| ==> r[i] == LowerChar(s[i])
  {
    if s == [] then [] else [LowerChar(s[0])] + Lower(s[1..])
  }

  predicate NoUpper(s: string) {
    forall i :: 0 <= i < |s| ==> !IsUpper(s[i])
  }

  /** Lower-casing leaves no upper-case letter behind, and a string with none
      is its own lower-case form. */
  lemma LowerFixesLowerCase(s: string)
    ensures NoUpper(Lower(s))
    ensures NoUpper(s) <==> Lower(s) == s
  {
    if NoUpper(s) {
      assert Lower(s) == s;
    }
    if Lower(s) == s {
      forall i | 0 <= i < |s| ensures !IsUpper(s[i]) {
        assert s[i] == LowerChar(s[i]);
      }
    }
  }

  /** Lower-casing twice is lower-casing once. */
  lemma LowerIdempotent(s: string)
    ensures Lower(Lower(s)) == Lower(s)
  {
    LowerFixesLowerCase(s);
    LowerFixesLowerCase(Lower(s));
  }

  /** The quote `repr()` puts around `s`: a double quote when `s` holds a
      single quote and no double quote, a single quote otherwise. */
  function QuoteFor(s: string): (q: char)
    ensures q == '\'' || q == '"'
    ensures q == '"' <==> ('\'' in s && '"' !in s)
  {
    if '\'' in s && '"' !in s then '"' else '\''
  }

  /** The value of a lower-case hexadecimal digit (0 for any other
      character). */
  function HexValue(c: char): (n: nat)
    ensures n < 16
  {
    if '0' <= c <= '9' then c as int - '0' as int
    else if 'a' <= c <= 'f' then c as int - 'a' as int + 10
    else 0
  }

  /** The lower-case hexadecimal digit `repr()` writes for `n`. */
  function HexDigit(n: nat): (c: char)
    requires n < 16
    ensures HexValue(c) == n
    ensures c != '\\'
  {
    if n < 10 then ('0' as int + n) as char else ('a' as int + n - 10) as char
  }

  /** How `repr()` writes one character between quotes `q`: the quote and
      the backslash get a backslash, tab, newline and carriage return their
      letter escapes, the other ASCII controls and DEL a `\xhh` escape, and
      every other character stands for itself. */
  function EscapeChar(c: char, q: char): (e: string)
    ensures 1 <= |e| <= 4
    ensures e[0] != '\\' <==> e == [c]
  {
    if c == q || c == '\\' then ['\\', c]
    else if c == '\t' then ['\\', 't']
    else if c == '\n' then ['\\', 'n']
    else if c == '\r' then ['\\', 'r']
    else if c < ' ' || c == '\U{7F}' then ['\\', 'x', HexDigit(c as int / 16), HexDigit(c as int % 16)]
    else [c]
  }

  /** The text `repr()` writes between the quotes. */
  function EscapeAll(s: string, q: char): (e: string)
    ensures |e| >= |s|
  {
    if s == [] then [] else EscapeChar(s[0], q) + EscapeAll(s[1..], q)
  }

  /** `repr(s)` for a string. */
  function Repr(s: string): (r: string)
    ensures |r| >= |s| + 2
    ensures r[0] == QuoteFor(s) && r[|r| - 1] == QuoteFor(s)
  {
    var q := QuoteFor(s);
    [q] + EscapeAll(s, q) + [q]
  }

  /** The character a backslash followed by `c` stands for. */
  function Unescaped(c: char): char {
    if c == 't' then '\t' else if c == 'n' then '\n' else if c == 'r' then '\r' else c
  }

  /** Reads the text between `repr()`'s quotes back, undoing every escape. */
  function Unescape(e: string): string
    decreases |e|
  {
    if e == [] then []
    else if e[0] == '\\' && |e| >= 4 && e[1] == 'x' then
      [(HexValue(e[2]) * 16 + HexValue(e[3])) as char] + Unescape(e[4..])
    else if e[0] == '\\' && |e| >= 2 then [Unescaped(e[1])] + Unescape(e[2..])
    else [e[0]] + Unescape(e[1..])
  }

  /** Reading one escaped character back gives that character, whatever
      follows it. */
  lemma UnescapeEscapeChar(c: char, q: char, rest: string)
    requires q == '\'' || q == '"'
    ensures Unescape(EscapeChar(c, q) + rest) == [c] + Unescape(rest)
  {
    var e := EscapeChar(c, q);
    var t := e + rest;
    if |e| == 1 {
      assert t[1..] == rest;
    } else if |e| == 2 {
      assert t[0] == '\\' && t[1] == e[1] && t[1] != 'x';
      assert t[2..] == rest;
    } else {
      assert t[0] == '\\' && t[1] == 'x' && t[2] == e[2] && t[3] == e[3];
      assert t[4..] == rest;
      assert HexValue(e[2]) * 16 + HexValue(e[3]) == c as int;
    }
  }

  lemma {:induction false} UnescapeEscapeAll(s: string, q: char)
    requires q == '\'' || q == '"'
    ensures Unescape(EscapeAll(s, q)) == s
  {
    if s != [] {
      UnescapeEscapeChar(s[0], q, EscapeAll(s[1..], q));
      UnescapeEscapeAll(s[1..], q);
      assert s == [s[0]] + s[1..];
    }
  }

  /** `repr()` loses nothing: the text between its quotes reads back as the
      string itself. */
  lemma ReprRoundTrip(s: string)
    ensures var r := Repr(s); Unescape(r[1..|r| - 1]) == s
  {
    var q := QuoteFor(s);
    var r := Repr(s);
    assert r[1..|r| - 1] == EscapeAll(s, q);
    UnescapeEscapeAll(s, q);
  }

  /** Different strings have different `repr()`s. */
  lemma ReprInjective(a: string, b: string)
    requires Repr(a) == Repr(b)
    ensures a == b
  {
    ReprRoundTrip(a);
    ReprRoundTrip(b);
  }

  /** A printable ASCII character that `repr()` does not escape between
      single quotes. */
  predicate PlainChar(c: char) {
    ' ' <= c <= '~' && c != '\'' && c != '\\'
  }

  predicate PlainText(s: string) {
    forall i :: 0 <= i < |s| ==> PlainChar(s[i])
  }

  lemma {:induction false} EscapeAllPlain(s: string)
    requires PlainText(s)
    ensures EscapeAll(s, '\'') == s
  {
    if s != [] {
      EscapeAllPlain(s[1..]);
      assert s == [s[0]] + s[1..];
    }
  }

  /** Printable ASCII text with no quote or backslash is written between
      single quotes unchanged. */
  lemma ReprPlain(s: string)
    requires PlainText(s)
    ensures Repr(s) == "'" + s + "'"
  {
    EscapeAllPlain(s);
  }
}
