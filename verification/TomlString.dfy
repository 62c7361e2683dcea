/** Quoted strings in config.toml: the printer is json.Marshal (section 7 of
    RFC 8259), the reader accepts TOML basic and literal strings (section
    "String" of TOML v1.0.0) on one line. */
module TomlString {
  import opened Text
  import opened Decimals

  const QUOTE := '"'
  const APOSTROPHE := '\''
  const BACKSLASH := '\\'

  // ---- printing ---------------------------------------------------------

  function Hex4(n: nat): string
    requires n < 0x1_0000
  {
    [HexDigit(n / 0x1000), HexDigit(n / 0x100 % 16), HexDigit(n / 16 % 16), HexDigit(n % 16)]
  }

  /** json.Marshal escapes HTML-significant characters and the two Unicode line
      separators besides what RFC 8259 requires. */
  predicate NeedsHexEscape(c: char) {
    c < ' ' || c == '<' || c == '>' || c == '&' || c == '\U{2028}' || c == '\U{2029}'
  }

  function Escape(c: char): (r: string) {
    if c == QUOTE then "\\\""
    else if c == BACKSLASH then "\\\\"
    else if c == '\U{0008}' then "\\b"
    else if c == '\U{000C}' then "\\f"
    else if c == '\n' then "\\n"
    else if c == '\r' then "\\r"
    else if c == '\t' then "\\t"
    else if NeedsHexEscape(c) then "\\u" + Hex4(c as nat)
    else [c]
  }

  function EscapeAll(v: string): string {
    if v == "" then "" else Escape(v[0]) + EscapeAll(v[1..])
  }

  function Quoted(v: string): string {
    [QUOTE] + EscapeAll(v) + [QUOTE]
  }

  // ---- reading ----------------------------------------------------------

  datatype Parsed = Bad | Good(val: string, rest: string)

  /** The closing quote `q` at or after `i`, or -1; a backslash hides the next
      character of a basic string. */
  function CloseQuote(s: string, i: nat, q: char): (r: int)
    ensures r == -1 || (i <= r < |s| && s[r] == q)
    decreases |s| - i
  {
    if i >= |s| then -1
    else if s[i] == BACKSLASH && q == QUOTE then CloseQuote(s, i + 2, q)
    else if s[i] == q then i
    else CloseQuote(s, i + 1, q)
  }

  function ShortEscape(c: char): Option<char> {
    if c == QUOTE || c == BACKSLASH || c == '/' then Some(c)
    else if c == 'b' then Some('\U{0008}')
    else if c == 'f' then Some('\U{000C}')
    else if c == 'n' then Some('\n')
    else if c == 'r' then Some('\r')
    else if c == 't' then Some('\t')
    else None
  }

  /** The code unit of a \uXXXX escape at the start of `s`. */
  function CodeUnit(s: string): (r: Option<nat>)
    ensures r.Some? ==> |s| >= 6 && r.value < 0x1_0000
  {
    if |s| >= 6 && s[0] == BACKSLASH && s[1] == 'u'
       && HexValue(s[2]).Some? && HexValue(s[3]).Some? && HexValue(s[4]).Some? && HexValue(s[5]).Some?
    then Some(0x1000 * HexValue(s[2]).value + 0x100 * HexValue(s[3]).value
              + 16 * HexValue(s[4]).value + HexValue(s[5]).value)
    else None
  }

  predicate HighSurrogate(u: nat) { 0xD800 <= u < 0xDC00 }
  predicate LowSurrogate(u: nat) { 0xDC00 <= u < 0xE000 }

  /** json.Unmarshal of the text between the quotes. A lone surrogate decodes to
      U+FFFD; a raw control character or an unknown escape is an error. */
  function Unescape(s: string): Option<string> {
    if s == "" then Some("")
    else if s[0] != BACKSLASH then
      if s[0] < ' ' || s[0] == QUOTE then None else Prepend(s[0], Unescape(s[1..]))
    else if |s| >= 2 && ShortEscape(s[1]).Some? then
      Prepend(ShortEscape(s[1]).value, Unescape(s[2..]))
    else
      match CodeUnit(s)
      case None => None
      case Some(u) =>
        if HighSurrogate(u) || LowSurrogate(u) then
          var low := CodeUnit(s[6..]);
          if HighSurrogate(u) && low.Some? && LowSurrogate(low.value) then
            Prepend((0x1_0000 + (u - 0xD800) * 0x400 + (low.value - 0xDC00)) as char, Unescape(s[12..]))
          else
            Prepend('\U{FFFD}', Unescape(s[6..]))
        else
          Prepend(u as char, Unescape(s[6..]))
  }

  function Prepend(c: char, r: Option<string>): Option<string> {
    if r.Some? then Some([c] + r.value) else None
  }

  /** parseTOMLString. */
  function ParseString(s: string): (r: Parsed)
    ensures r.Good? ==> |r.rest| < |s| && r.rest == s[|s| - |r.rest|..]
  {
    if HasPrefix(s, "'''") || HasPrefix(s, "\"\"\"") then Bad
    else if HasPrefix(s, "\"") then
      var i := CloseQuote(s, 1, QUOTE);
      if i < 0 then Bad
      else
        match Unescape(s[1..i])
        case None => Bad
        case Some(v) => Good(v, s[i + 1..])
    else if HasPrefix(s, "'") then
      var i := CloseQuote(s, 1, APOSTROPHE);
      if i < 0 then Bad else Good(s[1..i], s[i + 1..])
    else Bad
  }

  /** parseTOMLString as it runs: one index, moved past escapes. */
  method ScanString(s: string) returns (r: Parsed)
    ensures r == ParseString(s)
  {
    if HasPrefix(s, "'''") || HasPrefix(s, "\"\"\"") {
      return Bad;
    }
    if HasPrefix(s, "\"") {
      var i := 1;
      while i < |s|
        invariant 1 <= i
        invariant CloseQuote(s, 1, QUOTE) == CloseQuote(s, i, QUOTE)
        decreases |s| - i
      {
        if s[i] == BACKSLASH {
          i := i + 1;
        } else if s[i] == QUOTE {
          var v := Unescape(s[1..i]);
          return if v.None? then Bad else Good(v.value, s[i + 1..]);
        }
        i := i + 1;
      }
      return Bad;
    }
    if HasPrefix(s, "'") {
      var i := 1;
      while i < |s| && s[i] != APOSTROPHE
        invariant 1 <= i <= |s|
        invariant CloseQuote(s, 1, APOSTROPHE) == CloseQuote(s, i, APOSTROPHE)
      {
        i := i + 1;
      }
      return if i < |s| then Good(s[1..i], s[i + 1..]) else Bad;
    }
    return Bad;
  }

  // ---- the round trip ---------------------------------------------------

  lemma EscapeShape(c: char)
    ensures |Escape(c)| >= 1
    ensures (Escape(c) == [c] && ' ' <= c && c != QUOTE && c != BACKSLASH)
         || (|Escape(c)| >= 2 && Escape(c)[0] == BACKSLASH)
    ensures forall k | 0 <= k < |Escape(c)| :: ' ' <= Escape(c)[k]
    ensures forall k | 0 < k < |Escape(c)| && |Escape(c)| > 2 :: Escape(c)[k] != QUOTE && Escape(c)[k] != BACKSLASH
    ensures forall k | 0 < k < |Escape(c)| :: Escape(c)[k] != '#'
  {}

  lemma SkipEscape(s: string, i: nat, c: char)
    requires At(s, Escape(c), i)
    ensures CloseQuote(s, i, QUOTE) == CloseQuote(s, i + |Escape(c)|, QUOTE)
  {
    EscapeShape(c);
    var x := Escape(c);
    assert forall k | 0 <= k < |x| :: s[i + k] == x[k];
    if |x| > 2 {
      assert forall k | i + 2 <= k < i + |x| :: s[k] == x[k - i];
      SkipPlain(s, i + 2, i + |x|);
    }
  }

  lemma {:induction false} EscapedClose(s: string, i: nat, v: string)
    requires At(s, EscapeAll(v) + [QUOTE], i)
    ensures CloseQuote(s, i, QUOTE) == i + |EscapeAll(v)|
    decreases |v|
  {
    hide *;
    EscapedParts(v);
    if v == "" {
      ClosesHere(s, i);
    } else {
      var x, y := Escape(v[0]), EscapeAll(v[1..]) + [QUOTE];
      AtParts(s, x, y, i);
      SkipEscape(s, i, v[0]);
      EscapedClose(s, i + |x|, v[1..]);
    }
  }

  lemma EscapedParts(v: string)
    ensures if v == "" then EscapeAll(v) == "" && EscapeAll(v) + [QUOTE] == [QUOTE]
            else
              && EscapeAll(v) + [QUOTE] == Escape(v[0]) + (EscapeAll(v[1..]) + [QUOTE])
              && |EscapeAll(v)| == |Escape(v[0])| + |EscapeAll(v[1..])|
  {
    hide Escape;
  }

  lemma ClosesHere(s: string, i: nat)
    requires At(s, [QUOTE], i)
    ensures CloseQuote(s, i, QUOTE) == i
  {
    assert s[i] == s[i..i + 1][0];
  }

  lemma {:induction false} SkipPlain(s: string, i: nat, j: nat)
    requires i <= j <= |s|
    requires forall k | i <= k < j :: s[k] != QUOTE && s[k] != BACKSLASH
    ensures CloseQuote(s, i, QUOTE) == CloseQuote(s, j, QUOTE)
    decreases j - i
  {
    if i < j {
      SkipPlain(s, i + 1, j);
    }
  }

  lemma {:induction false} CloseExtends(t: string, x: string, i: nat, q: char)
    requires CloseQuote(t, i, q) >= 0
    ensures CloseQuote(t + x, i, q) == CloseQuote(t, i, q)
    decreases |t| - i
  {
    if i < |t| {
      assert (t + x)[i] == t[i];
      if t[i] == BACKSLASH && q == QUOTE {
        CloseExtends(t, x, i + 2, q);
      } else if t[i] != q {
        CloseExtends(t, x, i + 1, q);
      }
    }
  }

  lemma {:induction false} CloseBefore(x: string, i: nat, n: nat, q: char)
    requires 0 <= CloseQuote(x, i, q) < n <= |x|
    ensures CloseQuote(x[..n], i, q) == CloseQuote(x, i, q)
    decreases |x| - i
  {
    if i < |x| {
      if x[i] == BACKSLASH && q == QUOTE {
        CloseBefore(x, i + 2, n, q);
      } else if x[i] != q {
        CloseBefore(x, i + 1, n, q);
      }
    }
  }

  lemma {:induction false} UnescapeEscaped(v: string)
    ensures Unescape(EscapeAll(v)) == Some(v)
  {
    if v != "" {
      UnescapeEscaped(v[1..]);
      UnescapeOne(v[0], EscapeAll(v[1..]));
      hide Unescape, Escape;
      assert v == [v[0]] + v[1..];
    }
  }

  /** One escaped character is read back, and the rest after it. */
  lemma UnescapeOne(c: char, rest: string)
    ensures Unescape(Escape(c) + rest) == Prepend(c, Unescape(rest))
  {
    EscapeShape(c);
    var x := Escape(c);
    var s := x + rest;
    assert s[|x|..] == rest && forall k | 0 <= k < |x| :: s[k] == x[k];
    if |x| == 6 {
      HexEscapeShape(c);
      hide Escape;
      HexRoundTrip(c as nat, rest);
      UnescapeHex(s, c, rest);
    } else if |x| == 2 {
      ShortEscapeShape(c);
      hide Escape;
    } else {
      assert x == [c];
      hide Escape;
    }
  }

  lemma HexEscapeShape(c: char)
    requires |Escape(c)| == 6
    ensures Escape(c) == "\\u" + Hex4(c as nat) && c as nat < 0xD800 && Escape(c)[0] == BACKSLASH && Escape(c)[1] == 'u'
    ensures ShortEscape('u') == None
    ensures c < ' ' || c == '<' || c == '>' || c == '&' || c == '\U{2028}' || c == '\U{2029}'
  {}

  lemma ShortEscapeShape(c: char)
    requires |Escape(c)| == 2
    ensures Escape(c)[0] == BACKSLASH && ShortEscape(Escape(c)[1]) == Some(c)
  {}

  lemma UnescapeHex(s: string, c: char, rest: string)
    requires |s| >= 6 && s[0] == BACKSLASH && s[1] == 'u' && s[6..] == rest
    requires CodeUnit(s) == Some(c as nat) && c as nat < 0xD800
    ensures Unescape(s) == Prepend(c, Unescape(rest))
  {
    hide CodeUnit;
  }

  lemma HexRoundTrip(n: nat, rest: string)
    requires n < 0x1_0000
    ensures CodeUnit("\\u" + Hex4(n) + rest) == Some(n)
  {
    hide CodeUnit;
    FourHexDigits(n);
    HexDigitsRead(n / 0x1000, n / 0x100 % 16, n / 16 % 16, n % 16, rest);
  }

  lemma FourHexDigits(n: nat)
    requires n < 0x1_0000
    ensures n == 0x1000 * (n / 0x1000) + 0x100 * (n / 0x100 % 16) + 16 * (n / 16 % 16) + n % 16
  {
    var a, b := n / 16, n / 0x100;
    assert b == a / 16 && n / 0x1000 == b / 16;
    assert n == 16 * a + n % 16 && a == 16 * b + a % 16 && b == 16 * (b / 16) + b % 16;
  }

  lemma HexDigitsRead(a: nat, b: nat, c: nat, d: nat, rest: string)
    requires a < 16 && b < 16 && c < 16 && d < 16
    ensures CodeUnit("\\u" + [HexDigit(a), HexDigit(b), HexDigit(c), HexDigit(d)] + rest)
         == Some(0x1000 * a + 0x100 * b + 16 * c + d)
  {
    hide HexDigit, HexValue;
  }

  /** Whatever punk prints, punk reads back. The empty string followed by a quote
      is the one exception: together they open a multi-line string. */
  lemma QuotedRoundTrip(v: string, rest: string)
    ensures ParseString(Quoted(v) + rest) == Good(v, rest)
        <==> v != "" || !HasPrefix(rest, "\"")
  {
    var s, e := Quoted(v) + rest, EscapeAll(v);
    assert s[0] == QUOTE && s[1..1 + |e| + 1] == e + [QUOTE];
    EscapedClose(s, 1, v);
    UnescapeEscaped(v);
    assert s[1..1 + |e|] == e && s[1 + |e| + 1..] == rest;
    if v != "" {
      FirstIsNoQuote(v);
      assert s[1] == e[0];
      hide *;
      OneQuote(s);
      Reads(s, 1 + |e|, v);
    } else {
      assert e == "" && s == [QUOTE, QUOTE] + rest;
      hide *;
      TwoQuotes(s, rest);
      if |rest| > 0 && rest[0] == QUOTE {
        ThreeQuotesFail(s);
      } else {
        Reads(s, 1 + |e|, v);
      }
    }
  }

  lemma FirstIsNoQuote(v: string)
    requires v != ""
    ensures EscapeAll(v) != "" && EscapeAll(v)[0] != QUOTE
  {
    EscapeShape(v[0]);
  }

  /** A basic string whose closing quote and content are known. */
  lemma Reads(s: string, i: nat, v: string)
    requires s != "" && s[0] == QUOTE && !HasPrefix(s, "\"\"\"") && !HasPrefix(s, "'''")
    requires CloseQuote(s, 1, QUOTE) == i && 1 <= i < |s| && Unescape(s[1..i]) == Some(v)
    ensures ParseString(s) == Good(v, s[i + 1..])
  {
    assert s[..1] == [QUOTE];
  }

  lemma ThreeQuotesFail(s: string)
    requires HasPrefix(s, "\"\"\"")
    ensures ParseString(s) == Bad
  {}

  lemma OneQuote(s: string)
    requires |s| >= 2 && s[0] == QUOTE && s[1] != QUOTE
    ensures !HasPrefix(s, "\"\"\"") && !HasPrefix(s, "'''")
  {
    assert |s| >= 3 ==> s[..3][0] == QUOTE && s[..3][1] == s[1];
  }

  /** Two quotes are a string, unless a third makes them an opening. */
  lemma TwoQuotes(s: string, rest: string)
    requires s == [QUOTE, QUOTE] + rest
    ensures HasPrefix(s, "\"\"\"") <==> |rest| > 0 && rest[0] == QUOTE
    ensures HasPrefix(rest, "\"") <==> |rest| > 0 && rest[0] == QUOTE
    ensures !HasPrefix(s, "'''")
  {
    assert s[0] == QUOTE && s[1] == QUOTE;
    assert |s| >= 3 ==> s[..3] == [QUOTE, QUOTE, rest[0]];
    assert |rest| > 0 ==> rest[..1] == [rest[0]];
  }

  // ---- what an escaped string can contain -------------------------------

  lemma {:induction false} EscapedIsPrintable(v: string)
    ensures forall k | 0 <= k < |EscapeAll(v)| :: ' ' <= EscapeAll(v)[k]
  {
    if v != "" {
      EscapeShape(v[0]);
      EscapedIsPrintable(v[1..]);
    }
  }

  /** A text without a backslash that starts an escaped string starts the string
      itself. */
  lemma {:induction false} EscapedPrefix(v: string, m: string)
    requires HasPrefix(EscapeAll(v), m) && BACKSLASH !in m
    ensures HasPrefix(v, m)
  {
    if m != "" {
      EscapeShape(v[0]);
      var e := EscapeAll(v);
      assert e[0] == m[0];
      assert e == [v[0]] + EscapeAll(v[1..]);
      assert e[1..|m|] == m[1..];
      EscapedPrefix(v[1..], m[1..]);
      assert v[..|m|] == [v[0]] + v[1..][..|m| - 1];
    }
  }

  /** A comment marker occurs in a printed string only if the value holds it. */
  lemma {:induction false} EscapedMarker(v: string, m: string)
    requires |m| > 0 && m[0] == '#' && BACKSLASH !in m
    requires Contains(EscapeAll(v), m)
    ensures Contains(v, m)
  {
    var e := EscapeAll(v);
    var k :| At(e, m, k);
    assert v != "";
    var x, y := Escape(v[0]), EscapeAll(v[1..]);
    assert e == x + y;
    EscapeShape(v[0]);
    hide Escape, EscapeAll, Contains;
    if k == 0 {
      WholePrefix(e, m);
      EscapedPrefix(v, m);
      WholePrefix(v, m);
    } else {
      InSecond(x, y, m, k);
      EscapedMarker(v[1..], m);
      InLonger(v, m);
    }
  }

  lemma WholePrefix(s: string, m: string)
    ensures At(s, m, 0) <==> HasPrefix(s, m)
    ensures HasPrefix(s, m) ==> Contains(s, m)
  {
    assert |m| <= |s| ==> s[0..|m|] == s[..|m|];
  }

  /** A marker that starts past the first character cannot start in `x`. */
  lemma InSecond(x: string, y: string, m: string, k: int)
    requires At(x + y, m, k) && k > 0 && m != "" && forall j | 0 < j < |x| :: x[j] != m[0]
    ensures Contains(y, m)
  {
    var e := x + y;
    assert e[k] == e[k..k + |m|][0] == m[0];
    assert forall j | 0 <= j < |x| :: e[j] == x[j];
    assert y[k - |x|..k - |x| + |m|] == e[k..k + |m|];
    assert At(y, m, k - |x|);
  }

  lemma InLonger(v: string, m: string)
    requires v != "" && Contains(v[1..], m)
    ensures Contains(v, m)
  {
    var j :| At(v[1..], m, j);
    assert v[j + 1..j + 1 + |m|] == v[1..][j..j + |m|];
    assert At(v, m, j + 1);
  }
}
