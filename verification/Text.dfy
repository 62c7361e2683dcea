/** The string operations of Go's `strings` package that the configuration code
    is written in, with the facts every other module needs about them.

    A text is a sequence of Unicode scalar values. Go works on the UTF-8 bytes of
    such a text; every delimiter the modelled code looks for is ASCII, so cutting
    at bytes and cutting at scalar values give the same pieces. */
module Text {

  datatype Option<+T> = None | Some(value: T)

  // ---- substrings -------------------------------------------------------

  predicate At(s: string, m: string, k: int) {
    0 <= k && k + |m| <= |s| && s[k..k + |m|] == m
  }

  predicate HasPrefix(s: string, m: string) {
    |m| <= |s| && s[..|m|] == m
  }

  predicate HasSuffix(s: string, m: string) {
    |m| <= |s| && s[|s| - |m|..] == m
  }

  ghost predicate Contains(s: string, m: string) {
    exists k :: At(s, m, k)
  }

  lemma AtParts(s: string, x: string, y: string, k: int)
    requires At(s, x + y, k)
    ensures At(s, x, k) && At(s, y, k + |x|)
  {
    var e := s[k..k + |x| + |y|];
    assert e[..|x|] == s[k..k + |x|] && e[|x|..] == s[k + |x|..k + |x| + |y|];
  }

  /** The least position at or after `i` where `m` occurs, or -1. */
  function IndexFrom(s: string, m: string, i: nat): (r: int)
    requires i <= |s|
    ensures -1 <= r <= |s|
    ensures r >= 0 ==> i <= r && At(s, m, r) && forall k | i <= k < r :: !At(s, m, k)
    ensures r < 0 ==> forall k | i <= k :: !At(s, m, k)
    decreases |s| - i
  {
    if At(s, m, i) then i
    else if i == |s| then -1
    else IndexFrom(s, m, i + 1)
  }

  function IndexOf(s: string, m: string): (r: int)
    ensures -1 <= r
    ensures r >= 0 ==> At(s, m, r) && forall k | 0 <= k < r :: !At(s, m, k)
    ensures r < 0 <==> !Contains(s, m)
  {
    IndexFrom(s, m, 0)
  }

  lemma NotPrefix(s: string, m: string)
    requires s != "" && m != "" && (s[0] != m[0] || |s| < |m|)
    ensures !HasPrefix(s, m)
  {
    if |s| >= |m| {
      assert s[..|m|][0] == s[0];
    }
  }

  lemma NeedsFirst(s: string, m: string)
    requires m != "" && m[0] !in s
    ensures !Contains(s, m)
  {
    assert forall k :: At(s, m, k) ==> s[k] == s[k..k + |m|][0];
  }

  function TrimPrefix(s: string, m: string): string {
    if HasPrefix(s, m) then s[|m|..] else s
  }

  /** Lower case over ASCII, which is all the modelled code lower-cases. */
  function Lower(s: string): (r: string)
    ensures |r| == |s|
  {
    seq(|s|, i requires 0 <= i < |s| => if 'A' <= s[i] <= 'Z' then s[i] - 'A' + 'a' else s[i])
  }

  /** strings.TrimRight(s, "/"). */
  function TrimSlashes(s: string): string {
    if s != "" && s[|s| - 1] == '/' then TrimSlashes(s[..|s| - 1]) else s
  }

  // ---- white space ------------------------------------------------------

  /** unicode.IsSpace, the class strings.TrimSpace removes. */
  predicate IsSpace(c: char) {
    || '\t' <= c <= '\r' || c == ' ' || c == '\U{0085}' || c == '\U{00A0}'
    || c == '\U{1680}' || '\U{2000}' <= c <= '\U{200A}' || c == '\U{2028}'
    || c == '\U{2029}' || c == '\U{202F}' || c == '\U{205F}' || c == '\U{3000}'
  }

  function TrimLeft(s: string): (r: string)
    ensures |r| <= |s| && r == s[|s| - |r|..]
    ensures r != "" ==> !IsSpace(r[0])
  {
    if s != "" && IsSpace(s[0]) then TrimLeft(s[1..]) else s
  }

  function TrimRight(s: string): (r: string)
    ensures |r| <= |s| && r == s[..|r|]
    ensures r != "" ==> !IsSpace(r[|r| - 1])
  {
    if s != "" && IsSpace(s[|s| - 1]) then TrimRight(s[..|s| - 1]) else s
  }

  function TrimSpace(s: string): (r: string)
    ensures |r| <= |s|
    ensures r != "" ==> !IsSpace(r[0]) && !IsSpace(r[|r| - 1])
  {
    TrimRight(TrimLeft(s))
  }

  lemma TrimmedAlready(s: string)
    requires s == "" || (!IsSpace(s[0]) && !IsSpace(s[|s| - 1]))
    ensures TrimSpace(s) == s
  {}

  lemma TrimLeadingSpace(s: string)
    ensures TrimSpace(" " + s) == TrimSpace(s)
  {
    assert (" " + s)[1..] == s;
  }

  lemma {:induction false} TrimLeftOf(cur: string, x: string)
    requires x != "" && !IsSpace(x[0])
    ensures TrimLeft(cur + x) == TrimLeft(cur) + x
  {
    if cur == "" {
      assert cur + x == x;
    } else {
      assert (cur + x)[1..] == cur[1..] + x;
      TrimLeftOf(cur[1..], x);
    }
  }

  lemma {:induction false} TrimRightOf(x: string, y: string)
    requires x != "" && !IsSpace(x[|x| - 1])
    ensures TrimRight(x + y) == x + TrimRight(y)
    decreases |y|
  {
    if y == "" || !IsSpace(y[|y| - 1]) {
      assert y == "" ==> x + y == x;
    } else {
      assert (x + y)[..|x + y| - 1] == x + y[..|y| - 1];
      TrimRightOf(x, y[..|y| - 1]);
    }
  }

  lemma Assoc(x: string, y: string, z: string)
    ensures x + y + z == x + (y + z)
  {}

  /** Trimming around a text that is visible at both ends. */
  lemma TrimAround(cur: string, t: string, y: string)
    requires t != "" && !IsSpace(t[0]) && !IsSpace(t[|t| - 1])
    ensures TrimSpace(cur + t + y) == TrimLeft(cur) + t + TrimRight(y)
  {
    hide *;
    TrimLeftToken(cur, t, y);
    TrimRightToken(TrimLeft(cur), t, y);
    TrimOf(cur + t + y, TrimLeft(cur) + t + y, TrimLeft(cur) + t + TrimRight(y));
  }

  lemma TrimOf(s: string, l: string, r: string)
    requires TrimLeft(s) == l && TrimRight(l) == r
    ensures TrimSpace(s) == r
  {}

  lemma TrimRightToken(c: string, t: string, y: string)
    requires t != "" && !IsSpace(t[|t| - 1])
    ensures TrimRight(c + t + y) == c + t + TrimRight(y)
  {
    hide *;
    EndsOf(c, t, y);
    TrimRightOf(c + t, y);
  }

  lemma TrimLeftToken(cur: string, t: string, y: string)
    requires t != "" && !IsSpace(t[0])
    ensures TrimLeft(cur + t + y) == TrimLeft(cur) + t + y
  {
    hide *;
    Assoc(cur, t, y);
    EndsOf(cur, t, y);
    TrimLeftOf(cur, t + y);
    Assoc(TrimLeft(cur), t, y);
  }

  lemma EndsOf(c: string, t: string, y: string)
    requires t != ""
    ensures t + y != "" && (t + y)[0] == t[0]
    ensures c + t != "" && (c + t)[|c + t| - 1] == t[|t| - 1]
  {}

  ghost predicate AllSpace(z: string) {
    forall k | 0 <= k < |z| :: IsSpace(z[k])
  }

  lemma {:induction false} SpaceTrimmed(z: string)
    requires AllSpace(z)
    ensures TrimLeft(z) == "" && TrimRight(z) == "" && TrimSpace(z) == ""
  {
    if z != "" {
      SpaceTrimmed(z[1..]);
      SpaceRight(z);
    }
  }

  lemma {:induction false} SpaceRight(z: string)
    requires AllSpace(z)
    ensures TrimRight(z) == ""
    decreases |z|
  {
    if z != "" {
      SpaceRight(z[..|z| - 1]);
    }
  }

  // ---- lines ------------------------------------------------------------

  /** strings.Split(s, "\n"). */
  function Split(s: string): (r: seq<string>)
    ensures |r| >= 1
    ensures forall ln | ln in r :: '\n' !in ln
  {
    if s == "" then [""]
    else
      var rest := Split(s[1..]);
      if s[0] == '\n' then [""] + rest else [[s[0]] + rest[0]] + rest[1..]
  }

  /** strings.Join(lines, "\n"). */
  function Join(lines: seq<string>): string {
    if |lines| == 0 then "" else if |lines| == 1 then lines[0]
    else lines[0] + "\n" + Join(lines[1..])
  }

  lemma {:induction false} SplitOneLine(s: string)
    requires '\n' !in s
    ensures Split(s) == [s]
  {
    if s != "" {
      SplitOneLine(s[1..]);
      assert s == [s[0]] + s[1..];
    }
  }

  lemma {:induction false} SplitConcat(x: string, y: string)
    ensures Split(x + "\n" + y) == Split(x) + Split(y)
  {
    if x == "" {
      assert (x + "\n" + y)[1..] == y;
    } else {
      assert (x + "\n" + y)[1..] == x[1..] + "\n" + y;
      SplitConcat(x[1..], y);
    }
  }

  lemma {:induction false} SplitFirst(x: string, y: string)
    requires '\n' !in x
    ensures Split(x + "\n" + y) == [x] + Split(y)
  {
    SplitConcat(x, y);
    SplitOneLine(x);
  }

  lemma {:induction false} JoinSplit(s: string)
    ensures Join(Split(s)) == s
  {
    if s != "" {
      JoinSplit(s[1..]);
      var rest := Split(s[1..]);
      if s[0] == '\n' {
        assert ([""] + rest)[1..] == rest;
      } else {
        assert ([[s[0]] + rest[0]] + rest[1..])[1..] == rest[1..];
      }
    }
  }

  lemma {:induction false} SplitJoin(lines: seq<string>)
    requires |lines| >= 1 && forall ln | ln in lines :: '\n' !in ln
    ensures Split(Join(lines)) == lines
  {
    if |lines| == 1 {
      SplitOneLine(lines[0]);
    } else {
      SplitJoin(lines[1..]);
      SplitFirst(lines[0], Join(lines[1..]));
    }
  }

  /** A marker without a line break occurs in a text exactly when it occurs in
      one of its lines. */
  lemma {:induction false} ContainsInLine(s: string, m: string)
    requires m != "" && '\n' !in m
    ensures Contains(s, m) <==> exists ln :: ln in Split(s) && Contains(ln, m)
  {
    JoinSplit(s);
    ContainsInJoin(Split(s), m);
  }

  lemma {:induction false} ContainsInJoin(lines: seq<string>, m: string)
    requires m != "" && '\n' !in m && |lines| >= 1
    ensures Contains(Join(lines), m) <==> exists ln :: ln in lines && Contains(ln, m)
  {
    if |lines| > 1 {
      var x, y := lines[0], Join(lines[1..]);
      ContainsInJoin(lines[1..], m);
      ContainsAcrossBreak(x, y, m);
    }
  }

  lemma ContainsAcrossBreak(x: string, y: string, m: string)
    requires m != "" && '\n' !in m
    ensures Contains(x + "\n" + y, m) <==> Contains(x, m) || Contains(y, m)
  {
    ContainsAcross(x, '\n', y, m);
  }

  /** A marker never straddles a character it does not hold. */
  lemma ContainsAcross(x: string, c: char, y: string, m: string)
    requires m != "" && c !in m
    ensures Contains(x + [c] + y, m) <==> Contains(x, m) || Contains(y, m)
  {
    var s := x + [c] + y;
    if k :| At(s, m, k) {
      assert s[|x|] == c && forall j | k <= j < k + |m| :: s[j] == m[j - k];
      if |x| < k {
        assert s[k..k + |m|] == y[k - |x| - 1..k - |x| - 1 + |m|];
        assert At(y, m, k - |x| - 1);
      } else if k + |m| <= |x| {
        assert s[k..k + |m|] == x[k..k + |m|];
        assert At(x, m, k);
      }
    }
    if k :| At(x, m, k) {
      assert s[k..k + |m|] == x[k..k + |m|];
      assert At(s, m, k);
    }
    if k :| At(y, m, k) {
      assert s[|x| + 1..] == y;
      assert s[k + |x| + 1..k + |x| + 1 + |m|] == y[k..k + |m|];
      assert At(s, m, k + |x| + 1);
    }
  }

  /** Text that ends a line cannot straddle a marker without a line break. */
  lemma NoStraddle(x: string, y: string, m: string, k: nat)
    requires x == "" || x[|x| - 1] == '\n'
    requires m != "" && '\n' !in m && !Contains(x, m) && k < |x|
    ensures !At(x + y, m, k)
  {
    var s := x + y;
    assert s[|x| - 1] == '\n';
    if At(s, m, k) {
      assert forall j | k <= j < k + |m| :: s[j] == m[j - k];
      assert s[k..k + |m|] == m;
      if k + |m| <= |x| {
        assert x[k..k + |m|] == m;
        assert At(x, m, k);
      }
    }
  }

  lemma FirstAfter(x: string, y: string, m: string)
    requires x == "" || x[|x| - 1] == '\n'
    requires m != "" && '\n' !in m && !Contains(x, m) && HasPrefix(y, m)
    ensures IndexOf(x + y, m) == |x|
  {
    var s := x + y;
    assert s[|x|..|x| + |m|] == y[..|m|];
    assert At(s, m, |x|);
    forall k | 0 <= k < |x| ensures !At(s, m, k) {
      NoStraddle(x, y, m, k);
    }
  }

  // ---- words ------------------------------------------------------------

  /** strings.Fields, reading the word `word` that is open so far. */
  function FieldsFrom(s: string, word: string): seq<string> {
    if s == "" then if word == "" then [] else [word]
    else if IsSpace(s[0]) then (if word == "" then [] else [word]) + FieldsFrom(s[1..], "")
    else FieldsFrom(s[1..], word + [s[0]])
  }

  function Fields(s: string): seq<string> {
    FieldsFrom(s, "")
  }

  predicate NoSpace(s: string) {
    forall i | 0 <= i < |s| :: !IsSpace(s[i])
  }

  /** A word: what strings.Fields returns and keeps whole. */
  predicate IsWord(s: string) {
    s != "" && NoSpace(s)
  }

  /** strings.Join(words, " "). */
  function JoinWords(words: seq<string>): string {
    if |words| == 0 then "" else if |words| == 1 then words[0]
    else words[0] + " " + JoinWords(words[1..])
  }

  lemma {:induction false} ReadsWord(w: string, rest: string, word: string)
    requires NoSpace(w)
    ensures FieldsFrom(w + rest, word) == FieldsFrom(rest, word + w)
  {
    if w == "" {
      assert w + rest == rest && word + w == word;
    } else {
      assert (w + rest)[1..] == w[1..] + rest;
      assert word + w == word + [w[0]] + w[1..];
      ReadsWord(w[1..], rest, word + [w[0]]);
    }
  }

  lemma {:induction false} FieldsJoinWords(words: seq<string>)
    requires forall w | w in words :: IsWord(w)
    ensures Fields(JoinWords(words)) == words
  {
    if |words| > 0 {
      var w := words[0];
      assert w in words && "" + w == w;
      if |words| == 1 {
        ReadsWord(w, "", "");
        assert w + "" == w;
      } else {
        var rest := JoinWords(words[1..]);
        FieldsJoinWords(words[1..]);
        ReadsWord(w, " " + rest, "");
        assert (" " + rest)[1..] == rest && w + " " + rest == w + (" " + rest);
      }
    }
  }

  lemma {:induction false} FieldsAreWords(s: string, word: string)
    requires NoSpace(word)
    ensures forall w | w in FieldsFrom(s, word) :: IsWord(w)
  {
    if s != "" {
      FieldsAreWords(s[1..], if IsSpace(s[0]) then "" else word + [s[0]]);
    }
  }

  // ---- line endings -----------------------------------------------------

  const CRLF := "\r\n"

  /** strings.ReplaceAll(s, "\r\n", "\n"). */
  function ToLF(s: string): string {
    if s == "" then ""
    else if HasPrefix(s, CRLF) then "\n" + ToLF(s[2..])
    else [s[0]] + ToLF(s[1..])
  }

  /** strings.ReplaceAll(s, "\n", "\r\n"). */
  function ToCRLF(s: string): string {
    if s == "" then ""
    else if s[0] == '\n' then CRLF + ToCRLF(s[1..])
    else [s[0]] + ToCRLF(s[1..])
  }

  lemma {:induction false} LFAfterCRLF(s: string)
    ensures ToLF(ToCRLF(s)) == s
  {
    if s != "" {
      LFAfterCRLF(s[1..]);
      var t := ToCRLF(s[1..]);
      if s[0] == '\n' {
        assert (CRLF + t)[2..] == t && HasPrefix(CRLF + t, CRLF);
      } else {
        assert ([s[0]] + t)[1..] == t;
        if HasPrefix([s[0]] + t, CRLF) {
          assert ([s[0]] + t)[..2][1] == '\n' && t[0] == '\n';
          CRLFStart(s[1..]);
        }
      }
      assert [s[0]] + s[1..] == s;
    }
  }

  lemma CRLFStart(s: string)
    ensures ToCRLF(s) != "" ==> ToCRLF(s)[0] != '\n'
  {}

  lemma {:induction false} LFUnchanged(s: string)
    requires !Contains(s, CRLF)
    ensures ToLF(s) == s
  {
    if s != "" {
      assert !At(s, CRLF, 0);
      assert forall k :: At(s[1..], CRLF, k) ==> s[k + 1..k + 3] == CRLF;
      assert forall k :: At(s[1..], CRLF, k) ==> At(s, CRLF, k + 1);
      LFUnchanged(s[1..]);
      assert [s[0]] + s[1..] == s;
    }
  }
}
