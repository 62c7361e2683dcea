/** Whatever block punk prints, the inspector reads back as the entry it was asked
    to write. */
module CodexPrintParse {
  import opened Text
  import opened TomlString
  import opened TomlParse
  import opened TomlLexer
  import opened CodexHeaders
  import opened CodexBlock
  import opened CodexInspect

  // ---- the lexer over one printed line ----------------------------------

  predicate PlainRun(s: string, i: nat, j: nat)
    requires i <= j <= |s|
  {
    forall k | i <= k < j :: s[k] != QUOTE && s[k] != APOSTROPHE && s[k] != '#' && s[k] != '\n' && s[k] != BACKSLASH
  }

  lemma {:induction false} LexPlain(s: string, i: nat, j: nat)
    requires i <= j <= |s| && PlainRun(s, i, j)
    ensures LineEnd(Code, s, i) == LineEnd(Code, s, j)
    decreases j - i
  {
    if i < j {
      LexPlain(s, i + 1, j);
    }
  }

  lemma {:induction false} LexToClose(s: string, i: nat)
    requires '\n' !in s && CloseQuote(s, i, QUOTE) >= 0
    ensures LineEnd(Str(QUOTE), s, i) == LineEnd(Code, s, CloseQuote(s, i, QUOTE) + 1)
    decreases |s| - i
  {
    if s[i] == BACKSLASH {
      assert LineEnd(Str(QUOTE), s, i) == LineEnd(StrEsc, s, i + 1) == LineEnd(Str(QUOTE), s, i + 2);
      LexToClose(s, i + 2);
    } else if s[i] != QUOTE {
      LexToClose(s, i + 1);
    }
  }

  lemma QuotedParts(s: string, v: string, i: nat)
    requires At(s, Quoted(v), i)
    ensures i < |s| && |Quoted(v)| >= 2 && s[i] == QUOTE && At(s, EscapeAll(v) + [QUOTE], i + 1)
    ensures CloseQuote(s, i + 1, QUOTE) == i + |Quoted(v)| - 1
    ensures v != "" ==> s[i + 1] != QUOTE
  {
    var e := EscapeAll(v) + [QUOTE];
    assert Quoted(v) == [QUOTE] + e;
    EscapedClose(s, i + 1, v) by {
      AtParts(s, [QUOTE], e, i);
    }
    if v != "" {
      FirstIsNoQuote(v);
    }
    hide EscapeAll, CloseQuote, Escape;
    AtParts(s, [QUOTE], e, i);
    assert s[i..i + 1][0] == QUOTE;
    assert s[i + 1..i + 1 + |e|][0] == e[0];
  }

  lemma LexQuoted(s: string, v: string, i: nat)
    requires At(s, Quoted(v), i) && v != "" && '\n' !in s
    ensures LineEnd(Code, s, i) == LineEnd(Code, s, i + |Quoted(v)|)
  {
    hide *;
    QuotedParts(s, v, i);
    OpeningQuote(s, i);
    ThreeQuotes(s, QUOTE, i);
    LexToClose(s, i + 1);
  }

  lemma CutQuoted(s: string, v: string, i: nat, depth: int)
    requires At(s, Quoted(v), i) && i > 0
    ensures CutFrom(s, i, depth, false) == CutFrom(s, i + |Quoted(v)|, depth, false)
  {
    QuotedParts(s, v, i);
  }

  // ---- one printed line: lexing, keys, values ---------------------------

  /** A key this reader takes as a bare key. */
  predicate Bare(key: string) {
    key != "" && forall i | 0 <= i < |key| :: BareKeyChar(key[i])
  }

  lemma {:induction false} BareRun(s: string, i: nat, j: nat)
    requires i <= j <= |s| && forall k | i <= k < j :: BareKeyChar(s[k])
    requires j == |s| || !BareKeyChar(s[j])
    ensures BareKeyEnd(s, i) == j
    decreases j - i
  {
    if i < j {
      BareRun(s, i + 1, j);
    }
  }

  predicate Trimmed(s: string) {
    s != "" && !IsSpace(s[0]) && !IsSpace(s[|s| - 1])
  }

  lemma EqualsValue(value: string)
    requires Trimmed(value)
    ensures TrimSpace(" = " + value) == "= " + value
    ensures TrimSpace(("= " + value)[1..]) == value
  {
    var e := "= " + value;
    assert e[|e| - 1] == value[|value| - 1] && e[0] == '=' && !IsSpace('=');
    assert " = " + value == " " + e && e[1..] == " " + value;
    hide TrimSpace, IsSpace;
    TrimmedAlready(e);
    TrimLeadingSpace(e);
    TrimmedAlready(value);
    TrimLeadingSpace(value);
  }

  lemma BareKeyParses(key: string, rest: string)
    requires Bare(key) && Starts(rest, ' ')
    ensures ParseKey(key + rest) == Good(key, rest)
  {
    var ln := key + rest;
    assert forall k | 0 <= k < |key| :: ln[k] == key[k];
    assert ln[|key|] == ' ';
    BareRun(ln, 0, |key|);
    assert ln[..|key|] == key && ln[|key|..] == rest;
  }

  lemma AssignmentParses(key: string, value: string)
    requires Bare(key) && Trimmed(value)
    ensures TrimSpace(key + " = " + value) == key + " = " + value
    ensures ParseKey(key + " = " + value) == Good(key, " = " + value)
  {
    hide TrimSpace, ParseKey;
    var ln := key + " = " + value;
    assert ln[0] == key[0] && ln[|ln| - 1] == value[|value| - 1];
    TrimmedAlready(ln);
    assert ln == key + (" = " + value);
    BareKeyParses(key, " = " + value);
  }

  lemma QuotedIsTrimmed(v: string)
    ensures Trimmed(Quoted(v)) && Starts(Quoted(v), QUOTE)
    ensures v != "" ==> StringValue(Quoted(v)) == Some(v)
  {
    QuotedRoundTrip(v, "");
    assert Quoted(v) + "" == Quoted(v);
    TrimmedAlready("");
  }

  lemma AssignmentLexes(key: string, v: string)
    requires Bare(key) && v != ""
    ensures LineEnd(Code, key + " = " + Quoted(v), 0) == Code
  {
    hide LineEnd, Quoted;
    var ln := key + " = " + Quoted(v);
    var i := |key| + 3;
    QuotedPrintable(v);
    AssignmentParts(key, Quoted(v));
    LexPlain(ln, 0, i);
    LexQuoted(ln, v, i);
    LineDone(ln);
  }

  lemma LineDone(ln: string)
    ensures LineEnd(Code, ln, |ln|) == Code
  {}

  lemma AssignmentParts(key: string, value: string)
    requires Bare(key) && forall k | 0 <= k < |value| :: ' ' <= value[k]
    ensures var ln, i := key + " = " + value, |key| + 3;
            PlainRun(ln, 0, i) && At(ln, value, i) && |ln| == i + |value| && '\n' !in ln
  {
    var ln, i := key + " = " + value, |key| + 3;
    assert forall k | 0 <= k < |key| :: ln[k] == key[k];
    assert forall k | |key| <= k < i :: ln[k] == " = "[k - |key|];
    assert forall k | i <= k < |ln| :: ln[k] == value[k - i];
    assert ln[i..i + |value|] == value;
  }

  // ---- the inline table of headers --------------------------------------

  function PairMap(ps: seq<(string, string)>): map<string, string> {
    if ps == [] then map[] else map[ps[0].0 := ps[0].1] + PairMap(ps[1..])
  }

  predicate Pairs(ps: seq<(string, string)>) {
    && |ps| > 0
    && ps[0].0 != "" && ps[0].1 != ""
    && ps[0].0 !in PairMap(ps[1..])
    && (|ps| > 1 ==> Pairs(ps[1..]))
  }

  lemma PairAt(s: string, k: string, v: string, tail: string, i: nat)
    requires At(s, k + " = " + v + tail, i)
    ensures At(s, k, i) && At(s, " = ", i + |k|) && At(s, v, i + |k| + 3) && At(s, tail, i + |k| + 3 + |v|)
  {
    AtParts(s, k + " = " + v, tail, i);
    AtParts(s, k + " = ", v, i);
    AtParts(s, k, " = ", i);
  }

  function Tail(ps: seq<(string, string)>): string
    requires |ps| > 0
  {
    if |ps| == 1 then "" else ", " + PairsText(ps[1..])
  }

  lemma LexPair(s: string, key: string, val: string, tail: string, i: nat)
    requires At(s, Quoted(key) + " = " + Quoted(val) + tail, i) && key != "" && val != "" && '\n' !in s
    ensures LineEnd(Code, s, i) == LineEnd(Code, s, i + |Quoted(key)| + 3 + |Quoted(val)|)
  {
    hide Quoted;
    var j := i + |Quoted(key)|;
    PairAt(s, Quoted(key), Quoted(val), tail, i);
    LexQuoted(s, key, i);
    assert s[j..j + 3] == " = ";
    assert forall k | j <= k < j + 3 :: s[k] == s[j..j + 3][k - j];
    LexPlain(s, j, j + 3);
    LexQuoted(s, val, j + 3);
  }

  lemma {:induction false} LexPairs(s: string, ps: seq<(string, string)>, i: nat)
    requires Pairs(ps) && At(s, PairsText(ps), i) && '\n' !in s
    ensures LineEnd(Code, s, i) == LineEnd(Code, s, i + |PairsText(ps)|)
    decreases |ps|
  {
    hide Quoted, LineEnd, At;
    var k, v, tail := Quoted(ps[0].0), Quoted(ps[0].1), Tail(ps);
    assert PairsText(ps) == k + " = " + v + tail;
    LexPair(s, ps[0].0, ps[0].1, tail, i);
    if |ps| > 1 {
      var m := i + |k| + 3 + |v|;
      PairAt(s, k, v, tail, i);
      AtParts(s, ", ", PairsText(ps[1..]), m);
      LexComma(s, m);
      LexPairs(s, ps[1..], m + 2);
    }
  }

  lemma LexComma(s: string, m: nat)
    requires At(s, ", ", m)
    ensures LineEnd(Code, s, m) == LineEnd(Code, s, m + 2)
  {
    assert forall k | m <= k < m + 2 :: s[k] == s[m..m + 2][k - m];
    LexPlain(s, m, m + 2);
  }

  lemma CutPair(s: string, key: string, val: string, tail: string, i: nat, depth: int)
    requires At(s, Quoted(key) + " = " + Quoted(val) + tail, i) && i > 0
    ensures CutFrom(s, i, depth, false) == CutFrom(s, i + |Quoted(key)| + 3 + |Quoted(val)|, depth, false)
  {
    hide Quoted;
    var j := i + |Quoted(key)|;
    PairAt(s, Quoted(key), Quoted(val), tail, i);
    CutQuoted(s, key, i, depth);
    assert s[j..j + 3] == " = ";
    assert forall k | j <= k < j + 3 :: s[k] == s[j..j + 3][k - j];
    CutPlain(s, j, j + 3, depth);
    CutQuoted(s, val, j + 3, depth);
  }

  lemma {:induction false} CutPairs(s: string, ps: seq<(string, string)>, i: nat, depth: int)
    requires |ps| > 0 && At(s, PairsText(ps), i) && i > 0
    ensures CutFrom(s, i, depth, false) == CutFrom(s, i + |PairsText(ps)|, depth, false)
    decreases |ps|
  {
    hide Quoted, CutFrom, At;
    var k, v, tail := Quoted(ps[0].0), Quoted(ps[0].1), Tail(ps);
    assert PairsText(ps) == k + " = " + v + tail;
    CutPair(s, ps[0].0, ps[0].1, tail, i, depth);
    if |ps| > 1 {
      var m := i + |k| + 3 + |v|;
      PairAt(s, k, v, tail, i);
      AtParts(s, ", ", PairsText(ps[1..]), m);
      CutComma(s, m, depth);
      CutPairs(s, ps[1..], m + 2, depth);
    }
  }

  lemma CutComma(s: string, m: nat, depth: int)
    requires m > 0 && At(s, ", ", m)
    ensures CutFrom(s, m, depth, false) == CutFrom(s, m + 2, depth, false)
  {
    assert forall k | m <= k < m + 2 :: s[k] == s[m..m + 2][k - m];
    CutPlain(s, m, m + 2, depth);
  }

  lemma {:induction false} CutPlain(s: string, i: nat, j: nat, depth: int)
    requires 0 < i <= j <= |s|
    requires forall k | i <= k < j :: !IsQuote(s[k]) && s[k] != '{' && s[k] != '}'
    ensures CutFrom(s, i, depth, false) == CutFrom(s, j, depth, false)
    decreases j - i
  {
    if i < j {
      CutPlain(s, i + 1, j, depth);
    }
  }

  lemma OnePair(key: string, val: string, tail: string, acc: map<string, string>)
    requires key != "" && val != "" && key !in acc
    requires tail == "" || (tail[0] == ',' && Trimmed(tail))
    ensures PairsFrom(Quoted(key) + " = " + Quoted(val) + tail, acc) ==
            if tail == "" then Some(acc[key := val]) else PairsFrom(TrimSpace(tail[1..]), acc[key := val])
  {
    hide Quoted, ParseString, TrimSpace, IsSpace;
    var v := Quoted(val) + tail;
    var s := Quoted(key) + (" = " + v);
    assert Quoted(key) + " = " + Quoted(val) + tail == s;
    QuotedIsTrimmed(key);
    QuotedIsTrimmed(val);
    assert v[0] == Quoted(val)[0] && v[|v| - 1] == if tail == "" then Quoted(val)[|Quoted(val)| - 1] else tail[|tail| - 1];
    EqualsValue(v);
    QuotedRoundTrip(key, " = " + v);
    QuotedRoundTrip(val, tail);
    TrimmedAlready(tail);
    assert s[0] == QUOTE;
    assert ParseKey(s) == Good(key, " = " + v);
  }

  /** Reading the printed pairs gives the pairs. */
  lemma {:induction false} PairsRoundTrip(ps: seq<(string, string)>, acc: map<string, string>)
    requires Pairs(ps) && acc.Keys !! PairMap(ps).Keys
    ensures PairsFrom(PairsText(ps), acc) == Some(acc + PairMap(ps))
    decreases |ps|
  {
    hide Quoted, TrimSpace, PairsFrom, IsSpace;
    var key, val, tail := ps[0].0, ps[0].1, Tail(ps);
    assert PairsText(ps) == Quoted(key) + " = " + Quoted(val) + tail;
    if |ps| == 1 {
      assert acc[key := val] == acc + PairMap(ps);
      OnePair(key, val, tail, acc);
    } else {
      var more := PairsText(ps[1..]);
      TextIsTrimmed(ps[1..]);
      NotASpace();
      assert tail[|tail| - 1] == more[|more| - 1] && tail[0] == ',';
      OnePair(key, val, tail, acc);
      assert tail[1..] == " " + more;
      TrimmedAlready(more);
      TrimLeadingSpace(more);
      assert acc[key := val] + PairMap(ps[1..]) == acc + PairMap(ps);
      PairsRoundTrip(ps[1..], acc[key := val]);
    }
  }

  lemma NotASpace()
    ensures !IsSpace(',')
  {}

  lemma {:induction false} TextIsTrimmed(ps: seq<(string, string)>)
    requires |ps| > 0
    ensures Trimmed(PairsText(ps)) && PairsText(ps)[|PairsText(ps)| - 1] == QUOTE
  {
    QuotedIsTrimmed(ps[0].0);
    QuotedIsTrimmed(ps[0].1);
    if |ps| > 1 {
      TextIsTrimmed(ps[1..]);
    }
  }

  // ---- table headers ----------------------------------------------------

  predicate PlainSegment(s: string, i: nat, j: nat)
    requires i <= j <= |s|
  {
    forall k | i <= k < j :: !IsQuote(s[k]) && s[k] != '.' && s[k] != ']'
  }

  lemma {:induction false} SegmentRun(s: string, i: nat, j: nat, cur: string)
    requires i <= j <= |s| && PlainSegment(s, i, j)
    ensures KeySegments(s, i, cur) == KeySegments(s, j, cur + s[i..j])
    decreases j - i
  {
    if i < j {
      SegmentRun(s, i + 1, j, cur + [s[i]]);
      assert cur + [s[i]] + s[i + 1..j] == cur + s[i..j];
    } else {
      assert cur + s[i..j] == cur;
    }
  }

  lemma {:induction false} CloseRun(s: string, i: nat, j: nat)
    requires i <= j < |s| && s[j] == ']'
    requires forall k | i <= k < j :: !IsQuote(s[k]) && s[k] != ']'
    ensures HeaderClose(s, i) == j
    decreases j - i
  {
    if i < j {
      CloseRun(s, i + 1, j);
    }
  }

  lemma PlainHeader(inner: string)
    requires inner != "" && inner[0] != '[' && forall k | 0 <= k < |inner| :: !IsQuote(inner[k]) && inner[k] != ']'
    ensures var ln := "[" + inner + "]";
            TrimSpace(ln) == ln && ParseHeader(ln) ==
            match SplitKeyPath(inner) case None => NoHeader case Some(path) => Header(path, false)
  {
    hide TrimSpace, SplitKeyPath;
    var ln, s := "[" + inner + "]", inner + "]";
    TrimmedAlready(ln);
    assert ln[1..] == s && ln[0] == '[' && s[0] == inner[0];
    assert forall k | 0 <= k < |inner| :: s[k] == inner[k];
    CloseRun(s, 0, |inner|);
    assert s[..|inner|] == inner && s[|inner| + 1..] == "";
    TrimmedAlready("");
  }

  predicate Segment(s: string) {
    Trimmed(s) && PlainSegment(s, 0, |s|)
  }

  lemma OneSegment(a: string)
    requires Segment(a)
    ensures SplitKeyPath(a) == Some([a])
  {
    hide TrimSpace, ParseString;
    SegmentRun(a, 0, |a|, "");
    assert "" + a[0..|a|] == a;
    TrimmedAlready(a);
    assert KeySegments(a, 0, "") == Some([a]);
    assert seq(1, k requires 0 <= k < 1 => TrimSpace([a][k])) == [a];
  }

  lemma DotBetween(a: string, b: string)
    ensures var s, n := a + "." + b, |a|;
            && |s| == n + 1 + |b| && s[n] == '.'
            && "" + s[0..n] == a && "" + s[n + 1..|s|] == b
            && (forall k | 0 <= k < n :: s[k] == a[k]) && (forall k | n < k < |s| :: s[k] == b[k - n - 1])
  {}

  lemma SegmentsRead(a: string, b: string)
    requires Segment(a) && Segment(b)
    ensures KeySegments(a + "." + b, 0, "") == Some([a, b])
  {
    hide Trimmed, ParseString;
    var s, n := a + "." + b, |a|;
    DotBetween(a, b);
    assert PlainSegment(s, 0, n) && PlainSegment(s, n + 1, |s|);
    hide PlainSegment, Segment;
    SegmentRun(s, 0, n, "");
    SegmentRun(s, n + 1, |s|, "");
    assert [a] + [b] == [a, b];
  }

  lemma TwoSegments(a: string, b: string)
    requires Segment(a) && Segment(b)
    ensures SplitKeyPath(a + "." + b) == Some([a, b])
  {
    SegmentsRead(a, b);
    TrimmedAlready(a);
    TrimmedAlready(b);
    assert a != "" && b != "";
    hide TrimSpace, KeySegments, Segment;
    assert seq(2, k requires 0 <= k < 2 => TrimSpace([a, b][k])) == [a, b];
  }

  lemma SegmentNames()
    ensures Segment("features") && Segment("mcp_servers") && Segment("punk")
  {}

  lemma FeaturesHeader()
    ensures TrimSpace("[features]") == "[features]"
    ensures ParseHeader("[features]") == Header(["features"], false)
  {
    hide ParseHeader, SplitKeyPath, TrimSpace;
    var s := "features";
    SegmentNames();
    OneSegment(s);
    PlainHeader(s);
    assert "[" + s + "]" == "[features]";
  }

  lemma PunkHeader()
    ensures TrimSpace(PUNK_TABLE) == PUNK_TABLE
    ensures ParseHeader(PUNK_TABLE) == Header(PUNK_PATH, false)
  {
    hide ParseHeader, SplitKeyPath, TrimSpace;
    var a, b := "mcp_servers", "punk";
    SegmentNames();
    TwoSegments(a, b);
    var s := a + "." + b;
    assert forall k | 0 <= k < |s| :: s[k] == if k < |a| then a[k] else if k == |a| then '.' else b[k - |a| - 1];
    PlainHeader(s);
    assert "[" + s + "]" == PUNK_TABLE;
  }

  // ---- the line loop over the block -------------------------------------

  lemma Turn(lines: seq<string>, starts: seq<bool>, i: nat, w: Work, v: Work)
    requires |starts| == |lines| && i < |lines|
    requires Line(lines, starts, i, w) == Next(v, 0)
    ensures Lines(lines, starts, i, w) == Lines(lines, starts, i + 1, v)
  {
    hide Line;
  }

  lemma FieldTurn(lines: seq<string>, starts: seq<bool>, i: nat, w: Work, key: string, value: string)
    requires |starts| == |lines| && i < |lines| && starts[i] && InPunk(w.cur)
    requires lines[i] == key + " = " + value && Bare(key) && Trimmed(value)
    requires PunkField(key) && key !in w.seenFields
    ensures Line(lines, starts, i, w) == FieldLine(lines, i, w.(seenFields := w.seenFields + {key}), key, value)
  {
    hide TrimSpace, ParseKey, FieldLine, PunkField;
    AssignmentParses(key, value);
    EqualsValue(value);
    assert lines[i][0] == key[0] && BareKeyChar(key[0]);
  }

  lemma Kinds()
    ensures KindOf("url") == KindOf("bearer_token_env_var") == Identity
    ensures KindOf("http_headers") == InlineTable
    ensures PunkField("startup_timeout_sec") && PunkField("tool_timeout_sec") && PunkField("default_tools_approval_mode")
    ensures KindOf("startup_timeout_sec") == KindOf("tool_timeout_sec") == KindOf("default_tools_approval_mode") == Knob
  {
    assert "http_headers"[0] == 'h' && "bearer_token"[0] == 'b';
    assert "startup_timeout_sec"[0] == 's' && "http_headers_helper"[0] == 'h';
    assert "tool_timeout_sec"[0] == 't' && "env_http_headers"[0] == 'e';
  }

  lemma TrimBoth(s: string)
    requires Trimmed(s)
    ensures TrimSpace(" " + s + " ") == s
  {
    assert (" " + s + " ")[1..] == s + " ";
    assert TrimLeft(s + " ") == s + " ";
    assert (s + " ")[..|s|] == s;
    TrimmedAlready(s);
    assert TrimRight(s) == s;
  }

  lemma CutBraces(ps: seq<(string, string)>)
    requires |ps| > 0
    ensures var v := "{ " + PairsText(ps) + " }";
            Trimmed(v) && CutValue(v, false) == Cut(" " + PairsText(ps) + " ", "")
  {
    hide *;
    var t := PairsText(ps);
    var v := "{ " + t + " }";
    BracesAround(t);
    CutInside(v, ps);
    CloseBrace(v, |t| + 3, 1);
    OpenBrace(v);
  }

  lemma OpenBrace(v: string)
    requires v != "" && v[0] == '{'
    ensures CutValue(v, false) == CutFrom(v, 1, 1, false)
  {}

  lemma CutInside(v: string, ps: seq<(string, string)>)
    requires |ps| > 0 && At(v, PairsText(ps), 2)
    requires var n := 2 + |PairsText(ps)|; |v| == n + 2 && v[0] == '{' && v[1] == ' ' && v[n] == ' '
    ensures CutFrom(v, 1, 1, false) == CutFrom(v, |PairsText(ps)| + 3, 1, false)
  {
    hide PairsText, CutFrom;
    var n := 2 + |PairsText(ps)|;
    CutPairs(v, ps, 2, 1);
    CutPlain(v, 1, 2, 1);
    CutPlain(v, n, n + 1, 1);
  }

  lemma BracesAround(t: string)
    ensures var v := "{ " + t + " }"; var n := 2 + |t|;
            && |v| == n + 2 && v[0] == '{' && v[1] == ' ' && v[n] == ' ' && v[n + 1] == '}' && At(v, t, 2) && Trimmed(v)
            && v[1..n + 1] == " " + t + " " && v[n + 2..] == ""
  {
    var v, n := "{ " + t + " }", 2 + |t|;
    assert v[n] == " }"[0] && v[n + 1] == " }"[1] && v[2..n] == t;
  }

  lemma CloseBrace(s: string, i: nat, depth: int)
    requires 0 < i < |s| && s[i] == '}' && depth == 1
    ensures CutFrom(s, i, depth, false) == Cut(s[1..i], s[i + 1..])
  {}

  lemma HeadersRead(lines: seq<string>, i: nat, ps: seq<(string, string)>)
    requires i < |lines| && |ps| > 0 && Pairs(ps)
    ensures var v := "{ " + PairsText(ps) + " }";
            Trimmed(v) && Starts(v, '{') && Fold(lines, i, v, false) == Some((0, " " + PairsText(ps) + " ", ""))
    ensures InlinePairs(" " + PairsText(ps) + " ") == Some(PairMap(ps))
  {
    hide PairsText, PairsFrom, TrimSpace, CutValue, Pairs, PairMap;
    CutBraces(ps);
    TextIsTrimmed(ps);
    TrimBoth(PairsText(ps));
    PairsRoundTrip(ps, map[]);
    assert map[] + PairMap(ps) == PairMap(ps);
  }

  lemma HeadersField(lines: seq<string>, i: nat, w: Work, ps: seq<(string, string)>)
    requires i < |lines| && |ps| > 0 && Pairs(ps)
    ensures FieldLine(lines, i, w, "http_headers", "{ " + PairsText(ps) + " }") ==
            Next(w.(transport := w.transport + {"http_headers"}, inlined := w.inlined + {"http_headers"},
                    headers := w.headers + PairMap(ps)), 0)
  {
    hide PairsText, Fold, InlinePairs, Pairs, PairMap, KindOf, Trimmed, PunkField, TrailingOk, ArrayField, Starts;
    HeadersRead(lines, i, ps);
    Kinds();
    NothingTrails();
    hide StringValue, KeywordValue;
  }

  lemma NothingTrails()
    ensures TrailingOk("")
  {
    TrimmedAlready("");
    hide TrimSpace;
  }

  // ---- the theorem ------------------------------------------------------

  function AfterTable(): Work {
    START.(cur := PUNK_PATH, punkTables := 1)
  }

  function AfterUrl(o: Opts, w: Work): Work {
    w.(seenFields := w.seenFields + {"url"}, transport := w.transport + {"url"},
       endpoint := Some(Endpoint(o.serverURL)))
  }

  function AfterEnv(o: Opts, w: Work): Work {
    if KeyEnv(o).None? then w
    else w.(seenFields := w.seenFields + {"bearer_token_env_var"},
            transport := w.transport + {"bearer_token_env_var"}, bearerEnv := KeyEnv(o))
  }

  function AfterHeaders(o: Opts, w: Work): Work {
    if HeaderPairs(o) == [] then w
    else w.(seenFields := w.seenFields + {"http_headers"}, transport := w.transport + {"http_headers"},
            inlined := w.inlined + {"http_headers"}, headers := w.headers + PairMap(HeaderPairs(o)))
  }

  function AfterKnobs(w: Work): Work {
    w.(seenFields := w.seenFields + {"startup_timeout_sec"} + {"tool_timeout_sec"} + {"default_tools_approval_mode"})
  }

  lemma CommentTurn(lines: seq<string>, starts: seq<bool>, i: nat, w: Work)
    requires |starts| == |lines| && i < |lines|
    requires lines[i] == BLOCK_START || lines[i] == BLOCK_END || lines[i] == ""
    ensures Lines(lines, starts, i, w) == Lines(lines, starts, i + 1, w)
  {
    hide Lines, TrimSpace, HeaderLine, KeyLine, ForeignLine, IsSpace;
    MarkerEnds();
    SkippedTurn(lines, starts, i, w);
  }

  lemma SkippedTurn(lines: seq<string>, starts: seq<bool>, i: nat, w: Work)
    requires |starts| == |lines| && i < |lines|
    requires lines[i] == "" || (lines[i][0] == '#' && !IsSpace(lines[i][0]) && !IsSpace(lines[i][|lines[i]| - 1]))
    ensures Lines(lines, starts, i, w) == Lines(lines, starts, i + 1, w)
  {
    hide Lines, TrimSpace, HeaderLine, KeyLine, ForeignLine, IsSpace;
    TrimmedAlready(lines[i]);
    Turn(lines, starts, i, w, w);
  }

  lemma TableTurn(lines: seq<string>, starts: seq<bool>, i: nat, w: Work, name: string)
    requires |starts| == |lines| && i < |lines| && starts[i] && w.punkTables == 0
    requires lines[i] == name && (name == PUNK_TABLE || name == "[features]")
    ensures Lines(lines, starts, i, w) ==
            Lines(lines, starts, i + 1,
                  if name == PUNK_TABLE then w.(cur := PUNK_PATH, punkTables := 1) else w.(cur := ["features"]))
  {
    hide Lines, TrimSpace, ParseHeader, KeyLine, ForeignLine;
    PunkHeader();
    FeaturesHeader();
    Turn(lines, starts, i, w, if name == PUNK_TABLE then w.(cur := PUNK_PATH, punkTables := 1) else w.(cur := ["features"]));
  }

  lemma FeatureTurns(lines: seq<string>, starts: seq<bool>)
    requires |starts| == |lines| && forall k | 0 <= k < |starts| :: starts[k]
    requires |lines| >= 5 && lines[1..4] == FeatureLines() && lines[4] == PUNK_TABLE
    ensures Lines(lines, starts, 1, START) == Lines(lines, starts, 5, AfterTable())
  {
    hide Lines, TrimSpace, Line;
    var w := START.(cur := ["features"]);
    assert forall k | 1 <= k < 4 :: lines[k] == lines[1..4][k - 1];
    TableTurn(lines, starts, 1, START, "[features]");
    FlagTurn(lines, starts, 2, w);
    Turn(lines, starts, 2, w, w);
    CommentTurn(lines, starts, 3, w);
    TableTurn(lines, starts, 4, w, PUNK_TABLE);
  }

  lemma PreambleTurns(lines: seq<string>, starts: seq<bool>, features: bool)
    requires |starts| == |lines| && forall k | 0 <= k < |starts| :: starts[k]
    requires |lines| >= 5 && lines[0] == BLOCK_START
    requires if features then lines[1..5] == FeatureLines() + [PUNK_TABLE] else lines[1] == PUNK_TABLE
    ensures Lines(lines, starts, 0, START) == Lines(lines, starts, if features then 5 else 2, AfterTable())
  {
    hide Lines, TrimSpace, Line, FeatureLines;
    CommentTurn(lines, starts, 0, START);
    if features {
      assert |FeatureLines()| == 3 by {
        ThreeLines();
      }
      assert lines[1..4] == lines[1..5][..3] && lines[4] == lines[1..5][3];
      FeatureTurns(lines, starts);
    } else {
      TableTurn(lines, starts, 1, START, PUNK_TABLE);
    }
  }

  lemma ThreeLines()
    ensures |FeatureLines()| == 3
  {}

  lemma MarkerEnds()
    ensures BLOCK_START != "" && BLOCK_START[0] == '#' && !IsSpace(BLOCK_START[0])
    ensures !IsSpace(BLOCK_START[|BLOCK_START| - 1])
    ensures BLOCK_END != "" && BLOCK_END[0] == '#' && !IsSpace(BLOCK_END[0])
    ensures !IsSpace(BLOCK_END[|BLOCK_END| - 1])
  {
    var c := "edit outside this block only)";
    assert c[|c| - 1] == ')' && BLOCK_START[|BLOCK_START| - 1] == c[|c| - 1];
  }

  lemma FlagTurn(lines: seq<string>, starts: seq<bool>, i: nat, w: Work)
    requires |starts| == |lines| && i < |lines| && starts[i]
    requires lines[i] == "hooks = true" && w.cur == ["features"]
    ensures Line(lines, starts, i, w) == Next(w, 0)
  {
    hide TrimSpace, ParseKey;
    var key, value := "hooks", "true";
    assert lines[i] == key + " = " + value;
    AssignmentParses(key, value);
    EqualsValue(value);
    assert " = " + value == " = true" && "= " + value == "= true";
    TrimmedAlready("= true");
    assert ParseKeyPath(lines[i]) == Some((["hooks"], "= true"));
    hide ParseKeyPath;
    assert lines[i][0] == 'h';
  }

  lemma BareNames()
    ensures Bare("url") && Bare("bearer_token_env_var") && Bare("http_headers")
  {}

  lemma KnobNames()
    ensures Bare("startup_timeout_sec") && Bare("tool_timeout_sec") && Bare("default_tools_approval_mode")
  {}

  lemma KnobTurn(lines: seq<string>, starts: seq<bool>, i: nat, w: Work, key: string, value: string)
    requires |starts| == |lines| && i < |lines| && starts[i] && InPunk(w.cur)
    requires key == "startup_timeout_sec" || key == "tool_timeout_sec" || key == "default_tools_approval_mode"
    requires Trimmed(value) && lines[i] == key + " = " + value && key !in w.seenFields
    ensures Lines(lines, starts, i, w) == Lines(lines, starts, i + 1, w.(seenFields := w.seenFields + {key}))
  {
    KnobNames();
    Kinds();
    hide Line, Lines, Bare, KindOf, InPunk, Trimmed, PunkField;
    FieldTurn(lines, starts, i, w, key, value);
    Turn(lines, starts, i, w, w.(seenFields := w.seenFields + {key}));
  }

  lemma KnobValues()
    ensures Trimmed("10") && Trimmed("60") && Trimmed("\"approve\"")
  {}

  lemma LinesEnd(lines: seq<string>, starts: seq<bool>, w: Work)
    requires |starts| == |lines|
    ensures Lines(lines, starts, |lines|, w) == Next(w, 0)
  {
    hide Line;
  }

  lemma KnobTurns(lines: seq<string>, starts: seq<bool>, i: nat, w: Work)
    requires |starts| == |lines| && (forall k | 0 <= k < |starts| :: starts[k]) && InPunk(w.cur)
    requires i <= |lines| && lines[i..] == KnobLines() + [BLOCK_END, ""]
    requires !(exists key :: key in w.seenFields && KindOf(key) == Knob)
    ensures Lines(lines, starts, i, w) == Next(AfterKnobs(w), 0)
  {
    hide Lines, Line, KindOf, Trimmed, InPunk, PunkField, KnobLines;
    Kinds();
    var a, b, c := "startup_timeout_sec", "tool_timeout_sec", "default_tools_approval_mode";
    KnobLinesAre(lines, i);
    KnobsDiffer();
    KnobValues();
    var w1 := w.(seenFields := w.seenFields + {a});
    var w2 := w1.(seenFields := w1.seenFields + {b});
    KnobTurn(lines, starts, i, w, a, "10");
    KnobTurn(lines, starts, i + 1, w1, b, "60");
    KnobTurn(lines, starts, i + 2, w2, c, "\"approve\"");
    CommentTurn(lines, starts, i + 3, AfterKnobs(w));
    CommentTurn(lines, starts, i + 4, AfterKnobs(w));
    LinesEnd(lines, starts, AfterKnobs(w));
  }

  lemma StringTurn(lines: seq<string>, starts: seq<bool>, i: nat, w: Work, key: string, v: string)
    requires |starts| == |lines| && i < |lines| && starts[i] && InPunk(w.cur)
    requires KindOf(key) == Identity && Bare(key) && key !in w.seenFields
    requires v != "" && lines[i] == key + " = " + Quoted(v)
    ensures var u := w.(seenFields := w.seenFields + {key}, transport := w.transport + {key});
            Lines(lines, starts, i, w) ==
            Lines(lines, starts, i + 1, if key == "url" then u.(endpoint := Some(v)) else u.(bearerEnv := Some(v)))
  {
    hide Line, Lines, Bare, InPunk, Quoted, StringValue, KindOf;
    QuotedIsTrimmed(v);
    FieldTurn(lines, starts, i, w, key, Quoted(v));
    var u := w.(seenFields := w.seenFields + {key}, transport := w.transport + {key});
    Turn(lines, starts, i, w, if key == "url" then u.(endpoint := Some(v)) else u.(bearerEnv := Some(v)));
  }

  lemma HeaderPairsAreDistinct(o: Opts)
    requires HeaderPairs(o) != []
    ensures Pairs(HeaderPairs(o))
  {
    assert |"Authorization"| == 13 && |"X-Punk-Namespace"| == 16 && |"X-Punk-Agent"| == 12;
    var ps := HeaderPairs(o);
    PairMapKeys(ps);
    if |ps| > 1 {
      PairMapKeys(ps[1..]);
      if |ps| > 2 {
        PairMapKeys(ps[2..]);
      }
    }
  }

  lemma {:induction false} PairMapKeys(ps: seq<(string, string)>)
    ensures |ps| == 1 ==> PairMap(ps) == map[ps[0].0 := ps[0].1]
    ensures |ps| == 2 ==> PairMap(ps) == map[ps[0].0 := ps[0].1] + map[ps[1].0 := ps[1].1]
    ensures |ps| == 3 ==> PairMap(ps) == map[ps[0].0 := ps[0].1] + (map[ps[1].0 := ps[1].1] + map[ps[2].0 := ps[2].1])
  {
    if ps != [] {
      PairMapKeys(ps[1..]);
    }
  }

  lemma HeadersTurn(lines: seq<string>, starts: seq<bool>, i: nat, w: Work, key: string, ps: seq<(string, string)>)
    requires |starts| == |lines| && i < |lines| && starts[i] && InPunk(w.cur)
    requires key == "http_headers" && Bare(key) && key !in w.seenFields && KindOf(key) == InlineTable
    requires |ps| > 0 && Pairs(ps) && lines[i] == key + " = " + ("{ " + PairsText(ps) + " }")
    ensures Lines(lines, starts, i, w) ==
            Lines(lines, starts, i + 1,
                  w.(seenFields := w.seenFields + {key}, transport := w.transport + {key},
                     inlined := w.inlined + {key}, headers := w.headers + PairMap(ps)))
  {
    hide Line, Lines, Bare, InPunk, PairsText, FieldLine, Pairs, PairMap, Fold, InlinePairs, KindOf;
    var value := "{ " + PairsText(ps) + " }";
    HeadersRead(lines, i, ps);
    FieldTurn(lines, starts, i, w, key, value);
    HeadersField(lines, i, w.(seenFields := w.seenFields + {key}), ps);
    Turn(lines, starts, i, w,
         w.(seenFields := w.seenFields + {key}, transport := w.transport + {key},
            inlined := w.inlined + {key}, headers := w.headers + PairMap(ps)));
  }

  lemma Layout(s: string, p: seq<string>, t: string, u: string, e: seq<string>, h: seq<string>, k: seq<string>, z: seq<string>)
    ensures var lines := [s] + (p + [t, u] + e + h + k) + z; var i := 2 + |p|;
            && |lines| == i + 1 + |e| + |h| + |k| + |z|
            && lines[0] == s && lines[1..i] == p + [t] && lines[i] == u
            && (e != [] ==> lines[i + 1] == e[0])
            && (h != [] ==> lines[i + 1 + |e|] == h[0])
            && lines[i + 1 + |e| + |h|..] == k + z
  {}

  lemma KnobsAreNew(o: Opts)
    ensures var w := BeforeKnobs(o);
            InPunk(w.cur) && !(exists key :: key in w.seenFields && KindOf(key) == Knob)
  {
    Kinds();
    hide KindOf, HeaderPairs, PairMap;
  }

  function KnobsAt(o: Opts, features: bool): nat {
    (if features then 6 else 3) + |EnvLines(o)| + |HeaderLines(o)|
  }

  function BeforeKnobs(o: Opts): Work {
    AfterHeaders(o, AfterEnv(o, AfterUrl(o, AfterTable())))
  }

  /** Where each line of the block stands. */
  ghost predicate LaidOut(o: Opts, features: bool, lines: seq<string>) {
    var i := if features then 5 else 2;
    && 5 <= |lines| && i < KnobsAt(o, features) <= |lines|
    && lines[0] == BLOCK_START
    && (if features then lines[1..5] == FeatureLines() + [PUNK_TABLE] else lines[1] == PUNK_TABLE)
    && lines[i] == UrlLine(o)
    && (EnvLines(o) != [] ==> lines[i + 1] == EnvLines(o)[0])
    && (HeaderLines(o) != [] ==> lines[i + 1 + |EnvLines(o)|] == HeaderLines(o)[0])
    && lines[KnobsAt(o, features)..] == KnobLines() + [BLOCK_END, ""]
  }

  lemma BodyParts(o: Opts, features: bool)
    ensures |KnobLines()| == 3
    ensures Body(o, features) == (if features then FeatureLines() else []) + [PUNK_TABLE, UrlLine(o)]
                                 + EnvLines(o) + HeaderLines(o) + KnobLines()
  {
    hide UrlLine, EnvLines, HeaderLines, FeatureLines;
  }

  lemma BlockLayout(o: Opts, features: bool, lines: seq<string>)
    requires lines == [BLOCK_START] + Body(o, features) + [BLOCK_END, ""]
    ensures LaidOut(o, features, lines)
  {
    hide *;
    var p := if features then FeatureLines() else [];
    ThreeLines();
    BodyParts(o, features);
    Layout(BLOCK_START, p, PUNK_TABLE, UrlLine(o), EnvLines(o), HeaderLines(o), KnobLines(), [BLOCK_END, ""]);
    LaidOutIs(o, features, p, lines);
  }

  lemma LaidOutIs(o: Opts, features: bool, p: seq<string>, lines: seq<string>)
    requires p == (if features then FeatureLines() else []) && |FeatureLines()| == 3 && |KnobLines()| == 3
    requires var i := 2 + |p|;
             && |lines| == i + 1 + |EnvLines(o)| + |HeaderLines(o)| + 3 + 2
             && lines[0] == BLOCK_START && lines[1..i] == p + [PUNK_TABLE] && lines[i] == UrlLine(o)
             && (EnvLines(o) != [] ==> lines[i + 1] == EnvLines(o)[0])
             && (HeaderLines(o) != [] ==> lines[i + 1 + |EnvLines(o)|] == HeaderLines(o)[0])
             && lines[i + 1 + |EnvLines(o)| + |HeaderLines(o)|..] == KnobLines() + [BLOCK_END, ""]
    ensures LaidOut(o, features, lines)
  {
    hide UrlLine, EnvLines, HeaderLines, FeatureLines, KnobLines;
    if !features {
      assert lines[1] == lines[1..2][0];
    }
  }

  lemma TurnsToUrl(o: Opts, features: bool, starts: seq<bool>, lines: seq<string>)
    requires LaidOut(o, features, lines)
    requires |starts| == |lines| && forall k | 0 <= k < |starts| :: starts[k]
    ensures Lines(lines, starts, 0, START) == Lines(lines, starts, if features then 5 else 2, AfterTable())
  {
    hide Lines, UrlLine, EnvLines, HeaderLines, KnobLines, FeatureLines, AfterTable;
    PreambleTurns(lines, starts, features);
  }

  lemma TurnsToKnobs(o: Opts, features: bool, starts: seq<bool>, lines: seq<string>)
    requires LaidOut(o, features, lines)
    requires |starts| == |lines| && forall k | 0 <= k < |starts| :: starts[k]
    ensures Lines(lines, starts, if features then 5 else 2, AfterTable())
         == Lines(lines, starts, KnobsAt(o, features), BeforeKnobs(o))
  {
    hide Lines, UrlLine, EnvLines, HeaderLines, KnobLines, FeatureLines, AfterHeaders, AfterEnv, AfterUrl, AfterTable;
    var i, k := if features then 5 else 2, KnobsAt(o, features);
    assert k == i + 1 + |EnvLines(o)| + |HeaderLines(o)|;
    hide KnobsAt;
    Fields(lines, starts, i, o);
  }

  lemma BlockTurns(o: Opts, features: bool, starts: seq<bool>, lines: seq<string>)
    requires lines == [BLOCK_START] + Body(o, features) + [BLOCK_END, ""]
    requires |starts| == |lines| && forall k | 0 <= k < |starts| :: starts[k]
    ensures Lines(lines, starts, 0, START) == Next(AfterKnobs(BeforeKnobs(o)), 0)
  {
    hide Lines, KnobLines, BeforeKnobs, KnobsAt, AfterKnobs, Body, InPunk, KindOf, AfterTable;
    BlockLayout(o, features, lines);
    TurnsToUrl(o, features, starts, lines);
    TurnsToKnobs(o, features, starts, lines);
    KnobsAreNew(o);
    KnobTurns(lines, starts, KnobsAt(o, features), BeforeKnobs(o));
  }

  lemma Distinct()
    ensures "url" != "bearer_token_env_var" && "url" != "http_headers" && "bearer_token_env_var" != "http_headers"
  {
    assert |"url"| == 3 && |"bearer_token_env_var"| == 20 && |"http_headers"| == 12;
  }

  lemma HeaderLineShape(text: string)
    ensures "http_headers = { " + text + " }" == "http_headers" + " = " + ("{ " + text + " }")
  {
    assert "http_headers = { " == "http_headers" + " = " + "{ ";
  }

  lemma UrlTurn(lines: seq<string>, starts: seq<bool>, i: nat, o: Opts)
    requires |starts| == |lines| && i < |lines| && starts[i] && lines[i] == UrlLine(o)
    ensures Lines(lines, starts, i, AfterTable()) == Lines(lines, starts, i + 1, AfterUrl(o, AfterTable()))
  {
    Kinds();
    BareNames();
    hide Lines, KindOf, Bare, Quoted;
    StringTurn(lines, starts, i, AfterTable(), "url", Endpoint(o.serverURL));
  }

  /** The fields set when the env line is reached, and when the headers are. */
  lemma SeenBefore(o: Opts)
    ensures var w := AfterUrl(o, AfterTable());
            && InPunk(w.cur) && "bearer_token_env_var" !in w.seenFields
            && InPunk(AfterEnv(o, w).cur) && "http_headers" !in AfterEnv(o, w).seenFields
  {
    Distinct();
    hide KeyEnv, Endpoint;
  }

  lemma EnvTurn(lines: seq<string>, starts: seq<bool>, i: nat, o: Opts, w: Work)
    requires |starts| == |lines| && (forall k | 0 <= k < |starts| :: starts[k]) && i + |EnvLines(o)| <= |lines|
    requires InPunk(w.cur) && "bearer_token_env_var" !in w.seenFields
    requires EnvLines(o) != [] ==> lines[i] == EnvLines(o)[0]
    ensures Lines(lines, starts, i, w) == Lines(lines, starts, i + |EnvLines(o)|, AfterEnv(o, w))
  {
    Kinds();
    BareNames();
    Distinct();
    hide Lines, KindOf, Bare, Quoted, InPunk;
    if KeyEnv(o).Some? {
      StringTurn(lines, starts, i, w, "bearer_token_env_var", KeyEnv(o).value);
    }
  }

  lemma HeaderTurn(lines: seq<string>, starts: seq<bool>, i: nat, o: Opts, w: Work)
    requires |starts| == |lines| && (forall k | 0 <= k < |starts| :: starts[k]) && i + |HeaderLines(o)| <= |lines|
    requires InPunk(w.cur) && "http_headers" !in w.seenFields
    requires HeaderLines(o) != [] ==> lines[i] == HeaderLines(o)[0]
    ensures Lines(lines, starts, i, w) == Lines(lines, starts, i + |HeaderLines(o)|, AfterHeaders(o, w))
  {
    Kinds();
    BareNames();
    hide Lines, KindOf, Bare, PairMap, Pairs, PairsText, InPunk;
    if HeaderPairs(o) != [] {
      HeaderPairsAreDistinct(o);
      HeaderLineShape(PairsText(HeaderPairs(o)));
      hide HeaderPairs;
      HeadersTurn(lines, starts, i, w, "http_headers", HeaderPairs(o));
    }
  }

  lemma Fields(lines: seq<string>, starts: seq<bool>, i: nat, o: Opts)
    requires |starts| == |lines| && (forall k | 0 <= k < |starts| :: starts[k])
    requires i + 1 + |EnvLines(o)| + |HeaderLines(o)| <= |lines| && lines[i] == UrlLine(o)
    requires EnvLines(o) != [] ==> lines[i + 1] == EnvLines(o)[0]
    requires HeaderLines(o) != [] ==> lines[i + 1 + |EnvLines(o)|] == HeaderLines(o)[0]
    ensures Lines(lines, starts, i, AfterTable()) ==
            Lines(lines, starts, i + 1 + |EnvLines(o)| + |HeaderLines(o)|,
                  AfterHeaders(o, AfterEnv(o, AfterUrl(o, AfterTable()))))
  {
    hide *;
    var w := AfterUrl(o, AfterTable());
    SeenBefore(o);
    UrlTurn(lines, starts, i, o);
    EnvTurn(lines, starts, i + 1, o, w);
    HeaderTurn(lines, starts, i + 1 + |EnvLines(o)|, o, AfterEnv(o, w));
  }

  lemma {:induction false} PlainEscape(v: string)
    requires forall i | 0 <= i < |v| :: BareKeyChar(v[i])
    ensures EscapeAll(v) == v
  {
    if v != "" {
      PlainEscape(v[1..]);
      assert Escape(v[0]) == [v[0]];
    }
  }

  lemma PlainLineLexes(ln: string)
    requires PlainRun(ln, 0, |ln|)
    ensures LineEnd(Code, ln, 0) == Code
  {
    LexPlain(ln, 0, |ln|);
  }

  lemma PlainLines()
    ensures LineEnd(Code, "[features]", 0) == LineEnd(Code, "hooks = true", 0) == Code
    ensures LineEnd(Code, PUNK_TABLE, 0) == LineEnd(Code, "", 0) == Code
    ensures LineEnd(Code, "startup_timeout_sec = 10", 0) == LineEnd(Code, "tool_timeout_sec = 60", 0) == Code
  {
    hide LineEnd;
    PlainLineLexes("[features]");
    PlainLineLexes("hooks = true");
    PlainLineLexes(PUNK_TABLE);
    PlainLineLexes("");
    PlainLineLexes("startup_timeout_sec = 10");
    PlainLineLexes("tool_timeout_sec = 60");
  }

  lemma ApprovalText()
    ensures "default_tools_approval_mode" + " = " + Quoted("approve") == "default_tools_approval_mode = \"approve\""
  {
    ApproveQuoted();
    hide Quoted, EscapeAll;
  }

  lemma ApproveQuoted()
    ensures Quoted("approve") == "\"approve\""
  {
    hide EscapeAll, BareKeyChar;
    ApproveIsBare("approve");
    PlainEscape("approve");
    assert [QUOTE] + "approve" + [QUOTE] == "\"approve\"";
  }

  lemma ApproveIsBare(v: string)
    requires v == "approve"
    ensures forall i | 0 <= i < |v| :: BareKeyChar(v[i])
  {
    assert |v| == 7;
  }

  lemma ApprovalLine()
    ensures LineEnd(Code, "default_tools_approval_mode = \"approve\"", 0) == Code
  {
    KnobNames();
    ApprovalText();
    hide LineEnd, Bare, Quoted;
    AssignmentLexes("default_tools_approval_mode", "approve");
  }

  lemma CommentLexes(ln: string)
    requires ln != "" && ln[0] == '#' && Printable(ln)
    ensures LineEnd(Code, ln, 0) == Code
  {
    CommentEnds(ln, 1);
  }

  lemma Sandwich(a: string, b: string, c: string)
    ensures var s, n := a + b + c, |a| + |b|;
            s[|a|..n] == b && (forall k | 0 <= k < |a| :: s[k] == a[k]) && (forall k | n <= k < |s| :: s[k] == c[k - n])
            && (forall k | |a| <= k < n :: s[k] == b[k - |a|])
  {}

  lemma RunInside(a: string, b: string, c: string)
    requires PlainRun(a, 0, |a|) && PlainRun(c, 0, |c|) && Printable(b)
    ensures var s, n := a + b + c, |a| + |b|; PlainRun(s, 0, |a|) && PlainRun(s, n, |s|) && '\n' !in s
  {
    Sandwich(a, b, c);
  }

  lemma LexAround(ln: string, ps: seq<(string, string)>, i: nat, n: nat)
    requires Pairs(ps) && At(ln, PairsText(ps), i) && n == i + |PairsText(ps)| && '\n' !in ln
    requires PlainRun(ln, 0, i) && PlainRun(ln, n, |ln|)
    ensures LineEnd(Code, ln, 0) == Code
  {
    hide PairsText, Pairs, LineEnd, Step, PlainRun;
    LexPlain(ln, 0, i);
    LexPairs(ln, ps, i);
    LexPlain(ln, n, |ln|);
    LexDone(ln);
  }

  lemma HeaderTextLexes(ps: seq<(string, string)>, pre: string, post: string)
    requires |ps| > 0 && Pairs(ps) && PlainRun(pre, 0, |pre|) && PlainRun(post, 0, |post|)
    ensures LineEnd(Code, pre + PairsText(ps) + post, 0) == Code
  {
    var t := PairsText(ps);
    PairsPrintable(ps);
    RunInside(pre, t, post);
    hide PairsText, Pairs, LineEnd, Step, Printable, PlainRun;
    var ln := pre + t + post;
    assert ln[|pre|..|pre| + |t|] == t;
    LexAround(ln, ps, |pre|, |pre| + |t|);
  }

  lemma LexDone(ln: string)
    ensures LineEnd(Code, ln, |ln|) == Code
  {}

  lemma HeaderLineLexes(ps: seq<(string, string)>)
    requires |ps| > 0 && Pairs(ps)
    ensures LineEnd(Code, "http_headers = { " + PairsText(ps) + " }", 0) == Code
  {
    hide PairsText, Pairs, LineEnd;
    HeaderTextLexes(ps, "http_headers = { ", " }");
  }

  ghost predicate AllLex(lines: seq<string>) {
    forall ln | ln in lines :: LineEnd(Code, ln, 0) == Code
  }

  lemma AppendLex(a: seq<string>, b: seq<string>)
    requires AllLex(a) && AllLex(b)
    ensures AllLex(a + b)
  {}

  lemma FixedLines()
    ensures AllLex(FeatureLines()) && AllLex(KnobLines()) && AllLex([BLOCK_START]) && AllLex([BLOCK_END, ""])
    ensures LineEnd(Code, PUNK_TABLE, 0) == Code
  {
    PlainLines();
    ApprovalLine();
    MarkerEnds();
    MarkersPrintable();
    CommentLexes(BLOCK_START);
    CommentLexes(BLOCK_END);
    hide LineEnd, Printable;
  }

  lemma BodyLexes(o: Opts, features: bool)
    ensures AllLex([BLOCK_START] + Body(o, features) + [BLOCK_END, ""])
  {
    FixedLines();
    UrlLexes(o);
    EnvLexes(o);
    HeadersLex(o);
    var a := if features then FeatureLines() else [];
    var u := [PUNK_TABLE, UrlLine(o)];
    assert AllLex(u) && AllLex([]) && AllLex(EnvLines(o)) && AllLex(HeaderLines(o));
    assert Body(o, features) == a + u + EnvLines(o) + HeaderLines(o) + KnobLines();
    hide *;
    AppendLex(a, u);
    AppendLex(a + u, EnvLines(o));
    AppendLex(a + u + EnvLines(o), HeaderLines(o));
    AppendLex(a + u + EnvLines(o) + HeaderLines(o), KnobLines());
    AppendLex([BLOCK_START], Body(o, features));
    AppendLex([BLOCK_START] + Body(o, features), [BLOCK_END, ""]);
  }

  lemma UrlLexes(o: Opts)
    ensures LineEnd(Code, UrlLine(o), 0) == Code
  {
    BareNames();
    assert Endpoint(o.serverURL) != "";
    hide LineEnd, Quoted, Bare, Endpoint;
    assert "url = " == "url" + " = ";
    AssignmentLexes("url", Endpoint(o.serverURL));
  }

  lemma EnvLexes(o: Opts)
    ensures AllLex(EnvLines(o))
  {
    BareNames();
    hide LineEnd, Quoted, Bare;
    if KeyEnv(o).Some? {
      assert "bearer_token_env_var = " == "bearer_token_env_var" + " = ";
      AssignmentLexes("bearer_token_env_var", KeyEnv(o).value);
    }
  }

  lemma HeadersLex(o: Opts)
    ensures AllLex(HeaderLines(o))
  {
    if HeaderPairs(o) != [] {
      HeaderPairsAreDistinct(o);
      hide LineEnd, PairsText, Pairs, HeaderPairs;
      HeaderLineLexes(HeaderPairs(o));
    }
  }

  lemma {:induction false} AllLexState(lines: seq<string>, i: nat)
    requires AllLex(lines) && i <= |lines|
    ensures LineState(lines, i) == Code
  {
    if i > 0 {
      AllLexState(lines, i - 1);
    }
  }

  lemma AllLexStarts(lines: seq<string>)
    requires AllLex(lines)
    ensures CodeStarts(lines).Some? && forall k | 0 <= k < |lines| :: CodeStarts(lines).value[k]
  {
    forall i | 0 <= i <= |lines| ensures LineState(lines, i) == Code {
      AllLexState(lines, i);
    }
  }

  // ---- the verdict on the block -----------------------------------------

  function SentHeaders(o: Opts): map<string, string> {
    (if EmbedsKey(o) then map["Authorization" := "Bearer " + o.apiKey] else map[])
    + (if o.ns != "" then map["X-Punk-Namespace" := o.ns] else map[])
    + (if o.agent != "" then map["X-Punk-Agent" := o.agent] else map[])
  }

  lemma KnobLinesAre(lines: seq<string>, i: nat)
    requires i <= |lines| && lines[i..] == KnobLines() + [BLOCK_END, ""]
    ensures |lines| == i + 5 && lines[i + 3] == BLOCK_END && lines[i + 4] == ""
    ensures lines[i] == "startup_timeout_sec" + " = " + "10" && lines[i + 1] == "tool_timeout_sec" + " = " + "60"
    ensures lines[i + 2] == "default_tools_approval_mode" + " = " + "\"approve\""
  {
    assert |lines| == i + 5;
    assert forall k | i <= k < |lines| :: lines[k] == lines[i..][k - i];
    assert "startup_timeout_sec" + " = " + "10" == KnobLines()[0] && "tool_timeout_sec" + " = " + "60" == KnobLines()[1];
    assert "default_tools_approval_mode" + " = " + "\"approve\"" == KnobLines()[2];
  }

  lemma KnobsDiffer()
    ensures "startup_timeout_sec" != "tool_timeout_sec" && "startup_timeout_sec" != "default_tools_approval_mode"
    ensures "tool_timeout_sec" != "default_tools_approval_mode"
  {
    assert |"startup_timeout_sec"| == 19 && |"tool_timeout_sec"| == 16 && |"default_tools_approval_mode"| == 27;
  }

  lemma SentHeadersAreThePairs(o: Opts)
    ensures PairMap(HeaderPairs(o)) == SentHeaders(o)
  {
    hide PairMap, EmbedsKey;
    PairMapKeys(HeaderPairs(o));
    NoPairs();
    assert map[] + map["X-Punk-Namespace" := o.ns] == map["X-Punk-Namespace" := o.ns];
    assert map[] + map["X-Punk-Agent" := o.agent] == map["X-Punk-Agent" := o.agent];
  }

  lemma NoPairs()
    ensures PairMap([]) == map[]
  {}

  lemma LoweredNames()
    ensures Lower("Authorization") == AUTH_HEADER
    ensures Lower("X-Punk-Namespace") == NAMESPACE_HEADER
    ensures |Lower("X-Punk-Agent")| == 12
  {}

  lemma SentHeadersResolve(o: Opts)
    ensures var h := SentHeaders(o);
            && !Conflict(h) && !Conflict(map[])
            && Effective(h, map[], NAMESPACE_HEADER) == (if o.ns != "" then Some(o.ns) else None)
            && (Effective(h, map[], AUTH_HEADER).Some? <==> EmbedsKey(o))
  {
    var h := SentHeaders(o);
    LoweredNames();
    assert |AUTH_HEADER| == 13 && |NAMESPACE_HEADER| == 16;
    assert |Lower("Authorization")| == 13 && |Lower("X-Punk-Namespace")| == 16;
    hide Lower, EmbedsKey;
    assert forall k | k in h :: k == "Authorization" || k == "X-Punk-Namespace" || k == "X-Punk-Agent";
    assert !Conflict(h);
    if o.ns != "" {
      assert "X-Punk-Namespace" in h;
      OneValue(h, "X-Punk-Namespace");
    }
    if EmbedsKey(o) {
      assert "Authorization" in h;
      OneValue(h, "Authorization");
    }
  }

  lemma VerdictOnBlock(o: Opts, environ: map<string, string>)
    ensures var r := Verdict(AfterKnobs(BeforeKnobs(o)), environ);
            && r.Inspected?
            && r.scope.installed && !r.scope.fragment && !r.scope.headersHelper && r.scope.enabled == None
            && r.scope.endpoint == Some(Endpoint(o.serverURL))
            && r.scope.bearerEnv == KeyEnv(o)
            && r.scope.pin == o.ns
            && (r.scope.headerAuth <==> EmbedsKey(o))
  {
    hide SentHeaders, Effective, Conflict, Endpoint, KeyEnv, EmbedsKey, AfterKnobs, BeforeKnobs, Spelled;
    WorkOnBlock(o);
    SentHeadersResolve(o);
    HelperUnset(o);
    assert Live(map[], environ) == map[];
  }

  /** What the lines of the block leave behind. */
  lemma WorkOnBlock(o: Opts)
    ensures var w := AfterKnobs(BeforeKnobs(o));
            && w.headers == SentHeaders(o) && w.envHeaders == map[] && w.subtables == {} && w.punkTables == 1
            && w.endpoint == Some(Endpoint(o.serverURL)) && w.bearerEnv == KeyEnv(o) && w.enabled == None
  {
    hide SentHeaders, HeaderPairs, Endpoint, KeyEnv;
    SentHeadersAreThePairs(o);
    NoPairs();
    assert map[] + SentHeaders(o) == SentHeaders(o);
  }

  lemma HelperUnset(o: Opts)
    ensures "http_headers_helper" !in AfterKnobs(BeforeKnobs(o)).transport
  {
    assert |"http_headers_helper"| == 19 && |"url"| == 3 && |"bearer_token_env_var"| == 20 && |"http_headers"| == 12;
  }

  /** The file that is exactly the printed block, with LF or with CRLF line endings,
      is read back as the entry that was asked for: the URL, the pin, the variable
      the token comes from, and an Authorization header exactly when a literal key
      was embedded. It holds for every option set and every environment. */
  lemma PrintedBlockReadsBack(o: Opts, features: bool, crlf: bool, environ: map<string, string>)
    ensures var text := if crlf then ToCRLF(Block(o, features)) else Block(o, features);
            var r := Inspect(Split(ToLF(text)), environ);
            && r.Inspected?
            && r.scope.installed && !r.scope.fragment && !r.scope.headersHelper && r.scope.enabled == None
            && r.scope.endpoint == Some(Endpoint(o.serverURL))
            && r.scope.bearerEnv == KeyEnv(o)
            && r.scope.pin == o.ns
            && (r.scope.headerAuth <==> EmbedsKey(o))
  {
    hide *;
    var b := Block(o, features);
    LFAfterCRLF(b);
    BlockHasNoCR(o, features);
    LFUnchanged(b);
    BlockInspected(o, features, environ);
    VerdictOnBlock(o, environ);
  }

  /** The lines of the block lead to the verdict on what was asked for. */
  lemma BlockInspected(o: Opts, features: bool, environ: map<string, string>)
    ensures Inspect(Split(Block(o, features)), environ) == Verdict(AfterKnobs(BeforeKnobs(o)), environ)
  {
    hide *;
    SplitBlock(o, features);
    BodyLexes(o, features);
    var lines := Split(Block(o, features));
    AllLexStarts(lines);
    CodeStartsEach(lines);
    BlockTurns(o, features, CodeStarts(lines).value, lines);
    InspectIs(lines, environ, AfterKnobs(BeforeKnobs(o)));
  }

  lemma CodeStartsEach(lines: seq<string>)
    requires CodeStarts(lines).Some?
    ensures |CodeStarts(lines).value| == |lines|
  {}

  lemma InspectIs(lines: seq<string>, environ: map<string, string>, w: Work)
    requires CodeStarts(lines).Some? && Lines(lines, CodeStarts(lines).value, 0, START) == Next(w, 0)
    ensures Inspect(lines, environ) == Verdict(w, environ)
  {
    hide Lines, Verdict, CodeStarts;
  }

  lemma BlockHasNoCR(o: Opts, features: bool)
    ensures !Contains(Block(o, features), CRLF)
  {
    BlockNoCR(o, features);
    assert CRLF[0] == '\r';
    hide Block;
    NeedsFirst(Block(o, features), CRLF);
  }
}
