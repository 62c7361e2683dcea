/** The TOML subset the config.toml inspector reads: keys, dotted paths, table
    headers, inline tables and arrays (sections "Keys", "Table" and "Inline
    Table" of TOML v1.0.0). Anything outside the subset is refused, never guessed
    at. */
module TomlParse {
  import opened Text
  import opened TomlString

  predicate Starts(s: string, c: char) {
    s != "" && s[0] == c
  }

  predicate IsQuote(c: char) {
    c == QUOTE || c == APOSTROPHE
  }

  // ---- keys -------------------------------------------------------------

  predicate BareKeyChar(c: char) {
    'a' <= c <= 'z' || 'A' <= c <= 'Z' || '0' <= c <= '9' || c == '_' || c == '-'
  }

  function BareKeyEnd(s: string, i: nat): (r: nat)
    requires i <= |s|
    ensures i <= r <= |s|
    decreases |s| - i
  {
    if i < |s| && BareKeyChar(s[i]) then BareKeyEnd(s, i + 1) else i
  }

  /** parseTOMLKey. */
  function ParseKey(s: string): (r: Parsed)
    ensures r.Good? ==> |r.rest| < |s|
  {
    if Starts(s, QUOTE) || Starts(s, APOSTROPHE) then ParseString(s)
    else
      var i := BareKeyEnd(s, 0);
      if i == 0 then Bad else Good(s[..i], s[i..])
  }

  predicate TrailingOk(rest: string) {
    var r := TrimSpace(rest);
    r == "" || r[0] == '#'
  }

  /** parseTOMLKeyPath: the segments of a dotted key and what follows it. */
  function ParseKeyPath(s: string): Option<(seq<string>, string)>
    decreases |s|
  {
    match ParseKey(TrimSpace(s))
    case Bad => None
    case Good(seg, rest) =>
      var r := TrimSpace(rest);
      if !Starts(r, '.') then Some(([seg], r))
      else
        match ParseKeyPath(r[1..])
        case None => None
        case Some(more) => Some(([seg] + more.0, more.1))
  }

  // ---- table headers ----------------------------------------------------

  /** The scan of splitTOMLKeyPath from `i`, `cur` being the segment read so far. */
  function KeySegments(s: string, i: nat, cur: string): Option<seq<string>>
    requires i <= |s|
    decreases |s| - i
  {
    if i == |s| then Some([cur])
    else if IsQuote(s[i]) then
      match ParseString(s[i..])
      case Bad => None
      case Good(val, rest) => KeySegments(s, |s| - |rest|, cur + val)
    else if s[i] == '.' then
      match KeySegments(s, i + 1, "")
      case None => None
      case Some(segs) => Some([cur] + segs)
    else KeySegments(s, i + 1, cur + [s[i]])
  }

  function SplitKeyPath(s: string): Option<seq<string>> {
    match KeySegments(s, 0, "")
    case None => None
    case Some(segs) =>
      var trimmed := seq(|segs|, k requires 0 <= k < |segs| => TrimSpace(segs[k]));
      if "" in trimmed then None else Some(trimmed)
  }

  /** The bracket that closes a table header, quoted segments skipped. */
  function HeaderClose(s: string, i: nat): (r: int)
    ensures r == -1 || i <= r < |s|
    decreases |s| - i
  {
    if i >= |s| then -1
    else if s[i] == ']' then i
    else if IsQuote(s[i]) then
      var j := CloseQuote(s, i + 1, s[i]);
      if j < 0 then -1 else HeaderClose(s, j + 1)
    else HeaderClose(s, i + 1)
  }

  datatype Header = NoHeader | Header(path: seq<string>, isArray: bool)

  function TrimBlanks(s: string): string {
    if s != "" && (s[0] == ' ' || s[0] == '\t') then TrimBlanks(s[1..]) else s
  }

  /** parseTOMLTableHeader. */
  function ParseHeader(line: string): Header {
    var t := TrimSpace(line);
    if !Starts(t, '[') then NoHeader
    else
      var isArray := Starts(t[1..], '[');
      var s := if isArray then t[2..] else t[1..];
      var close := HeaderClose(s, 0);
      if close < 0 then NoHeader
      else
        var after := if isArray then TrimBlanks(s[close + 1..]) else s[close + 1..];
        if isArray && !Starts(after, ']') then NoHeader
        else if !TrailingOk(if isArray then after[1..] else after) then NoHeader
        else
          match SplitKeyPath(s[..close])
          case None => NoHeader
          case Some(path) => Header(path, isArray)
  }

  const PUNK_PATH := ["mcp_servers", "punk"]

  /** isPunkMCPTableHeader: [mcp_servers.punk] in any quoting. */
  predicate IsPunkHeader(line: string) {
    ParseHeader(line) == Header(PUNK_PATH, false)
  }

  // ---- bracketed values -------------------------------------------------

  datatype Cut = StillOpen | Cut(body: string, rest: string)

  /** The scan shared by cutTOMLInlineTable and cutTOMLArray; only arrays may hold
      comments. */
  function CutFrom(s: string, i: nat, depth: int, isArray: bool): Cut
    requires depth > 0 ==> i > 0
    decreases |s| - i
  {
    var opener, closer := if isArray then '[' else '{', if isArray then ']' else '}';
    if i >= |s| then StillOpen
    else if isArray && s[i] == '#' then
      var j := IndexFrom(s, "\n", i);
      if j < 0 then StillOpen else CutFrom(s, j + 1, depth, isArray)
    else if IsQuote(s[i]) then
      var j := CloseQuote(s, i + 1, s[i]);
      if j < 0 then StillOpen else CutFrom(s, j + 1, depth, isArray)
    else if s[i] == opener then CutFrom(s, i + 1, depth + 1, isArray)
    else if s[i] == closer then
      if depth == 1 then Cut(s[1..i], s[i + 1..]) else CutFrom(s, i + 1, depth - 1, isArray)
    else CutFrom(s, i + 1, depth, isArray)
  }

  function CutValue(s: string, isArray: bool): Cut {
    CutFrom(s, 0, 0, isArray)
  }

  /** foldTOMLValue: later lines are appended until the bracket closes; the answer
      says how many of them it took. */
  function Fold(lines: seq<string>, i: nat, joined: string, isArray: bool): Option<(nat, string, string)>
    requires i < |lines|
    decreases |lines| - i
  {
    match CutValue(joined, isArray)
    case Cut(body, rest) => Some((0, body, rest))
    case StillOpen =>
      if i + 1 >= |lines| then None
      else
        match Fold(lines, i + 1, joined + "\n" + TrimSpace(lines[i + 1]), isArray)
        case None => None
        case Some((more, body, rest)) => Some((1 + more, body, rest))
  }

  /** parseTOMLInlinePairs from a trimmed rest `s`, `acc` holding the pairs read. */
  function PairsFrom(s: string, acc: map<string, string>): Option<map<string, string>>
    decreases |s|
  {
    if s == "" then Some(acc)
    else
      match ParseKey(s)
      case Bad => None
      case Good(key, rest) =>
        var t := TrimSpace(rest);
        if !Starts(t, '=') then None
        else
          match ParseString(TrimSpace(t[1..]))
          case Bad => None
          case Good(val, tail) =>
            var u := TrimSpace(tail);
            if key in acc then None
            else if u == "" then Some(acc[key := val])
            else if u[0] == ',' then PairsFrom(TrimSpace(u[1..]), acc[key := val])
            else None
  }

  function InlinePairs(body: string): Option<map<string, string>> {
    PairsFrom(TrimSpace(body), map[])
  }

  // ---- array elements ---------------------------------------------------

  /** The copy of one string in splitTOMLElems, from `i` just after its opening
      quote: what is written, and where the copy stops. The character after a
      backslash is written twice and looked at again, because the code steps onto
      it and then restarts the loop without stepping past it. */
  function CopyString(s: string, i: nat, q: char): (r: Option<(string, nat)>)
    ensures r.Some? ==> i <= r.value.1 < |s|
    decreases |s| - i
  {
    if i >= |s| then None
    else if s[i] == BACKSLASH && q == QUOTE then
      match CopyString(s, i + 1, q)
      case None => None
      case Some(r) => Some(([s[i], s[i + 1]] + r.0, r.1))
    else if s[i] == q then Some(([q], i))
    else
      match CopyString(s, i + 1, q)
      case None => None
      case Some(r) => Some(([s[i]] + r.0, r.1))
  }

  lemma {:induction false} CopyLength(s: string, i: nat)
    ensures CopyString(s, i, QUOTE).Some? ==>
            var c, j := CopyString(s, i, QUOTE).value.0, CopyString(s, i, QUOTE).value.1;
            |c| > j - i && (BACKSLASH in s[i..j] ==> |c| > j - i + 1)
    decreases |s| - i
  {
    if i < |s| && s[i] != QUOTE && CopyString(s, i + 1, QUOTE).Some? {
      CopyLength(s, i + 1);
      var j := CopyString(s, i + 1, QUOTE).value.1;
      assert s[i..j] == [s[i]] + s[i + 1..j];
    }
  }

  lemma {:induction false} PlainCopy(s: string, i: nat, j: nat)
    requires i <= j < |s| && s[j] == QUOTE
    requires forall k | i <= k < j :: s[k] != QUOTE && s[k] != BACKSLASH
    ensures CopyString(s, i, QUOTE) == Some((s[i..j + 1], j))
    decreases j - i
  {
    if i < j {
      PlainCopy(s, i + 1, j);
      assert s[i..j + 1] == [s[i]] + s[i + 1..j + 1];
    } else {
      assert s[i..i + 1] == [QUOTE];
    }
  }

  /** A basic string in a list is copied faithfully, up to the quote that closes
      it, exactly when it holds no backslash: the doubled step rewrites every
      escape, and an escaped quote ends the copy early. */
  lemma CopyIsFaithful(s: string, i: nat)
    requires i <= |s| && CloseQuote(s, i, QUOTE) >= 0
    ensures var j := CloseQuote(s, i, QUOTE);
            CopyString(s, i, QUOTE) == Some((s[i..j + 1], j)) <==> BACKSLASH !in s[i..j]
  {
    var j := CloseQuote(s, i, QUOTE);
    CopyLength(s, i);
    if BACKSLASH !in s[i..j] {
      assert forall k | i <= k < j :: s[k] == s[i..j][k - i];
      NoEarlierQuote(s, i);
      PlainCopy(s, i, j);
    }
  }

  lemma {:induction false} NoEarlierQuote(s: string, i: nat)
    requires CloseQuote(s, i, QUOTE) >= 0
    requires forall k | i <= k < CloseQuote(s, i, QUOTE) :: s[k] != BACKSLASH
    ensures forall k | i <= k < CloseQuote(s, i, QUOTE) :: s[k] != QUOTE
    decreases |s| - i
  {
    if i < |s| && s[i] != BACKSLASH && s[i] != QUOTE {
      NoEarlierQuote(s, i + 1);
    }
  }

  function StripComments(s: string, i: nat): Option<string>
    decreases |s| - i
  {
    if i >= |s| then Some("")
    else if s[i] == '#' then
      var j := IndexFrom(s, "\n", i);
      if j < 0 then Some("") else StripComments(s, j)
    else if IsQuote(s[i]) then
      match CopyString(s, i + 1, s[i])
      case None => None
      case Some(copy) =>
        match StripComments(s, copy.1 + 1)
        case None => None
        case Some(rest) => Some([s[i]] + copy.0 + rest)
    else Prepend(s[i], StripComments(s, i + 1))
  }

  function ElemsFrom(s: string, i: nat, start: nat, depth: int): Option<seq<string>>
    requires start <= |s| && (i <= |s| ==> start <= i)
    decreases |s| - i
  {
    if i >= |s| then
      if depth != 0 then None
      else
        var last := TrimSpace(s[start..]);
        Some(if last == "" then [] else [last])
    else if IsQuote(s[i]) then
      var j := CloseQuote(s, i + 1, s[i]);
      if j < 0 then None else ElemsFrom(s, j + 1, start, depth)
    else if s[i] == '[' || s[i] == '{' then ElemsFrom(s, i + 1, start, depth + 1)
    else if s[i] == ']' || s[i] == '}' then
      if depth == 0 then None else ElemsFrom(s, i + 1, start, depth - 1)
    else if s[i] == ',' && depth == 0 then
      var el := TrimSpace(s[start..i]);
      if el == "" then None
      else
        match ElemsFrom(s, i + 1, i + 1, depth)
        case None => None
        case Some(more) => Some([el] + more)
    else ElemsFrom(s, i + 1, start, depth)
  }

  /** splitTOMLElems. */
  function SplitElems(body: string): Option<seq<string>> {
    match StripComments(body, 0)
    case None => None
    case Some(clean) => ElemsFrom(clean, 0, 0, 0)
  }

  predicate StringElemOk(elem: string) {
    var p := ParseString(TrimSpace(elem));
    p.Good? && TrimSpace(p.rest) == ""
  }

  lemma EscapedQuoteSplits(e: string)
    requires |e| == 4 && e[0] == QUOTE && e[1] == BACKSLASH && e[2] == QUOTE && e[3] == QUOTE
    ensures SplitElems(e) == None
  {
    assert CopyString(e, 2, QUOTE) == Some(([QUOTE], 2));
    assert CopyString(e, 4, QUOTE) == None;
    assert StripComments(e, 3) == None;
  }

  /** So a list that holds one well-formed string can be refused. */
  lemma EscapedQuoteRefused(elem: string)
    requires elem == Quoted([QUOTE])
    ensures StringElemOk(elem) && SplitElems(elem) == None
  {
    assert EscapeAll([QUOTE]) == [BACKSLASH, QUOTE];
    EscapedQuoteSplits(elem);
    hide SplitElems, EscapeAll, Quoted;
    assert elem[0] == QUOTE && elem[3] == QUOTE && !IsSpace(QUOTE);
    TrimmedAlready(elem);
    assert elem + "" == elem;
    QuotedRoundTrip([QUOTE], "");
  }

  predicate EnvVarElemOk(elem: string) {
    var e := TrimSpace(elem);
    StringElemOk(e)
    || (Starts(e, '{') && var c := CutValue(e, false); c.Cut? && TrimSpace(c.rest) == "")
  }

  // ---- inline table keys ------------------------------------------------

  datatype Presence = Found | Absent | CannotTell

  /** scanTOMLInlineKeys: is `want` among the top-level keys? */
  function InlineKey(s: string, want: string): Presence
    decreases |s|, 3
  {
    if s == "" then Absent
    else
      match ParseKey(s)
      case Bad => CannotTell
      case Good(key, rest) =>
        if key == want then Found
        else
          var t := TrimSpace(rest);
          if !Starts(t, '=') then CannotTell else InlineValue(TrimSpace(t[1..]), want)
  }

  /** From the value of a key on. */
  function InlineValue(v: string, want: string): Presence
    decreases |v|, 2
  {
    if Starts(v, QUOTE) || Starts(v, APOSTROPHE) then
      match ParseString(v)
      case Bad => CannotTell
      case Good(_, tail) => AfterValue(TrimSpace(tail), want)
    else if Starts(v, '{') || Starts(v, '[') then
      match CutValue(v, v[0] == '[')
      case StillOpen => CannotTell
      case Cut(_, tail) =>
        assert |tail| <= |v| by { CutShrinks(v, 0, 0, v[0] == '['); }
        AfterValue(TrimSpace(tail), want)
    else
      var j := IndexOf(v, ",");
      var scalar := TrimSpace(if j >= 0 then v[..j] else v);
      if scalar == "" || exists c :: c in scalar && c in "\"'{}[]" then CannotTell
      else if j < 0 then Absent
      else InlineKey(TrimSpace(v[j + 1..]), want)
  }

  function AfterValue(s: string, want: string): Presence
    decreases |s|, 1
  {
    if s == "" then Absent
    else if s[0] == ',' then InlineKey(TrimSpace(s[1..]), want)
    else CannotTell
  }

  lemma {:induction false} CutShrinks(s: string, i: nat, depth: int, isArray: bool)
    requires depth > 0 ==> i > 0
    ensures CutFrom(s, i, depth, isArray).Cut? ==> |CutFrom(s, i, depth, isArray).rest| < |s|
    decreases |s| - i
  {
    if i < |s| {
      if isArray && s[i] == '#' {
        var j := IndexFrom(s, "\n", i);
        if j >= 0 {
          CutShrinks(s, j + 1, depth, isArray);
        }
      } else if IsQuote(s[i]) {
        var j := CloseQuote(s, i + 1, s[i]);
        if j >= 0 {
          CutShrinks(s, j + 1, depth, isArray);
        }
      } else {
        CutShrinks(s, i + 1, depth + 1, isArray);
        CutShrinks(s, i + 1, depth, isArray);
        if depth != 1 {
          CutShrinks(s, i + 1, depth - 1, isArray);
        }
      }
    }
  }
}
