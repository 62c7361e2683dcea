/** Which lines are table headers and which tables they open, said as a grammar: names
    made of bare characters and strings, with dots between, in one bracket or two. */
module TomlHeaders {
  import opened Text
  import opened TomlString
  import opened TomlParse
  import opened TomlCut
  import opened TomlPairs
  import opened CodexLines

  /** What a header's path is made of. */
  datatype Bit = Bare(c: char) | Lit(text: string, val: string) | Point
  {
    function Text(): string { if Bare? then [c] else if Lit? then text else "." }

    ghost predicate Good() {
      && (Bare? ==> c != '.' && !IsQuote(c))
      && (Lit? ==> ValueText(text, val))
    }
  }

  function TextOf(bits: seq<Bit>): string {
    if bits == [] then "" else bits[0].Text() + TextOf(bits[1..])
  }

  /** An empty string is not followed by the same quote: three quotes would open a
      string over several lines. */
  predicate Apart(b: Bit, rest: string) {
    b.Lit? && |b.text| == 2 && rest != "" ==> rest[0] != b.text[0]
  }

  ghost predicate GoodBits(bits: seq<Bit>) {
    bits == [] || (bits[0].Good() && Apart(bits[0], TextOf(bits[1..])) && GoodBits(bits[1..]))
  }

  /** The names between the dots, `cur` being what is open of the first. */
  function NamesOf(bits: seq<Bit>, cur: string): seq<string> {
    if bits == [] then [cur]
    else match bits[0]
      case Bare(c) => NamesOf(bits[1..], cur + [c])
      case Lit(_, val) => NamesOf(bits[1..], cur + val)
      case Point => [cur] + NamesOf(bits[1..], "")
  }

  /** A string is read whole in front of what cannot continue it. */
  lemma LitThen(text: string, val: string, rest: string)
    requires ValueText(text, val) && (|text| == 2 && rest != "" ==> rest[0] != text[0])
    ensures ParseString(text + rest) == Good(val, rest)
  {
    ValueShape(text);
    NotTriple(text);
    hide ParseString, CloseQuote, Unescape;
    var s, n := text + rest, |text|;
    CloseWithin(text, rest, 1, text[0]);
    assert s[..n] == text && s[n..] == rest && s[1..n - 1] == text[1..n - 1];
    StillNotTriple(text, rest);
    ValueFrom(s, n);
  }

  lemma NotTriple(text: string)
    requires ParseString(text).Good?
    ensures !(|text| >= 3 && text[0] == text[1] == text[2])
  {
    Openings(text);
    hide CloseQuote, Unescape;
  }

  lemma StillNotTriple(text: string, rest: string)
    requires |text| >= 2 && !(|text| >= 3 && text[0] == text[1] == text[2]) && (|text| == 2 && rest != "" ==> rest[0] != text[0])
    ensures var s := text + rest; !(|s| >= 3 && s[0] == s[1] == s[2])
  {}

  /** The closing quote is where it was when more text follows. */
  lemma {:induction false} CloseWithin(s: string, t: string, i: nat, q: char)
    requires CloseQuote(s, i, q) >= 0
    ensures CloseQuote(s + t, i, q) == CloseQuote(s, i, q)
    decreases |s| - i
  {
    assert forall k | 0 <= k < |s| :: (s + t)[k] == s[k];
    if i < |s| {
      if s[i] == BACKSLASH && q == QUOTE {
        CloseWithin(s, t, i + 2, q);
      } else if s[i] != q {
        CloseWithin(s, t, i + 1, q);
      }
    }
  }

  // ---- the path ---------------------------------------------------------

  lemma SegmentsStep(s: string, i: nat, cur: string)
    requires i <= |s|
    ensures KeySegments(s, i, cur) ==
            if i == |s| then Some([cur])
            else if IsQuote(s[i]) then
              match ParseString(s[i..])
              case Bad => None
              case Good(val, rest) => KeySegments(s, |s| - |rest|, cur + val)
            else if s[i] == '.' then
              match KeySegments(s, i + 1, "")
              case None => None
              case Some(segs) => Some([cur] + segs)
            else KeySegments(s, i + 1, cur + [s[i]])
  {
    hide ParseString;
  }

  /** What is written is read. */
  lemma {:induction false} PathRead(s: string, i: nat, bits: seq<Bit>, cur: string)
    requires i <= |s| && s[i..] == TextOf(bits) && GoodBits(bits)
    ensures KeySegments(s, i, cur) == Some(NamesOf(bits, cur))
    decreases |bits|
  {
    hide KeySegments, ParseString, ValueText, Bit.Good, Bit.Text, Apart;
    if bits == [] {
      SegmentsStep(s, i, cur);
    } else {
      var b, rest := bits[0], TextOf(bits[1..]);
      ReadBit(s, i, b, rest, cur);
      PathRead(s, i + |b.Text()|, bits[1..], if b.Point? then "" else if b.Lit? then cur + b.val else cur + [b.c]);
    }
  }

  /** One bit. */
  lemma ReadBit(s: string, i: nat, b: Bit, rest: string, cur: string)
    requires i <= |s| && s[i..] == b.Text() + rest && b.Good() && Apart(b, rest)
    ensures b.Text() != "" && i + |b.Text()| <= |s| && s[i + |b.Text()|..] == rest
    ensures KeySegments(s, i, cur) ==
            var more := KeySegments(s, i + |b.Text()|, if b.Point? then "" else if b.Lit? then cur + b.val else cur + [b.c]);
            if b.Point? then (if more.None? then None else Some([cur] + more.value)) else more
  {
    hide KeySegments, ParseString, ValueText;
    SegmentsStep(s, i, cur);
    var t := b.Text();
    BitStarts(b);
    assert s[i] == s[i..][0] == t[0];
    assert s[i + |t|..] == s[i..][|t|..] == rest;
    if b.Lit? {
      LitThen(b.text, b.val, rest);
    }
  }

  lemma BitStarts(b: Bit)
    requires b.Good()
    ensures b.Text() != "" && (b.Lit? <==> IsQuote(b.Text()[0])) && (b.Point? <==> b.Text()[0] == '.')
  {
    if b.Lit? {
      ValueEnds(b.text, b.val);
      ValueShape(b.text);
    }
    hide ParseString;
  }

  /** What is read is written. */
  lemma {:induction false} PathFound(s: string, i: nat, cur: string) returns (bits: seq<Bit>)
    requires i <= |s| && KeySegments(s, i, cur).Some?
    ensures s[i..] == TextOf(bits) && GoodBits(bits) && KeySegments(s, i, cur) == Some(NamesOf(bits, cur))
    decreases |s| - i
  {
    hide KeySegments, ParseString, ValueText, NamesOf;
    SegmentsStep(s, i, cur);
    if i == |s| {
      bits := [];
      NoBits(cur);
    } else {
      var b, more, j, next := Point, [], i + 1, "";
      if IsQuote(s[i]) {
        var text := ValueCut(s[i..]);
        var p := ParseString(s[i..]);
        assert |s| - |p.rest| == i + |text|;
        b, j, next := Lit(text, p.val), i + |text|, cur + p.val;
        ValueApart(s[i..], text, p.rest);
      } else if s[i] != '.' {
        b, next := Bare(s[i]), cur + [s[i]];
      }
      more := PathFound(s, j, next);
      bits := [b] + more;
      assert s[i..] == b.Text() + s[j..];
      assert bits[1..] == more;
      BitNames(b, more, cur);
      hide *;
      GoodMore(b, more);
    }
  }

  lemma NoBits(cur: string)
    ensures NamesOf([], cur) == [cur] && TextOf([]) == "" && GoodBits([])
  {}

  lemma BitNames(b: Bit, more: seq<Bit>, cur: string)
    ensures NamesOf([b] + more, cur) ==
            (if b.Point? then [cur] + NamesOf(more, "") else NamesOf(more, if b.Lit? then cur + b.val else cur + [b.c]))
  {
    assert ([b] + more)[1..] == more;
  }

  lemma GoodMore(b: Bit, more: seq<Bit>)
    requires b.Good() && Apart(b, TextOf(more)) && GoodBits(more)
    ensures GoodBits([b] + more) && TextOf([b] + more) == b.Text() + TextOf(more)
  {
    assert ([b] + more)[1..] == more;
  }

  /** A string that was read has no third quote after two. */
  lemma ValueApart(s: string, text: string, rest: string)
    requires ParseString(s).Good? && s == text + rest && rest == ParseString(s).rest
    ensures |text| == 2 && rest != "" ==> rest[0] != text[0]
  {
    ValueShape(s);
    Openings(s);
    assert |text| == |s| - |rest|;
    if |text| == 2 && rest != "" {
      assert s[2] == rest[0] && s[1] == s[0] == text[0];
    }
  }

  // ---- the closing bracket ----------------------------------------------

  lemma {:induction false} CloseShift(s: string, i: nat, k: nat, q: char)
    requires i <= |s| && k <= |s| - i
    ensures CloseQuote(s, i + k, q) == if CloseQuote(s[i..], k, q) < 0 then -1 else i + CloseQuote(s[i..], k, q)
    decreases |s| - i - k
  {
    if i + k < |s| {
      assert s[i..][k] == s[i + k];
      if s[i + k] == BACKSLASH && q == QUOTE {
        if i + k + 2 <= |s| {
          CloseShift(s, i, k + 2, q);
        }
      } else if s[i + k] != q {
        CloseShift(s, i, k + 1, q);
      }
    }
  }

  lemma CloseStep(s: string, i: nat)
    requires i < |s|
    ensures HeaderClose(s, i) ==
            if s[i] == ']' then i
            else if IsQuote(s[i]) then
              var j := CloseQuote(s, i + 1, s[i]);
              if j < 0 then -1 else HeaderClose(s, j + 1)
            else HeaderClose(s, i + 1)
  {
    hide CloseQuote;
  }

  /** Over a string. */
  lemma CloseOverLit(s: string, i: nat, text: string, val: string, rest: string)
    requires i <= |s| && s[i..] == text + rest && ValueText(text, val)
    ensures text != "" && i + |text| <= |s| && HeaderClose(s, i) == HeaderClose(s, i + |text|)
  {
    ValueShape(text);
    assert s[i] == s[i..][0] == text[0];
    CloseWithin(text, rest, 1, text[0]);
    CloseShift(s, i, 1, text[0]);
    CloseStep(s, i);
    hide CloseQuote, HeaderClose, ParseString;
  }

  /** A bracket that is no part of the path closes the header. */
  lemma {:induction false} CloseFound(s: string, i: nat, bits: seq<Bit>, rest: string)
    requires i <= |s| && s[i..] == TextOf(bits) + rest && rest != "" && rest[0] == ']' && GoodBits(bits)
    ensures Bare(']') !in bits ==> HeaderClose(s, i) == i + |TextOf(bits)|
    ensures Bare(']') in bits ==> i <= HeaderClose(s, i) < i + |TextOf(bits)|
    decreases |bits|
  {
    hide HeaderClose, ParseString, ValueText, Bit.Good, Bit.Text, Apart;
    if bits == [] {
      assert s[i] == s[i..][0] == ']';
      CloseStep(s, i);
    } else {
      var b, t, more := bits[0], bits[0].Text(), TextOf(bits[1..]) + rest;
      FirstBit(s, i, b, more);
      CloseFound(s, i + |t|, bits[1..], rest);
      CloseOver(s, i, b, more);
      FirstOrLater(bits, Bare(']'));
    }
  }

  lemma FirstOrLater(bits: seq<Bit>, b: Bit)
    requires bits != []
    ensures b in bits <==> bits[0] == b || b in bits[1..]
  {}

  lemma FirstBit(s: string, i: nat, b: Bit, more: string)
    requires i <= |s| && s[i..] == b.Text() + more && b.Good()
    ensures b.Text() != "" && i + |b.Text()| <= |s| && s[i + |b.Text()|..] == more
  {
    BitStarts(b);
    hide *;
    assert s[i + |b.Text()|..] == s[i..][|b.Text()|..];
  }

  /** Over one bit. */
  lemma CloseOver(s: string, i: nat, b: Bit, more: string)
    requires i <= |s| && s[i..] == b.Text() + more && b.Good()
    ensures b.Text() != "" && i + |b.Text()| <= |s|
    ensures HeaderClose(s, i) == if b == Bare(']') then i else HeaderClose(s, i + |b.Text()|)
  {
    hide HeaderClose, ParseString, ValueText;
    BitStarts(b);
    assert s[i] == s[i..][0] == b.Text()[0];
    if b.Lit? {
      CloseOverLit(s, i, b.text, b.val, more);
    } else {
      CloseStep(s, i);
    }
  }

  // ---- the header -------------------------------------------------------

  predicate Blanks(gap: string) {
    forall i | 0 <= i < |gap| :: gap[i] == ' ' || gap[i] == '\t'
  }

  lemma {:induction false} BlanksOff(x: string) returns (gap: string)
    ensures Blanks(gap) && x == gap + TrimBlanks(x)
  {
    if x != "" && (x[0] == ' ' || x[0] == '\t') {
      gap := BlanksOff(x[1..]);
      gap := [x[0]] + gap;
    } else {
      gap := "";
    }
  }

  lemma {:induction false} BlanksRead(gap: string, y: string)
    requires Blanks(gap) && y != "" && y[0] == ']'
    ensures TrimBlanks(gap + y) == y
  {
    if gap == "" {
      assert gap + y == y;
    } else {
      assert (gap + y)[1..] == gap[1..] + y;
      BlanksRead(gap[1..], y);
    }
  }

  /** The line, trimmed, is a path in one bracket, or in two with blanks between the
      closing ones, and nothing after it but white space and a comment. */
  ghost predicate HeaderText(t: string, bits: seq<Bit>, isArray: bool, gap: string, tail: string) {
    && GoodBits(bits) && Bare(']') !in bits && Blanks(gap) && Trails(tail)
    && (if isArray then t == "[[" + (TextOf(bits) + ("]" + (gap + ("]" + tail))))
        else t == "[" + (TextOf(bits) + ("]" + tail)) && !Starts(TextOf(bits), '['))
  }

  function Trimmed(names: seq<string>): seq<string> {
    seq(|names|, k requires 0 <= k < |names| => TrimSpace(names[k]))
  }

  lemma SplitIs(s: string, segs: seq<string>)
    requires KeySegments(s, 0, "") == Some(segs)
    ensures SplitKeyPath(s) == if "" in Trimmed(segs) then None else Some(Trimmed(segs))
  {
    hide KeySegments, TrimSpace;
  }

  /** The reader, its steps laid out. */
  lemma HeaderIs(line: string)
    ensures var t := TrimSpace(line);
            ParseHeader(line) ==
            if !Starts(t, '[') then NoHeader
            else
              var isArray := Starts(t[1..], '[');
              var s := if isArray then t[2..] else t[1..];
              var n := HeaderClose(s, 0);
              if n < 0 then NoHeader else Closed(s, n, isArray)
  {
    hide HeaderClose, TrimSpace, TrimBlanks, TrailingOk, SplitKeyPath;
  }

  /** What follows the opening bracket, closed at `n`. */
  function Closed(s: string, n: nat, isArray: bool): Header
    requires n < |s|
  {
    var after := if isArray then TrimBlanks(s[n + 1..]) else s[n + 1..];
    if isArray && !Starts(after, ']') then NoHeader
    else if !TrailingOk(if isArray then after[1..] else after) then NoHeader
    else
      match SplitKeyPath(s[..n])
      case None => NoHeader
      case Some(path) => Header(path, isArray)
  }

  lemma ClosedKeeps(s: string, n: nat, isArray: bool)
    requires n < |s|
    ensures Closed(s, n, isArray).Header? ==> Closed(s, n, isArray).isArray == isArray
  {
    hide TrimBlanks, TrailingOk, SplitKeyPath;
  }

  lemma ClosedRead(s: string, bits: seq<Bit>, isArray: bool, gap: string, tail: string)
    requires GoodBits(bits) && Bare(']') !in bits && Blanks(gap) && Trails(tail)
    requires s == TextOf(bits) + ("]" + if isArray then gap + ("]" + tail) else tail)
    requires "" !in Trimmed(NamesOf(bits, ""))
    ensures HeaderClose(s, 0) == |TextOf(bits)| < |s|
    ensures Closed(s, |TextOf(bits)|, isArray) == Header(Trimmed(NamesOf(bits, "")), isArray)
  {
    hide HeaderClose, KeySegments, SplitKeyPath, Trails, TrailingOk, GoodBits, TrimBlanks, Trimmed, NamesOf, TextOf;
    var x := TextOf(bits);
    var after := if isArray then gap + ("]" + tail) else tail;
    assert s[0..] == s && s == x + ("]" + after);
    CloseFound(s, 0, bits, "]" + after);
    assert s[..|x|] == x && s[|x| + 1..] == after;
    PathRead(x, 0, bits, "");
    assert x[0..] == x;
    SplitIs(x, NamesOf(bits, ""));
    TrailingExactly(tail);
    if isArray {
      BlanksRead(gap, "]" + tail);
      assert ("]" + tail)[1..] == tail;
    }
  }

  lemma ClosedFound(s: string, isArray: bool) returns (bits: seq<Bit>, gap: string, tail: string)
    requires HeaderClose(s, 0) >= 0 && Closed(s, HeaderClose(s, 0), isArray).Header?
    ensures GoodBits(bits) && Bare(']') !in bits && Blanks(gap) && Trails(tail)
    ensures s == TextOf(bits) + ("]" + if isArray then gap + ("]" + tail) else tail)
    ensures Closed(s, HeaderClose(s, 0), isArray) == Header(Trimmed(NamesOf(bits, "")), isArray)
    ensures "" !in Trimmed(NamesOf(bits, ""))
  {
    hide HeaderClose, KeySegments, Trails, TrailingOk, GoodBits, TrimBlanks, Trimmed, NamesOf, TextOf;
    var n := HeaderClose(s, 0);
    BracketThere(s, 0);
    var x := s[..n];
    bits := PathFound(x, 0, "");
    assert x[0..] == x;
    hide SplitKeyPath;
    SplitIs(x, NamesOf(bits, ""));
    assert s[0..] == s && s == x + s[n..];
    CloseFound(s, 0, bits, s[n..]);
    gap, tail := "", s[n + 1..];
    assert s[n..] == "]" + s[n + 1..];
    if isArray {
      gap := BlanksOff(s[n + 1..]);
      var after := TrimBlanks(s[n + 1..]);
      tail := after[1..];
      assert after == "]" + tail;
    }
    TrailingExactly(tail);
  }

  lemma {:induction false} BracketThere(s: string, i: nat)
    requires i <= |s| && HeaderClose(s, i) >= 0
    ensures HeaderClose(s, i) < |s| && s[HeaderClose(s, i)] == ']'
    decreases |s| - i
  {
    hide CloseQuote;
    if s[i] != ']' {
      if IsQuote(s[i]) {
        BracketThere(s, CloseQuote(s, i + 1, s[i]) + 1);
      } else {
        BracketThere(s, i + 1);
      }
    }
  }

  ghost predicate Opens(t: string, path: seq<string>, isArray: bool) {
    exists bits: seq<Bit>, gap: string, tail: string ::
      HeaderText(t, bits, isArray, gap, tail) && path == Trimmed(NamesOf(bits, "")) && "" !in path
  }

  /** A line is read as a table header exactly when it is written as one, and then as
      the path that is written: names with white space around them left out, none of
      them empty. */
  lemma HeaderExactly(line: string, path: seq<string>, isArray: bool)
    ensures ParseHeader(line) == Header(path, isArray) <==> Opens(TrimSpace(line), path, isArray)
  {
    HeaderIs(line);
    hide ParseHeader, TrimSpace, HeaderClose, Closed, HeaderText, GoodBits, Trimmed, NamesOf, TextOf;
    var t := TrimSpace(line);
    if ParseHeader(line) == Header(path, isArray) {
      var two := Starts(t[1..], '[');
      var s := if two then t[2..] else t[1..];
      ClosedKeeps(s, HeaderClose(s, 0), two);
      var bits, gap, tail := ClosedFound(s, isArray);
      HeaderWritten(t, bits, isArray, gap, tail);
    }
    if Opens(t, path, isArray) {
      var bits: seq<Bit>, gap: string, tail: string :|
        HeaderText(t, bits, isArray, gap, tail) && path == Trimmed(NamesOf(bits, "")) && "" !in path;
      WrittenHeader(t, bits, isArray, gap, tail);
      ClosedRead(if isArray then t[2..] else t[1..], bits, isArray, gap, tail);
    }
  }

  lemma HeaderWritten(t: string, bits: seq<Bit>, isArray: bool, gap: string, tail: string)
    requires Starts(t, '[') && isArray == Starts(t[1..], '[')
    requires GoodBits(bits) && Bare(']') !in bits && Blanks(gap) && Trails(tail)
    requires (if isArray then t[2..] else t[1..]) == TextOf(bits) + ("]" + if isArray then gap + ("]" + tail) else tail)
    ensures HeaderText(t, bits, isArray, gap, tail)
  {
    hide GoodBits, TextOf, Trails;
    var x := TextOf(bits);
    if isArray {
      assert t[1] == t[1..][0] && t == "[[" + t[2..];
    } else {
      assert t == "[" + t[1..];
      assert x != "" ==> t[1..][0] == x[0];
    }
  }

  lemma WrittenHeader(t: string, bits: seq<Bit>, isArray: bool, gap: string, tail: string)
    requires HeaderText(t, bits, isArray, gap, tail)
    ensures Starts(t, '[') && isArray == Starts(t[1..], '[')
    ensures GoodBits(bits) && Bare(']') !in bits && Blanks(gap) && Trails(tail)
    ensures (if isArray then t[2..] else t[1..]) == TextOf(bits) + ("]" + if isArray then gap + ("]" + tail) else tail)
  {
    hide GoodBits, TextOf, Trails;
    var x := TextOf(bits);
    if isArray {
      var y := x + ("]" + (gap + ("]" + tail)));
      assert t == "[[" + y && t[2..] == y && t[1] == '[';
    } else {
      var y := x + ("]" + tail);
      assert t == "[" + y && t[1..] == y && y[0] == if x == "" then ']' else x[0];
    }
  }
}
