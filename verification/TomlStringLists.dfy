/** A list of strings, with white space and comments between them, as the element
    splitter reads it. */
module TomlStringLists {
  import opened Text
  import opened TomlString
  import opened TomlParse
  import opened TomlLists

  // ---- lists of strings -------------------------------------------------

  /** White space and whole comment lines. */
  predicate Gap(g: string)
    decreases |g|
  {
    g == ""
    || (IsSpace(g[0]) && Gap(g[1..]))
    || (g[0] == '#' && IndexOf(g, "\n") > 0 && Gap(g[IndexOf(g, "\n")..]))
  }

  /** A gap that ends the list: its last comment may run to the end. */
  predicate Tail(g: string)
    decreases |g|
  {
    g == ""
    || (IsSpace(g[0]) && Tail(g[1..]))
    || (g[0] == '#' && (IndexOf(g, "\n") <= 0 || Tail(g[IndexOf(g, "\n")..])))
  }

  /** One string of a list, with what stands around it. */
  datatype Item = Item(before: string, token: string, after: string) {
    predicate Good() {
      Gap(before) && StringToken(token) && Gap(after)
    }

    predicate Escaped() {
      token != "" && token[0] == QUOTE && BACKSLASH in token
    }

    function Text(): string {
      before + token + after
    }
  }

  /** The text of a list of strings: commas between, perhaps one more at the end. */
  function Written(items: seq<Item>, comma: bool, tail: string): string {
    if items == [] then tail
    else items[0].Text() + (if |items| > 1 || comma then "," else "") + Written(items[1..], comma, tail)
  }

  function Tokens(items: seq<Item>): seq<string> {
    seq(|items|, k requires 0 <= k < |items| => items[k].token)
  }

  lemma {:induction false} BlankElems(z: string, x: string, cur: string, depth: int)
    requires AllSpace(z)
    ensures Elems(z + x, cur, depth) == Elems(x, cur + z, depth)
  {
    if z == "" {
      assert z + x == x && cur + z == cur;
    } else {
      assert !IsSpace(QUOTE) && !IsSpace(APOSTROPHE) && !IsSpace('[') && !IsSpace('{') && !IsSpace(']') && !IsSpace('}') && !IsSpace(',');
      assert IsSpace(z[0]) && (z + x)[0] == z[0] && (z + x)[1..] == z[1..] + x;
      hide IsSpace, TrimSpace;
      BlankElems(z[1..], x, cur + [z[0]], depth);
      assert cur + [z[0]] + z[1..] == cur + z;
    }
  }

  lemma BreakAt(s: string, m: int)
    ensures At(s, "\n", m) <==> 0 <= m < |s| && s[m] == '\n'
  {
    if 0 <= m < |s| {
      assert s[m..m + 1] == [s[m]];
    }
  }

  /** A piece has its line breaks where the text has them. */
  lemma BreakInside(s: string, i: nat, n: nat, m: nat)
    requires i + n <= |s| && m < n
    ensures At(s[i..i + n], "\n", m) <==> At(s, "\n", i + m)
  {
    BreakAt(s[i..i + n], m);
    BreakAt(s, i + m);
    hide At;
  }

  /** The first line break of a piece that opens a comment. */
  lemma FirstBreak(s: string, i: nat, n: nat)
    requires i + n <= |s| && n > 0 && s[i] == '#'
    ensures var j := IndexOf(s[i..i + n], "\n");
            if j >= 0 then 0 < j < n && IndexFrom(s, "\n", i) == i + j
            else i + n == |s| ==> IndexFrom(s, "\n", i) < 0
  {
    hide *;
    var g := s[i..i + n];
    BreakAt(g, 0);
    BreakAt(g, n);
    BreakAt(s, |s|);
    var j, k := IndexOf(g, "\n"), IndexFrom(s, "\n", i);
    if j >= 0 {
      BreakAt(g, j);
      BreakInside(s, i, n, j);
      assert 0 < j < n && 0 <= k <= i + j;
      BreakInside(s, i, n, k - i);
    } else if k >= 0 && i + n == |s| {
      BreakAt(s, k);
      BreakInside(s, i, n, k - i);
      NoBreak(g, k - i);
    }
  }

  lemma NoBreak(g: string, m: int)
    requires IndexOf(g, "\n") < 0
    ensures !At(g, "\n", m)
  {}

  /** A gap reads as white space. */
  lemma {:induction false} GapRead(s: string, i: nat, n: nat) returns (z: string)
    requires i + n <= |s| && Gap(s[i..i + n]) && Uncommented(s, i + n).Some?
    ensures AllSpace(z) && Uncommented(s, i) == Some(z + Uncommented(s, i + n).value)
    ensures HoldsEscape(s, i) == HoldsEscape(s, i + n)
    decreases n
  {
    hide *;
    if n == 0 {
      z := NoGap(Uncommented(s, i).value);
    } else {
      GapStep(s, i, n);
      if s[i] == '#' {
        FirstBreak(s, i, n);
        CommentSkipped(s, i);
        var j := IndexOf(s[i..i + n], "\n");
        z := GapRead(s, i + j, n - j);
      } else {
        SpaceRead(s, i);
        var y := GapRead(s, i + 1, n - 1);
        z := MoreGap(s[i], y, Uncommented(s, i + n).value);
      }
    }
  }

  lemma NoGap(u: string) returns (z: string)
    ensures AllSpace(z) && z + u == u
  {
    z := "";
  }

  lemma MoreGap(c: char, y: string, u: string) returns (z: string)
    requires IsSpace(c) && AllSpace(y)
    ensures AllSpace(z) && z + u == [c] + (y + u)
  {
    z := [c] + y;
    hide IsSpace;
  }

  lemma GapStep(s: string, i: nat, n: nat)
    requires 0 < n && i + n <= |s| && Gap(s[i..i + n])
    ensures if s[i] == '#' then
              var j := IndexOf(s[i..i + n], "\n"); 0 < j <= n && Gap(s[i + j..i + n])
            else IsSpace(s[i]) && Gap(s[i + 1..i + n])
  {
    var g := s[i..i + n];
    assert g[0] == s[i] && g[1..] == s[i + 1..i + n] && !IsSpace('#');
    hide IsSpace;
    if s[i] == '#' {
      var j := IndexOf(g, "\n");
      assert j > 0 && At(g, "\n", j);
      hide IndexOf;
      assert g[j..] == s[i + j..i + n];
    }
  }

  lemma CommentSkipped(s: string, i: nat)
    requires i < |s| && s[i] == '#'
    ensures var j := IndexFrom(s, "\n", i);
            if j < 0 then Uncommented(s, i) == Some("") && !HoldsEscape(s, i)
            else Uncommented(s, i) == Uncommented(s, j) && HoldsEscape(s, i) == HoldsEscape(s, j)
  {}

  lemma SpaceRead(s: string, i: nat)
    requires i < |s| && IsSpace(s[i])
    ensures Uncommented(s, i + 1).Some? ==> Uncommented(s, i) == Some([s[i]] + Uncommented(s, i + 1).value)
    ensures HoldsEscape(s, i) == HoldsEscape(s, i + 1)
  {
    assert !IsSpace(QUOTE) && !IsSpace(APOSTROPHE) && !IsSpace('#');
    hide IsSpace;
  }

  lemma {:induction false} TailRead(s: string, i: nat) returns (z: string)
    requires i <= |s| && Tail(s[i..])
    ensures AllSpace(z) && Uncommented(s, i) == Some(z)
    ensures !HoldsEscape(s, i)
    decreases |s| - i
  {
    hide *;
    if i == |s| {
      z := NothingLeft(s);
    } else {
      TailStep(s, i);
      if s[i] == '#' {
        CommentSkipped(s, i);
        if IndexFrom(s, "\n", i) < 0 {
          z := NoGap("");
        } else {
          z := TailRead(s, IndexFrom(s, "\n", i));
        }
      } else {
        SpaceRead(s, i);
        var y := TailRead(s, i + 1);
        z := MoreGap(s[i], y, "");
        assert z + "" == z && y + "" == y;
      }
    }
  }

  lemma NothingLeft(s: string) returns (z: string)
    ensures AllSpace(z) && Uncommented(s, |s|) == Some(z) && !HoldsEscape(s, |s|)
  {
    z := "";
  }

  lemma TailStep(s: string, i: nat)
    requires i < |s| && Tail(s[i..])
    ensures if s[i] == '#' then
              var j := IndexFrom(s, "\n", i); j < 0 || (i < j <= |s| && Tail(s[j..]))
            else IsSpace(s[i]) && Tail(s[i + 1..])
  {
    var g := s[i..];
    assert g[1..] == s[i + 1..] && !IsSpace('#');
    hide IsSpace;
    if s[i] == '#' {
      assert s[i..i + |g|] == g;
      FirstBreak(s, i, |g|);
      var j := IndexOf(g, "\n");
      hide IndexOf, IndexFrom;
      assert j >= 0 ==> g[j..] == s[i + j..];
    }
  }

  lemma TokenStands(s: string, i: nat, n: nat)
    requires i + n <= |s| && StringToken(s[i..i + n]) && Uncommented(s, i + n).Some?
    ensures Uncommented(s, i) == Some(s[i..i + n] + Uncommented(s, i + n).value)
    ensures HoldsEscape(s, i) <==> (s[i] == QUOTE && BACKSLASH in s[i..i + n]) || HoldsEscape(s, i + n)
  {
    var t := s[i..i + n];
    TokenClose(s, i, n);
    assert IsQuote(s[i]) && t[0] == s[i] && t[n - 1] == s[i + n - 1] != BACKSLASH;
    hide CloseQuote, StringToken;
    assert t == [s[i]] + s[i + 1..i + n - 1] + [t[n - 1]];
  }

  lemma TokenClose(s: string, i: nat, n: nat)
    requires i + n <= |s| && StringToken(s[i..i + n])
    ensures CloseQuote(s, i + 1, s[i]) == i + n - 1
  {
    var t := s[i..i + n];
    CloseLocal(t, s[i + n..]);
    assert s[i..] == t + s[i + n..];
    CloseShift(s, i, 1, s[i]);
  }

  /** A string between gaps is an element as it stands. */
  lemma TokenTrimmed(before: string, t: string, after: string)
    requires StringToken(t) && AllSpace(before) && AllSpace(after)
    ensures TrimSpace(before + t + after) == t && t != ""
  {
    TokenEnds(t);
    hide TrimSpace, StringToken, TrimLeft, TrimRight;
    TrimAround(before, t, after);
    SpaceTrimmed(before);
    SpaceTrimmed(after);
  }

  lemma ReadOne(s: string, i: nat, k: nat, it: Item) returns (before: string, after: string)
    requires i <= k <= |s| && s[i..k] == it.Text() && it.Good() && Uncommented(s, k).Some?
    ensures AllSpace(before) && AllSpace(after)
    ensures Uncommented(s, i) == Some(before + it.token + after + Uncommented(s, k).value)
    ensures HoldsEscape(s, i) <==> it.Escaped() || HoldsEscape(s, k)
  {
    var a, b := i + |it.before|, i + |it.before| + |it.token|;
    hide *;
    Pieces(s, i, k, it);
    GoodMeans(it);
    EscapedMeans(s, a, it);
    before, after := ReadParts(s, i, a, b, k);
  }

  lemma ReadParts(s: string, i: nat, a: nat, b: nat, k: nat) returns (before: string, after: string)
    requires i <= a < b <= k <= |s| && Gap(s[i..a]) && StringToken(s[a..b]) && Gap(s[b..k]) && Uncommented(s, k).Some?
    ensures AllSpace(before) && AllSpace(after)
    ensures Uncommented(s, i) == Some(before + s[a..b] + after + Uncommented(s, k).value)
    ensures HoldsEscape(s, i) <==> (s[a] == QUOTE && BACKSLASH in s[a..b]) || HoldsEscape(s, k)
  {
    hide *;
    after := GapRead(s, b, k - b);
    TokenStands(s, a, b - a);
    before := GapRead(s, i, a - i);
    FourParts(before, s[a..b], after, Uncommented(s, k).value);
  }

  lemma GoodMeans(it: Item)
    requires it.Good()
    ensures Gap(it.before) && StringToken(it.token) && Gap(it.after) && it.token != ""
  {
    hide Gap;
  }

  lemma EscapedMeans(s: string, a: nat, it: Item)
    requires it.token != "" && a + |it.token| <= |s| && s[a..a + |it.token|] == it.token
    ensures it.Escaped() <==> s[a] == QUOTE && BACKSLASH in it.token
  {
    assert it.token[0] == s[a];
  }

  lemma FourParts(x: string, t: string, y: string, u: string)
    ensures x + (t + (y + u)) == x + t + y + u
  {}

  lemma Pieces(s: string, i: nat, k: nat, it: Item)
    requires i <= k <= |s| && s[i..k] == it.Text()
    ensures var a, b := i + |it.before|, i + |it.before| + |it.token|;
            i <= a <= b <= k && s[i..a] == it.before && s[a..b] == it.token && s[b..k] == it.after
  {
    var x := s[i..k];
    var m, n := |it.before|, |it.before| + |it.token|;
    assert |x| == k - i && i + n <= k;
    PieceOf(s, i, k, 0, m);
    PieceOf(s, i, k, m, n);
    PieceOf(s, i, k, n, k - i);
    assert x[0..m] == it.before && x[m..n] == it.token && x[n..k - i] == it.after;
  }

  lemma PieceOf(s: string, i: nat, k: nat, a: nat, b: nat)
    requires i <= k <= |s| && a <= b <= k - i
    ensures s[i..k][a..b] == s[i + a..i + b]
  {
    var x, y := s[i..k][a..b], s[i + a..i + b];
    assert |x| == |y| && forall n | 0 <= n < |x| :: x[n] == s[i..k][a + n] == s[i + a + n] == y[n];
  }

  lemma OneElem(before: string, t: string, after: string, u: string)
    requires AllSpace(before) && AllSpace(after) && StringToken(t)
    ensures Elems(before + t + after + u, "", 0) == Elems(u, before + t + after, 0)
  {
    hide *;
    Assoc(before + t, after, u);
    Assoc(before, t, after + u);
    BlankElems(before, t + (after + u), "", 0);
    assert "" + before == before;
    TokenFirst(t, after + u, before, 0);
    BlankElems(after, u, before + t, 0);
  }

  lemma AfterComma(u: string, cur: string)
    requires TrimSpace(cur) != "" && Elems(u, "", 0).Some?
    ensures Elems("," + u, cur, 0) == Some([TrimSpace(cur)] + Elems(u, "", 0).value)
  {
    hide TrimSpace;
    assert ("," + u)[1..] == u;
  }

  lemma {:induction false} SpaceElems(z: string, cur: string)
    requires AllSpace(z)
    ensures Elems(z, cur, 0) == Some(if TrimSpace(cur + z) == "" then [] else [TrimSpace(cur + z)])
  {
    assert z + "" == z;
    BlankElems(z, "", cur, 0);
  }

  /** The elements of a list whose first string is read and whose rest is `u`. */
  lemma ListStep(before: string, t: string, after: string, u: string)
    requires AllSpace(before) && AllSpace(after) && StringToken(t)
    ensures AllSpace(u) ==> Elems(before + t + after + u, "", 0) == Some([t])
    ensures Elems(u, "", 0).Some? ==>
            Elems(before + t + after + ("," + u), "", 0) == Some([t] + Elems(u, "", 0).value)
  {
    var cur := before + t + after;
    TokenTrimmed(before, t, after);
    OneElem(before, t, after, "," + u);
    if Elems(u, "", 0).Some? {
      AfterComma(u, cur);
    }
    if AllSpace(u) {
      OneElem(before, t, after, u);
      TokenTrimmed(before, t, after + u);
      hide *;
      Assoc(before + t, after, u);
      SpaceElems(u, cur);
    }
  }

  /** What is read from the `i`th character of a list on is the strings that
      remain. */
  lemma {:induction false} ReadItems(s: string, i: nat, items: seq<Item>, comma: bool, tail: string) returns (p: string)
    requires i <= |s| && s[i..] == Written(items, comma, tail)
    requires (forall it | it in items :: it.Good()) && Tail(tail)
    ensures Uncommented(s, i) == Some(p)
    ensures if items == [] then AllSpace(p) else Elems(p, "", 0) == Some(Tokens(items))
    ensures HoldsEscape(s, i) <==> exists it :: it in items && it.Escaped()
    decreases |items|
  {
    hide Uncommented, HoldsEscape, Elems, AllSpace, StringToken, Gap, Tail, Item.Escaped, Item.Text;
    if items == [] {
      p := TailRead(s, i);
    } else {
      var it, rest := items[0], items[1..];
      assert it in items;
      var n := i + |it.Text()|;
      var m := if |items| > 1 || comma then n + 1 else n;
      assert m <= |s| && s[i..n] == it.Text() && s[m..] == Written(rest, comma, tail) && (m > n ==> s[n] == ',');
      var u := ReadItems(s, m, rest, comma, tail);
      if m > n {
        CommaRead(s, n);
      }
      var before, after := ReadOne(s, i, n, it);
      p := Uncommented(s, i).value;
      if rest == [] {
        SpaceElems(u, "");
        SpaceTrimmed(u);
        assert "" + u == u;
        NoTokens(rest);
      }
      ListStep(before, it.token, after, u);
      TokensStep(items);
      assert items == [it] + rest;
      hide Tokens, Written;
      assert p == before + it.token + after + (if m > n then "," + u else u);
      if m == n {
        assert Tokens(items) == [it.token];
      }
    }
  }

  lemma CommaRead(s: string, n: nat)
    requires n < |s| && s[n] == ',' && Uncommented(s, n + 1).Some?
    ensures Uncommented(s, n) == Some("," + Uncommented(s, n + 1).value)
    ensures HoldsEscape(s, n) == HoldsEscape(s, n + 1)
  {}

  lemma TokensStep(items: seq<Item>)
    requires items != []
    ensures Tokens(items) == [items[0].token] + Tokens(items[1..])
  {}

  /** A list of strings, with any white space and comments between them, is TOML's
      list of these strings, and the splitter gives it exactly when no basic string
      among them holds a backslash. */
  lemma StringListSplits(items: seq<Item>, comma: bool, tail: string)
    requires (forall it | it in items :: it.Good()) && Tail(tail) && (items == [] ==> !comma)
    ensures var body := Written(items, comma, tail);
            && TomlElems(body) == Some(Tokens(items))
            && (SplitElems(body) == Some(Tokens(items)) <==> forall it | it in items :: !it.Escaped())
  {
    var body := Written(items, comma, tail);
    assert body[0..] == body;
    var p := ReadItems(body, 0, items, comma, tail);
    hide *;
    FromIsElems(p);
    if items == [] {
      SpaceElems(p, "");
      SpaceTrimmed(p);
      assert "" + p == p;
      NoTokens(items);
    }
    TomlElemsIs(body);
    SplitsExactly(body);
  }

  lemma NoTokens(items: seq<Item>)
    requires items == []
    ensures Tokens(items) == []
  {}

  lemma TomlElemsIs(body: string)
    requires Uncommented(body, 0).Some?
    ensures TomlElems(body) == ElemsFrom(Uncommented(body, 0).value, 0, 0, 0)
  {}

  // ---- a list that is accepted and changed ------------------------------

  /** The text of the list ["a\",#", "b"], a line break after the comma. */
  const ALTERED := "\"a\\\",#\",\n\"b\""

  lemma AlteredShape(e: string)
    requires e == ALTERED
    ensures |e| == 12 && e[0] == QUOTE && e[1] == 'a' && e[2] == BACKSLASH && e[3] == QUOTE && e[4] == ','
    ensures e[5] == '#' && e[6] == QUOTE && e[7] == ',' && e[8] == '\n' && e[9] == QUOTE && e[10] == 'b' && e[11] == QUOTE
  {}

  lemma AlteredStrips(e: string)
    requires e == ALTERED
    ensures StripComments(e, 0) == Some("\"a\\\"\",\n\"b\"")
  {
    AlteredShape(e);
    BreakAt(e, 5);
    BreakAt(e, 6);
    BreakAt(e, 7);
    BreakAt(e, 8);
    hide At;
    assert IndexFrom(e, "\n", 5) == 8;
    assert ['b'] + [QUOTE] == ['b', QUOTE];
    assert [QUOTE] + ['b', QUOTE] + "" == [QUOTE, 'b', QUOTE];
    assert ['\n'] + [QUOTE, 'b', QUOTE] == ['\n', QUOTE, 'b', QUOTE];
    assert [','] + ['\n', QUOTE, 'b', QUOTE] == [',', '\n', QUOTE, 'b', QUOTE];
    assert [BACKSLASH, QUOTE] + [QUOTE] == [BACKSLASH, QUOTE, QUOTE];
    assert ['a'] + [BACKSLASH, QUOTE, QUOTE] == ['a', BACKSLASH, QUOTE, QUOTE];
    assert CopyString(e, 11, QUOTE) == Some(([QUOTE], 11));
    assert CopyString(e, 10, QUOTE) == Some((['b', QUOTE], 11));
    assert StripComments(e, 12) == Some("");
    assert StripComments(e, 9) == Some([QUOTE, 'b', QUOTE]);
    assert StripComments(e, 8) == Some(['\n', QUOTE, 'b', QUOTE]);
    assert StripComments(e, 5) == StripComments(e, 8);
    assert StripComments(e, 4) == Some([',', '\n', QUOTE, 'b', QUOTE]);
    assert CopyString(e, 3, QUOTE) == Some(([QUOTE], 3));
    assert CopyString(e, 2, QUOTE) == Some(([BACKSLASH, QUOTE, QUOTE], 3));
    assert CopyString(e, 1, QUOTE) == Some((['a', BACKSLASH, QUOTE, QUOTE], 3));
    var r := [QUOTE, 'a', BACKSLASH, QUOTE, QUOTE, ',', '\n', QUOTE, 'b', QUOTE];
    assert [QUOTE] + ['a', BACKSLASH, QUOTE, QUOTE] + [',', '\n', QUOTE, 'b', QUOTE] == r;
    assert StripComments(e, 0) == Some(r);
    assert r == "\"a\\\"\",\n\"b\"";
  }

  lemma TokenA(t: string)
    requires t == "\"a\\\"\""
    ensures StringToken(t)
  {
    assert |t| == 5 && t[0] == QUOTE && t[1] == 'a' && t[2] == BACKSLASH && t[3] == QUOTE && t[4] == QUOTE;
    assert CloseQuote(t, 4, QUOTE) == 4;
    assert CloseQuote(t, 2, QUOTE) == 4;
  }

  lemma TokenB(t: string)
    requires t == "\"b\""
    ensures StringToken(t)
  {
    assert |t| == 3 && t[0] == QUOTE && t[1] == 'b' && t[2] == QUOTE;
  }

  lemma TwoElems(a: string, b: string)
    requires StringToken(a) && StringToken(b)
    ensures Elems(a + "," + ("\n" + b), "", 0) == Some([a, b])
  {
    hide Elems, StringToken, AllSpace, TrimSpace;
    NewlineIsSpace();
    ListStep("\n", b, "", "");
    assert "\n" + b + "" + "" == "\n" + b;
    ListStep("", a, "", "\n" + b);
    var u := "\n" + b;
    assert "\n" + b + "" + "" == u;
    assert Elems(u, "", 0) == Some([b]) && [a] + [b] == [a, b];
    assert "" + a + "" + ("," + u) == a + "," + u;
  }

  lemma NewlineIsSpace()
    ensures AllSpace("\n") && AllSpace("")
  {}

  /** Not every list with an escape is refused. In this one the escaped quote ends
      the copy early, so the rest of the string is taken for a comment: the first
      element comes out as "a\"", without the comma and the hash sign. */
  lemma EscapeCanAlterSilently()
    ensures TomlElems(ALTERED) == Some(["\"a\\\",#\"", "\"b\""])
    ensures SplitElems(ALTERED) == Some(["\"a\\\"\"", "\"b\""])
  {
    var e := ALTERED;
    AlteredStrips(e);
    var a, b := "\"a\\\"\"", "\"b\"";
    TokenA(a);
    TokenB(b);
    assert "\"a\\\"\",\n\"b\"" == a + "," + ("\n" + b);
    AlteredIsList();
    hide *;
    TwoElems(a, b);
    FromIsElems(a + "," + ("\n" + b));
    SplitIs(e);
  }

  lemma SplitIs(body: string)
    requires StripComments(body, 0).Some?
    ensures SplitElems(body) == ElemsFrom(StripComments(body, 0).value, 0, 0, 0)
  {}

  lemma AlteredIsList()
    ensures TomlElems(ALTERED) == Some(["\"a\\\",#\"", "\"b\""])
  {
    var x := Item("", "\"a\\\",#\"", "");
    var y := Item("\n", "\"b\"", "");
    TokenC(x.token);
    TokenB(y.token);
    GapsAround(x, y);
    AlteredText(x, y);
    NoTail();
    TwoTokens(x, y);
    hide *;
    StringListSplits([x, y], false, "");
  }

  lemma TwoTokens(x: Item, y: Item)
    ensures Tokens([x, y]) == [x.token, y.token]
  {}

  lemma TokenC(t: string)
    requires t == "\"a\\\",#\""
    ensures StringToken(t)
  {
    assert |t| == 7 && t[0] == QUOTE && t[1] == 'a' && t[2] == BACKSLASH && t[3] == QUOTE && t[4] == ',' && t[5] == '#' && t[6] == QUOTE;
    assert CloseQuote(t, 6, QUOTE) == 6;
    assert CloseQuote(t, 4, QUOTE) == 6;
    assert CloseQuote(t, 2, QUOTE) == 6;
  }

  lemma GapsAround(x: Item, y: Item)
    requires x.before == x.after == y.after == "" && y.before == "\n" && StringToken(x.token) && StringToken(y.token)
    ensures x.Good() && y.Good()
  {
    hide StringToken;
    assert IsSpace('\n') && "\n"[1..] == "";
  }

  lemma AlteredText(x: Item, y: Item)
    requires x == Item("", "\"a\\\",#\"", "") && y == Item("\n", "\"b\"", "")
    ensures Written([x, y], false, "") == ALTERED
  {
    assert [x, y][1..] == [y] && [y][1..] == [];
    assert Written([y], false, "") == y.Text() + "" + Written([], false, "");
    assert Written([x, y], false, "") == x.Text() + "," + (y.Text() + "" + "");
    assert x.Text() + "," + (y.Text() + "" + "") == ALTERED;
  }

  lemma NoTail()
    ensures Tail("")
  {}
}
