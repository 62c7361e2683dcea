/** What one line of config.toml says, in words: an assignment, a dotted key, a value
    that is a string or a keyword, a bracketed value with the lines it takes. Each
    is said of the text and then shown to be what the inspector's reader finds. */
module CodexLines {
  import opened Text
  import opened TomlString
  import opened TomlParse
  import opened TomlCut
  import opened TomlPairs
  import opened CodexInspect

  // ---- what ends a line -------------------------------------------------

  /** White space, and perhaps a comment. */
  ghost predicate Trails(t: string) {
    exists sp: string, c: string :: t == sp + c && AllSpace(sp) && (c == "" || c[0] == '#')
  }

  lemma TrailingExactly(t: string)
    ensures TrailingOk(t) <==> Trails(t)
  {
    assert !IsSpace('#');
    if TrailingOk(t) {
      var a, b := TrimParts(t);
      var m := TrimSpace(t);
      hide *;
      SpaceThen(t, a, m, b);
    }
    if Trails(t) {
      var sp: string, c: string :| t == sp + c && AllSpace(sp) && (c == "" || c[0] == '#');
      hide *;
      if c == "" {
        assert t == sp;
        SpaceTrimmed(t);
        EmptyTrails(t);
      } else {
        CommentTrails(t, sp, c);
      }
    }
  }

  lemma SpaceThen(t: string, a: string, m: string, b: string)
    requires t == a + m + b && AllSpace(a) && AllSpace(b) && (m == "" || m[0] == '#')
    ensures Trails(t)
  {
    if m == "" {
      SpaceJoin(a, b);
      assert t == (a + b) + "";
    } else {
      assert t == a + (m + b) && (m + b)[0] == '#';
    }
  }

  lemma EmptyTrails(t: string)
    requires TrimSpace(t) == ""
    ensures TrailingOk(t)
  {}

  lemma CommentTrails(t: string, sp: string, c: string)
    requires t == sp + c && AllSpace(sp) && c != "" && c[0] == '#'
    ensures TrailingOk(t)
  {
    assert !IsSpace('#');
    hide IsSpace;
    var x := c[1..];
    assert t == sp + "#" + x;
    Front(sp, "#", x);
    assert TrimSpace(t)[0] == '#';
  }

  lemma TrailsSeparate(t: string)
    requires Trails(t)
    ensures t == "" || !IsQuote(t[0])
  {
    var sp: string, c: string :| t == sp + c && AllSpace(sp) && (c == "" || c[0] == '#');
    if sp == "" {
      assert t == c;
    } else {
      assert IsSpace(sp[0]) && t[0] == sp[0];
    }
  }

  // ---- values -----------------------------------------------------------

  /** The value is this keyword. */
  ghost predicate IsKeyword(value: string, word: string) {
    exists tail: string :: value == word + tail && Trails(tail)
  }

  /** The value is one string on one line that means `v`. */
  ghost predicate IsString(value: string, v: string) {
    exists text: string, tail: string :: value == text + tail && ValueText(text, v) && Trails(tail)
  }

  lemma KeywordExactly(value: string, word: string)
    ensures KeywordValue(value, word) <==> IsKeyword(value, word)
  {
    hide Trails, TrailingOk;
    if KeywordValue(value, word) {
      assert value == word + value[|word|..];
      TrailingExactly(value[|word|..]);
    }
    if IsKeyword(value, word) {
      var tail: string :| value == word + tail && Trails(tail);
      assert value[..|word|] == word && value[|word|..] == tail;
      TrailingExactly(tail);
    }
  }

  lemma StringExactly(value: string, v: string)
    ensures StringValue(value) == Some(v) <==> IsString(value, v)
  {
    hide Trails, TrailingOk, ParseString, ValueText;
    if StringValue(value) == Some(v) {
      var text := ValueCut(value);
      TrailingExactly(ParseString(value).rest);
    }
    if IsString(value, v) {
      var text: string, tail: string :| value == text + tail && ValueText(text, v) && Trails(tail);
      TrailsSeparate(tail);
      ValueThen(text, v, tail);
      TrailingExactly(tail);
    }
  }

  lemma StringSome(value: string)
    ensures StringValue(value).Some? <==> exists v :: IsString(value, v)
  {
    hide StringValue, IsString;
    if StringValue(value).Some? {
      StringExactly(value, StringValue(value).value);
    }
    if v :| IsString(value, v) {
      StringExactly(value, v);
    }
  }

  // ---- keys -------------------------------------------------------------

  /** The line begins with the key, and then, after white space, with this sign. */
  ghost predicate Signs(line: string, key: string, sign: char, rest: string) {
    exists k: string, a: string :: line == k + a + [sign] + rest && KeyText(k, key) && AllSpace(a)
  }

  /** The line assigns `value` to `key`. */
  ghost predicate Assigns(line: string, key: string, value: string) {
    exists rest: string :: Signs(line, key, '=', rest) && value == TrimSpace(rest)
  }

  /** The line goes on after `key` with a dot. */
  ghost predicate Dots(line: string, key: string) {
    exists rest: string :: Signs(line, key, '.', rest)
  }

  predicate Sign(c: char) { c == '=' || c == '.' }

  /** What is read at the front of a trimmed line, if a key with a sign is. */
  function KeySign(line: string): Option<(string, char, string)> {
    match ParseKey(line)
    case Bad => None
    case Good(key, tail) =>
      var rest := TrimSpace(tail);
      if rest != "" && Sign(rest[0]) then Some((key, rest[0], rest[1..])) else None
  }

  lemma SignPlain(sign: char)
    requires Sign(sign)
    ensures !IsSpace(sign) && !IsQuote(sign) && !BareKeyChar(sign)
  {}

  lemma SpacePlain(a: string)
    requires AllSpace(a) && a != ""
    ensures !IsQuote(a[0]) && !BareKeyChar(a[0])
  {
    assert IsSpace(a[0]);
  }

  lemma SignsRead(line: string, key: string, sign: char, rest: string)
    requires Sign(sign) && Signs(line, key, sign, rest)
    ensures KeySign(line).Some? && KeySign(line).value.0 == key && KeySign(line).value.1 == sign
    ensures KeySign(line).value.2 == TrimRight(rest)
  {
    var k: string, a: string :| line == k + a + [sign] + rest && KeyText(k, key) && AllSpace(a);
    SignPlain(sign);
    var t := a + [sign] + rest;
    hide *;
    assert line == k + t;
    if a != "" {
      SpacePlain(a);
      assert t[0] == a[0];
    } else {
      assert t[0] == sign;
    }
    KeyThen(k, key, t);
    Front(a, [sign], rest);
    assert ([sign] + TrimRight(rest))[0] == sign && ([sign] + TrimRight(rest))[1..] == TrimRight(rest);
    KeySignIs(line, key, t, sign, TrimRight(rest));
  }

  lemma KeySignIs(line: string, key: string, tail: string, sign: char, rest: string)
    requires ParseKey(line) == Good(key, tail) && TrimSpace(tail) == [sign] + rest && Sign(sign)
    ensures KeySign(line) == Some((key, sign, rest))
  {
    hide ParseKey, TrimSpace;
    assert ([sign] + rest)[1..] == rest;
  }

  /** What is read at the front of the line is written there. */
  lemma SignsFound(line: string) returns (rest: string)
    requires KeySign(line).Some?
    ensures Signs(line, KeySign(line).value.0, KeySign(line).value.1, rest)
    ensures TrimSpace(rest) == TrimSpace(KeySign(line).value.2)
  {
    hide ParseKey, TrimSpace, KeyText, Signs;
    var key, tail := ParseKey(line).val, ParseKey(line).rest;
    var k := KeyCut(line);
    var a, b := TrimParts(tail);
    var t := TrimSpace(tail);
    rest := t[1..] + b;
    hide *;
    assert t == [t[0]] + t[1..];
    assert line == k + a + [t[0]] + rest;
    SignsBy(line, key, t[0], rest, k, a);
    TrimmedTail(t[1..], b);
  }

  lemma SignsBy(line: string, key: string, sign: char, rest: string, k: string, a: string)
    requires line == k + a + [sign] + rest && KeyText(k, key) && AllSpace(a)
    ensures Signs(line, key, sign, rest)
  {}

  lemma TrimmedTail(x: string, b: string)
    requires AllSpace(b)
    ensures TrimSpace(x + b) == TrimSpace(x)
  {
    var p, q := TrimParts(x);
    var m := TrimSpace(x);
    hide *;
    if m == "" {
      assert x == p + q && x + b == p + q + b;
      SpaceJoin(p, q);
      SpaceJoin(p + q, b);
      SpaceTrimmed(x + b);
    } else {
      assert x + b == p + m + (q + b);
      SpaceJoin(q, b);
      SpaceTrimmed(q + b);
      Front(p, m, q + b);
      assert m + "" == m;
    }
  }

  /** Exactly what is written is read: an assignment, or a dotted key. */
  lemma KeySignExactly(line: string, key: string, value: string)
    ensures Assigns(line, key, value) <==>
            KeySign(line).Some? && KeySign(line).value.0 == key && KeySign(line).value.1 == '=' && TrimSpace(KeySign(line).value.2) == value
    ensures Dots(line, key) <==> KeySign(line).Some? && KeySign(line).value.0 == key && KeySign(line).value.1 == '.'
  {
    hide KeySign, Signs;
    if KeySign(line).Some? {
      KeySignSigns(line);
      var rest := SignsFound(line);
    }
    if Assigns(line, key, value) {
      var rest: string :| Signs(line, key, '=', rest) && value == TrimSpace(rest);
      SignsRead(line, key, '=', rest);
      TrimTwice(rest);
    }
    if Dots(line, key) {
      var rest: string :| Signs(line, key, '.', rest);
      SignsRead(line, key, '.', rest);
    }
  }

  lemma KeySignSigns(line: string)
    requires KeySign(line).Some?
    ensures Sign(KeySign(line).value.1)
  {}

  // ---- bracketed values over several lines ------------------------------

  /** The value with the `n` lines that follow line `i`. */
  function Joined(lines: seq<string>, i: nat, value: string, n: nat): string
    requires i + n < |lines|
  {
    if n == 0 then value else Joined(lines, i, value, n - 1) + "\n" + TrimSpace(lines[i + n])
  }

  /** The bracket closes on the `n`th line after line `i`, and on no earlier one. */
  ghost predicate Closes(lines: seq<string>, i: nat, value: string, isArray: bool, n: nat, body: string, rest: string) {
    && i + n < |lines|
    && IsCut(Joined(lines, i, value, n), isArray, Cut(body, rest))
    && forall m: nat | m < n :: IsCut(Joined(lines, i, value, m), isArray, StillOpen)
  }

  lemma CutIs(s: string, isArray: bool, r: Cut)
    ensures CutValue(s, isArray) == r <==> IsCut(s, isArray, r)
  {
    CutExactly(s, isArray);
    hide IsCut, CutValue;
    if IsCut(s, isArray, r) {
      CutIsUnique(s, isArray, r, CutValue(s, isArray));
    }
  }

  /** Folding lines from `n` on, those before being still open. */
  lemma {:induction false} FoldFinds(lines: seq<string>, i: nat, value: string, isArray: bool, n: nat)
    requires i + n < |lines| && forall m: nat | m < n :: IsCut(Joined(lines, i, value, m), isArray, StillOpen)
    ensures match Fold(lines, i + n, Joined(lines, i, value, n), isArray)
            case None => forall m: nat | i + m < |lines| :: IsCut(Joined(lines, i, value, m), isArray, StillOpen)
            case Some((more, body, rest)) => Closes(lines, i, value, isArray, n + more, body, rest)
    decreases |lines| - i - n
  {
    hide *;
    var s := Joined(lines, i, value, n);
    CutIs(s, isArray, CutValue(s, isArray));
    FoldStep(lines, i + n, s, isArray);
    if CutValue(s, isArray).StillOpen? {
      if i + n + 1 < |lines| {
        JoinedNext(lines, i, value, n);
        FoldFinds(lines, i, value, isArray, n + 1);
      }
    } else {
      ClosesHere(lines, i, value, isArray, n);
    }
  }

  lemma FoldStep(lines: seq<string>, i: nat, joined: string, isArray: bool)
    requires i < |lines|
    ensures var c := CutValue(joined, isArray);
            && (c.Cut? ==> Fold(lines, i, joined, isArray) == Some((0, c.body, c.rest)))
            && (c.StillOpen? ==>
                  if i + 1 >= |lines| then Fold(lines, i, joined, isArray) == None
                  else
                    var f := Fold(lines, i + 1, joined + "\n" + TrimSpace(lines[i + 1]), isArray);
                    Fold(lines, i, joined, isArray) == if f.None? then None else Some((1 + f.value.0, f.value.1, f.value.2)))
  {
    hide CutValue, TrimSpace;
  }

  lemma JoinedNext(lines: seq<string>, i: nat, value: string, n: nat)
    requires i + n + 1 < |lines|
    ensures Joined(lines, i, value, n + 1) == Joined(lines, i, value, n) + "\n" + TrimSpace(lines[i + n + 1])
  {
    hide TrimSpace;
  }

  lemma ClosesHere(lines: seq<string>, i: nat, value: string, isArray: bool, n: nat)
    requires i + n < |lines| && forall m: nat | m < n :: IsCut(Joined(lines, i, value, m), isArray, StillOpen)
    requires CutValue(Joined(lines, i, value, n), isArray).Cut?
    ensures var c := CutValue(Joined(lines, i, value, n), isArray); Closes(lines, i, value, isArray, n, c.body, c.rest)
  {
    hide IsCut, Joined, CutValue;
    CutIs(Joined(lines, i, value, n), isArray, CutValue(Joined(lines, i, value, n), isArray));
  }

  lemma ClosesOnce(lines: seq<string>, i: nat, value: string, isArray: bool, n: nat, body: string, rest: string,
                   m: nat, body2: string, rest2: string)
    requires Closes(lines, i, value, isArray, n, body, rest) && Closes(lines, i, value, isArray, m, body2, rest2)
    ensures n == m && body == body2 && rest == rest2
  {
    hide IsCut, Joined;
    if n < m {
      CutIsUnique(Joined(lines, i, value, n), isArray, Cut(body, rest), StillOpen);
    }
    if m < n {
      CutIsUnique(Joined(lines, i, value, m), isArray, Cut(body2, rest2), StillOpen);
    }
    CutIsUnique(Joined(lines, i, value, n), isArray, Cut(body, rest), Cut(body2, rest2));
  }

  /** A value is folded to the line on which its bracket closes, if there is one. */
  lemma FoldExactly(lines: seq<string>, i: nat, value: string, isArray: bool, n: nat, body: string, rest: string)
    requires i < |lines|
    ensures Fold(lines, i, value, isArray) == Some((n, body, rest)) <==> Closes(lines, i, value, isArray, n, body, rest)
  {
    hide *;
    FoldFinds(lines, i, value, isArray, 0);
    JoinedNone(lines, i, value);
    if Closes(lines, i, value, isArray, n, body, rest) {
      match Fold(lines, i, value, isArray)
      case None => NotOpen(lines, i, value, isArray, n, body, rest);
      case Some((more, body2, rest2)) =>
        ClosesOnce(lines, i, value, isArray, n, body, rest, 0 + more, body2, rest2);
    }
  }

  lemma JoinedNone(lines: seq<string>, i: nat, value: string)
    requires i < |lines|
    ensures Joined(lines, i, value, 0) == value
  {}

  lemma NotOpen(lines: seq<string>, i: nat, value: string, isArray: bool, n: nat, body: string, rest: string)
    requires Closes(lines, i, value, isArray, n, body, rest)
    ensures i + n < |lines| && !IsCut(Joined(lines, i, value, n), isArray, StillOpen)
  {
    hide IsCut, Joined;
    if IsCut(Joined(lines, i, value, n), isArray, StillOpen) {
      CutIsUnique(Joined(lines, i, value, n), isArray, Cut(body, rest), StillOpen);
    }
  }
}
