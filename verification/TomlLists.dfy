/** Which lists the element splitter reads as TOML does. Its copy of a string
    rewrites every escape, so a list with an escape in a basic string is refused
    or altered; every other list is split as TOML splits it. */
module TomlLists {
  import opened Text
  import opened TomlString
  import opened TomlParse

  // ---- what TOML says a list holds --------------------------------------

  /** The body of a list from `i`, comments taken out and strings as written (basic
      and literal strings of one line, the only ones the subset has). */
  function Uncommented(s: string, i: nat): Option<string>
    decreases |s| - i
  {
    if i >= |s| then Some("")
    else if s[i] == '#' then
      var j := IndexFrom(s, "\n", i);
      if j < 0 then Some("") else Uncommented(s, j)
    else if IsQuote(s[i]) then
      var j := CloseQuote(s, i + 1, s[i]);
      if j < 0 then None
      else
        match Uncommented(s, j + 1)
        case None => None
        case Some(rest) => Some(s[i..j + 1] + rest)
    else Prepend(s[i], Uncommented(s, i + 1))
  }

  /** The elements of a list body, split at the commas outside strings, comments
      and brackets. */
  function TomlElems(body: string): Option<seq<string>> {
    match Uncommented(body, 0)
    case None => None
    case Some(clean) => ElemsFrom(clean, 0, 0, 0)
  }

  /** Some basic string of the list holds a backslash. */
  predicate HoldsEscape(s: string, i: nat)
    decreases |s| - i
  {
    if i >= |s| then false
    else if s[i] == '#' then
      var j := IndexFrom(s, "\n", i);
      j >= 0 && HoldsEscape(s, j)
    else if IsQuote(s[i]) then
      var j := CloseQuote(s, i + 1, s[i]);
      j >= 0 && ((s[i] == QUOTE && BACKSLASH in s[i + 1..j]) || HoldsEscape(s, j + 1))
    else HoldsEscape(s, i + 1)
  }

  // ---- without an escape ------------------------------------------------

  lemma {:induction false} LiteralCopy(s: string, i: nat)
    ensures CopyString(s, i, APOSTROPHE)
            == var j := CloseQuote(s, i, APOSTROPHE); if j < 0 then None else Some((s[i..j + 1], j))
    decreases |s| - i
  {
    if i < |s| {
      if s[i] == APOSTROPHE {
        assert s[i..i + 1] == [APOSTROPHE];
      } else {
        LiteralCopy(s, i + 1);
        var j := CloseQuote(s, i + 1, APOSTROPHE);
        if j >= 0 {
          assert s[i..j + 1] == [s[i]] + s[i + 1..j + 1];
        }
      }
    }
  }

  /** A string without an escape is copied as written. */
  lemma PlainString(s: string, i: nat)
    requires i < |s| && IsQuote(s[i]) && CloseQuote(s, i + 1, s[i]) >= 0
    requires s[i] == QUOTE ==> BACKSLASH !in s[i + 1..CloseQuote(s, i + 1, s[i])]
    ensures var j := CloseQuote(s, i + 1, s[i]);
            StripComments(s, i) == match StripComments(s, j + 1) case None => None case Some(rest) => Some(s[i..j + 1] + rest)
  {
    var j := CloseQuote(s, i + 1, s[i]);
    hide *;
    StringCopied(s, i);
    CopiedPlain(s, i + 1, s[i]);
    FirstOf(s, i, j + 1);
  }

  lemma CopiedPlain(s: string, i: nat, q: char)
    requires i <= |s| && (q == QUOTE || q == APOSTROPHE) && CloseQuote(s, i, q) >= 0
    requires q == QUOTE ==> BACKSLASH !in s[i..CloseQuote(s, i, q)]
    ensures CopyString(s, i, q) == Some((s[i..CloseQuote(s, i, q) + 1], CloseQuote(s, i, q)))
  {
    hide *;
    if q == QUOTE {
      CopyIsFaithful(s, i);
    } else {
      LiteralCopy(s, i);
    }
  }

  lemma FirstOf(s: string, i: nat, n: nat)
    requires i < n <= |s|
    ensures s[i..n] == [s[i]] + s[i + 1..n]
  {}

  lemma StringCopied(s: string, i: nat)
    requires i < |s| && IsQuote(s[i])
    ensures s[i] == QUOTE || s[i] == APOSTROPHE
    ensures StripComments(s, i) ==
            match CopyString(s, i + 1, s[i])
            case None => None
            case Some(copy) =>
              match StripComments(s, copy.1 + 1)
              case None => None
              case Some(rest) => Some([s[i]] + copy.0 + rest)
  {
    hide CopyString;
  }

  lemma {:induction false} SameWithoutEscape(s: string, i: nat)
    requires i <= |s| && Uncommented(s, i).Some? && !HoldsEscape(s, i)
    ensures StripComments(s, i) == Uncommented(s, i)
    decreases |s| - i
  {
    hide CopyString, CloseQuote;
    if i < |s| {
      if s[i] == '#' {
        var j := IndexFrom(s, "\n", i);
        if j >= 0 {
          SameWithoutEscape(s, j);
        }
      } else if IsQuote(s[i]) {
        PlainString(s, i);
        SameWithoutEscape(s, CloseQuote(s, i + 1, s[i]) + 1);
      } else {
        SameWithoutEscape(s, i + 1);
      }
    }
  }

  // ---- the splitter, reading off the front of its text ------------------

  /** The elements of `x`, `cur` being the element read so far. */
  ghost function Elems(x: string, cur: string, depth: int): Option<seq<string>>
    decreases |x|
  {
    if x == "" then
      if depth != 0 then None
      else Some(if TrimSpace(cur) == "" then [] else [TrimSpace(cur)])
    else if IsQuote(x[0]) then
      var j := CloseQuote(x, 1, x[0]);
      if j < 0 then None else Elems(x[j + 1..], cur + x[..j + 1], depth)
    else if x[0] == '[' || x[0] == '{' then Elems(x[1..], cur + [x[0]], depth + 1)
    else if x[0] == ']' || x[0] == '}' then
      if depth == 0 then None else Elems(x[1..], cur + [x[0]], depth - 1)
    else if x[0] == ',' && depth == 0 then
      if TrimSpace(cur) == "" then None
      else
        match Elems(x[1..], "", 0)
        case None => None
        case Some(more) => Some([TrimSpace(cur)] + more)
    else Elems(x[1..], cur + [x[0]], depth)
  }

  lemma {:induction false} CloseShift(s: string, n: nat, i: nat, q: char)
    requires n <= |s|
    ensures var j := CloseQuote(s[n..], i, q); CloseQuote(s, n + i, q) == if j < 0 then -1 else n + j
    decreases |s| - i
  {
    if n + i < |s| {
      CloseShift(s, n, i + 1, q);
      CloseShift(s, n, i + 2, q);
    }
  }

  /** The text from `i` on, and the piece before it, `n` characters later. */
  lemma Advance(s: string, start: nat, i: nat, n: nat)
    requires start <= i && i + n <= |s|
    ensures s[i..][n..] == s[i + n..] && s[start..i] + s[i..][..n] == s[start..i + n]
    ensures n == 1 ==> s[i..][0] == s[i] && s[start..i] + [s[i]] == s[start..i + n]
  {}

  lemma AtQuote(s: string, i: nat, start: nat, depth: int)
    requires start <= i < |s| && IsQuote(s[i])
    ensures var j := CloseQuote(s, i + 1, s[i]);
            if j < 0 then ElemsFrom(s, i, start, depth) == None == Elems(s[i..], s[start..i], depth)
            else
              && ElemsFrom(s, i, start, depth) == ElemsFrom(s, j + 1, start, depth)
              && Elems(s[i..], s[start..i], depth) == Elems(s[j + 1..], s[start..j + 1], depth)
  {
    hide TrimSpace, CloseQuote;
    CloseShift(s, i, 1, s[i]);
    var j := CloseQuote(s, i + 1, s[i]);
    if j >= 0 {
      Advance(s, start, i, j - i + 1);
    }
  }

  lemma AtOther(s: string, i: nat, start: nat, depth: int)
    requires start <= i < |s| && !IsQuote(s[i]) && !(s[i] == ',' && depth == 0) && !(Deeper(s[i], depth) < depth == 0)
    ensures ElemsFrom(s, i, start, depth) == ElemsFrom(s, i + 1, start, Deeper(s[i], depth))
    ensures Elems(s[i..], s[start..i], depth) == Elems(s[i + 1..], s[start..i + 1], Deeper(s[i], depth))
  {
    hide TrimSpace, CloseQuote;
    Advance(s, start, i, 1);
  }

  lemma AtEdge(s: string, i: nat, start: nat)
    requires start <= i < |s| && !IsQuote(s[i])
    ensures Deeper(s[i], 0) < 0 ==> ElemsFrom(s, i, start, 0) == None == Elems(s[i..], s[start..i], 0)
    ensures s[i] == ',' && ElemsFrom(s, i + 1, i + 1, 0) == Elems(s[i + 1..], "", 0) ==>
              ElemsFrom(s, i, start, 0) == Elems(s[i..], s[start..i], 0)
  {
    hide TrimSpace, CloseQuote;
    Advance(s, start, i, 1);
  }

  lemma AtEnd(s: string, start: nat, depth: int)
    requires start <= |s|
    ensures ElemsFrom(s, |s|, start, depth) == Elems(s[|s|..], s[start..|s|], depth)
  {
    assert s[start..] == s[start..|s|];
  }

  lemma {:induction false} ElemsAreFrom(s: string, i: nat, start: nat, depth: int)
    requires start <= i <= |s|
    ensures ElemsFrom(s, i, start, depth) == Elems(s[i..], s[start..i], depth)
    decreases |s| - i
  {
    hide *;
    if i == |s| {
      AtEnd(s, start, depth);
    } else if IsQuote(s[i]) {
      AtQuote(s, i, start, depth);
      var j := CloseQuote(s, i + 1, s[i]);
      if j >= 0 {
        ElemsAreFrom(s, j + 1, start, depth);
      }
    } else if depth == 0 && (s[i] == ',' || Deeper(s[i], 0) < 0) {
      assert s[i + 1..i + 1] == "";
      ElemsAreFrom(s, i + 1, i + 1, 0);
      AtEdge(s, i, start);
    } else {
      AtOther(s, i, start, depth);
      ElemsAreFrom(s, i + 1, start, Deeper(s[i], depth));
    }
  }

  /** The depth after a character that is no quote. */
  function Deeper(c: char, depth: int): int {
    if c == '[' || c == '{' then depth + 1 else if c == ']' || c == '}' then depth - 1 else depth
  }

  // ---- quotes at the front ----------------------------------------------

  /** How many quotes a text begins with. */
  ghost function Lead(x: string): (n: nat)
    ensures n <= |x| && (n < |x| ==> x[n] != QUOTE) && forall k | 0 <= k < n :: x[k] == QUOTE
  {
    if x == "" || x[0] != QUOTE then 0 else 1 + Lead(x[1..])
  }

  lemma {:induction false} LeadIs(x: string, n: nat)
    requires n <= |x| && (n < |x| ==> x[n] != QUOTE) && forall k | 0 <= k < n :: x[k] == QUOTE
    ensures Lead(x) == n
  {
    if n > 0 {
      LeadIs(x[1..], n - 1);
    }
  }

  lemma {:induction false} LeadAfter(x: string, n: nat)
    requires n <= |x|
    ensures Lead(x) <= n + Lead(x[n..])
  {
    if n > 0 && x[0] == QUOTE {
      LeadAfter(x[1..], n - 1);
      assert x[1..][n - 1..] == x[n..];
    } else if n == 0 {
      assert x[0..] == x;
    }
  }

  /** The stream of a string that is being copied, and of the text after it. */
  ghost function Copied(s: string, i: nat): Option<string> {
    match CopyString(s, i, QUOTE)
    case None => None
    case Some(copy) =>
      match StripComments(s, copy.1 + 1)
      case None => None
      case Some(rest) => Some(copy.0 + rest)
  }

  lemma CopiedStep(s: string, i: nat)
    requires i < |s| && Copied(s, i).Some?
    ensures var v := Copied(s, i).value;
            && (s[i] == BACKSLASH ==> i + 1 < |s| && Copied(s, i + 1).Some? && v == [BACKSLASH, s[i + 1]] + Copied(s, i + 1).value)
            && (s[i] == QUOTE ==> StripComments(s, i + 1).Some? && v == [QUOTE] + StripComments(s, i + 1).value)
            && (s[i] != QUOTE && s[i] != BACKSLASH ==> Copied(s, i + 1).Some? && v == [s[i]] + Copied(s, i + 1).value)
  {
    hide StripComments;
  }

  lemma OpenedStep(s: string, i: nat)
    requires i < |s| && s[i] == QUOTE && StripComments(s, i).Some?
    ensures Copied(s, i + 1).Some? && StripComments(s, i).value == [QUOTE] + Copied(s, i + 1).value
  {}

  /** Neither stream adds or loses a quote at the front. */
  lemma {:induction false} LeadKept(s: string, i: nat)
    requires i <= |s|
    ensures StripComments(s, i).Some? ==> Lead(StripComments(s, i).value) == Lead(s[i..])
    ensures Copied(s, i).Some? ==> Lead(Copied(s, i).value) == Lead(s[i..])
    decreases |s| - i
  {
    if i < |s| {
      LeadKept(s, i + 1);
      assert s[i..][1..] == s[i + 1..];
      if Copied(s, i).Some? {
        CopiedStep(s, i);
        var v := Copied(s, i).value;
        assert s[i] == QUOTE ==> v[1..] == StripComments(s, i + 1).value;
      }
      if StripComments(s, i).Some? {
        StripLead(s, i);
      }
    }
  }

  lemma StripLead(s: string, i: nat)
    requires i < |s| && StripComments(s, i).Some?
    requires Copied(s, i + 1).Some? ==> Lead(Copied(s, i + 1).value) == Lead(s[i + 1..])
    ensures Lead(StripComments(s, i).value) == Lead(s[i..])
  {
    var r := StripComments(s, i).value;
    assert s[i..][1..] == s[i + 1..];
    if s[i] == QUOTE {
      OpenedStep(s, i);
      assert r[1..] == Copied(s, i + 1).value;
    } else if s[i] == '#' {
      var j := IndexFrom(s, "\n", i);
      if j >= 0 {
        assert s[j..j + 1] == "\n" && s[j] == '\n';
        assert r[0] == '\n';
      }
    } else {
      assert r[0] == s[i];
    }
  }

  lemma {:induction false} LeadUncommented(s: string, i: nat)
    requires i <= |s| && Uncommented(s, i).Some?
    ensures Lead(Uncommented(s, i).value) == Lead(s[i..])
    decreases |s| - i
  {
    if i < |s| {
      var r := Uncommented(s, i).value;
      if s[i] == QUOTE {
        var j := CloseQuote(s, i + 1, QUOTE);
        var u := Uncommented(s, j + 1).value;
        assert r == s[i..j + 1] + u;
        if j == i + 1 {
          LeadUncommented(s, j + 1);
          hide Uncommented, CloseQuote;
          LeadOfPair(r, u);
          LeadOfPair(s[i..], s[j + 1..]);
        } else {
          hide Uncommented;
          assert s[i + 1] != QUOTE;
          LeadIs(r, 1);
          LeadIs(s[i..], 1);
        }
      } else if s[i] == '#' {
        var j := IndexFrom(s, "\n", i);
        if j >= 0 {
          assert s[j..j + 1] == "\n" && s[j] == '\n';
          assert r[0] == '\n';
        }
      } else {
        assert r[0] == s[i];
      }
    }
  }

  lemma LeadOfPair(x: string, y: string)
    requires |x| >= 2 && x[0] == QUOTE && x[1] == QUOTE && x[2..] == y
    ensures Lead(x) == 2 + Lead(y)
  {
    assert x[1..][1..] == y;
  }

  // ---- the copy of a string with an escape ------------------------------

  /** `w` starts with the text of `s` from `i` up to the closing quote. */
  ghost predicate Closing(s: string, i: nat, w: string) {
    var j := CloseQuote(s, i, QUOTE);
    j >= 0 && HasPrefix(w, s[i..j + 1])
  }

  lemma PrefixChar(w: string, m: string)
    requires HasPrefix(w, m) && m != ""
    ensures w != "" && w[0] == m[0] && HasPrefix(w[1..], m[1..])
  {
    assert w[..|m|][0] == w[0];
    assert w[1..][..|m| - 1] == w[..|m|][1..];
  }

  lemma ClosingChar(s: string, i: nat, w: string)
    requires Closing(s, i, w)
    ensures i < |s| && w != "" && w[0] == s[i]
    ensures s[i] != BACKSLASH && s[i] != QUOTE ==> Closing(s, i + 1, w[1..])
    ensures s[i] == BACKSLASH ==> i + 1 < |s| && |w| > 1 && w[1] == s[i + 1] && Closing(s, i + 2, w[2..])
  {
    var j := CloseQuote(s, i, QUOTE);
    PrefixChar(w, s[i..j + 1]);
    assert s[i..j + 1][1..] == s[i + 1..j + 1];
    if s[i] == BACKSLASH {
      PrefixChar(w[1..], s[i + 1..j + 1]);
      assert s[i + 1..j + 1][1..] == s[i + 2..j + 1] && w[1..][1..] == w[2..];
    }
  }

  /** A plain character written once too often. */
  lemma {:induction false} PlainTwice(s: string, k: nat, c: char)
    requires c != QUOTE && c != BACKSLASH && Copied(s, k).Some?
    ensures !Closing(s, k, [c] + Copied(s, k).value)
    decreases |s| - k
  {
    var w := [c] + Copied(s, k).value;
    if Closing(s, k, w) {
      ClosingChar(s, k, w);
      CopiedStep(s, k);
      hide Closing, Copied;
      assert w[1..] == Copied(s, k).value;
      PlainTwice(s, k + 1, c);
    }
  }

  /** A backslash written once too often. */
  lemma {:induction false} BackslashTwice(s: string, k: nat, z: string)
    requires 0 < k <= |s| && s[k - 1] == BACKSLASH && Copied(s, k - 1).Some?
    requires forall n | 0 <= n < |z| :: z[n] == BACKSLASH
    ensures !Closing(s, k, z + Copied(s, k - 1).value)
    decreases |s| - k
  {
    hide Closing, Copied;
    var u := Copied(s, k - 1).value;
    var w := z + u;
    if Closing(s, k, w) {
      ClosingChar(s, k, w);
      CopiedStep(s, k - 1);
      assert u[0] == BACKSLASH && w[0] == BACKSLASH && s[k] == BACKSLASH;
      CopiedStep(s, k);
      assert u[1] == BACKSLASH && w[1] == BACKSLASH && s[k + 1] == BACKSLASH;
      var v := Copied(s, k + 1).value;
      assert u == [BACKSLASH, BACKSLASH] + ([BACKSLASH, BACKSLASH] + v);
      TwoOff(z, u, v);
      BackslashTwice(s, k + 2, z + [BACKSLASH, BACKSLASH]);
    }
  }

  lemma TwoOff(z: string, u: string, v: string)
    requires u == [BACKSLASH, BACKSLASH] + ([BACKSLASH, BACKSLASH] + v)
    requires forall n | 0 <= n < |z| :: z[n] == BACKSLASH
    ensures (z + u)[2..] == z + [BACKSLASH, BACKSLASH] + v
  {
    var x, y := (z + u)[2..], z + [BACKSLASH, BACKSLASH] + v;
    forall k | 0 <= k < |x| ensures x[k] == y[k] {
      assert x[k] == (z + u)[k + 2];
      assert k >= |z| + 2 ==> u[k + 2 - |z|] == v[k - 2 - |z|];
    }
  }

  /** A basic string from `i` on that closes, with a backslash in it. */
  ghost predicate Escaped(s: string, i: nat) {
    var j := CloseQuote(s, i, QUOTE);
    j >= 0 && BACKSLASH in s[i..j]
  }

  /** What stands behind the string in `s`, and behind as many characters in `v`. */
  ghost function Following(s: string, i: nat): string {
    var j := CloseQuote(s, i, QUOTE);
    if j >= 0 then s[j + 1..] else ""
  }

  ghost function Past(s: string, i: nat, v: string): string {
    var n := CloseQuote(s, i, QUOTE) + 1 - i;
    if 0 <= n <= |v| then v[n..] else ""
  }

  /** The copy of a string with an escape never is the string followed by what
      follows it: the only copy that starts with the string has one quote more. */
  lemma {:induction false} CopyDiffers(s: string, i: nat)
    requires Copied(s, i).Some? && Closing(s, i, Copied(s, i).value) && Escaped(s, i)
    ensures Lead(Past(s, i, Copied(s, i).value)) == 1 + Lead(Following(s, i))
    decreases |s| - i
  {
    hide *;
    NotClosedHere(s, i);
    var v := Copied(s, i).value;
    CopiedStep(s, i);
    ClosingChar(s, i, v);
    if s[i] == BACKSLASH {
      EscapedCopy(s, i, v);
    } else {
      var u := Copied(s, i + 1).value;
      OneOff(s, i, v, u);
      CopyDiffers(s, i + 1);
    }
  }

  lemma OneOff(s: string, i: nat, v: string, u: string)
    requires i < |s| && s[i] != QUOTE && s[i] != BACKSLASH && v == [s[i]] + u && CloseQuote(s, i, QUOTE) >= 0
    ensures v[1..] == u && Past(s, i, v) == Past(s, i + 1, u) && Following(s, i) == Following(s, i + 1)
  {
    var n := CloseQuote(s, i, QUOTE) - i;
    assert n >= 1 && CloseQuote(s, i + 1, QUOTE) == CloseQuote(s, i, QUOTE);
    if n <= |u| {
      assert v[n + 1..] == u[n..];
    }
  }

  /** A string with a backslash does not end at its first character. */
  lemma NotClosedHere(s: string, i: nat)
    requires Escaped(s, i)
    ensures i < |s| && s[i] != QUOTE && CloseQuote(s, i, QUOTE) >= 0
    ensures s[i] != BACKSLASH ==> Escaped(s, i + 1)
  {
    var j := CloseQuote(s, i, QUOTE);
    if i < j {
      assert s[i..j] == [s[i]] + s[i + 1..j];
    }
  }

  lemma EscapedCopy(s: string, i: nat, v: string)
    requires Copied(s, i) == Some(v) && Closing(s, i, v)
    requires i < |s| && s[i] == BACKSLASH
    ensures Lead(Past(s, i, v)) == 1 + Lead(Following(s, i))
  {
    hide *;
    ClosingChar(s, i, v);
    CopiedStep(s, i);
    CopiedStep(s, i + 1);
    var c, u := s[i + 1], Copied(s, i + 1).value;
    TwoDropped(v, BACKSLASH, c, u);
    if c == BACKSLASH {
      assert "" + u == u;
      BackslashTwice(s, i + 2, "");
      assert false;
    } else if c != QUOTE {
      PlainTwice(s, i + 2, c);
      assert false;
    } else {
      ClosingChar(s, i + 2, u);
      ShortPast(s, i, v, u, StripComments(s, i + 2).value);
      LeadKept(s, i + 2);
      LeadOfOne(s[i + 2..], s[i + 3..]);
    }
  }

  lemma TwoDropped(v: string, b: char, c: char, u: string)
    requires v == [b, c] + u
    ensures v[2..] == u
  {}

  /** The string is the escaped quote alone. */
  lemma ShortPast(s: string, i: nat, v: string, u: string, t: string)
    requires i + 2 < |s| && s[i] == BACKSLASH && s[i + 2] == QUOTE
    requires v == [BACKSLASH, QUOTE] + u && u == [QUOTE] + t
    ensures Past(s, i, v) == t && Following(s, i) == s[i + 3..] && s[i + 2..][1..] == s[i + 3..]
  {
    assert CloseQuote(s, i + 2, QUOTE) == i + 2;
    assert v[3..] == t;
  }

  lemma LeadOfOne(x: string, y: string)
    requires x != "" && x[0] == QUOTE && x[1..] == y
    ensures Lead(x) == 1 + Lead(y)
  {}

  // ---- elements with different front parts differ -----------------------

  /** A string as it stands in a list. */
  predicate StringToken(t: string) {
    |t| >= 2 && IsQuote(t[0]) && CloseQuote(t, 1, t[0]) == |t| - 1
  }

  lemma TokenEnds(t: string)
    requires StringToken(t)
    ensures t != "" && !IsSpace(t[0]) && !IsSpace(t[|t| - 1])
  {}

  lemma {:induction false} LeadTrimmed(y: string)
    ensures Lead(TrimRight(y)) == Lead(y)
    decreases |y|
  {
    assert !IsSpace(QUOTE);
    if y != "" && IsSpace(y[|y| - 1]) {
      var z := y[..|y| - 1];
      LeadTrimmed(z);
      assert Lead(y) < |y|;
      LeadIs(z, Lead(y));
    }
  }

  lemma {:induction false} LeadOfPrefix(x: string, m: nat)
    requires Lead(x) <= m <= |x|
    ensures Lead(x[..m]) == Lead(x)
  {
    LeadIs(x[..m], Lead(x));
  }

  lemma {:induction false} SomeLeft(x: string, k: nat)
    requires k < |x| && !IsSpace(x[k])
    ensures TrimLeft(x) != ""
  {
    if IsSpace(x[0]) {
      SomeLeft(x[1..], k - 1);
    }
  }

  lemma {:induction false} SomeRight(x: string)
    requires x != "" && !IsSpace(x[0])
    ensures TrimRight(x) != ""
    decreases |x|
  {
    if IsSpace(x[|x| - 1]) {
      SomeRight(x[..|x| - 1]);
    }
  }

  lemma NotBlank(x: string, k: nat)
    requires k < |x| && !IsSpace(x[k])
    ensures TrimSpace(x) != ""
  {
    SomeLeft(x, k);
    SomeRight(TrimLeft(x));
  }

  /** One step of the splitter inside an element. */
  lemma Inside(x: string, cur: string, depth: int) returns (n: nat, d: int)
    requires Elems(x, cur, depth).Some? && x != "" && !(x[0] == ',' && depth == 0)
    ensures 0 < n <= |x| && Elems(x[n..], cur + x[..n], d) == Elems(x, cur, depth)
  {
    hide TrimSpace;
    n, d := 1, Deeper(x[0], depth);
    if IsQuote(x[0]) {
      n, d := CloseQuote(x, 1, x[0]) + 1, depth;
    } else {
      assert x[..1] == [x[0]];
    }
  }

  lemma AtComma(x: string, cur: string, depth: int)
    requires Elems(x, cur, depth).Some? && TrimSpace(cur) != "" && (x == "" || (x[0] == ',' && depth == 0))
    ensures Elems(x, cur, depth).value != [] && Elems(x, cur, depth).value[0] == TrimSpace(cur) && Lead(x) == 0
  {
    hide TrimSpace, CloseQuote;
  }

  /** The first element of a list that goes on with `x`, and that it holds all
      quotes at the front of `x`; the element has a visible character at `k`. */
  lemma {:induction false} FirstElem(x: string, cur: string, depth: int, k: nat) returns (m: nat)
    requires Elems(x, cur, depth).Some? && k < |cur| && !IsSpace(cur[k])
    ensures Lead(x) <= m <= |x|
    ensures Elems(x, cur, depth).value != [] && Elems(x, cur, depth).value[0] == TrimSpace(cur + x[..m])
    decreases |x|
  {
    hide *;
    if x == "" || (x[0] == ',' && depth == 0) {
      NotBlank(cur, k);
      AtComma(x, cur, depth);
      m := 0;
      assert cur + x[..0] == cur;
    } else {
      var n, d := Inside(x, cur, depth);
      var l := FirstElem(x[n..], cur + x[..n], d, k);
      m := n + l;
      LeadAfter(x, n);
      assert cur + x[..n] + x[n..][..l] == cur + x[..m];
    }
  }

  /** Where the element that begins with the string `t` ends. */
  lemma ElemOfToken(t: string, x: string, cur: string, depth: int) returns (y: string)
    requires StringToken(t) && Elems(t + x, cur, depth).Some?
    ensures Elems(t + x, cur, depth).value != []
    ensures Elems(t + x, cur, depth).value[0] == TrimLeft(cur) + t + y
    ensures Lead(y) == Lead(x)
  {
    TokenFirst(t, x, cur, depth);
    TokenEnds(t);
    hide *;
    assert (cur + t)[|cur|] == t[0];
    var m := FirstElem(x, cur + t, depth, |cur|);
    var z := x[..m];
    TokenEnds(t);
    TrimAround(cur, t, z);
    y := TrimRight(z);
    LeadTrimmed(z);
    LeadOfPrefix(x, m);
  }

  lemma CloseLocal(t: string, x: string)
    requires StringToken(t)
    ensures CloseQuote(t + x, 1, t[0]) == |t| - 1
  {
    CloseExtends(t, x, 1, t[0]);
  }

  /** Two strings that begin one text are the same string. */
  lemma SameToken(a: string, x: string, b: string, y: string)
    requires StringToken(a) && StringToken(b) && a + x == b + y
    ensures a == b && x == y
  {
    CloseLocal(a, x);
    CloseLocal(b, y);
    assert (a + x)[0] == a[0] == b[0];
    assert a == (a + x)[..|a|] && b == (b + y)[..|b|];
    assert x == (a + x)[|a|..] && y == (b + y)[|b|..];
  }

  /** A text that opens a basic string begins with that string. */
  lemma SplitToken(x: string) returns (t: string, rest: string)
    requires x != "" && x[0] == QUOTE && CloseQuote(x, 1, QUOTE) >= 0
    ensures StringToken(t) && x == t + rest && t[0] == QUOTE
  {
    var j := CloseQuote(x, 1, QUOTE);
    t, rest := x[..j + 1], x[j + 1..];
    CloseBefore(x, 1, j + 1, QUOTE);
  }

  /** A string with an escape makes the element it stands in another one. */
  lemma EscapeDiffers(s: string, i: nat, cur: string, depth: int)
    requires i < |s| && s[i] == QUOTE && Escaped(s, i + 1)
    requires Uncommented(s, i).Some? && StripComments(s, i).Some?
    requires Elems(Uncommented(s, i).value, cur, depth).Some?
    ensures Elems(StripComments(s, i).value, cur, depth) != Elems(Uncommented(s, i).value, cur, depth)
  {
    hide *;
    NotClosedHere(s, i + 1);
    var j := CloseQuote(s, i + 1, QUOTE);
    var a := StripComments(s, i).value;
    TokenFollows(s, i);
    if Elems(a, cur, depth) == Elems(Uncommented(s, i).value, cur, depth) {
      OpensString(a, cur, depth);
      TokenAt(s, i, j);
      LeadUncommented(s, j + 1);
      SameFront(s[i..j + 1], Uncommented(s, j + 1).value, a, cur, depth);
      OpenedStep(s, i);
      TokenTaken(s, i, a, Copied(s, i + 1).value);
      CopyDiffers(s, i + 1);
    }
  }

  lemma TokenTaken(s: string, i: nat, a: string, v: string)
    requires i < |s| && s[i] == QUOTE && CloseQuote(s, i + 1, QUOTE) >= 0
    requires a == [QUOTE] + v && HasPrefix(a, s[i..CloseQuote(s, i + 1, QUOTE) + 1])
    ensures Closing(s, i + 1, v) && a[CloseQuote(s, i + 1, QUOTE) + 1 - i..] == Past(s, i + 1, v)
    ensures Following(s, i + 1) == s[CloseQuote(s, i + 1, QUOTE) + 1..]
  {
    var j := CloseQuote(s, i + 1, QUOTE);
    PrefixLess(a, s[i..j + 1], v);
    hide CloseQuote;
    assert s[i..j + 1][1..] == s[i + 1..j + 1];
  }

  /** The common first character taken off a text and its prefix. */
  lemma PrefixLess(a: string, tok: string, v: string)
    requires a == [QUOTE] + v && HasPrefix(a, tok) && tok != ""
    ensures |tok| - 1 <= |v| && HasPrefix(v, tok[1..]) && v[|tok| - 1..] == a[|tok|..]
  {
    assert a[..|tok|] == tok;
    assert v[..|tok| - 1] == a[..|tok|][1..];
  }

  lemma TokenFollows(s: string, i: nat)
    requires i < |s| && s[i] == QUOTE && CloseQuote(s, i + 1, QUOTE) >= 0
    requires Uncommented(s, i).Some? && StripComments(s, i).Some?
    ensures var j := CloseQuote(s, i + 1, QUOTE);
            && Uncommented(s, j + 1).Some? && Uncommented(s, i).value == s[i..j + 1] + Uncommented(s, j + 1).value
            && StripComments(s, i).value != "" && StripComments(s, i).value[0] == QUOTE
  {
    OpenedStep(s, i);
    hide StripComments;
  }

  lemma OpensString(a: string, cur: string, depth: int)
    requires a != "" && a[0] == QUOTE && Elems(a, cur, depth).Some?
    ensures CloseQuote(a, 1, QUOTE) >= 0
  {}

  /** Two texts with the same elements that open a string in the same place open the
      same string, and go on with the same number of quotes. */
  lemma SameFront(tok: string, after: string, a: string, cur: string, depth: int)
    requires StringToken(tok) && a != "" && a[0] == QUOTE && CloseQuote(a, 1, QUOTE) >= 0
    requires Elems(tok + after, cur, depth).Some? && Elems(a, cur, depth) == Elems(tok + after, cur, depth)
    ensures HasPrefix(a, tok) && |tok| <= |a| && Lead(a[|tok|..]) == Lead(after)
  {
    hide *;
    var y := ElemOfToken(tok, after, cur, depth);
    var t, rest := SplitToken(a);
    var z := ElemOfToken(t, rest, cur, depth);
    SameTail(TrimLeft(cur), tok, y, t, z);
    SameToken(tok, y, t, z);
    FrontOf(tok, rest);
  }

  lemma FrontOf(t: string, rest: string)
    ensures HasPrefix(t + rest, t) && (t + rest)[|t|..] == rest
  {}

  lemma SameTail(c: string, a: string, x: string, b: string, y: string)
    requires c + a + x == c + b + y
    ensures a + x == b + y
  {
    assert a + x == (c + a + x)[|c|..] && b + y == (c + b + y)[|c|..];
  }

  // ---- exactly when a list is split as TOML splits it -------------------

  lemma {:induction false} SameElems(s: string, i: nat, cur: string, depth: int)
    requires i <= |s| && Uncommented(s, i).Some? && StripComments(s, i).Some?
    requires Elems(Uncommented(s, i).value, cur, depth).Some?
    requires Elems(StripComments(s, i).value, cur, depth) == Elems(Uncommented(s, i).value, cur, depth)
    ensures !HoldsEscape(s, i)
    decreases |s| - i
  {
    hide Elems, CopyString;
    if i < |s| {
      if s[i] == '#' {
        var j := IndexFrom(s, "\n", i);
        if j >= 0 {
          SameElems(s, j, cur, depth);
        }
      } else if IsQuote(s[i]) {
        var j := CloseQuote(s, i + 1, s[i]);
        if s[i] == QUOTE && BACKSLASH in s[i + 1..j] {
          EscapeDiffers(s, i, cur, depth);
        } else {
          TokenRead(s, i, cur, depth);
          hide Uncommented, StripComments;
          SameElems(s, j + 1, cur + s[i..j + 1], depth);
        }
      } else {
        CharRead(s, i);
        var p, a := Uncommented(s, i + 1).value, StripComments(s, i + 1).value;
        hide Uncommented, StripComments;
        CharStep(s[i], p, a, cur, depth);
        if s[i] == ',' && depth == 0 {
          SameElems(s, i + 1, "", 0);
        } else {
          SameElems(s, i + 1, cur + [s[i]], Deeper(s[i], depth));
        }
      }
    }
  }

  lemma CharRead(s: string, i: nat)
    requires i < |s| && s[i] != '#' && !IsQuote(s[i]) && Uncommented(s, i).Some? && StripComments(s, i).Some?
    ensures Uncommented(s, i + 1).Some? && Uncommented(s, i).value == [s[i]] + Uncommented(s, i + 1).value
    ensures StripComments(s, i + 1).Some? && StripComments(s, i).value == [s[i]] + StripComments(s, i + 1).value
  {}

  lemma CharStep(c: char, p: string, a: string, cur: string, depth: int)
    requires !IsQuote(c) && Elems([c] + p, cur, depth).Some? && Elems([c] + a, cur, depth) == Elems([c] + p, cur, depth)
    ensures var next, d := if c == ',' && depth == 0 then "" else cur + [c], Deeper(c, depth);
            Elems(p, next, d).Some? && Elems(a, next, d) == Elems(p, next, d)
  {
    hide TrimSpace, CloseQuote;
    assert ([c] + p)[1..] == p && ([c] + a)[1..] == a;
    if c == ',' && depth == 0 {
      var el := TrimSpace(cur);
      var more, less := Elems(p, "", 0).value, Elems(a, "", 0).value;
      assert [el] + more == [el] + less;
      assert more == ([el] + more)[1..] && less == ([el] + less)[1..];
    }
  }

  /** A string without an escape is read by both alike. */
  lemma TokenRead(s: string, i: nat, cur: string, depth: int)
    requires i < |s| && IsQuote(s[i]) && CloseQuote(s, i + 1, s[i]) >= 0
    requires s[i] == QUOTE ==> BACKSLASH !in s[i + 1..CloseQuote(s, i + 1, s[i])]
    requires Uncommented(s, i).Some? && StripComments(s, i).Some?
    ensures var j := CloseQuote(s, i + 1, s[i]);
            && Uncommented(s, j + 1).Some? && StripComments(s, j + 1).Some?
            && Elems(Uncommented(s, i).value, cur, depth) == Elems(Uncommented(s, j + 1).value, cur + s[i..j + 1], depth)
            && Elems(StripComments(s, i).value, cur, depth) == Elems(StripComments(s, j + 1).value, cur + s[i..j + 1], depth)
  {
    var j := CloseQuote(s, i + 1, s[i]);
    PlainString(s, i);
    var t := s[i..j + 1];
    TokenAt(s, i, j);
    assert Uncommented(s, i).value == t + Uncommented(s, j + 1).value;
    hide Uncommented, StripComments, Elems, CloseQuote;
    TokenFirst(t, Uncommented(s, j + 1).value, cur, depth);
    TokenFirst(t, StripComments(s, j + 1).value, cur, depth);
  }

  lemma TokenAt(s: string, i: nat, j: nat)
    requires i < |s| && IsQuote(s[i]) && CloseQuote(s, i + 1, s[i]) == j
    ensures StringToken(s[i..j + 1])
  {
    CloseBefore(s, i + 1, j + 1, s[i]);
    assert s[i..j + 1] == s[..j + 1][i..];
    CloseShift(s[..j + 1], i, 1, s[i]);
  }

  lemma TokenFirst(t: string, x: string, cur: string, depth: int)
    requires StringToken(t)
    ensures Elems(t + x, cur, depth) == Elems(x, cur + t, depth)
  {
    CloseLocal(t, x);
    assert (t + x)[..|t|] == t && (t + x)[|t|..] == x;
  }

  lemma FromIsElems(x: string)
    ensures ElemsFrom(x, 0, 0, 0) == Elems(x, "", 0)
  {
    ElemsAreFrom(x, 0, 0, 0);
    assert x[0..] == x && x[0..0] == "";
  }

  /** A list that TOML can split is split as TOML splits it exactly when no basic
      string in it holds a backslash. */
  lemma SplitsExactly(body: string)
    requires TomlElems(body).Some?
    ensures SplitElems(body) == TomlElems(body) <==> !HoldsEscape(body, 0)
  {
    FromIsElems(Uncommented(body, 0).value);
    if !HoldsEscape(body, 0) {
      SameWithoutEscape(body, 0);
    }
    if SplitElems(body) == TomlElems(body) {
      FromIsElems(StripComments(body, 0).value);
      SameElems(body, 0, "", 0);
    }
  }
}
