/** Where a bracketed value ends, said without the scan: a one-character automaton
    for strings and comments, the bracket depth it leaves at every position, and
    the first bracket that closes the value. */
module TomlCut {
  import opened Text
  import opened TomlString
  import opened TomlParse

  datatype State = Plain | Basic | Escape | Literal | Comment

  /** One character; only arrays may hold comments. */
  function Step(st: State, c: char, isArray: bool): State {
    match st
    case Plain =>
      if c == QUOTE then Basic else if c == APOSTROPHE then Literal
      else if isArray && c == '#' then Comment else Plain
    case Basic => if c == BACKSLASH then Escape else if c == QUOTE then Plain else Basic
    case Escape => Basic
    case Literal => if c == APOSTROPHE then Plain else Literal
    case Comment => if c == '\n' then Plain else Comment
  }

  /** The state before the `k`th character. */
  function StateAt(s: string, k: nat, isArray: bool): State
    requires k <= |s|
  {
    if k == 0 then Plain else Step(StateAt(s, k - 1, isArray), s[k - 1], isArray)
  }

  /** How much a character outside strings and comments opens. */
  function Opens(c: char, isArray: bool): int {
    if c == (if isArray then '[' else '{') then 1
    else if c == (if isArray then ']' else '}') then -1
    else 0
  }

  /** Opening less closing brackets before the `k`th character. */
  function DepthAt(s: string, k: nat, isArray: bool): int
    requires k <= |s|
  {
    if k == 0 then 0
    else DepthAt(s, k - 1, isArray)
         + if StateAt(s, k - 1, isArray) == Plain then Opens(s[k - 1], isArray) else 0
  }

  /** The `k`th character is a bracket that brings the depth back to zero. */
  predicate ClosesAt(s: string, k: nat, isArray: bool) {
    k < |s| && StateAt(s, k, isArray) == Plain && Opens(s[k], isArray) == -1 && DepthAt(s, k, isArray) == 1
  }

  /** Cut at the first such bracket, or none and the value is still open. */
  ghost predicate IsCut(s: string, isArray: bool, r: Cut) {
    match r
    case StillOpen => forall k: nat :: !ClosesAt(s, k, isArray)
    case Cut(body, rest) =>
      exists k: nat :: 0 < k && ClosesAt(s, k, isArray) && (forall n: nat | n < k :: !ClosesAt(s, n, isArray))
        && body == s[1..k] && rest == s[k + 1..]
  }

  // ---- runs of the automaton --------------------------------------------

  /** Inside a string or a comment nothing closes and the depth stays. */
  ghost predicate Quiet(s: string, i: nat, n: nat, isArray: bool)
    requires i <= n <= |s|
  {
    && DepthAt(s, n, isArray) == DepthAt(s, i, isArray)
    && forall k: nat | i <= k < n :: StateAt(s, k, isArray) != Plain
  }

  lemma QuietStep(s: string, i: nat, n: nat, isArray: bool)
    requires i < n <= |s| && StateAt(s, i, isArray) != Plain && Quiet(s, i + 1, n, isArray)
    ensures Quiet(s, i, n, isArray)
  {}

  /** A string runs to its closing quote, or to the end. */
  lemma {:induction false} StringRun(s: string, i: nat, q: char, isArray: bool)
    requires IsQuote(q) && i <= |s| && StateAt(s, i, isArray) == if q == QUOTE then Basic else Literal
    ensures var j := CloseQuote(s, i, q);
            if j >= 0 then Quiet(s, i, j + 1, isArray) && StateAt(s, j + 1, isArray) == Plain
            else Quiet(s, i, |s|, isArray)
    decreases |s| - i
  {
    if i < |s| {
      var j := CloseQuote(s, i, q);
      var n := if j >= 0 then j + 1 else |s|;
      if s[i] == BACKSLASH && q == QUOTE {
        assert StateAt(s, i + 1, isArray) == Escape;
        if i + 1 < |s| {
          StringRun(s, i + 2, q, isArray);
          hide CloseQuote;
          QuietStep(s, i + 1, n, isArray);
        }
        QuietStep(s, i, n, isArray);
      } else {
        if s[i] != q {
          StringRun(s, i + 1, q, isArray);
        }
        QuietStep(s, i, n, isArray);
      }
    }
  }

  lemma CommentRun(s: string, i: nat)
    requires i <= |s| && StateAt(s, i, true) == Comment
    ensures var j := IndexFrom(s, "\n", i);
            if j >= 0 then Quiet(s, i, j + 1, true) && StateAt(s, j + 1, true) == Plain
            else Quiet(s, i, |s|, true)
    decreases |s| - i
  {
    if i < |s| {
      assert s[i..i + 1] == [s[i]];
      var j := IndexFrom(s, "\n", i);
      if s[i] != '\n' {
        CommentRun(s, i + 1);
      }
      QuietStep(s, i, if j >= 0 then j + 1 else |s|, true);
    }
  }

  // ---- the scan is the automaton ----------------------------------------

  /** Over a comment or a string: where the scan goes on, or -1. */
  lemma Jump(s: string, i: nat, isArray: bool) returns (n: int)
    requires i < |s| && StateAt(s, i, isArray) == Plain && ((isArray && s[i] == '#') || IsQuote(s[i]))
    requires DepthAt(s, i, isArray) > 0 ==> i > 0
    ensures var depth := DepthAt(s, i, isArray);
            if n < 0 then Quiet(s, i + 1, |s|, isArray) && CutFrom(s, i, depth, isArray) == StillOpen
            else
              && i < n <= |s| && StateAt(s, n, isArray) == Plain && DepthAt(s, n, isArray) == depth
              && Quiet(s, i + 1, n, isArray) && CutFrom(s, i, depth, isArray) == CutFrom(s, n, depth, isArray)
  {
    var depth := DepthAt(s, i, isArray);
    if IsQuote(s[i]) {
      CutAtQuote(s, i, depth, isArray);
      assert StateAt(s, i + 1, isArray) == (if s[i] == QUOTE then Basic else Literal);
      StringRun(s, i + 1, s[i], isArray);
      n := CloseQuote(s, i + 1, s[i]);
    } else {
      CutAtComment(s, i, depth);
      assert StateAt(s, i + 1, isArray) == Comment;
      CommentRun(s, i + 1);
      n := IndexFrom(s, "\n", i + 1);
    }
    assert DepthAt(s, i + 1, isArray) == depth;
    hide CloseQuote, IndexFrom, CutFrom, StateAt, DepthAt;
    n := if n < 0 then -1 else n + 1;
  }

  lemma CutAtQuote(s: string, i: nat, depth: int, isArray: bool)
    requires i < |s| && IsQuote(s[i]) && (depth > 0 ==> i > 0)
    ensures var j := CloseQuote(s, i + 1, s[i]);
            CutFrom(s, i, depth, isArray) == if j < 0 then StillOpen else CutFrom(s, j + 1, depth, isArray)
  {
    hide CloseQuote;
  }

  lemma CutAtComment(s: string, i: nat, depth: int)
    requires i < |s| && s[i] == '#' && (depth > 0 ==> i > 0)
    ensures var j := IndexFrom(s, "\n", i + 1);
            CutFrom(s, i, depth, true) == if j < 0 then StillOpen else CutFrom(s, j + 1, depth, true)
  {
    assert s[i..i + 1] == [s[i]];
    assert IndexFrom(s, "\n", i) == IndexFrom(s, "\n", i + 1);
    hide IndexFrom;
  }

  lemma {:induction false} CutIsFirst(s: string, i: nat, isArray: bool)
    requires i <= |s| && StateAt(s, i, isArray) == Plain
    requires forall k: nat | k < i :: !ClosesAt(s, k, isArray)
    requires DepthAt(s, i, isArray) > 0 ==> i > 0
    ensures IsCut(s, isArray, CutFrom(s, i, DepthAt(s, i, isArray), isArray))
    decreases |s| - i
  {
    hide CloseQuote, IsCut;
    if i == |s| {
      NoneLeft(s, isArray);
    } else if (isArray && s[i] == '#') || IsQuote(s[i]) {
      var n := Jump(s, i, isArray);
      hide CutFrom;
      if n < 0 {
        QuietToEnd(s, i, isArray);
      } else {
        CutIsFirst(s, n, isArray);
      }
    } else if ClosesAt(s, i, isArray) {
      FoundHere(s, i, isArray);
    } else {
      assert StateAt(s, i + 1, isArray) == Plain;
      assert DepthAt(s, i + 1, isArray) == DepthAt(s, i, isArray) + Opens(s[i], isArray);
      CutIsFirst(s, i + 1, isArray);
    }
  }

  lemma NoneLeft(s: string, isArray: bool)
    requires forall k: nat | k < |s| :: !ClosesAt(s, k, isArray)
    ensures IsCut(s, isArray, StillOpen)
  {}

  lemma FoundHere(s: string, i: nat, isArray: bool)
    requires 0 < i && ClosesAt(s, i, isArray) && forall k: nat | k < i :: !ClosesAt(s, k, isArray)
    ensures IsCut(s, isArray, Cut(s[1..i], s[i + 1..]))
  {}

  lemma QuietToEnd(s: string, i: nat, isArray: bool)
    requires i < |s| && Quiet(s, i + 1, |s|, isArray) && !ClosesAt(s, i, isArray)
    requires forall k: nat | k < i :: !ClosesAt(s, k, isArray)
    ensures IsCut(s, isArray, StillOpen)
  {}

  /** The bracket scan finds the first bracket that brings the depth outside strings
      and comments back to zero, and nothing exactly when there is none. */
  lemma CutExactly(s: string, isArray: bool)
    ensures IsCut(s, isArray, CutValue(s, isArray))
  {
    CutIsFirst(s, 0, isArray);
  }

  /** There is only one answer. */
  lemma CutIsUnique(s: string, isArray: bool, a: Cut, b: Cut)
    requires IsCut(s, isArray, a) && IsCut(s, isArray, b)
    ensures a == b
  {
    if a.Cut? && b.Cut? {
      var k: nat :| 0 < k && ClosesAt(s, k, isArray) && (forall n: nat | n < k :: !ClosesAt(s, n, isArray))
        && a.body == s[1..k] && a.rest == s[k + 1..];
      var m: nat :| 0 < m && ClosesAt(s, m, isArray) && (forall n: nat | n < m :: !ClosesAt(s, n, isArray))
        && b.body == s[1..m] && b.rest == s[m + 1..];
      assert !(k < m) && !(m < k);
    }
  }

  /** cutTOMLInlineTable and cutTOMLArray as they run. */
  method ScanCut(s: string, isArray: bool) returns (r: Cut)
    ensures r == CutValue(s, isArray) && IsCut(s, isArray, r)
  {
    CutExactly(s, isArray);
    hide IsCut;
    var opener, closer := if isArray then '[' else '{', if isArray then ']' else '}';
    var depth, i := 0, 0;
    while i < |s|
      invariant 0 <= i && (depth > 0 ==> i > 0)
      invariant CutValue(s, isArray) == CutFrom(s, i, depth, isArray)
      decreases |s| - i
    {
      if isArray && s[i] == '#' {
        var j := IndexFrom(s, "\n", i);
        if j < 0 {
          return StillOpen;
        }
        i := j;
      } else if IsQuote(s[i]) {
        var q := s[i];
        ghost var from := i + 1;
        i := i + 1;
        while i < |s| && s[i] != q
          invariant from <= i
          invariant CloseQuote(s, from, q) == CloseQuote(s, i, q)
          decreases |s| - i
        {
          i := if s[i] == BACKSLASH && q == QUOTE then i + 2 else i + 1;
        }
        if i >= |s| {
          return StillOpen;
        }
      } else if s[i] == opener {
        depth := depth + 1;
      } else if s[i] == closer {
        depth := depth - 1;
        if depth == 0 {
          return Cut(s[1..i], s[i + 1..]);
        }
      }
      i := i + 1;
    }
    return StillOpen;
  }
}
