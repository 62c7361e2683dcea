/** What a config.toml says about the hooks feature, in the terms of the three regular
    expressions that read it, and what a run that asks for hooks leaves there. */
module CodexFlags {
  import opened Text
  import opened TomlString
  import opened TomlParse
  import TomlPairs
  import opened CodexBlock
  import opened CodexFeatures
  import opened CodexEdit

  // ---- the expressions, in words ----------------------------------------

  /** Only white space from `i` to `j`. */
  ghost predicate Spaces(s: string, i: int, j: int) {
    0 <= i <= j <= |s| && forall k | i <= k < j :: Ws(s[k])
  }

  /** White space up to some line end. */
  ghost predicate BlankToStop(s: string, i: int) {
    exists j: nat :: Spaces(s, i, j) && LineStop(s, j)
  }

  ghost predicate MatchesFeatures(s: string, p: nat) {
    p <= |s| && LineStart(s, p) &&
    exists q: nat :: Spaces(s, p, q) && At(s, "[features]", q) && BlankToStop(s, q + 10)
  }

  ghost predicate MatchesHeader(s: string, p: nat) {
    p <= |s| && LineStart(s, p) &&
    exists q: nat, b: nat :: Spaces(s, p, q) && q + 1 < b < |s| && s[q] == '[' && s[b] == ']'
      && (forall k | q < k < b :: s[k] != ']') && BlankToStop(s, b + 1)
  }

  /** From the key's place: an equals sign, and the word. */
  ghost predicate Assigned(s: string, q: nat, r: nat, v: nat, word: string) {
    At(s, "hooks", q) && Spaces(s, q + 5, r) && At(s, "=", r) && Spaces(s, r + 1, v)
    && At(s, word, v) && BlankToStop(s, v + |word|)
  }

  function Word(b: bool): string {
    if b then "true" else "false"
  }

  ghost predicate MatchesHooks(s: string, p: nat, b: bool) {
    p <= |s| && LineStart(s, p) &&
    exists q: nat, r: nat, v: nat :: Spaces(s, p, q) && Assigned(s, q, r, v, Word(b))
  }

  lemma SkipsTo(s: string, i: nat, j: nat)
    requires Spaces(s, i, j) && j < |s| && !Ws(s[j])
    ensures SkipWs(s, i) == j
  {}

  lemma Skipped(s: string, i: nat)
    requires i <= |s|
    ensures Spaces(s, i, SkipWs(s, i))
  {}

  lemma {:induction false} BlankExactly(s: string, i: nat)
    requires i <= |s|
    ensures RestBlank(s, i) <==> BlankToStop(s, i)
    decreases |s| - i
  {
    if LineStop(s, i) {
      assert Spaces(s, i, i);
    } else {
      BlankExactly(s, i + 1);
      if RestBlank(s, i) {
        var j: nat :| Spaces(s, i + 1, j) && LineStop(s, j);
        assert Spaces(s, i, j);
      }
      if BlankToStop(s, i) {
        var j: nat :| Spaces(s, i, j) && LineStop(s, j);
        assert Spaces(s, i + 1, j);
      }
    }
  }

  lemma AtFirst(s: string, m: string, q: int)
    requires At(s, m, q) && m != ""
    ensures s[q] == m[0] && q + |m| <= |s|
  {
    assert s[q..q + |m|][0] == s[q];
  }

  lemma FeaturesExactly(s: string, p: nat)
    requires p <= |s|
    ensures LineStart(s, p) && FeaturesAt(s, p) <==> MatchesFeatures(s, p)
  {
    hide SkipWs, RestBlank, BlankToStop;
    var i := SkipWs(s, p);
    Skipped(s, p);
    if At(s, FEATURES_HEADER, i) {
      BlankExactly(s, i + 10);
    }
    if MatchesFeatures(s, p) {
      var q: nat :| Spaces(s, p, q) && At(s, "[features]", q) && BlankToStop(s, q + 10);
      AtFirst(s, "[features]", q);
      SkipsTo(s, p, q);
    }
  }

  lemma {:induction false} BracketFound(s: string, i: nat)
    requires i <= |s|
    ensures var b := IndexFrom(s, "]", i);
            if b < 0 then forall k | i <= k < |s| :: s[k] != ']'
            else i <= b < |s| && s[b] == ']' && forall k | i <= k < b :: s[k] != ']'
    decreases |s| - i
  {
    if i < |s| {
      assert s[i..i + 1] == [s[i]];
      BracketFound(s, i + 1);
    }
  }

  lemma HeaderExactly(s: string, p: nat)
    requires p <= |s|
    ensures LineStart(s, p) && HeaderAt(s, p) <==> MatchesHeader(s, p)
  {
    hide SkipWs, RestBlank, BlankToStop, IndexFrom;
    var i := SkipWs(s, p);
    Skipped(s, p);
    if i < |s| {
      BracketFound(s, i + 1);
      var c := IndexFrom(s, "]", i + 1);
      if c >= 0 {
        BlankExactly(s, c + 1);
      }
    }
    if MatchesHeader(s, p) {
      var q: nat, b: nat :| Spaces(s, p, q) && q + 1 < b < |s| && s[q] == '[' && s[b] == ']'
        && (forall k | q < k < b :: s[k] != ']') && BlankToStop(s, b + 1);
      SkipsTo(s, p, q);
    }
  }

  lemma FlagExactly(s: string, v: nat, b: bool)
    requires v <= |s|
    ensures FlagAt(s, v) == Some(b) <==> var word := Word(b); At(s, word, v) && BlankToStop(s, v + |word|)
  {
    hide RestBlank, BlankToStop;
    if At(s, "true", v) {
      AtFirst(s, "true", v);
      BlankExactly(s, v + 4);
    }
    if At(s, "false", v) {
      AtFirst(s, "false", v);
      BlankExactly(s, v + 5);
    }
  }

  lemma AssignedRead(s: string, q: nat, r: nat, v: nat, b: bool)
    requires Assigned(s, q, r, v, Word(b))
    ensures q + 5 <= |s| && s[q] == 'h' && ValueAt(s, q + 5) == Some(b)
  {
    var word := Word(b);
    hide BlankToStop, FlagAt, SkipWs;
    AtFirst(s, "hooks", q);
    AtFirst(s, "=", r);
    AtFirst(s, word, v);
    SkipsTo(s, q + 5, r);
    SkipsTo(s, r + 1, v);
    FlagExactly(s, v, b);
  }

  lemma ReadAssigned(s: string, q: nat, b: bool) returns (r: nat, v: nat)
    requires At(s, "hooks", q) && ValueAt(s, q + 5) == Some(b)
    ensures Assigned(s, q, r, v, Word(b))
  {
    hide BlankToStop, FlagAt, SkipWs;
    r := SkipWs(s, q + 5);
    Skipped(s, q + 5);
    Skipped(s, r + 1);
    v := SkipWs(s, r + 1);
    FlagExactly(s, v, b);
    assert s[r..r + 1] == "=";
  }

  lemma HooksExactly(s: string, p: nat, b: bool)
    requires p <= |s|
    ensures LineStart(s, p) && HooksAt(s, p) == Some(b) <==> MatchesHooks(s, p, b)
  {
    hide SkipWs, ValueAt, Assigned, At;
    var word := Word(b);
    Skipped(s, p);
    if HooksAt(s, p) == Some(b) {
      var r, v := ReadAssigned(s, SkipWs(s, p), b);
    }
    if MatchesHooks(s, p, b) {
      var q: nat, r: nat, v: nat :| Spaces(s, p, q) && Assigned(s, q, r, v, word);
      AssignedAt(s, q, r, v, word);
      AssignedRead(s, q, r, v, b);
      SkipsTo(s, p, q);
    }
  }

  lemma AssignedAt(s: string, q: nat, r: nat, v: nat, word: string)
    requires Assigned(s, q, r, v, word)
    ensures At(s, "hooks", q)
  {}

  // ---- what the file says -----------------------------------------------

  ghost predicate FirstFeatures(s: string, p: nat) {
    MatchesFeatures(s, p) && forall k: nat | k < p :: !MatchesFeatures(s, k)
  }

  /** Where the match that begins at `p` ends: white space is taken as far as it goes. */
  ghost predicate EndsAt(s: string, p: nat, e: nat) {
    exists q: nat :: Spaces(s, p, q) && At(s, "[features]", q) && Spaces(s, q + 10, e) && LineStop(s, e)
      && forall j: nat | j > e :: !(Spaces(s, q + 10, j) && LineStop(s, j))
  }

  /** The table ends where the first header begins, or with the text. */
  ghost predicate TableEnds(s: string, n: nat) {
    n <= |s| && (n == |s| || MatchesHeader(s, n)) && forall k: nat | k < n :: !MatchesHeader(s, k)
  }

  ghost predicate AnyHooks(s: string, p: nat) {
    MatchesHooks(s, p, true) || MatchesHooks(s, p, false)
  }

  ghost predicate FirstHooks(s: string, b: bool) {
    exists p: nat :: MatchesHooks(s, p, b) && forall k: nat | k < p :: !AnyHooks(s, k)
  }

  /** The first flag of the first [features] table of the text is `b`. */
  ghost predicate Says(body: string, b: bool) {
    exists p: nat, e: nat, n: nat ::
      FirstFeatures(body, p) && EndsAt(body, p, e) && e <= |body| && TableEnds(body[e..], n) && FirstHooks(body[e..][..n], b)
  }

  lemma {:induction false} FeaturesFound(s: string, p: nat)
    requires p <= |s|
    ensures match FindFeatures(s, p)
            case None => forall k: nat | p <= k :: !MatchesFeatures(s, k)
            case Some(r) => p <= r && MatchesFeatures(s, r) && forall k: nat | p <= k < r :: !MatchesFeatures(s, k)
    decreases |s| - p
  {
    hide FeaturesAt, BlankToStop;
    FeaturesExactly(s, p);
    if p < |s| {
      FeaturesFound(s, p + 1);
    }
  }

  lemma {:induction false} HeaderFound(s: string, p: nat)
    requires p <= |s|
    ensures var n := FindHeader(s, p);
            p <= n <= |s| && (n == |s| || MatchesHeader(s, n)) && forall k: nat | p <= k < n :: !MatchesHeader(s, k)
    decreases |s| - p
  {
    hide HeaderAt, MatchesHeader;
    HeaderExactly(s, p);
    if p < |s| {
      HeaderFound(s, p + 1);
    }
  }

  ghost predicate FirstFrom(s: string, p: nat, b: bool) {
    exists j: nat :: p <= j && MatchesHooks(s, j, b) && forall k: nat | p <= k < j :: !AnyHooks(s, k)
  }

  lemma {:induction false} HooksFound(s: string, p: nat)
    requires p <= |s|
    ensures match FindHooks(s, p)
            case None => forall k: nat | p <= k :: !AnyHooks(s, k)
            case Some(b) => FirstFrom(s, p, b)
    decreases |s| - p
  {
    hide HooksAt, MatchesHooks, FirstFrom;
    HooksExactly(s, p, true);
    HooksExactly(s, p, false);
    HooksInside(s);
    if LineStart(s, p) && HooksAt(s, p).Some? {
      FirstHere(s, p, HooksAt(s, p).value);
    } else if p < |s| {
      HooksFound(s, p + 1);
      if FindHooks(s, p + 1).Some? {
        FirstLater(s, p, FindHooks(s, p + 1).value);
      }
    }
  }

  lemma FirstHere(s: string, p: nat, b: bool)
    requires MatchesHooks(s, p, b)
    ensures FirstFrom(s, p, b)
  {}

  lemma FirstLater(s: string, p: nat, b: bool)
    requires FirstFrom(s, p + 1, b) && !AnyHooks(s, p)
    ensures FirstFrom(s, p, b)
  {
    hide AnyHooks, MatchesHooks;
  }

  lemma HooksInside(s: string)
    ensures forall k: nat, b | MatchesHooks(s, k, b) :: k <= |s| && LineStart(s, k)
  {}

  lemma FlagIs(s: string, b: bool)
    ensures FindHooks(s, 0) == Some(b) <==> FirstHooks(s, b)
  {
    HooksFound(s, 0);
    hide FindHooks, MatchesHooks;
    forall j: nat | MatchesHooks(s, j, true) ensures !MatchesHooks(s, j, false) {
      OneFlag(s, j);
    }
    if FirstHooks(s, b) {
      var p: nat :| MatchesHooks(s, p, b) && forall k: nat | k < p :: !AnyHooks(s, k);
      assert AnyHooks(s, p);
      var c := FindHooks(s, 0).value;
      var j: nat :| MatchesHooks(s, j, c) && forall k: nat | k < j :: !AnyHooks(s, k);
      assert AnyHooks(s, j);
      assert j == p;
    }
  }

  lemma OneFlag(s: string, p: nat)
    requires MatchesHooks(s, p, true)
    ensures !MatchesHooks(s, p, false)
  {
    HooksInside(s);
    HooksExactly(s, p, true);
    HooksExactly(s, p, false);
  }

  lemma TableFlagIs(rest: string, n: nat, b: bool)
    requires TableEnds(rest, n)
    ensures TableFlag(rest) == Some(b) <==> FirstHooks(rest[..n], b)
  {
    HeaderFound(rest, 0);
    hide MatchesHeader, FindHooks, FindHeader, FirstHooks;
    assert n == FindHeader(rest, 0);
    FlagIs(rest[..n], b);
  }

  lemma EndsExactly(s: string, p: nat, e: nat)
    requires p <= |s| && FeaturesAt(s, p)
    ensures e == HeaderStop(s, p) <==> EndsAt(s, p, e)
  {
    var q, i := SkipWs(s, p), SkipWs(s, p) + 10;
    Skipped(s, p);
    AtFirst(s, FEATURES_HEADER, q);
    BlankHasStop(s, i);
    StopIs(s, i, e);
    hide StopBefore, SkipWs, RestBlank;
    if EndsAt(s, p, e) {
      var r: nat :| Spaces(s, p, r) && At(s, "[features]", r) && Spaces(s, r + 10, e) && LineStop(s, e)
        && forall j: nat | j > e :: !(Spaces(s, r + 10, j) && LineStop(s, j));
      AtFirst(s, "[features]", r);
      SkipsTo(s, p, r);
    }
  }

  lemma StopIs(s: string, i: nat, e: nat)
    requires i <= |s| && exists j :: i <= j <= SkipWs(s, i) && LineStop(s, j)
    ensures e == StopBefore(s, SkipWs(s, i)) <==>
            Spaces(s, i, e) && LineStop(s, e) && forall j: nat | j > e :: !(Spaces(s, i, j) && LineStop(s, j))
  {
    var m := SkipWs(s, i);
    var e2 := StopBefore(s, m);
    hide StopBefore, SkipWs;
    forall j: nat | Spaces(s, i, j) ensures j <= m {}
    assert LineStop(s, e2) && i <= e2;
  }

  /** The parts of a reading, found one after the other. */
  lemma StateParts(body: string, p: nat, e: nat, n: nat, b: bool)
    requires FirstFeatures(body, p) && EndsAt(body, p, e) && e <= |body| && TableEnds(body[e..], n)
    ensures FeatureState(body) == (if b then Enabled else Disabled) <==> FirstHooks(body[e..][..n], b)
  {
    FeaturesFound(body, 0);
    assert FindFeatures(body, 0) == Some(p);
    FoundAt(body, 0);
    EndsExactly(body, p, e);
    TableFlagIs(body[e..], n, b);
    hide FindFeatures, FirstHooks, TableFlag, FeaturesAt, MatchesFeatures, HeaderStop, EndsAt, TableEnds;
  }

  lemma PartsExist(body: string) returns (p: nat, e: nat, n: nat)
    requires !FeatureState(body).Absent?
    ensures FirstFeatures(body, p) && EndsAt(body, p, e) && e <= |body| && TableEnds(body[e..], n)
  {
    FeaturesFound(body, 0);
    p := FindFeatures(body, 0).value;
    FoundAt(body, 0);
    e := HeaderStop(body, p);
    EndsExactly(body, p, e);
    n := FindHeader(body[e..], 0);
    HeaderFound(body[e..], 0);
  }

  /** The body is read exactly as the expressions say: the first flag of the first
      [features] table. */
  lemma FeatureStateExactly(body: string, b: bool)
    ensures FeatureState(body) == (if b then Enabled else Disabled) <==> Says(body, b)
  {
    hide FeatureState, FirstFeatures, EndsAt, MatchesHeader, FirstHooks;
    if !FeatureState(body).Absent? {
      var p, e, n := PartsExist(body);
      StateParts(body, p, e, n, b);
    }
    if Says(body, b) {
      var p: nat, e: nat, n: nat :| FirstFeatures(body, p) && EndsAt(body, p, e) && e <= |body|
        && TableEnds(body[e..], n) && FirstHooks(body[e..][..n], b);
      StateParts(body, p, e, n, b);
    }
  }

  // ---- text that nothing is read across ---------------------------------

  /** A text that ends its last line, if it has any. */
  predicate Ended(x: string) {
    x == "" || x[|x| - 1] == '\n'
  }

  /** The first visible character of the text is a hash or a bracket, if there is one. */
  predicate Wall(y: string) {
    var k := SkipWs(y, 0);
    k == |y| || y[k] == '#' || y[k] == '['
  }

  lemma SkipToWall(x: string, y: string, i: nat)
    requires i <= |x| && Wall(y)
    ensures var k := SkipWs(x + y, i);
            if SkipWs(x, i) < |x| then k == SkipWs(x, i)
            else k >= |x| && (k == |x + y| || (x + y)[k] == '#' || (x + y)[k] == '[')
  {
    hide SkipWs;
    SkipLocal(x, y, i);
    var k := SkipWs(y, 0);
    assert k < |y| ==> (x + y)[|x| + k] == y[k];
  }

  lemma AtChar(s: string, m: string, k: nat, j: nat)
    ensures At(s, m, k) && k <= j < k + |m| ==> s[j] == m[j - k] && m[j - k] in m
  {}

  lemma AtBefore(x: string, y: string, m: string, k: nat)
    requires Ended(x) && '\n' !in m && m != "" && k < |x|
    ensures At(x + y, m, k) <==> At(x, m, k)
    ensures At(x, m, k) ==> k + |m| < |x|
  {
    var s := x + y;
    assert k + |m| <= |x| ==> s[k..k + |m|] == x[k..k + |m|];
    if k + |m| >= |x| {
      AtChar(s, m, k, |x| - 1);
      AtChar(x, m, k, |x| - 1);
    }
  }

  lemma NotAtWall(s: string, m: string, k: nat)
    requires k <= |s| && (k == |s| || s[k] == '#' || s[k] == '[') && m != "" && m[0] != '#' && m[0] != '['
    ensures !At(s, m, k)
  {
    if At(s, m, k) {
      AtFirst(s, m, k);
    }
  }

  lemma {:induction false} BlankBefore(x: string, y: string, i: nat)
    requires Ended(x) && i < |x|
    ensures RestBlank(x + y, i) == RestBlank(x, i)
    decreases |x| - i
  {
    assert (x + y)[i] == x[i];
    if i + 1 < |x| {
      BlankBefore(x, y, i + 1);
    }
  }

  lemma FlagBefore(x: string, y: string, v: nat)
    requires Ended(x) && v < |x|
    ensures FlagAt(x + y, v) == FlagAt(x, v)
  {
    AtBefore(x, y, "true", v);
    AtBefore(x, y, "false", v);
    if At(x, "true", v) {
      BlankBefore(x, y, v + 4);
    }
    if At(x, "false", v) {
      BlankBefore(x, y, v + 5);
    }
    hide *;
  }

  lemma NoFlagAtWall(s: string, v: nat)
    requires v <= |s| && (v == |s| || s[v] == '#' || s[v] == '[')
    ensures FlagAt(s, v) == None
  {
    NotAtWall(s, "true", v);
    NotAtWall(s, "false", v);
  }

  lemma ValueBefore(x: string, y: string, i: nat)
    requires Ended(x) && Wall(y) && i <= |x|
    ensures ValueAt(x + y, i) == ValueAt(x, i)
  {
    hide SkipWs, FlagAt, Wall, Ended;
    var r := SkipWs(x, i);
    SkipToWall(x, y, i);
    if r < |x| && x[r] == '=' {
      var v := SkipWs(x, r + 1);
      SkipToWall(x, y, r + 1);
      if v < |x| {
        FlagBefore(x, y, v);
      } else {
        NoFlagAtWall(x, v);
        NoFlagAtWall(x + y, SkipWs(x + y, r + 1));
      }
    }
  }

  lemma HooksBefore(x: string, y: string, p: nat)
    requires Ended(x) && Wall(y) && p <= |x|
    ensures HooksAt(x + y, p) == HooksAt(x, p)
  {
    hide SkipWs, ValueAt, Wall, Ended;
    var q := SkipWs(x, p);
    SkipToWall(x, y, p);
    if q < |x| {
      AtBefore(x, y, "hooks", q);
      if At(x, "hooks", q) {
        ValueBefore(x, y, q + 5);
      }
    } else {
      NotAtWall(x, "hooks", q);
      NotAtWall(x + y, "hooks", SkipWs(x + y, p));
    }
  }

  lemma StartBefore(x: string, y: string, p: nat)
    requires p <= |x|
    ensures LineStart(x + y, p) == LineStart(x, p)
  {}

  /** A flag found before the wall is found beyond it. */
  lemma {:induction false} FindBefore(x: string, y: string, p: nat)
    requires Ended(x) && Wall(y) && p <= |x|
    ensures FindHooks(x, p).Some? ==> FindHooks(x + y, p) == FindHooks(x, p)
    decreases |x| - p
  {
    hide HooksAt, Wall, Ended;
    HooksBefore(x, y, p);
    StartBefore(x, y, p);
    if p < |x| {
      FindBefore(x, y, p + 1);
    }
  }

  lemma FeaturesBefore(x: string, y: string, p: nat)
    requires Ended(x) && y != "" && y[0] == '#' && p <= |x|
    ensures FeaturesAt(x + y, p) == FeaturesAt(x, p) && SkipWs(x + y, p) == SkipWs(x, p)
  {
    var s, q := x + y, SkipWs(x, p);
    SkipLocal(x, y, p);
    assert s[|x|] == '#' && !Ws('#');
    if q < |x| {
      AtBefore(x, y, FEATURES_HEADER, q);
      if At(x, FEATURES_HEADER, q) {
        BlankBefore(x, y, q + 10);
      }
    } else {
      AtChar(s, FEATURES_HEADER, |x|, |x|);
    }
  }

  lemma {:induction false} FeaturesFoundBefore(x: string, y: string, p: nat)
    requires Ended(x) && y != "" && y[0] == '#' && p <= |x|
    ensures FindFeatures(x, p).Some? ==> FindFeatures(x + y, p) == FindFeatures(x, p)
    ensures FindFeatures(x, p).None? ==> forall k | p <= k <= |x| :: !(LineStart(x + y, k) && FeaturesAt(x + y, k))
    decreases |x| - p
  {
    hide FeaturesAt;
    FeaturesBefore(x, y, p);
    StartBefore(x, y, p);
    if p < |x| {
      FeaturesFoundBefore(x, y, p + 1);
    }
  }

  // ---- a bracket that nothing closes ------------------------------------

  /** A line that opens a bracket which nothing later in the text closes. */
  predicate Unclosed(s: string, k: nat) {
    k <= |s| && LineStart(s, k) && var q := SkipWs(s, k); q < |s| && s[q] == '[' && ']' !in s[q..]
  }

  /** A text that begins with a comment and whose first closing bracket ends its line. */
  ghost predicate Heads(y: string, pre: string, z: string) {
    y == pre + ("]" + z) && pre != "" && pre[0] == '#' && ']' !in pre && z != "" && z[0] == '\n'
  }

  lemma FirstBracket(x: string, y: string, pre: string, z: string, q: nat)
    requires Heads(y, pre, z) && q < |x|
    ensures IndexFrom(x + y, "]", q + 1) == if ']' in x[q + 1..] then IndexFrom(x, "]", q + 1) else |x| + |pre|
    ensures ']' in x[q + 1..] <==> IndexFrom(x, "]", q + 1) >= 0
  {
    hide IndexFrom;
    BracketFound(x, q + 1);
    BracketFound(x + y, q + 1);
    var s, c := x + y, IndexFrom(x, "]", q + 1);
    assert s[|x| + |pre|] == y[|pre|] == ']';
    assert forall k | |x| <= k < |x| + |pre| :: s[k] == pre[k - |x|];
    assert forall k | q + 1 <= k < |x| :: s[k] == x[k] == x[q + 1..][k - q - 1];
    assert c >= 0 ==> x[q + 1..][c - q - 1] == ']';
  }

  /** In front of such a text a line is a header if it was one, or if it opens a bracket
      that nothing had closed. */
  lemma HeaderBefore(x: string, y: string, pre: string, z: string, k: nat)
    requires Ended(x) && Heads(y, pre, z) && k <= |x|
    ensures LineStart(x + y, k) && HeaderAt(x + y, k) <==> (LineStart(x, k) && HeaderAt(x, k)) || Unclosed(x, k)
  {
    hide IndexFrom, RestBlank, SkipWs, Heads, Ended;
    StartBefore(x, y, k);
    SkipBefore(x, y, pre, z, k);
    var q := SkipWs(x, k);
    if q < |x| && x[q] == '[' {
      OpenBefore(x, y, pre, z, q);
    }
  }

  lemma SkipBefore(x: string, y: string, pre: string, z: string, k: nat)
    requires Heads(y, pre, z) && k <= |x|
    ensures var s, q := x + y, SkipWs(x, k);
            SkipWs(s, k) == q && |x| < |s| && s[|x|] == '#' && (q < |x| ==> s[q] == x[q])
  {
    SkipLocal(x, y, k);
    HeadsHash(y, pre, z);
    assert (x + y)[|x|] == y[0] && !Ws('#');
  }

  /** A bracket that opens a line: where it closes, and what follows. */
  lemma OpenBefore(x: string, y: string, pre: string, z: string, q: nat)
    requires Ended(x) && Heads(y, pre, z) && q < |x| && x[q] == '['
    ensures var s := x + y; var b, c := IndexFrom(s, "]", q + 1), IndexFrom(x, "]", q + 1);
            && (']' in x[q..] <==> c >= 0)
            && (c >= 0 ==> b == c && c + 1 < |x| && c + 1 <= |s| && RestBlank(s, c + 1) == RestBlank(x, c + 1))
            && (c < 0 ==> b > q + 1 && b + 1 <= |s| && RestBlank(s, b + 1))
  {
    hide *;
    FirstBracket(x, y, pre, z, q);
    RestOf(x, q);
    PreLong(pre, y, z);
    var c := IndexFrom(x, "]", q + 1);
    if c >= 0 {
      BracketFound(x, q + 1);
      NotLast(x, c);
      BlankBefore(x, y, c + 1);
    } else {
      BlankAfter(x, y, pre, z);
    }
  }

  lemma RestOf(x: string, q: nat)
    requires q < |x| && x[q] == '['
    ensures ']' in x[q..] <==> ']' in x[q + 1..]
  {
    assert x[q..] == ['['] + x[q + 1..];
  }

  lemma PreLong(pre: string, y: string, z: string)
    requires Heads(y, pre, z)
    ensures |pre| > 0 && |y| > |pre| + 1
  {}

  lemma NotLast(x: string, c: nat)
    requires Ended(x) && c < |x| && x[c] == ']'
    ensures c + 1 < |x|
  {}

  lemma BlankAfter(x: string, y: string, pre: string, z: string)
    requires Heads(y, pre, z)
    ensures RestBlank(x + y, |x| + |pre| + 1)
  {
    assert (x + y)[|x| + |pre| + 1] == z[0];
  }

  /** Where the table ends in front of such a text. */
  lemma {:induction false} TableBefore(x: string, y: string, pre: string, z: string, p: nat)
    requires Ended(x) && Heads(y, pre, z) && p <= |x|
    ensures var n := FindHeader(x + y, p);
            && (n <= |x| ==> n < |x| && ((LineStart(x, n) && HeaderAt(x, n)) || Unclosed(x, n)))
            && (forall k | p <= k < n && k <= |x| :: !(LineStart(x, k) && HeaderAt(x, k)) && !Unclosed(x, k))
    decreases |x| - p
  {
    hide HeaderAt, Unclosed;
    HeaderBefore(x, y, pre, z, p);
    if p < |x| {
      TableBefore(x, y, pre, z, p + 1);
    } else {
      NothingAtEnd(x);
      NothingOpen(x);
    }
  }

  lemma NothingOpen(x: string)
    ensures !Unclosed(x, |x|)
  {}

  /** Such a line stands before every flag of the text. */
  ghost predicate Hides(rest: string) {
    exists c: nat :: Unclosed(rest, c) && forall j: nat :: !AnyHooks(rest[..c], j)
  }

  /** A header or an open bracket is a wall for what comes before it. */
  lemma BracketIsWall(x: string, n: nat, d: nat)
    requires n <= d <= |x| && ((LineStart(x, n) && HeaderAt(x, n)) || Unclosed(x, n))
    ensures Ended(x[..n]) && Wall(x[n..d]) && x[..d] == x[..n] + x[n..d]
  {
    var y, q := x[n..d], SkipWs(x, n);
    Skipped(x, n);
    Skipped(y, 0);
    assert x[q] == '[';
    hide SkipWs, HeaderAt;
    if q < d {
      assert y[q - n] == '[';
      forall k | 0 <= k < q - n ensures Ws(y[k]) {
        assert y[k] == x[n + k];
      }
      SkipsTo(y, 0, q - n);
    } else {
      forall k | 0 <= k < |y| ensures Ws(y[k]) {
        assert y[k] == x[n + k];
      }
    }
  }

  lemma NoFlagFound(s: string)
    ensures FindHooks(s, 0).None? <==> forall j: nat :: !AnyHooks(s, j)
  {
    HooksFound(s, 0);
    hide AnyHooks;
    if FindHooks(s, 0).Some? {
      FirstIsOne(s, FindHooks(s, 0).value);
    }
  }

  lemma FirstIsOne(s: string, b: bool)
    requires FirstFrom(s, 0, b)
    ensures exists j: nat :: AnyHooks(s, j)
  {
    hide MatchesHooks;
    var j: nat :| MatchesHooks(s, j, b);
    assert AnyHooks(s, j);
  }

  /** The flag is still read in front of such a text, unless an open bracket hides it. */
  lemma TableFlagBefore(x: string, y: string, pre: string, z: string)
    requires Ended(x) && Heads(y, pre, z) && TableFlag(x) == Some(true)
    ensures TableFlag(x + y) == Some(true) <==> !Hides(x)
  {
    hide FindHeader, FindHooks, HeaderAt, Wall, Unclosed, AnyHooks, Ended, Heads;
    var n, m := FindHeader(x + y, 0), FindHeader(x, 0);
    TableBefore(x, y, pre, z, 0);
    HeaderFirst(x);
    UnclosedInside(x);
    if n > |x| {
      assert m == |x| && x[..m] == x && (x + y)[..n] == x + y[..n - |x|];
      CommentIsWall(y, pre, z, n - |x|);
      FindBefore(x, y[..n - |x|], 0);
    } else {
      assert (x + y)[..n] == x[..n];
      BracketIsWall(x, n, m);
      FindBefore(x[..n], x[n..m], 0);
      NoFlagFound(x[..n]);
      if Hides(x) {
        var c: nat :| Unclosed(x, c) && forall j: nat :: !AnyHooks(x[..c], j);
        NoFlagFound(x[..c]);
        BracketIsWall(x, n, c);
        FindBefore(x[..n], x[n..c], 0);
      }
    }
  }

  lemma {:induction false} HeaderFrom(x: string, p: nat)
    requires p <= |x|
    ensures var m := FindHeader(x, p);
            && (m < |x| ==> LineStart(x, m) && HeaderAt(x, m))
            && forall k | p <= k < m :: !(LineStart(x, k) && HeaderAt(x, k))
    decreases |x| - p
  {
    hide HeaderAt;
    if p < |x| {
      HeaderFrom(x, p + 1);
    }
  }

  lemma HeaderFirst(x: string)
    ensures var m := FindHeader(x, 0);
            && (m < |x| ==> LineStart(x, m) && HeaderAt(x, m))
            && forall k | 0 <= k < m :: !(LineStart(x, k) && HeaderAt(x, k))
  {
    HeaderFrom(x, 0);
  }

  lemma UnclosedInside(x: string)
    ensures forall c: nat | Unclosed(x, c) :: c <= |x|
  {}

  lemma CommentIsWall(y: string, pre: string, z: string, n: nat)
    requires Heads(y, pre, z) && 0 < n <= |y|
    ensures Wall(y[..n])
  {
    assert y[..n][0] == y[0] == '#' && !Ws('#');
  }

  // ---- the whole text ---------------------------------------------------

  /** In the first [features] table a line before the first flag opens a bracket that
      nothing later in the text closes. */
  ghost predicate HidesFlag(body: string) {
    exists p: nat, e: nat :: FirstFeatures(body, p) && EndsAt(body, p, e) && e <= |body| && Hides(body[e..])
  }

  lemma HidesAt(body: string, p: nat)
    requires FindFeatures(body, 0) == Some(p)
    ensures p <= |body| && FeaturesAt(body, p)
    ensures HidesFlag(body) <==> Hides(body[HeaderStop(body, p)..])
  {
    hide FindFeatures, MatchesFeatures, HeaderStop, EndsAt, Hides, FeaturesAt;
    FeaturesFound(body, 0);
    FoundAt(body, 0);
    var e := HeaderStop(body, p);
    EndsExactly(body, p, e);
    assert FirstFeatures(body, p);
    if HidesFlag(body) {
      var p2: nat, e2: nat :| FirstFeatures(body, p2) && EndsAt(body, p2, e2) && e2 <= |body| && Hides(body[e2..]);
      assert p2 == p;
      EndsExactly(body, p, e2);
    }
  }

  lemma StopBeforeText(x: string, y: string, p: nat)
    requires p <= |x| && FeaturesAt(x, p) && TableFlag(x[HeaderStop(x, p)..]).Some? && y != "" && y[0] == '#' && Ended(x)
    ensures FeaturesAt(x + y, p) && HeaderStop(x + y, p) == HeaderStop(x, p)
  {
    hide FeaturesAt, TableFlag, RestBlank, Ws, At;
    FeaturesBefore(x, y, p);
    HeaderInside(x, p);
    var i, at := SkipWs(x, p) + |FEATURES_HEADER|, HeaderStop(x, p);
    TextFollows(x[at..]);
    var k :| 0 <= k < |x[at..]| && !Ws(x[at..][k]);
    assert x[at + k] == x[at..][k];
    SkipLocal(x, y, i);
    StopWithin(x, y, SkipWs(x, i));
  }

  lemma {:induction false} StopWithin(x: string, y: string, k: nat)
    requires k < |x|
    ensures StopBefore(x + y, k) == StopBefore(x, k)
  {
    assert (x + y)[k] == x[k];
    if k > 0 && !LineStop(x, k) {
      StopWithin(x, y, k - 1);
    }
  }

  lemma StateBefore(x: string, y: string, pre: string, z: string)
    requires Ended(x) && Heads(y, pre, z) && FeatureState(x) == Enabled
    ensures FeatureState(x + y) == Enabled <==> !HidesFlag(x)
  {
    hide FindFeatures, TableFlag, FeaturesAt, HeaderStop, Hides, HidesFlag, Heads, Ended;
    var p := FindFeatures(x, 0).value;
    FoundAt(x, 0);
    HeadsHash(y, pre, z);
    FeaturesFoundBefore(x, y, 0);
    HidesAt(x, p);
    var at := HeaderStop(x, p);
    StopBeforeText(x, y, p);
    EndedTail(x, at);
    assert (x + y)[at..] == x[at..] + y;
    TableFlagBefore(x[at..], y, pre, z);
  }

  lemma HeadsHash(y: string, pre: string, z: string)
    requires Heads(y, pre, z)
    ensures y != "" && y[0] == '#'
  {}

  lemma EndedTail(x: string, at: nat)
    requires Ended(x) && at <= |x|
    ensures Ended(x[at..])
  {}

  // ---- padding and inserting hide nothing -------------------------------

  lemma UnclosedAppended(s: string, c: nat)
    ensures Unclosed(s + "\n", c) <==> Unclosed(s, c)
    ensures Unclosed(s, c) ==> c < |s|
  {
    var t := s + "\n";
    if c <= |s| {
      SkipAppended(s, c);
      var q := SkipWs(s, c);
      hide SkipWs;
      if q < |s| {
        assert t[q..] == s[q..] + "\n" && t[q] == s[q];
      }
    }
  }

  lemma HidesAppended(s: string)
    ensures Hides(s + "\n") <==> Hides(s)
  {
    var t := s + "\n";
    hide AnyHooks, Unclosed;
    forall c: nat ensures (Unclosed(t, c) <==> Unclosed(s, c)) && (Unclosed(s, c) ==> c < |s| && t[..c] == s[..c]) {
      UnclosedAppended(s, c);
    }
  }

  lemma HidesFlagAppended(s: string)
    requires FeatureState(s) == Enabled
    ensures HidesFlag(s + "\n") <==> HidesFlag(s)
  {
    var p := FindFeatures(s, 0).value;
    FoundAt(s, 0);
    FindFeaturesAppended(s, 0);
    HeaderStopAppended(s, p);
    HidesAt(s, p);
    HidesAt(s + "\n", p);
    var at := HeaderStop(s, p);
    HidesAppended(s[at..]);
    assert (s + "\n")[at..] == s[at..] + "\n";
  }

  lemma HidesFlagPadded(b: string)
    requires FeatureState(b) == Enabled
    ensures HidesFlag(Pad(b)) <==> HidesFlag(b)
  {
    PadAgain(b);
    FeatureStateAppended(b);
    HidesFlagAppended(b);
    hide Pad, HidesFlag, FeatureState;
    if Pad(b) == b + "\n" + "\n" {
      HidesFlagAppended(b + "\n");
    }
  }

  lemma InsertedHooks(y: string)
    requires Closes(y)
    ensures MatchesHooks(INSERTED + y, 0, true)
  {
    var s := INSERTED + y;
    InsertedChars(y);
    assert SkipWs(s, 0) == 1 && SkipWs(s, 6) == 7 && SkipWs(s, 8) == 9;
    assert LineStop(s, 13);
    assert HooksAt(s, 0) == Some(true);
    HooksExactly(s, 0, true);
  }

  /** The inserted flag stands before everything else in its table. */
  lemma InsertedShows(y: string)
    requires Closes(y)
    ensures !Hides(INSERTED + y)
  {
    var s := INSERTED + y;
    InsertedChars(y);
    forall c: nat | Unclosed(s, c) ensures exists j: nat :: AnyHooks(s[..c], j) {
      BracketLater(s, c);
      var z := y[..c - 13];
      assert s[..c] == INSERTED + z;
      InsertedHooks(z);
      assert AnyHooks(s[..c], 0);
    }
  }

  lemma BracketLater(s: string, c: nat)
    requires Unclosed(s, c) && |s| >= 13 && s[0] == '\n' && !Ws(s[1]) && forall k | 1 <= k < 13 :: s[k] != '\n' && s[k] != '['
    ensures c > 13
  {
    hide SkipWs;
    if c <= 1 {
      TextAtOne(s, c);
    }
  }

  lemma TextAtOne(s: string, c: nat)
    requires |s| >= 2 && c <= 1 && Ws(s[0]) && !Ws(s[1])
    ensures SkipWs(s, c) == 1
  {}

  lemma InsertionShows(body: string)
    requires FeatureState(body).Missing?
    ensures FeatureState(InsertFlag(body, FeatureState(body).at)) == Enabled
    ensures !HidesFlag(InsertFlag(body, FeatureState(body).at))
  {
    hide FindFeatures, TableFlag, FeaturesAt, InsertFlag, HidesFlag, Hides, SkipWs, StopBefore, FeatureState;
    InsertedOnce(body);
    var p := MissingAt(body);
    var at := FeatureState(body).at;
    InsertedText(body, at);
    var x, y := body[..at], body[at..];
    assert body == x + y;
    InsertedFound(x, y, p);
    HidesAt(x + (INSERTED + y), p);
    assert (x + (INSERTED + y))[|x|..] == INSERTED + y;
    InsertedShows(y);
  }

  lemma MissingAt(body: string) returns (p: nat)
    requires FeatureState(body).Missing?
    ensures FindFeatures(body, 0) == Some(p) && p < FeatureState(body).at && Closes(body[FeatureState(body).at..])
    ensures var i := SkipWs(body, p) + |FEATURES_HEADER|; i <= FeatureState(body).at <= SkipWs(body, i)
  {
    p := FindFeatures(body, 0).value;
    FoundAt(body, 0);
    HeaderEndsInside(body, p);
  }

  // ---- the block --------------------------------------------------------

  lemma StartPlain()
    ensures BLOCK_START != "" && BLOCK_START[0] == '#' && ']' !in BLOCK_START && '\n' !in BLOCK_START
  {
    var a, b, c := "# punk-managed-start ", "(punk connect codex; ", "edit outside this block only)";
    assert ']' !in a && ']' !in b && ']' !in c;
    StartIsOneLine();
  }

  function EntryLines(o: Opts): seq<string> {
    [UrlLine(o)] + EnvLines(o) + HeaderLines(o) + KnobLines() + [BLOCK_END]
  }

  lemma BlockIs(o: Opts)
    ensures Block(o, false) == Terminated([BLOCK_START, PUNK_TABLE] + EntryLines(o))
    ensures Block(o, true) == Terminated([BLOCK_START, "[features]"] + (["hooks = true", ""] + ([PUNK_TABLE] + EntryLines(o))))
  {
    hide UrlLine, EnvLines, HeaderLines, KnobLines, Terminated;
    Grouped(BLOCK_START, PUNK_TABLE, UrlLine(o), EnvLines(o), HeaderLines(o), KnobLines(), BLOCK_END);
  }

  lemma Grouped(a: string, t: string, u: string, e: seq<string>, h: seq<string>, k: seq<string>, z: string)
    ensures [a] + ([] + [t, u] + e + h + k) + [z] == [a, t] + ([u] + e + h + k + [z])
    ensures [a] + (FeatureLines() + [t, u] + e + h + k) + [z]
            == [a, "[features]"] + (["hooks = true", ""] + ([t] + ([u] + e + h + k + [z])))
  {}

  lemma BlockHeads(o: Opts) returns (pre: string, z: string)
    ensures Heads(Block(o, false), pre, z)
  {
    hide Block, Terminated, EntryLines;
    BlockIs(o);
    StartPlain();
    var rest := Terminated(EntryLines(o));
    TwoLines(BLOCK_START, PUNK_TABLE, EntryLines(o));
    pre, z := BLOCK_START + "\n" + "[mcp_servers.punk", "\n" + rest;
    HeadsBy(BLOCK_START, rest, pre, z);
  }

  lemma HeadsBy(a: string, rest: string, pre: string, z: string)
    requires a != "" && a[0] == '#' && ']' !in a && pre == a + "\n" + "[mcp_servers.punk" && z == "\n" + rest
    ensures Heads(a + "\n" + (PUNK_TABLE + "\n" + rest), pre, z)
  {
    assert PUNK_TABLE == "[mcp_servers.punk" + "]";
    assert a + "\n" + (PUNK_TABLE + "\n" + rest) == pre + ("]" + z);
  }

  lemma TwoLines(a: string, b: string, rest: seq<string>)
    ensures Terminated([a, b] + rest) == a + "\n" + (b + "\n" + Terminated(rest))
  {
    assert ([a, b] + rest)[1..] == [b] + rest && ([b] + rest)[1..] == rest;
  }

  lemma BlockFlag(o: Opts) returns (y: string)
    ensures Closes(y) && Block(o, true) == BLOCK_START + "\n[features]" + (INSERTED + y)
  {
    hide Block, Terminated, EntryLines;
    BlockIs(o);
    var rest := [PUNK_TABLE] + EntryLines(o);
    TwoLines(BLOCK_START, "[features]", ["hooks = true", ""] + rest);
    TwoLines("hooks = true", "", rest);
    y := "\n\n" + Terminated(rest);
    FlagBy(BLOCK_START, Terminated(rest), y);
  }

  lemma FlagBy(a: string, rest: string, y: string)
    requires y == "\n\n" + rest
    ensures a + "\n" + ("[features]" + "\n" + ("hooks = true" + "\n" + ("" + "\n" + rest))) == a + "\n[features]" + (INSERTED + y)
  {}

  /** A block that carries the flag turns hooks on. */
  lemma BlockShows(x: string, o: Opts)
    requires Ended(x) && FeatureState(x).Absent?
    ensures FeatureState(x + Block(o, true)) == Enabled
  {
    hide FeatureState, Block, Ended;
    var y := BlockFlag(o);
    StartPlain();
    var h := BLOCK_START + "\n[features]";
    var p := |x| + |BLOCK_START| + 1;
    FlagHeaderFirst(x, h, y, p);
    assert x + Block(o, true) == (x + h) + (INSERTED + y);
    SkipEnd(x + h, y);
    InsertedBody(x + h, y, p);
  }

  lemma SkipEnd(x: string, y: string)
    ensures |x| <= SkipWs(x + y, |x|)
  {}

  lemma FlagHeaderFirst(x: string, h: string, y: string, p: nat)
    requires Ended(x) && FeatureState(x).Absent? && Closes(y) && h == BLOCK_START + "\n[features]" && p == |x| + |BLOCK_START| + 1
    ensures FindFeatures(x + h + y, 0) == Some(p) && SkipWs(x + h + y, p) + |FEATURES_HEADER| == |x + h|
  {
    hide FindFeatures, FeaturesAt, FeatureState;
    var s := x + h + y;
    StartPlain();
    AbsentFinds(x);
    assert s == x + (h + y) && (h + y)[0] == '#';
    FeaturesFoundBefore(x, h + y, 0);
    assert h == BLOCK_START + "\n" + FEATURES_HEADER;
    var g := x + BLOCK_START + "\n";
    FlagHeaderAt(g, FEATURES_HEADER, y);
    assert s == g + FEATURES_HEADER + y;
    assert forall k | |x| <= k < p - 1 :: s[k] == BLOCK_START[k - |x|];
    FoundFirst(s, 0, p);
  }

  lemma AbsentFinds(x: string)
    ensures FeatureState(x).Absent? <==> FindFeatures(x, 0).None?
  {
    hide FindFeatures, TableFlag, HeaderStop;
  }

  lemma FlagHeaderAt(x: string, m: string, y: string)
    requires Closes(y) && x != "" && x[|x| - 1] == '\n' && m == FEATURES_HEADER && m != "" && m[0] == '['
    ensures var s := x + m + y; LineStart(s, |x|) && FeaturesAt(s, |x|) && SkipWs(s, |x|) == |x|
  {
    hide SkipWs, RestBlank;
    Placed(x, m, y);
    var s := x + m + y;
    SkipsTo(s, |x|, |x|);
    assert LineStop(s, |x| + |m|) by {
      assert y != "" ==> s[|x + m|] == s[|x + m|..][0];
    }
    BlankAtStop(s, |x| + |m|);
  }

  lemma BlankAtStop(s: string, i: nat)
    requires i <= |s| && LineStop(s, i)
    ensures RestBlank(s, i)
  {}

  lemma Placed(x: string, m: string, y: string)
    requires m != ""
    ensures At(x + m + y, m, |x|) && (x + m + y)[|x|] == m[0]
    ensures (x + m + y)[|x + m|..] == y && (x != "" ==> (x + m + y)[|x| - 1] == x[|x| - 1])
  {}

  lemma {:induction false} FoundFirst(s: string, i: nat, p: nat)
    requires i <= p <= |s| && LineStart(s, p) && FeaturesAt(s, p)
    requires forall k | i <= k < p :: !(LineStart(s, k) && FeaturesAt(s, k))
    ensures FindFeatures(s, i) == Some(p)
    decreases p - i
  {
    hide FeaturesAt;
    if i < p {
      FoundFirst(s, i + 1, p);
    }
  }

  // ---- the run ----------------------------------------------------------

  lemma PaddedEnds(b: string)
    ensures Ended(Pad(b))
  {
    PadAgain(b);
  }

  lemma NewTextState(body: string, features: bool, o: Opts)
    requires if features then FeatureState(body).Absent? else FeatureState(body) == Enabled
    ensures FeatureState(Pad(body) + Block(o, features)) == Enabled <==> features || !HidesFlag(body)
  {
    hide FeatureState, Pad, Block, HidesFlag;
    FeaturesPadded(body);
    PaddedEnds(body);
    if features {
      BlockShows(Pad(body), o);
    } else {
      var pre, z := BlockHeads(o);
      StateBefore(Pad(body), Block(o, false), pre, z);
      HidesFlagPadded(body);
    }
  }

  /** After a run that asks for hooks, the file says that hooks are on. It fails in
      exactly one case: the file said so already, and before the flag, in its [features]
      table, a line opens a bracket that nothing later closes; then the brackets of
      punk's own block close it, and end that table above the flag. */
  lemma HooksAreOn(existing: string, o: Opts, force: bool)
    requires Connect(existing, o, true, force).Written?
    ensures StripBlocks(ToLF(existing)).Some? && EditedBody(existing, true, force).Edited?
    ensures var kept := KeptText(existing);
            Says(NewText(existing, o, true, force), true) <==> !(Says(kept, true) && HidesFlag(kept))
  {
    hide FeatureState, StripBlocks, ToLF, Pad, Block, HidesFlag, Says, HasPunkTable, RemoveTable, InsertFlag;
    var kept, e := KeptText(existing), EditedBody(existing, true, force);
    FeatureStateExactly(kept, true);
    FeatureStateExactly(NewText(existing, o, true, force), true);
    if FeatureState(kept).Missing? {
      InsertionShows(kept);
    }
    NewTextState(e.body, e.features, o);
  }

  /** A run is refused for a start marker that no end marker follows, for a punk table
      that is not punk's own unless forced, and for hooks exactly when they are asked
      for and the kept text says that they are off. */
  lemma RefusedExactly(existing: string, o: Opts, hooks: bool, force: bool)
    ensures Connect(existing, o, hooks, force) == Refused(UnmatchedMarker) <==> StripBlocks(ToLF(existing)).None?
    ensures Connect(existing, o, hooks, force) == Refused(ForeignTable) <==>
            StripBlocks(ToLF(existing)).Some? && !force
            && exists ln :: ln in Split(StripBlocks(ToLF(existing)).value) && IsPunkHeader(TrimSpace(ln))
    ensures Connect(existing, o, hooks, force) == Refused(HooksDisabled) <==>
            && StripBlocks(ToLF(existing)).Some? && hooks && Says(KeptText(existing), false)
            && (force || forall ln | ln in Split(StripBlocks(ToLF(existing)).value) :: !IsPunkHeader(TrimSpace(ln)))
  {
    hide FeatureState, StripBlocks, ToLF, Pad, Block, Says, RemoveTable, InsertFlag, IsPunkHeader, TrimSpace, Split;
    if StripBlocks(ToLF(existing)).Some? {
      FeatureStateExactly(KeptText(existing), false);
    }
  }

  // ---- the case is real -------------------------------------------------

  lemma {:induction false} OneSegment(s: string, i: nat, cur: string)
    requires i <= |s| && '.' !in s
    ensures KeySegments(s, i, cur).Some? ==> |KeySegments(s, i, cur).value| == 1
    decreases |s| - i
  {
    hide ParseString;
    if i < |s| {
      if !IsQuote(s[i]) {
        OneSegment(s, i + 1, cur + [s[i]]);
      } else if ParseString(s[i..]).Good? {
        OneSegment(s, |s| - |ParseString(s[i..]).rest|, cur + ParseString(s[i..]).val);
      }
    }
  }

  lemma PunkNeedsDot(line: string)
    requires '.' !in line
    ensures !IsPunkHeader(TrimSpace(line))
  {
    hide TrimSpace, ParseHeader;
    TrimNoDot(line);
    TrimNoDot(TrimSpace(line));
    OneNameHeader(TrimSpace(line));
  }

  lemma TrimNoDot(x: string)
    requires '.' !in x
    ensures '.' !in TrimSpace(x)
  {
    var a, b := TomlPairs.TrimParts(x);
    var m := TrimSpace(x);
    hide TrimSpace;
    assert forall c | c in m :: c in a + m + b;
  }

  lemma OneNameHeader(line: string)
    requires '.' !in TrimSpace(line)
    ensures ParseHeader(line).Header? ==> |ParseHeader(line).path| == 1
  {
    hide TrimSpace, HeaderClose, TrailingOk, TrimBlanks, KeySegments;
    var t := TrimSpace(line);
    if Starts(t, '[') {
      var s := if Starts(t[1..], '[') then t[2..] else t[1..];
      var n := HeaderClose(s, 0);
      if n >= 0 {
        assert '.' !in s[..n];
        OneSegment(s[..n], 0, "");
      }
    }
  }

  const NOTE := "\nnote = '''\n[\n'''\nhooks = true\n"

  /** A [features] table with a multi-line string in front of the flag. */
  const NOTED := "[features]" + NOTE

  lemma NoteChars()
    ensures |NOTE| == 31 && NOTE[0] == '\n' && NOTE[1] == 'n' && NOTE[11] == '\n' && NOTE[12] == '[' && NOTE[16] == '\'' && NOTE[17] == '\n'
    ensures At(NOTE, "hooks", 18) && NOTE[23] == ' ' && NOTE[24] == '=' && NOTE[25] == ' ' && At(NOTE, "true", 26) && NOTE[30] == '\n'
    ensures forall c | c in NOTE :: c != ']' && c != '.' && c != '#' && c != '\r'
    ensures forall k | 0 <= k < 31 && k != 18 :: NOTE[k] != 'h'
  {
    assert NOTE[18..23] == "hooks" && NOTE[26..30] == "true";
    hide At;
    AtIs(NOTE, "hooks", 18);
    AtIs(NOTE, "true", 26);
  }

  lemma AtIs(s: string, m: string, k: nat)
    requires k + |m| <= |s| && s[k..k + |m|] == m
    ensures At(s, m, k)
  {}

  lemma NotedSays()
    ensures Says(NOTED, true) && HidesFlag(NOTED)
  {
    NoteChars();
    hide NOTE;
    assert |NOTED| == 41 && NOTED[10..] == NOTE && NOTED[10] == '\n' && NOTED[11] == 'n' && NOTED[..10] == "[features]";
    assert NOTED[0..10] == "[features]";
    assert Spaces(NOTED, 0, 0) && At(NOTED, "[features]", 0) && Spaces(NOTED, 10, 10) && LineStop(NOTED, 10);
    assert MatchesFeatures(NOTED, 0);
    assert FirstFeatures(NOTED, 0);
    assert forall j: nat | j > 10 :: Spaces(NOTED, 10, j) ==> j == 11;
    assert EndsAt(NOTED, 0, 10);
    NoteFlag();
    assert Hides(NOTED[10..]);
    assert NOTE[..31] == NOTE;
    assert TableEnds(NOTED[10..], 31) && FirstHooks(NOTED[10..][..31], true);
  }

  lemma NoteFlag()
    ensures TableEnds(NOTE, 31) && FirstHooks(NOTE, true) && Hides(NOTE)
  {
    NoteChars();
    hide NOTE;
    assert Spaces(NOTE, 18, 18) && Spaces(NOTE, 23, 24) && Spaces(NOTE, 25, 26) && Spaces(NOTE, 30, 30) && LineStop(NOTE, 30);
    assert NOTE[24..25] == "=";
    assert Assigned(NOTE, 18, 24, 26, Word(true));
    assert MatchesHooks(NOTE, 18, true);
    forall k: nat | AnyHooks(NOTE, k) ensures k >= 18 {
      OnlyAt(NOTE, k, 18);
    }
    SkipsTo(NOTE, 12, 12);
    assert forall c | c in NOTE[12..] :: c in NOTE;
    assert Unclosed(NOTE, 12);
    forall k: nat ensures !MatchesHeader(NOTE, k) {
      NoHeaderHere(NOTE, k);
    }
    forall j: nat ensures !AnyHooks(NOTE[..12], j) {
      if AnyHooks(NOTE[..12], j) {
        OnlyAt(NOTE[..12], j, 18);
      }
    }
  }

  lemma NoHeaderHere(s: string, k: nat)
    requires forall c | c in s :: c != ']'
    ensures !MatchesHeader(s, k)
  {
    hide BlankToStop;
    assert forall b | 0 <= b < |s| :: s[b] in s;
  }

  /** A flag is only found where its key stands, and at a line start before it with
      nothing but white space between. */
  lemma OnlyAt(s: string, p: nat, h: nat)
    requires AnyHooks(s, p) && forall k | 0 <= k < |s| && k != h :: s[k] != 'h'
    ensures h < |s| && Spaces(s, p, h) && LineStart(s, p)
  {
    hide BlankToStop;
    var b := MatchesHooks(s, p, true);
    var q: nat, r: nat, v: nat :| Spaces(s, p, q) && Assigned(s, q, r, v, Word(b));
    AtFirst(s, "hooks", q);
  }

  /** The flag of this valid file is read before the run, and not after it: the block
      that the run appends closes the bracket in the string. */
  lemma FlagCanBeHidden(o: Opts, force: bool)
    ensures KeptNoted(o, force)
  {
    hide NOTED, StripBlocks, ToLF, HasPunkTable, FeatureState, RemoveTable, Connect, Says, HidesFlag, EditBody, Base, Pad, Block;
    NotedSays();
    NotedPlain();
    PlainText(NOTED);
    FeatureStateExactly(NOTED, true);
    NotedKept(o, force);
    HooksAreOn(NOTED, o, force);
  }

  lemma NotedPlain()
    ensures '.' !in NOTED && '#' !in NOTED && '\r' !in NOTED
  {
    NoteChars();
    hide NOTE;
    assert forall c | c in "[features]" :: c != '.' && c != '#' && c != '\r';
  }

  lemma NotedKept(o: Opts, force: bool)
    requires StripBlocks(ToLF(NOTED)) == Some(NOTED) && !HasPunkTable(NOTED) && FeatureState(NOTED) == Enabled
    ensures Connect(NOTED, o, true, force).Written? && EditedBody(NOTED, true, force).Edited? && KeptText(NOTED) == NOTED
  {
    hide NOTED, StripBlocks, ToLF, HasPunkTable, FeatureState, RemoveTable, InsertFlag, Pad, Block, UsesCRLF, ToCRLF;
  }

  ghost predicate KeptNoted(o: Opts, force: bool) {
    && Connect(NOTED, o, true, force).Written?
    && StripBlocks(ToLF(NOTED)).Some? && EditedBody(NOTED, true, force).Edited?
    && Says(KeptText(NOTED), true) && !Says(NewText(NOTED, o, true, force), true)
  }

  lemma PlainText(s: string)
    requires '.' !in s && '#' !in s && '\r' !in s
    ensures StripBlocks(ToLF(s)) == Some(s) && !HasPunkTable(s)
  {
    StartPlain();
    hide IsPunkHeader, TrimSpace;
    NeedsFirst(s, BLOCK_START);
    NeedsFirst(s, CRLF);
    LFUnchanged(s);
    forall ln | ln in Split(s) ensures !IsPunkHeader(TrimSpace(ln)) {
      LineChars(s, ln);
      PunkNeedsDot(ln);
    }
  }

  lemma {:induction false} LineChars(s: string, ln: string)
    requires ln in Split(s)
    ensures forall c | c in ln :: c in s
  {
    if s != "" {
      var rest := Split(s[1..]);
      if ln in rest {
        LineChars(s[1..], ln);
      } else if s[0] != '\n' {
        assert ln == [s[0]] + rest[0];
        LineChars(s[1..], rest[0]);
      }
    }
  }
}
