/** The [features] table of a config.toml body, found by the three multi-line
    regular expressions of connect_codex.go. Their \s class crosses line breaks, so
    each is written out here as a scan over positions. */
module CodexFeatures {
  import opened Text

  /** \s of Go's regexp package. */
  predicate Ws(c: char) {
    c == '\t' || c == '\n' || c == '\U{000C}' || c == '\r' || c == ' '
  }

  /** Where \s* stops. */
  function SkipWs(s: string, i: nat): (r: nat)
    requires i <= |s|
    ensures i <= r <= |s| && (r < |s| ==> !Ws(s[r])) && forall k | i <= k < r :: Ws(s[k])
    decreases |s| - i
  {
    if i < |s| && Ws(s[i]) then SkipWs(s, i + 1) else i
  }

  predicate LineStart(s: string, i: nat)
    requires i <= |s|
  {
    i == 0 || s[i - 1] == '\n'
  }

  predicate LineStop(s: string, i: nat)
    requires i <= |s|
  {
    i == |s| || s[i] == '\n'
  }

  /** \s*$ matches at `i`. */
  predicate RestBlank(s: string, i: nat)
    requires i <= |s|
    decreases |s| - i
  {
    LineStop(s, i) || (Ws(s[i]) && RestBlank(s, i + 1))
  }

  /** The last line end at or before `k`. */
  function StopBefore(s: string, k: nat): (r: nat)
    requires k <= |s|
    ensures r <= k && (LineStop(s, r) || r == 0) && forall j | r < j <= k :: !LineStop(s, j)
  {
    if LineStop(s, k) || k == 0 then k else StopBefore(s, k - 1)
  }

  lemma {:induction false} BlankHasStop(s: string, i: nat)
    requires i <= |s| && RestBlank(s, i)
    ensures exists j :: i <= j <= SkipWs(s, i) && LineStop(s, j)
    decreases |s| - i
  {
    if LineStop(s, i) {
      assert i <= i <= SkipWs(s, i);
    } else {
      BlankHasStop(s, i + 1);
    }
  }

  // ---- the three expressions --------------------------------------------

  const FEATURES_HEADER := "[features]"

  predicate FeaturesAt(s: string, p: nat)
    requires p <= |s|
  {
    var q := SkipWs(s, p);
    At(s, FEATURES_HEADER, q) && RestBlank(s, q + |FEATURES_HEADER|)
  }

  predicate HeaderAt(s: string, p: nat)
    requires p <= |s|
  {
    var q := SkipWs(s, p);
    q < |s| && s[q] == '[' &&
    var b := IndexFrom(s, "]", q + 1);
    b > q + 1 && RestBlank(s, b + 1)
  }

  /** The flag of a "hooks = true|false" assignment at `p`. */
  function HooksAt(s: string, p: nat): Option<bool>
    requires p <= |s|
  {
    var q := SkipWs(s, p);
    if !At(s, "hooks", q) then None else ValueAt(s, q + 5)
  }

  /** The equals sign and the flag after it. */
  function ValueAt(s: string, i: nat): Option<bool>
    requires i <= |s|
  {
    var r := SkipWs(s, i);
    if r == |s| || s[r] != '=' then None else FlagAt(s, SkipWs(s, r + 1))
  }

  function FlagAt(s: string, v: nat): Option<bool>
    requires v <= |s|
  {
    if At(s, "true", v) && RestBlank(s, v + 4) then Some(true)
    else if At(s, "false", v) && RestBlank(s, v + 5) then Some(false)
    else None
  }

  /** The leftmost line start at or after `p` where a [features] header matches. */
  function FindFeatures(s: string, p: nat): Option<nat>
    requires p <= |s|
    decreases |s| - p
  {
    if LineStart(s, p) && FeaturesAt(s, p) then Some(p)
    else if p == |s| then None
    else FindFeatures(s, p + 1)
  }

  function FindHeader(s: string, p: nat): (r: nat)
    requires p <= |s|
    ensures p <= r <= |s|
    decreases |s| - p
  {
    if p == |s| || (LineStart(s, p) && HeaderAt(s, p)) then p else FindHeader(s, p + 1)
  }

  function FindHooks(s: string, p: nat): Option<bool>
    requires p <= |s|
    decreases |s| - p
  {
    if LineStart(s, p) && HooksAt(s, p).Some? then HooksAt(s, p)
    else if p == |s| then None
    else FindHooks(s, p + 1)
  }

  datatype Features = Absent | Enabled | Disabled | Missing(at: nat)

  /** What the body says about the hooks feature; `Missing` carries the end of the
      [features] header, where the flag is to be inserted. */
  function FeatureState(body: string): (r: Features)
    ensures r.Missing? ==> r.at <= |body|
  {
    match FindFeatures(body, 0)
    case None => Absent
    case Some(p) =>
      FoundAt(body, 0);
      var at := HeaderStop(body, p);
      match TableFlag(body[at..])
      case Some(true) => Enabled
      case Some(false) => Disabled
      case None => Missing(at)
  }

  /** Where \s*$ ends after the header: it is greedy, so blank lines below the header
      belong to it. */
  function HeaderStop(body: string, p: nat): (r: nat)
    requires p <= |body| && FeaturesAt(body, p)
    ensures r <= |body|
  {
    StopBefore(body, SkipWs(body, SkipWs(body, p) + |FEATURES_HEADER|))
  }

  /** The hooks flag in the text up to the next table header. */
  function TableFlag(rest: string): Option<bool> {
    FindHooks(rest[..FindHeader(rest, 0)], 0)
  }

  lemma {:induction false} FoundAt(s: string, p: nat)
    requires p <= |s| && FindFeatures(s, p).Some?
    ensures var r := FindFeatures(s, p).value;
            p <= r <= |s| && LineStart(s, r) && FeaturesAt(s, r)
            && forall k | p <= k < r :: !(LineStart(s, k) && FeaturesAt(s, k))
    decreases |s| - p
  {
    if !(LineStart(s, p) && FeaturesAt(s, p)) {
      FoundAt(s, p + 1);
    }
  }

  // ---- a line break appended to the body --------------------------------

  lemma {:induction false} SkipAppended(s: string, i: nat)
    requires i <= |s|
    ensures SkipWs(s + "\n", i) == if SkipWs(s, i) < |s| then SkipWs(s, i) else |s| + 1
    decreases |s| - i
  {
    var t := s + "\n";
    if i < |s| && Ws(s[i]) {
      SkipAppended(s, i + 1);
    } else if i == |s| {
      assert t[i] == '\n' && SkipWs(t, i + 1) == i + 1;
    }
  }

  lemma {:induction false} BlankAppended(s: string, i: nat)
    requires i <= |s|
    ensures RestBlank(s + "\n", i) == RestBlank(s, i)
    decreases |s| - i
  {
    if i < |s| {
      BlankAppended(s, i + 1);
    }
  }

  lemma AtAppended(s: string, m: string, k: nat)
    requires '\n' !in m && m != "" && k <= |s| + 1
    ensures At(s + "\n", m, k) <==> At(s, m, k)
  {
    var t := s + "\n";
    if k + |m| == |t| {
      assert t[k..k + |m|] == s[k..] + "\n" && (s[k..] + "\n")[|m| - 1] == '\n';
    } else if k + |m| < |t| {
      assert t[k..k + |m|] == s[k..k + |m|];
    }
  }

  lemma FeaturesAppended(s: string, p: nat)
    requires p <= |s|
    ensures FeaturesAt(s + "\n", p) == FeaturesAt(s, p)
  {
    var q := SkipWs(s, p);
    SkipAppended(s, p);
    AtAppended(s, FEATURES_HEADER, SkipWs(s + "\n", p));
    if At(s, FEATURES_HEADER, q) {
      BlankAppended(s, q + |FEATURES_HEADER|);
    }
  }

  lemma {:induction false} BracketAppended(s: string, i: nat)
    requires i <= |s|
    ensures IndexFrom(s + "\n", "]", i) == IndexFrom(s, "]", i)
    decreases |s| - i
  {
    AtAppended(s, "]", i);
    if i < |s| {
      BracketAppended(s, i + 1);
    }
  }

  lemma HeaderAppended(s: string, p: nat)
    requires p <= |s|
    ensures HeaderAt(s + "\n", p) == HeaderAt(s, p)
  {
    hide IndexFrom, RestBlank, SkipWs, Ws;
    var t, q := s + "\n", SkipWs(s, p);
    SkipAppended(s, p);
    if q < |s| {
      assert t[q] == s[q];
      BracketAppended(s, q + 1);
      var b := IndexFrom(s, "]", q + 1);
      if b > q + 1 {
        BlankAppended(s, b + 1);
      }
    }
  }

  lemma FlagAppended(s: string, v: nat)
    requires v <= |s|
    ensures FlagAt(s + "\n", v) == FlagAt(s, v)
  {
    AtAppended(s, "true", v);
    AtAppended(s, "false", v);
    if At(s, "true", v) {
      BlankAppended(s, v + 4);
    }
    if At(s, "false", v) {
      BlankAppended(s, v + 5);
    }
  }

  lemma NotAtEnd(s: string, m: string)
    requires m != ""
    ensures !At(s, m, |s|)
  {}

  lemma HooksAppended(s: string, p: nat)
    requires p <= |s|
    ensures HooksAt(s + "\n", p) == HooksAt(s, p)
  {
    var q := SkipWs(s, p);
    SkipAppended(s, p);
    if q < |s| {
      HooksHere(s, q);
    } else {
      NotAtEnd(s, "hooks");
      NotAtEnd(s + "\n", "hooks");
    }
    hide ValueAt, SkipWs, At;
  }

  lemma HooksHere(s: string, q: nat)
    requires q < |s|
    ensures At(s + "\n", "hooks", q) == At(s, "hooks", q)
    ensures At(s, "hooks", q) ==> q + 5 <= |s| && ValueAt(s + "\n", q + 5) == ValueAt(s, q + 5)
  {
    AtAppended(s, "hooks", q);
    if At(s, "hooks", q) {
      ValueAppended(s, q + 5);
    }
    hide ValueAt;
  }

  /** What follows the key, read with and without the appended line break. */
  lemma ValueAppended(s: string, i: nat)
    requires i <= |s|
    ensures ValueAt(s + "\n", i) == ValueAt(s, i)
  {
    hide *;
    var t, r := s + "\n", SkipWs(s, i);
    SkipAppended(s, i);
    if r < |s| {
      assert t[r] == s[r];
      AfterEquals(s, r + 1);
    }
    SameValue(s, t, i, r);
  }

  lemma SameValue(s: string, t: string, i: nat, r: nat)
    requires i <= |s| <= |t| && SkipWs(s, i) == r && SkipWs(t, i) == if r < |s| then r else |t|
    requires r < |s| ==> t[r] == s[r] && FlagAt(t, SkipWs(t, r + 1)) == FlagAt(s, SkipWs(s, r + 1))
    ensures ValueAt(t, i) == ValueAt(s, i)
  {
    hide SkipWs, FlagAt;
  }

  lemma AfterEquals(s: string, i: nat)
    requires i <= |s|
    ensures FlagAt(s + "\n", SkipWs(s + "\n", i)) == FlagAt(s, SkipWs(s, i))
  {
    var v := SkipWs(s, i);
    SkipAppended(s, i);
    NoFlagAtEnd(s);
    NoFlagAtEnd(s + "\n");
    if v < |s| {
      FlagAppended(s, v);
    }
    hide *;
  }

  lemma NoFlagAtEnd(s: string)
    ensures FlagAt(s, |s|) == None
  {}

  lemma NothingAtEnd(t: string)
    ensures !FeaturesAt(t, |t|) && !HeaderAt(t, |t|) && HooksAt(t, |t|) == None
  {}

  lemma {:induction false} FindFeaturesAppended(s: string, p: nat)
    requires p <= |s|
    ensures FindFeatures(s + "\n", p) == FindFeatures(s, p)
    decreases |s| - p
  {
    hide FeaturesAt;
    FeaturesAppended(s, p);
    if p < |s| {
      FindFeaturesAppended(s, p + 1);
    } else {
      NothingAtEnd(s + "\n");
    }
  }

  lemma {:induction false} FindHeaderAppended(s: string, p: nat)
    requires p <= |s|
    ensures FindHeader(s + "\n", p) == if FindHeader(s, p) < |s| then FindHeader(s, p) else |s| + 1
    decreases |s| - p
  {
    hide HeaderAt;
    HeaderAppended(s, p);
    if p < |s| {
      FindHeaderAppended(s, p + 1);
    } else {
      NothingAtEnd(s);
    }
  }

  lemma {:induction false} FindHooksAppended(s: string, p: nat)
    requires p <= |s|
    ensures FindHooks(s + "\n", p) == FindHooks(s, p)
    decreases |s| - p
  {
    hide HooksAt;
    HooksAppended(s, p);
    if p < |s| {
      FindHooksAppended(s, p + 1);
    } else {
      NothingAtEnd(s + "\n");
    }
  }

  lemma TableFlagAppended(rest: string)
    ensures TableFlag(rest + "\n") == TableFlag(rest)
  {
    var n := FindHeader(rest, 0);
    FindHeaderAppended(rest, 0);
    if n < |rest| {
      assert (rest + "\n")[..n] == rest[..n];
    } else {
      assert (rest + "\n")[..|rest| + 1] == rest + "\n" && rest[..n] == rest;
      FindHooksAppended(rest, 0);
    }
  }

  /** A flag can only be read where something that is not white space stands. */
  lemma {:induction false} FlagNeedsText(s: string, p: nat)
    requires p <= |s| && FindHooks(s, p).Some?
    ensures exists k :: p <= k < |s| && !Ws(s[k])
    decreases |s| - p
  {
    if LineStart(s, p) && HooksAt(s, p).Some? {
      assert !Ws(s[SkipWs(s, p)]);
    } else {
      FlagNeedsText(s, p + 1);
    }
  }

  lemma HeaderInside(s: string, p: nat)
    requires p <= |s| && FeaturesAt(s, p)
    ensures var i := SkipWs(s, p) + |FEATURES_HEADER|;
            SkipWs(s, p) < |s| && i <= |s| && HeaderStop(s, p) <= SkipWs(s, i) && i <= HeaderStop(s, p)
  {
    BlankHasStop(s, SkipWs(s, p) + |FEATURES_HEADER|);
  }

  lemma HeaderStopAppended(s: string, p: nat)
    requires p <= |s| && FeaturesAt(s, p) && TableFlag(s[HeaderStop(s, p)..]).Some?
    ensures FeaturesAt(s + "\n", p) && HeaderStop(s + "\n", p) == HeaderStop(s, p)
  {
    hide FeaturesAt, TableFlag, RestBlank, Ws, At;
    FeaturesAppended(s, p);
    HeaderInside(s, p);
    SkipAppended(s, p);
    var i, at := SkipWs(s, p) + |FEATURES_HEADER|, HeaderStop(s, p);
    TextFollows(s[at..]);
    var k :| 0 <= k < |s[at..]| && !Ws(s[at..][k]);
    assert s[at + k] == s[at..][k];
    SkipAppended(s, i);
    StopAppended(s, SkipWs(s, i));
  }

  lemma TextFollows(rest: string)
    requires TableFlag(rest).Some?
    ensures exists k :: 0 <= k < |rest| && !Ws(rest[k])
  {
    var table := rest[..FindHeader(rest, 0)];
    FlagNeedsText(table, 0);
    var k :| 0 <= k < |table| && !Ws(table[k]);
    assert rest[k] == table[k];
  }

  lemma {:induction false} StopAppended(s: string, k: nat)
    requires k < |s|
    ensures StopBefore(s + "\n", k) == StopBefore(s, k)
  {
    if k > 0 && !LineStop(s, k) {
      StopAppended(s, k - 1);
    }
  }

  /** Padding the end of the body never changes a verdict that needs no edit. */
  lemma FeatureStateAppended(s: string)
    requires FeatureState(s).Absent? || FeatureState(s).Enabled?
    ensures FeatureState(s + "\n") == FeatureState(s)
  {
    hide FindFeatures, TableFlag, FeaturesAt, HeaderStop;
    FindFeaturesAppended(s, 0);
    if FindFeatures(s, 0).Some? {
      var p := FindFeatures(s, 0).value;
      FoundAt(s, 0);
      HeaderStopAppended(s, p);
      var at := HeaderStop(s, p);
      TableFlagAppended(s[at..]);
      assert (s + "\n")[at..] == s[at..] + "\n";
    }
  }

  // ---- the inserted flag ------------------------------------------------

  const FLAG_LINE := "hooks = true"
  const INSERTED := "\nhooks = true"

  function InsertFlag(body: string, at: nat): string
    requires at <= |body|
  {
    body[..at] + INSERTED + body[at..]
  }

  /** `y` cannot continue a line that ends before it. */
  predicate Closes(y: string) {
    y == "" || y[0] == '\n'
  }

  lemma {:induction false} BlankLocal(x: string, y: string, z: string, i: nat)
    requires Closes(y) && Closes(z) && i <= |x|
    ensures RestBlank(x + y, i) == RestBlank(x + z, i)
    decreases |x| - i
  {
    if i < |x| {
      BlankLocal(x, y, z, i + 1);
      assert (x + y)[i] == x[i] == (x + z)[i];
    }
  }

  lemma {:induction false} SkipLocal(x: string, y: string, i: nat)
    requires i <= |x|
    ensures SkipWs(x + y, i) == if SkipWs(x, i) < |x| then SkipWs(x, i) else |x| + SkipWs(y, 0)
    decreases |x| - i
  {
    if i < |x| {
      assert (x + y)[i] == x[i];
      if Ws(x[i]) {
        SkipLocal(x, y, i + 1);
      }
    } else {
      SkipShift(x, y, 0);
    }
  }

  lemma {:induction false} SkipShift(x: string, y: string, i: nat)
    requires i <= |y|
    ensures SkipWs(x + y, |x| + i) == |x| + SkipWs(y, i)
    decreases |y| - i
  {
    if i < |y| {
      assert (x + y)[|x| + i] == y[i];
      SkipShift(x, y, i + 1);
    }
  }

  lemma AtLocal(x: string, y: string, m: string, k: nat)
    requires '\n' !in m && m != "" && Closes(y) && k < |x|
    ensures At(x + y, m, k) <==> At(x, m, k)
  {
    var s := x + y;
    if k + |m| <= |x| {
      assert s[k..k + |m|] == x[k..k + |m|];
    } else {
      assert |x| < |s| ==> s[|x|] == '\n';
      assert At(s, m, k) ==> forall j | k <= j < k + |m| :: s[j] == m[j - k];
    }
  }

  /** A header match that starts before the end of `x` only sees `x`. */
  lemma FeaturesLocal(x: string, y: string, z: string, p: nat)
    requires Closes(y) && Closes(z) && p <= |x| && SkipWs(x + y, p) < |x|
    ensures FeaturesAt(x + y, p) == FeaturesAt(x + z, p)
    ensures SkipWs(x + z, p) == SkipWs(x + y, p)
  {
    SkipLocal(x, y, p);
    SkipLocal(x, z, p);
    var q := SkipWs(x, p);
    AtLocal(x, y, FEATURES_HEADER, q);
    AtLocal(x, z, FEATURES_HEADER, q);
    if At(x, FEATURES_HEADER, q) {
      BlankLocal(x, y, z, q + |FEATURES_HEADER|);
    }
  }

  /** White space before a match leads to the match. */
  lemma {:induction false} SkipThrough(s: string, p: nat, r: nat)
    requires p <= r <= |s| && SkipWs(s, p) >= r
    ensures SkipWs(s, p) == SkipWs(s, r)
    decreases r - p
  {
    if p < r {
      SkipThrough(s, p + 1, r);
    }
  }

  lemma {:induction false} FindLocal(x: string, y: string, z: string, p: nat, r: nat)
    requires Closes(y) && Closes(z) && p <= r < |x| && SkipWs(x + y, r) < |x|
    requires LineStart(x + y, r) && FeaturesAt(x + y, r)
    requires forall k | p <= k < r :: !(LineStart(x + y, k) && FeaturesAt(x + y, k))
    ensures FindFeatures(x + z, p) == Some(r)
    decreases r - p
  {
    assert forall k | 0 <= k < |x| :: (x + y)[k] == x[k] == (x + z)[k];
    if p < r {
      if SkipWs(x + y, p) >= r {
        SkipThrough(x + y, p, r);
      }
      FeaturesLocal(x, y, z, p);
      assert LineStart(x + y, p) == LineStart(x + z, p);
      FindLocal(x, y, z, p + 1, r);
    } else {
      FeaturesLocal(x, y, z, p);
      assert LineStart(x + y, p) == LineStart(x + z, p);
    }
  }

  lemma InsertedFlagIsRead(y: string)
    requires Closes(y)
    ensures TableFlag(INSERTED + y) == Some(true)
  {
    var s := INSERTED + y;
    InsertedChars(y);
    var n := FindHeader(s, 0);
    HeaderBeyond(s, 0);
    var table := s[..n];
    assert forall k | 0 <= k < 13 :: table[k] == s[k];
    assert SkipWs(table, 0) == 1 && SkipWs(table, 6) == 7 && SkipWs(table, 8) == 9;
    assert table[1..6] == "hooks" && table[9..13] == "true";
    assert LineStop(table, 13);
    assert HooksAt(table, 0) == Some(true);
  }

  lemma InsertedChars(y: string)
    ensures var s := INSERTED + y;
            |s| >= 13 && s[0] == '\n' && s[6] == ' ' && s[7] == '=' && s[8] == ' '
            && s[1..6] == "hooks" && s[9..13] == "true"
            && (forall k | 1 <= k < 13 :: s[k] != '\n' && s[k] != '[')
            && !Ws(s[1]) && !Ws(s[9])
  {
    var s := INSERTED + y;
    assert s[..13] == INSERTED;
    assert forall k | 0 <= k < 13 :: s[k] == INSERTED[k];
    assert INSERTED[1..6] == "hooks" && INSERTED[9..13] == "true";
    assert s[1..6] == INSERTED[1..6] && s[9..13] == INSERTED[9..13];
  }

  lemma {:induction false} HeaderBeyond(s: string, p: nat)
    requires 13 <= |s| && p <= 13 && (forall k | 1 <= k < 13 :: s[k] != '\n' && s[k] != '[')
    requires s[0] == '\n' && !Ws(s[1])
    ensures FindHeader(s, p) >= 13
    decreases 13 - p
  {
    if p < 13 {
      if p <= 1 {
        assert SkipWs(s, p) == 1;
      }
      HeaderBeyond(s, p + 1);
    }
  }

  lemma StopAtInsertion(x: string, y: string, i: nat)
    requires Closes(y) && i <= |x| && SkipWs(x + y, i) >= |x|
    ensures StopBefore(x + (INSERTED + y), SkipWs(x + (INSERTED + y), i)) == |x|
  {
    var z := INSERTED + y;
    InsertedChars(y);
    SkipLocal(x, y, i);
    SkipLocal(x, z, i);
    assert SkipWs(z, 0) == 1;
    var s := x + z;
    assert s[|x|] == '\n' && s[|x| + 1] == z[1];
    assert !LineStop(s, |x| + 1) && LineStop(s, |x|);
  }

  /** One insertion is enough: the edited body needs no further edit. */
  lemma InsertedOnce(body: string)
    requires FeatureState(body).Missing?
    ensures FeatureState(InsertFlag(body, FeatureState(body).at)) == Enabled
  {
    hide TableFlag, InsertFlag, FeaturesAt;
    var p := FindFeatures(body, 0).value;
    FoundAt(body, 0);
    HeaderEndsInside(body, p);
    var at := HeaderStop(body, p);
    var x, y := body[..at], body[at..];
    assert body == x + y;
    InsertedBody(x, y, p);
    InsertedText(body, at);
  }

  lemma InsertedText(body: string, at: nat)
    requires at <= |body|
    ensures InsertFlag(body, at) == body[..at] + (INSERTED + body[at..])
  {}

  lemma HeaderEndsInside(body: string, p: nat)
    requires p <= |body| && FeaturesAt(body, p)
    ensures var i := SkipWs(body, p) + |FEATURES_HEADER|;
            var at := HeaderStop(body, p);
            p < at && SkipWs(body, p) < at && i <= at <= SkipWs(body, i) && Closes(body[at..])
  {
    BlankHasStop(body, SkipWs(body, p) + |FEATURES_HEADER|);
  }

  lemma InsertedBody(x: string, y: string, p: nat)
    requires Closes(y) && p < |x| && FindFeatures(x + y, 0) == Some(p)
    requires var i := SkipWs(x + y, p) + |FEATURES_HEADER|; i <= |x| <= SkipWs(x + y, i)
    ensures FeatureState(x + (INSERTED + y)) == Enabled
  {
    var z := INSERTED + y;
    InsertedFound(x, y, p);
    assert (x + z)[|x|..] == z;
    InsertedFlagIsRead(y);
    hide FindFeatures, TableFlag, HeaderStop;
  }

  /** The header is found where it was, and ends where the flag begins. */
  lemma InsertedFound(x: string, y: string, p: nat)
    requires Closes(y) && p < |x| && FindFeatures(x + y, 0) == Some(p)
    requires var i := SkipWs(x + y, p) + |FEATURES_HEADER|; i <= |x| <= SkipWs(x + y, i)
    ensures var s := x + (INSERTED + y);
            FindFeatures(s, 0) == Some(p) && FeaturesAt(s, p) && HeaderStop(s, p) == |x|
  {
    InsertedCloses(y);
    HeaderStays(x, y, INSERTED + y, p);
  }

  lemma HeaderStays(x: string, y: string, z: string, p: nat)
    requires z == INSERTED + y && Closes(y) && Closes(z) && p < |x| && FindFeatures(x + y, 0) == Some(p)
    requires var i := SkipWs(x + y, p) + |FEATURES_HEADER|; i <= |x| <= SkipWs(x + y, i)
    ensures FindFeatures(x + z, 0) == Some(p) && FeaturesAt(x + z, p) && HeaderStop(x + z, p) == |x|
  {
    FoundAt(x + y, 0);
    var i := SkipWs(x + y, p) + |FEATURES_HEADER|;
    SkipWithin(x + y, p, |x|);
    hide *;
    FindLocal(x, y, z, 0, p);
    FeaturesLocal(x, y, z, p);
    StopAtInsertion(x, y, i);
    HeaderStopIs(x + z, p, i);
  }

  lemma SkipWithin(s: string, p: nat, n: nat)
    requires p <= n <= |s| && FeaturesAt(s, p) && SkipWs(s, p) + |FEATURES_HEADER| <= n
    ensures SkipWs(s, p) < n
  {}

  lemma HeaderStopIs(s: string, p: nat, i: nat)
    requires p <= |s| && FeaturesAt(s, p) && i == SkipWs(s, p) + |FEATURES_HEADER|
    ensures HeaderStop(s, p) == StopBefore(s, SkipWs(s, i))
  {}

  lemma InsertedCloses(y: string)
    ensures Closes(INSERTED + y)
  {}
}
