/** Writing the punk block into a config.toml while leaving the rest of the file
    alone, and writing it again. */
module CodexEdit {
  import opened Text
  import opened TomlString
  import opened TomlParse
  import opened CodexBlock
  import opened CodexFeatures

  // ---- the pieces of the edit -------------------------------------------

  /** stripManagedBlock: `None` is a start marker without an end marker. */
  function StripBlocks(s: string): (r: Option<string>)
    ensures r.Some? ==> !Contains(r.value, BLOCK_START) && |r.value| <= |s|
    decreases |s|
  {
    var i := IndexOf(s, BLOCK_START);
    if i < 0 then Some(s)
    else
      var j := IndexFrom(s, BLOCK_END, i);
      if j < 0 then None
      else
        var end := j + |BLOCK_END|;
        StripBlocks(s[..i] + s[if end < |s| && s[end] == '\n' then end + 1 else end..])
  }

  method StripManagedBlocks(text: string) returns (r: Option<string>)
    ensures r == StripBlocks(text)
  {
    var s := text;
    while true
      invariant StripBlocks(text) == StripBlocks(s)
      decreases |s|
    {
      var i := IndexOf(s, BLOCK_START);
      if i < 0 {
        return Some(s);
      }
      var j := IndexFrom(s, BLOCK_END, i);
      if j < 0 {
        return None;
      }
      var end := j + |BLOCK_END|;
      if end < |s| && s[end] == '\n' {
        end := end + 1;
      }
      s := s[..i] + s[end..];
    }
  }

  predicate IsPunkLine(ln: string) {
    TrimSpace(ln) == PUNK_TABLE || IsPunkHeader(TrimSpace(ln))
  }

  /** hasPunkMCPTableHeader. */
  predicate HasPunkTable(body: string) {
    exists ln :: ln in Split(body) && IsPunkHeader(TrimSpace(ln))
  }

  /** The lines removeTable keeps. */
  function KeptLines(lines: seq<string>, skipping: bool): seq<string> {
    if lines == [] then []
    else if IsPunkLine(lines[0]) then KeptLines(lines[1..], true)
    else if skipping && !HeaderAt(lines[0], 0) then KeptLines(lines[1..], true)
    else [lines[0]] + KeptLines(lines[1..], false)
  }

  lemma {:induction false} KeptAreLines(lines: seq<string>, skipping: bool)
    ensures forall ln | ln in KeptLines(lines, skipping) :: ln in lines && !IsPunkLine(ln)
  {
    hide IsPunkLine, HeaderAt;
    if lines != [] {
      KeptAreLines(lines[1..], true);
      KeptAreLines(lines[1..], false);
    }
  }

  function RemoveTable(body: string): string {
    Join(KeptLines(Split(body), false))
  }

  method RemovePunkTable(body: string) returns (r: string)
    ensures r == RemoveTable(body)
  {
    hide IsPunkLine, HeaderAt, Split, Join;
    var lines := Split(body);
    var out, skipping := [], false;
    for k := 0 to |lines|
      invariant KeptLines(lines, false) == out + KeptLines(lines[k..], skipping)
    {
      var ln := lines[k];
      assert lines[k..][0] == ln && lines[k..][1..] == lines[k + 1..];
      if IsPunkLine(ln) {
        skipping := true;
      } else {
        if skipping && HeaderAt(ln, 0) {
          skipping := false;
        }
        if !skipping {
          out := out + [ln];
        }
      }
    }
    assert lines[|lines|..] == [] && out + [] == out;
    return Join(out);
  }

  function Pad(body: string): string {
    var b := if body != "" && !HasSuffix(body, "\n") then body + "\n" else body;
    if b != "" && !HasSuffix(b, "\n\n") then b + "\n" else b
  }

  // ---- the whole edit ---------------------------------------------------

  datatype Refusal = UnmatchedMarker | ForeignTable | HooksDisabled

  datatype Edited = Refuse(why: Refusal) | Edited(body: string, features: bool)

  /** The user's part of the new file, and whether the block must carry [features]. */
  function EditBody(stripped: string, hooks: bool, force: bool): Edited {
    if HasPunkTable(stripped) && !force then Refuse(ForeignTable)
    else
      var body := if HasPunkTable(stripped) then RemoveTable(stripped) else stripped;
      if !hooks then Edited(body, false)
      else
        match FeatureState(body)
        case Absent => Edited(body, true)
        case Enabled => Edited(body, false)
        case Disabled => Refuse(HooksDisabled)
        case Missing(at) => Edited(InsertFlag(body, at), false)
  }

  datatype Outcome = Refused(why: Refusal) | Written(text: string)

  predicate UsesCRLF(s: string) {
    IndexOf(s, CRLF) >= 0
  }

  /** ConnectCodexConfig on the text of the file ("" when it does not exist). The
      file changes when the text written differs from `existing`. */
  function Connect(existing: string, o: Opts, hooks: bool, force: bool): Outcome {
    match StripBlocks(ToLF(existing))
    case None => Refused(UnmatchedMarker)
    case Some(stripped) =>
      match EditBody(stripped, hooks, force)
      case Refuse(why) => Refused(why)
      case Edited(body, features) =>
        var out := Pad(body) + Block(o, features);
        Written(if UsesCRLF(existing) then ToCRLF(out) else out)
  }

  method EditConfigBody(stripped: string, hooks: bool, force: bool) returns (r: Edited)
    ensures r == EditBody(stripped, hooks, force)
  {
    hide HasPunkTable, FeatureState, RemoveTable, InsertFlag;
    var body := stripped;
    if HasPunkTable(body) {
      if !force {
        return Refuse(ForeignTable);
      }
      body := RemovePunkTable(body);
    }
    var features := false;
    if hooks {
      match FeatureState(body) {
        case Disabled => return Refuse(HooksDisabled);
        case Absent => features := true;
        case Enabled =>
        case Missing(at) => body := InsertFlag(body, at);
      }
    }
    return Edited(body, features);
  }

  method ConnectCodexConfig(existing: string, o: Opts, hooks: bool, force: bool) returns (r: Outcome, changed: bool)
    ensures r == Connect(existing, o, hooks, force)
    ensures changed <==> r.Written? && r.text != existing
  {
    hide EditBody, Block, StripBlocks, ToLF, ToCRLF, UsesCRLF, HasSuffix;
    var stripped := StripManagedBlocks(ToLF(existing));
    if stripped.None? {
      return Refused(UnmatchedMarker), false;
    }
    var edited := EditConfigBody(stripped.value, hooks, force);
    if edited.Refuse? {
      return Refused(edited.why), false;
    }
    var body := edited.body;
    if body != "" && !HasSuffix(body, "\n") {
      body := body + "\n";
    }
    if body != "" && !HasSuffix(body, "\n\n") {
      body := body + "\n";
    }
    assert body == Pad(edited.body);
    var out := body + Block(o, edited.features);
    if UsesCRLF(existing) {
      out := ToCRLF(out);
    }
    return Written(out), out != existing;
  }

  // ---- the block is found again, whole ----------------------------------

  lemma {:induction false} TerminatedLast(lines: seq<string>, last: string)
    ensures Terminated(lines + [last]) == Terminated(lines) + last + "\n"
  {
    if lines != [] {
      assert (lines + [last])[1..] == lines[1..] + [last];
      TerminatedLast(lines[1..], last);
    }
  }

  lemma {:induction false} TerminatedEnds(lines: seq<string>)
    requires lines != []
    ensures Terminated(lines) != "" && Terminated(lines)[|Terminated(lines)| - 1] == '\n'
  {
    if |lines| > 1 {
      TerminatedEnds(lines[1..]);
    }
  }

  lemma {:induction false} TerminatedClean(lines: seq<string>, m: string)
    requires m != "" && '\n' !in m && forall ln | ln in lines :: !Contains(ln, m)
    ensures !Contains(Terminated(lines), m)
  {
    if lines != [] {
      TerminatedClean(lines[1..], m);
      assert lines[0] in lines;
      ContainsAcrossBreak(lines[0], Terminated(lines[1..]), m);
    }
  }

  /** No value of the entry holds the end marker. */
  ghost predicate Clean(o: Opts) {
    && !Contains(Endpoint(o.serverURL), BLOCK_END)
    && (KeyEnv(o).Some? ==> !Contains(KeyEnv(o).value, BLOCK_END))
    && forall p | p in HeaderPairs(o) :: !Contains(p.1, BLOCK_END)
  }

  lemma MarkerShape()
    ensures BLOCK_END[0] == '#' && |BLOCK_END| == 18 && BLOCK_END[15] == 'e'
    ensures QUOTE !in BLOCK_END && BACKSLASH !in BLOCK_END && '\n' !in BLOCK_END
  {}

  lemma NoHash(s: string)
    requires '#' !in s
    ensures !Contains(s, BLOCK_END)
  {
    MarkerShape();
    assert forall k :: At(s, BLOCK_END, k) ==> s[k] == s[k..k + 18][0];
  }

  lemma EndNeeds(s: string, k: nat)
    ensures At(s, BLOCK_END, k) ==> s[k] == '#' && s[k + 15] == 'e'
  {
    MarkerShape();
    assert At(s, BLOCK_END, k) ==> s[k] == s[k..k + 18][0] && s[k + 15] == s[k..k + 18][15];
  }

  lemma StartShape()
    ensures |BLOCK_START| > 18 && BLOCK_START[15] == 's' && forall k | 0 < k < |BLOCK_START| :: BLOCK_START[k] != '#'
  {
    var a, b, c := "# punk-managed-start ", "(punk connect codex; ", "edit outside this block only)";
    assert a[15] == 's' && forall k | 0 < k < |a| :: a[k] != '#';
    assert '#' !in b && '#' !in c;
  }

  lemma StartHoldsNoEnd()
    ensures !Contains(BLOCK_START, BLOCK_END)
  {
    StartShape();
    forall k: nat {
      EndNeeds(BLOCK_START, k);
    }
  }

  lemma QuotedClean(pre: string, v: string, post: string)
    requires '#' !in pre && !Contains(post, BLOCK_END) && !Contains(v, BLOCK_END)
    ensures !Contains(pre + Quoted(v) + post, BLOCK_END)
  {
    MarkerShape();
    NoHash(pre);
    var e := EscapeAll(v);
    if Contains(e, BLOCK_END) {
      EscapedMarker(v, BLOCK_END);
    }
    hide EscapeAll;
    ContainsAcross(pre, QUOTE, e + [QUOTE] + post, BLOCK_END);
    ContainsAcross(e, QUOTE, post, BLOCK_END);
    assert pre + Quoted(v) + post == pre + [QUOTE] + (e + [QUOTE] + post);
  }

  lemma PairClean(pre: string, k: string, v: string, post: string)
    requires '#' !in pre && !Contains(post, BLOCK_END) && !Contains(k, BLOCK_END) && !Contains(v, BLOCK_END)
    ensures !Contains(pre + (Quoted(k) + " = " + Quoted(v)) + post, BLOCK_END)
  {
    hide Quoted;
    QuotedClean(" = ", v, post);
    QuotedClean(pre, k, " = " + Quoted(v) + post);
    assert pre + (Quoted(k) + " = " + Quoted(v)) + post == pre + Quoted(k) + (" = " + Quoted(v) + post);
  }

  lemma {:induction false} PairsClean(ps: seq<(string, string)>, pre: string, post: string)
    requires |ps| > 0 && '#' !in pre && '#' !in post
    requires forall p | p in ps :: !Contains(p.0, BLOCK_END) && !Contains(p.1, BLOCK_END)
    ensures !Contains(pre + PairsText(ps) + post, BLOCK_END)
    decreases |ps|
  {
    hide Quoted, Contains;
    var k, v := ps[0].0, ps[0].1;
    assert ps[0] in ps;
    var one := Quoted(k) + " = " + Quoted(v);
    if |ps| == 1 {
      NoHash(post);
      PairClean(pre, k, v, post);
      assert PairsText(ps) == one;
    } else {
      PairsClean(ps[1..], ", ", post);
      var rest := ", " + PairsText(ps[1..]) + post;
      PairClean(pre, k, v, rest);
      assert pre + PairsText(ps) + post == pre + one + rest;
    }
  }

  lemma NamesClean(o: Opts)
    ensures forall p | p in HeaderPairs(o) :: '#' !in p.0
  {
    assert '#' !in "Authorization" && '#' !in "X-Punk-Namespace" && '#' !in "X-Punk-Agent";
  }

  ghost predicate AllClean(lines: seq<string>) {
    forall ln | ln in lines :: !Contains(ln, BLOCK_END)
  }

  lemma HeadersClean(o: Opts)
    requires Clean(o)
    ensures AllClean(HeaderLines(o))
  {
    hide PairsText;
    var ps := HeaderPairs(o);
    if ps != [] {
      NamesClean(o);
      forall p | p in ps ensures !Contains(p.0, BLOCK_END) {
        NoHash(p.0);
      }
      hide HeaderPairs, Contains;
      PairsClean(ps, "http_headers = { ", " }");
    }
  }

  lemma EntryClean(o: Opts)
    requires Clean(o)
    ensures AllClean([PUNK_TABLE, UrlLine(o)]) && AllClean(EnvLines(o))
  {
    hide Quoted, HeaderPairs;
    NoHash(PUNK_TABLE);
    NoHash("");
    QuotedClean("url = ", Endpoint(o.serverURL), "");
    assert "url = " + Quoted(Endpoint(o.serverURL)) + "" == UrlLine(o);
    if KeyEnv(o).Some? {
      QuotedClean("bearer_token_env_var = ", KeyEnv(o).value, "");
      assert EnvLines(o)[0] == "bearer_token_env_var = " + Quoted(KeyEnv(o).value) + "";
    }
  }

  lemma FixedClean()
    ensures AllClean(FeatureLines()) && AllClean(KnobLines()) && AllClean([BLOCK_START])
  {
    assert '#' !in FeatureLines()[0] && '#' !in FeatureLines()[1] && '#' !in FeatureLines()[2];
    assert '#' !in KnobLines()[0] && '#' !in KnobLines()[1] && '#' !in KnobLines()[2];
    NoHash(FeatureLines()[0]); NoHash(FeatureLines()[1]); NoHash(FeatureLines()[2]);
    NoHash(KnobLines()[0]); NoHash(KnobLines()[1]); NoHash(KnobLines()[2]);
    StartHoldsNoEnd();
  }

  lemma AppendClean(a: seq<string>, b: seq<string>)
    requires AllClean(a) && AllClean(b)
    ensures AllClean(a + b)
  {}

  lemma BodyClean(o: Opts, features: bool)
    requires Clean(o)
    ensures AllClean([BLOCK_START] + Body(o, features))
  {
    FixedClean();
    EntryClean(o);
    HeadersClean(o);
    assert AllClean([]);
    hide AllClean, EnvLines, HeaderLines, KnobLines, FeatureLines, UrlLine, Clean;
    var a := if features then FeatureLines() else [];
    var u := [PUNK_TABLE, UrlLine(o)];
    AppendClean(a, u);
    AppendClean(a + u, EnvLines(o));
    AppendClean(a + u + EnvLines(o), HeaderLines(o));
    AppendClean(a + u + EnvLines(o) + HeaderLines(o), KnobLines());
    AppendClean([BLOCK_START], Body(o, features));
  }

  lemma FirstLine(first: string, rest: seq<string>)
    ensures HasPrefix(Terminated([first] + rest), first)
  {
    var lines := [first] + rest;
    assert lines[0] == first && Terminated(lines) == first + ("\n" + Terminated(lines[1..]));
    assert Terminated(lines)[..|first|] == first;
  }

  /** What the block is, as seen by the scan for its markers. */
  lemma BlockShape(o: Opts, features: bool) returns (q: string)
    requires Clean(o)
    ensures Block(o, features) == q + (BLOCK_END + "\n")
    ensures q != "" && q[|q| - 1] == '\n' && !Contains(q, BLOCK_END) && HasPrefix(q, BLOCK_START)
  {
    var lines := [BLOCK_START] + Body(o, features);
    BodyClean(o, features);
    MarkerShape();
    assert Block(o, features) == Terminated(lines + [BLOCK_END]);
    assert forall ln | ln in lines :: !Contains(ln, BLOCK_END);
    q := Terminated(lines);
    hide *;
    TerminatedLast(lines, BLOCK_END);
    TerminatedEnds(lines);
    TerminatedClean(lines, BLOCK_END);
    FirstLine(BLOCK_START, Body(o, features));
    SameText(q, BLOCK_END, "\n");
  }

  lemma SameText(x: string, y: string, z: string)
    ensures x + y + z == x + (y + z)
  {}

  lemma EndFound(p: string, q: string, m: string, r: string)
    requires q != "" && q[|q| - 1] == '\n' && m != "" && '\n' !in m && !Contains(q, m)
    ensures IndexFrom(p + (q + (m + r)), m, |p|) == |p| + |q|
  {
    var t := q + (m + r);
    var s := p + t;
    forall k | |p| <= k < |p| + |q| ensures !At(s, m, k) {
      NoStraddle(q, m + r, m, k - |p|);
      if k + |m| <= |s| {
        assert s[k..k + |m|] == t[k - |p|..k - |p| + |m|];
      }
    }
    assert s[|p| + |q|..|p| + |q| + |m|] == m;
    assert At(s, m, |p| + |q|);
  }

  lemma StripOne(p: string, q: string, b: string)
    requires b == q + (BLOCK_END + "\n")
    requires IndexOf(p + b, BLOCK_START) == |p| && IndexFrom(p + b, BLOCK_END, |p|) == |p| + |q|
    ensures StripBlocks(p + b) == StripBlocks(p)
  {
    var s, end := p + b, |p| + |q| + |BLOCK_END|;
    assert |s| == end + 1 && s[end] == '\n';
    assert s[..|p|] + s[end + 1..] == p;
  }

  lemma StripsFenced(p: string, q: string)
    requires !Contains(p, BLOCK_START) && (p == "" || p[|p| - 1] == '\n')
    requires q != "" && q[|q| - 1] == '\n' && !Contains(q, BLOCK_END) && HasPrefix(q, BLOCK_START)
    ensures StripBlocks(p + (q + (BLOCK_END + "\n"))) == Some(p)
  {
    assert StripBlocks(p) == Some(p);
    MarkerShape();
    StartIsOneLine();
    hide Contains, HasPrefix, StripBlocks, IndexOf, IndexFrom;
    var b := q + (BLOCK_END + "\n");
    PrefixOfPrefix(q, BLOCK_END + "\n", BLOCK_START);
    FirstAfter(p, b, BLOCK_START);
    EndFound(p, q, BLOCK_END, "\n");
    StripOne(p, q, b);
  }

  /** Stripping takes out exactly the block that was written. */
  lemma StripsTheBlock(p: string, o: Opts, features: bool)
    requires Clean(o) && !Contains(p, BLOCK_START) && (p == "" || p[|p| - 1] == '\n')
    ensures StripBlocks(p + Block(o, features)) == Some(p)
  {
    hide Block, Clean, Contains, HasPrefix, StripBlocks;
    var q := BlockShape(o, features);
    StripsFenced(p, q);
  }

  lemma PrefixOfPrefix(q: string, r: string, m: string)
    requires HasPrefix(q, m)
    ensures HasPrefix(q + r, m)
  {
    assert (q + r)[..|m|] == q[..|m|];
  }

  lemma StartIsOneLine()
    ensures BLOCK_START != "" && '\n' !in BLOCK_START
  {
    MarkersPrintable();
  }

  // ---- what the user's part keeps free of -------------------------------

  predicate FreeLine(ln: string) {
    !IsPunkHeader(TrimSpace(ln)) && IndexOf(ln, BLOCK_START) < 0
  }

  /** No line is a punk table header or holds the start marker. */
  ghost predicate Free(body: string) {
    forall ln | ln in Split(body) :: FreeLine(ln)
  }

  lemma FreeMeans(body: string)
    ensures Free(body) <==> !HasPunkTable(body) && !Contains(body, BLOCK_START)
  {
    StartIsOneLine();
    ContainsInLine(body, BLOCK_START);
    hide IsPunkHeader, Contains;
  }

  /** A line that does not open with a bracket is no table header. */
  lemma NotAHeader(s: string)
    requires s == "" || (!IsSpace(s[0]) && !IsSpace(s[|s| - 1]) && s[0] != '[')
    ensures !IsPunkHeader(TrimSpace(s))
  {
    TrimmedAlready(s);
    NoHeaderHere(s);
  }

  lemma NoHeaderHere(s: string)
    requires TrimSpace(s) == s && !Starts(s, '[')
    ensures !IsPunkHeader(s)
  {
    hide TrimSpace, SplitKeyPath, HeaderClose, TrailingOk;
  }

  lemma ShortLineFree(s: string)
    requires |s| < |BLOCK_START| && !IsPunkHeader(TrimSpace(s))
    ensures FreeLine(s)
  {
    hide IsPunkHeader, TrimSpace;
  }

  lemma FlagLineShape()
    ensures |FLAG_LINE| == 12 && FLAG_LINE[0] == 'h' && FLAG_LINE[11] == 'e' && !IsSpace('h') && !IsSpace('e')
  {}

  lemma FlagLineFree()
    ensures FreeLine(FLAG_LINE) && FreeLine("")
  {
    FlagLineShape();
    StartShape();
    hide *;
    NotAHeader(FLAG_LINE);
    NotAHeader("");
    ShortLineFree(FLAG_LINE);
    ShortLineFree("");
  }

  lemma FreePadded(b: string)
    requires Free(b)
    ensures Free(b + "\n")
  {
    FlagLineFree();
    hide FreeLine;
    SplitConcat(b, "");
    assert b + "\n" + "" == b + "\n";
  }

  lemma FreePad(b: string)
    requires Free(b)
    ensures Free(Pad(b))
  {
    hide Free;
    FreePadded(b);
    if Pad(b) == b + "\n" + "\n" {
      FreePadded(b + "\n");
    }
  }

  lemma FreeRemoved(body: string)
    requires !Contains(body, BLOCK_START)
    ensures Free(RemoveTable(body))
  {
    var lines := Split(body);
    var kept := KeptLines(lines, false);
    KeptAreLines(lines, false);
    FlagLineFree();
    StartIsOneLine();
    ContainsInLine(body, BLOCK_START);
    forall ln | ln in kept ensures FreeLine(ln) {
      assert ln in lines && !IsPunkLine(ln);
    }
    hide FreeLine, IsPunkLine, Contains, KeptLines;
    if |kept| > 0 {
      SplitJoin(kept);
    }
  }

  lemma LinesInserted(x: string, flag: string, y: string)
    requires Closes(y) && '\n' !in flag
    ensures forall ln | ln in Split(x + ("\n" + flag + y)) :: ln in Split(x + y) || ln == flag
  {
    SplitOneLine(flag);
    if y == "" {
      assert x + y == x && x + ("\n" + flag + y) == x + "\n" + flag;
      SplitConcat(x, flag);
    } else {
      var z := y[1..];
      assert x + y == x + "\n" + z;
      assert x + ("\n" + flag + y) == x + "\n" + (flag + "\n" + z);
      SplitConcat(x, z);
      SplitConcat(x, flag + "\n" + z);
      SplitConcat(flag, z);
    }
  }

  lemma FlagIsALine()
    ensures INSERTED == "\n" + FLAG_LINE && '\n' !in FLAG_LINE
  {}

  lemma FreeInsertedAt(x: string, y: string)
    requires Free(x + y) && Closes(y)
    ensures Free(x + (INSERTED + y))
  {
    FlagLineFree();
    FlagIsALine();
    hide FreeLine, Split;
    LinesInserted(x, FLAG_LINE, y);
  }

  lemma FreeInserted(body: string)
    requires Free(body) && FeatureState(body).Missing?
    ensures Free(InsertFlag(body, FeatureState(body).at))
  {
    InsertionCloses(body);
    hide FeatureState, InsertFlag, Free;
    var at := FeatureState(body).at;
    InsertedText(body, at);
    assert body == body[..at] + body[at..];
    FreeInsertedAt(body[..at], body[at..]);
  }

  function Base(stripped: string): string {
    if HasPunkTable(stripped) then RemoveTable(stripped) else stripped
  }

  /** The edit is the removal of punk's own tables, then at most one flag line. */
  lemma EditIsLocal(stripped: string, hooks: bool, force: bool)
    requires EditBody(stripped, hooks, force).Edited?
    ensures var b := EditBody(stripped, hooks, force).body;
            b == Base(stripped)
            || (FeatureState(Base(stripped)).Missing? && b == InsertFlag(Base(stripped), FeatureState(Base(stripped)).at))
    ensures HasPunkTable(stripped) ==> force
  {
    hide HasPunkTable, RemoveTable, InsertFlag, FeatureState;
  }

  lemma EditLeavesFree(stripped: string, hooks: bool, force: bool)
    requires !Contains(stripped, BLOCK_START) && EditBody(stripped, hooks, force).Edited?
    ensures Free(EditBody(stripped, hooks, force).body)
  {
    EditIsLocal(stripped, hooks, force);
    FreeMeans(stripped);
    if HasPunkTable(stripped) {
      FreeRemoved(stripped);
    }
    hide HasPunkTable, RemoveTable, Contains, Free, InsertFlag, FeatureState, EditBody;
    if FeatureState(Base(stripped)).Missing? {
      FreeInserted(Base(stripped));
    }
  }

  lemma InsertionCloses(body: string)
    requires FeatureState(body).Missing?
    ensures Closes(body[FeatureState(body).at..])
  {
    var p := FindFeatures(body, 0).value;
    FoundAt(body, 0);
    HeaderEndsInside(body, p);
  }

  lemma PadAgain(b: string)
    ensures Pad(Pad(b)) == Pad(b)
    ensures Pad(b) == b || Pad(b) == b + "\n" || Pad(b) == b + "\n" + "\n"
    ensures Pad(b) == "" || Pad(b)[|Pad(b)| - 1] == '\n'
  {
    var c := if b != "" && !HasSuffix(b, "\n") then b + "\n" else b;
    assert b != "" ==> |c| > 0 && c[|c| - 1] == '\n';
    var d := Pad(b);
    assert d != "" ==> |d| >= 2 && d[|d| - 1] == '\n' && d[|d| - 2] == '\n';
    assert d != "" ==> d[|d| - 2..] == "\n\n" && d[|d| - 1..] == "\n";
  }

  lemma FeaturesPadded(b: string)
    requires FeatureState(b).Absent? || FeatureState(b).Enabled?
    ensures FeatureState(Pad(b)) == FeatureState(b)
  {
    hide FeatureState;
    PadAgain(b);
    FeatureStateAppended(b);
    FeatureStateAppended(b + "\n");
  }

  /** The edited body needs no further edit. */
  lemma EditAgain(stripped: string, hooks: bool, force: bool)
    requires !Contains(stripped, BLOCK_START) && EditBody(stripped, hooks, force).Edited?
    ensures var e := EditBody(stripped, hooks, force);
            EditBody(Pad(e.body), hooks, force) == Edited(Pad(e.body), e.features)
  {
    var e := EditBody(stripped, hooks, force);
    EditLeavesFree(stripped, hooks, force);
    FreePad(e.body);
    FreeMeans(Pad(e.body));
    if hooks {
      var body := if HasPunkTable(stripped) then RemoveTable(stripped) else stripped;
      if FeatureState(body).Missing? {
        InsertedOnce(body);
      }
      hide FeatureState, InsertFlag, HasPunkTable, RemoveTable, Pad, Free, Contains;
      FeaturesPadded(e.body);
    }
  }

  // ---- the whole file ---------------------------------------------------

  /** The edit that a successful run makes on the user's part of the file. */
  function EditedBody(existing: string, hooks: bool, force: bool): (e: Edited)
    requires StripBlocks(ToLF(existing)).Some?
  {
    EditBody(StripBlocks(ToLF(existing)).value, hooks, force)
  }

  function NewText(existing: string, o: Opts, hooks: bool, force: bool): string
    requires StripBlocks(ToLF(existing)).Some? && EditedBody(existing, hooks, force).Edited?
  {
    var e := EditedBody(existing, hooks, force);
    Pad(e.body) + Block(o, e.features)
  }

  /** Running the tool on its own output, before line endings are put back. */
  lemma TextIsStable(existing: string, o: Opts, hooks: bool, force: bool)
    requires Clean(o) && Connect(existing, o, hooks, force).Written?
    ensures var t := NewText(existing, o, hooks, force);
            && StripBlocks(t) == Some(Pad(EditedBody(existing, hooks, force).body))
            && EditBody(StripBlocks(t).value, hooks, force)
               == Edited(StripBlocks(t).value, EditedBody(existing, hooks, force).features)
  {
    var stripped := StripBlocks(ToLF(existing)).value;
    var e := EditBody(stripped, hooks, force);
    EditLeavesFree(stripped, hooks, force);
    FreePad(e.body);
    FreeMeans(Pad(e.body));
    PadAgain(e.body);
    EditAgain(stripped, hooks, force);
    hide EditBody, Pad, Block, Clean, Free, Contains, HasPunkTable;
    StripsTheBlock(Pad(e.body), o, e.features);
  }

  lemma CRLFText(t: string)
    requires t != "" && t[|t| - 1] == '\n'
    ensures UsesCRLF(ToCRLF(t))
  {
    EveryBreak(t);
    hide ToCRLF;
    var c := ToCRLF(t);
    PairIsCRLF(c, |c| - 2);
  }

  lemma PairIsCRLF(c: string, k: nat)
    requires k + 2 <= |c| && c[k] == '\r' && c[k + 1] == '\n'
    ensures Contains(c, CRLF)
  {
    assert c[k..k + |CRLF|] == CRLF;
    assert At(c, CRLF, k);
  }

  lemma {:induction false} EveryBreak(t: string)
    ensures var c := ToCRLF(t);
            && (forall k | 0 <= k < |c| && c[k] == '\n' :: k > 0 && c[k - 1] == '\r')
            && (t != "" ==> c != "" && c[|c| - 1] == t[|t| - 1])
  {
    if t != "" {
      EveryBreak(t[1..]);
      var d := ToCRLF(t[1..]);
      if |t| > 1 {
        assert t[|t| - 1] == t[1..][|t| - 2];
      }
    }
  }

  lemma NewTextEnds(p: string, o: Opts, features: bool)
    ensures var t := p + Block(o, features); |t| > 1 && t[|t| - 1] == '\n' && t[|t| - 2] != '\r'
  {
    var lines := [BLOCK_START] + Body(o, features);
    TerminatedLast(lines, BLOCK_END);
    hide Body;
    assert BLOCK_END[17] == 'd' && |BLOCK_END| == 18;
  }

  lemma ConnectIs(existing: string, o: Opts, hooks: bool, force: bool)
    requires Connect(existing, o, hooks, force).Written?
    ensures StripBlocks(ToLF(existing)).Some? && EditedBody(existing, hooks, force).Edited?
    ensures var t, e := NewText(existing, o, hooks, force), EditedBody(existing, hooks, force);
            && Connect(existing, o, hooks, force).text == (if UsesCRLF(existing) then ToCRLF(t) else t)
            && t == Pad(e.body) + Block(o, e.features)
  {
    hide StripBlocks, EditBody, Pad, Block, UsesCRLF;
  }

  // ---- carriage returns that end a line ---------------------------------

  /** A carriage return stands before a line break, or at the end. */
  predicate ReturnEndsLine(s: string) {
    exists k | 0 <= k < |s| :: s[k] == '\r' && LineStop(s, k + 1)
  }

  /** What a run keeps of the file: its own blocks and tables taken out. */
  function KeptText(existing: string): string
    requires StripBlocks(ToLF(existing)).Some?
  {
    Base(StripBlocks(ToLF(existing)).value)
  }

  /** The file uses CRLF already, or no line that is kept ends in a carriage return. */
  predicate SettlesAtOnce(existing: string)
    requires StripBlocks(ToLF(existing)).Some?
  {
    UsesCRLF(existing) || !ReturnEndsLine(KeptText(existing))
  }

  lemma InsertionReturns(x: string, y: string)
    requires Closes(y)
    ensures ReturnEndsLine(x + (INSERTED + y)) <==> ReturnEndsLine(x + y)
  {
    InsertedIsPlain();
    ReturnsBetween(x, INSERTED, y);
  }

  lemma ReturnsBetween(x: string, m: string, y: string)
    requires Closes(y) && m != "" && m[0] == '\n' && '\r' !in m
    ensures ReturnEndsLine(x + (m + y)) <==> ReturnEndsLine(x + y)
  {
    var s, t, n := x + y, x + (m + y), |m|;
    if ReturnEndsLine(s) {
      var k :| 0 <= k < |s| && s[k] == '\r' && LineStop(s, k + 1);
      var j := if k < |x| then k else k + n;
      assert t[j] == '\r';
      assert j + 1 < |t| ==> t[j + 1] == if k + 1 < |x| then x[k + 1] else if k < |x| then m[0] else y[k + 1 - |x|];
      assert LineStop(t, j + 1);
    }
    if ReturnEndsLine(t) {
      var k :| 0 <= k < |t| && t[k] == '\r' && LineStop(t, k + 1);
      assert forall i | |x| <= i < |x| + n :: t[i] == m[i - |x|];
      var j := if k < |x| then k else k - n;
      assert s[j] == '\r';
      assert LineStop(s, j + 1);
    }
  }

  lemma InsertedIsPlain()
    ensures '\r' !in INSERTED && INSERTED != "" && INSERTED[0] == '\n'
  {}

  /** The flag line brings no line that ends in a carriage return, and takes none. */
  lemma EditReturns(stripped: string, hooks: bool, force: bool)
    requires EditBody(stripped, hooks, force).Edited?
    ensures ReturnEndsLine(EditBody(stripped, hooks, force).body) <==> ReturnEndsLine(Base(stripped))
  {
    hide *;
    EditIsLocal(stripped, hooks, force);
    var base := Base(stripped);
    if FeatureState(base).Missing? {
      var at := FeatureState(base).at;
      InsertionCloses(base);
      InsertedText(base, at);
      assert base == base[..at] + base[at..];
      InsertionReturns(base[..at], base[at..]);
    }
  }

  /** The padding turns exactly these carriage returns into CRLF line ends. */
  lemma PaddedReturns(b: string, block: string)
    requires '\r' !in block
    ensures Contains(Pad(b) + block, CRLF) <==> ReturnEndsLine(b)
    ensures Contains(Pad(b), CRLF) <==> ReturnEndsLine(b)
  {
    PadAgain(b);
    PadCloses(b);
    var p := Pad(b);
    hide Pad;
    PaddedReturnsIn(b, p, p + block);
    PaddedReturnsIn(b, p, p);
  }

  lemma PadCloses(b: string)
    ensures b != "" && b[|b| - 1] == '\r' ==> |Pad(b)| > |b|
  {}

  lemma PaddedReturnsIn(b: string, p: string, t: string)
    requires p == b || p == b + "\n" || p == b + "\n" + "\n"
    requires b != "" && b[|b| - 1] == '\r' ==> |p| > |b|
    requires |t| >= |p| && t[..|p|] == p && forall k | |p| <= k < |t| :: t[k] != '\r'
    ensures Contains(t, CRLF) <==> ReturnEndsLine(b)
  {
    assert forall k | 0 <= k < |p| :: t[k] == p[k];
    assert forall k | 0 <= k < |b| :: p[k] == b[k];
    assert |p| > |b| ==> p[|b|] == '\n';
    assert |p| > |b| + 1 ==> p[|b| + 1] == '\n';
    if k :| At(t, CRLF, k) {
      assert t[k] == t[k..k + 2][0] == '\r' && t[k + 1] == t[k..k + 2][1] == '\n';
      assert b[k] == '\r' && LineStop(b, k + 1);
    }
    if ReturnEndsLine(b) {
      var k :| 0 <= k < |b| && b[k] == '\r' && LineStop(b, k + 1);
      PairIsCRLF(t, k);
    }
  }

  lemma LFStep(x: string, y: string)
    requires x != "" && x[|x| - 1] == '\n'
    ensures HasPrefix(x, CRLF) <==> HasPrefix(x + y, CRLF)
    ensures HasPrefix(x, CRLF) ==> (x + y)[2..] == x[2..] + y
    ensures (x + y)[1..] == x[1..] + y
  {
    if |x| >= 2 {
      assert (x + y)[..2] == x[..2];
    } else {
      NotPrefix(x + y, CRLF);
    }
  }

  lemma {:induction false} LFAppend(x: string, y: string)
    requires x == "" || x[|x| - 1] == '\n'
    ensures ToLF(x + y) == ToLF(x) + ToLF(y)
    decreases |x|
  {
    if x == "" {
      assert x + y == y;
    } else {
      LFStep(x, y);
      LFAppend(x[if HasPrefix(x, CRLF) then 2 else 1..], y);
      hide HasPrefix;
    }
  }

  lemma {:induction false} LFEnds(x: string)
    requires x == "" || x[|x| - 1] == '\n'
    ensures ToLF(x) == "" || ToLF(x)[|ToLF(x)| - 1] == '\n'
    decreases |x|
  {
    if x != "" {
      LFEnds(x[if HasPrefix(x, CRLF) then 2 else 1..]);
    }
  }

  lemma {:induction false} LFPrefix(s: string, m: string)
    requires '\n' !in m && HasPrefix(ToLF(s), m)
    ensures HasPrefix(s, m)
  {
    if m != "" {
      var r := ToLF(s);
      assert r[0] == m[0];
      assert r[1..][..|m| - 1] == m[1..];
      LFPrefix(s[1..], m[1..]);
      assert s[1..][..|m| - 1] == m[1..] && s[..|m|] == [s[0]] + s[1..][..|m| - 1];
    }
  }

  /** Dropping carriage returns before line breaks makes no marker. */
  lemma {:induction false} LFKeepsFree(s: string, m: string, k: nat)
    requires '\n' !in m && m != "" && At(ToLF(s), m, k)
    ensures Contains(s, m)
    decreases |s|
  {
    var r := ToLF(s);
    if k == 0 {
      LFPrefix(s, m);
      assert At(s, m, 0);
    } else {
      var n := if HasPrefix(s, CRLF) then 2 else 1;
      assert r[1..] == ToLF(s[n..]) && r[1..][k - 1..k - 1 + |m|] == r[k..k + |m|];
      LFKeepsFree(s[n..], m, k - 1);
      var j :| At(s[n..], m, j);
      assert s[j + n..j + n + |m|] == s[n..][j..j + |m|];
      assert At(s, m, j + n);
    }
  }

  lemma LFFree(s: string, m: string)
    requires '\n' !in m && m != "" && !Contains(s, m)
    ensures !Contains(ToLF(s), m)
  {
    if k :| At(ToLF(s), m, k) {
      LFKeepsFree(s, m, k);
    }
  }

  lemma {:induction false} LFShortens(s: string)
    ensures |ToLF(s)| <= |s|
    ensures Contains(s, CRLF) ==> |ToLF(s)| < |s|
  {
    if s != "" {
      if HasPrefix(s, CRLF) {
        LFShortens(s[2..]);
      } else {
        LFShortens(s[1..]);
        hide ToLF;
        if k :| At(s, CRLF, k) {
          PairLater(s, k);
        }
      }
    }
  }

  lemma PairLater(s: string, k: int)
    requires At(s, CRLF, k) && !HasPrefix(s, CRLF)
    ensures Contains(s[1..], CRLF)
  {
    assert k > 0 by {
      assert s[0..|CRLF|] == s[..|CRLF|];
    }
    assert s[1..][k - 1..k - 1 + |CRLF|] == s[k..k + |CRLF|];
    assert At(s[1..], CRLF, k - 1);
  }

  // ---- what the user gets back ------------------------------------------

  lemma StrippedLF(p: string, o: Opts, features: bool)
    requires Clean(o) && !Contains(p, BLOCK_START) && (p == "" || p[|p| - 1] == '\n')
    ensures StripBlocks(ToLF(p + Block(o, features))) == Some(ToLF(p))
  {
    BlockNoCR(o, features);
    var b := Block(o, features);
    StartIsOneLine();
    hide *;
    LFAppend(p, b);
    LFEnds(p);
    NoCR(b);
    NoCRLFMeans(b);
    LFUnchanged(b);
    LFFree(p, BLOCK_START);
    StripsTheBlock(ToLF(p), o, features);
  }

  /** The user's text survives, whatever the file: taking the block out of the
      written file gives back the edited body, padded with at most two line breaks,
      and carriage returns are lost only before line breaks. Nothing at all is lost
      exactly when the file settles at once. */
  lemma UserTextSurvives(existing: string, o: Opts, hooks: bool, force: bool)
    requires Clean(o) && Connect(existing, o, hooks, force).Written?
    ensures var body := Pad(EditedBody(existing, hooks, force).body);
            var found := StripBlocks(ToLF(Connect(existing, o, hooks, force).text));
            && found == Some(if UsesCRLF(existing) then body else ToLF(body))
            && (found == Some(body) <==> SettlesAtOnce(existing))
  {
    ConnectIs(existing, o, hooks, force);
    TextIsStable(existing, o, hooks, force);
    var e := EditedBody(existing, hooks, force);
    var p := Pad(e.body);
    EditReturns(StripBlocks(ToLF(existing)).value, hooks, force);
    EditLeavesFree(StripBlocks(ToLF(existing)).value, hooks, force);
    FreePad(e.body);
    FreeMeans(p);
    PadAgain(e.body);
    PaddedReturns(e.body, "");
    hide *;
    SurvivesBy(existing, o, hooks, force, p, e.features);
  }

  lemma SurvivesBy(existing: string, o: Opts, hooks: bool, force: bool, p: string, features: bool)
    requires Clean(o) && Connect(existing, o, hooks, force).Written? && StripBlocks(ToLF(existing)).Some?
    requires !Contains(p, BLOCK_START) && (p == "" || p[|p| - 1] == '\n')
    requires Contains(p, CRLF) <==> ReturnEndsLine(KeptText(existing))
    requires StripBlocks(p + Block(o, features)) == Some(p)
    requires Connect(existing, o, hooks, force).text
             == if UsesCRLF(existing) then ToCRLF(p + Block(o, features)) else p + Block(o, features)
    ensures var found := StripBlocks(ToLF(Connect(existing, o, hooks, force).text));
            && found == Some(if UsesCRLF(existing) then p else ToLF(p))
            && (found == Some(p) <==> SettlesAtOnce(existing))
  {
    hide *;
    LFAfterCRLF(p + Block(o, features));
    StrippedLF(p, o, features);
    LFShortens(p);
    if !Contains(p, CRLF) {
      LFUnchanged(p);
    }
    SettlesIs(existing);
  }

  lemma SettlesIs(existing: string)
    requires StripBlocks(ToLF(existing)).Some?
    ensures SettlesAtOnce(existing) <==> UsesCRLF(existing) || !ReturnEndsLine(KeptText(existing))
  {}

  /** What one run writes when the text it reads is `t` up to line endings. */
  lemma ConnectOn(text: string, t: string, p: string, o: Opts, features: bool, hooks: bool, force: bool)
    requires ToLF(text) == t && t == p + Block(o, features)
    requires StripBlocks(t) == Some(p) && EditBody(p, hooks, force) == Edited(p, features) && Pad(p) == p
    ensures Connect(text, o, hooks, force) == Written(if UsesCRLF(text) then ToCRLF(t) else t)
  {
    hide StripBlocks, EditBody, Pad, Block, UsesCRLF;
  }

  /** A second run changes nothing, exactly when the file uses CRLF already or no
      line that is kept ends in a carriage return. */
  lemma SecondRunChangesNothing(existing: string, o: Opts, hooks: bool, force: bool)
    requires Clean(o) && Connect(existing, o, hooks, force).Written?
    ensures var out := Connect(existing, o, hooks, force).text;
            Connect(out, o, hooks, force) == Written(out) <==> SettlesAtOnce(existing)
  {
    hide *;
    ConnectIs(existing, o, hooks, force);
    TextIsStable(existing, o, hooks, force);
    var t := NewText(existing, o, hooks, force);
    var e := EditedBody(existing, hooks, force);
    var out := Connect(existing, o, hooks, force).text;
    PadAgain(e.body);
    NewTextEnds(Pad(e.body), o, e.features);
    SecondRun(out, t, Pad(e.body), o, e.features, hooks, force, UsesCRLF(existing));
    WrittenReturns(existing, o, hooks, force);
    SettlesIs(existing);
  }

  lemma WrittenReturns(existing: string, o: Opts, hooks: bool, force: bool)
    requires StripBlocks(ToLF(existing)).Some? && EditedBody(existing, hooks, force).Edited?
    ensures UsesCRLF(NewText(existing, o, hooks, force)) <==> ReturnEndsLine(KeptText(existing))
  {
    var e := EditedBody(existing, hooks, force);
    EditReturns(StripBlocks(ToLF(existing)).value, hooks, force);
    BlockNoCR(o, e.features);
    hide StripBlocks, EditBody, Pad, Block, ReturnEndsLine, UsesCRLF, Contains, Base;
    PaddedReturns(e.body, Block(o, e.features));
    NoCRLFMeans(Pad(e.body) + Block(o, e.features));
  }

  /** The second run, from what the first one left: `crlf` is the first file's. */
  lemma SecondRun(out: string, t: string, p: string, o: Opts, features: bool, hooks: bool, force: bool, crlf: bool)
    requires t == p + Block(o, features) && out == if crlf then ToCRLF(t) else t
    requires StripBlocks(t) == Some(p) && EditBody(p, hooks, force) == Edited(p, features) && Pad(p) == p
    requires |t| > 1 && t[|t| - 1] == '\n' && t[|t| - 2] != '\r'
    ensures Connect(out, o, hooks, force) == Written(out) <==> crlf || !UsesCRLF(out)
  {
    hide *;
    if crlf {
      LFAfterCRLF(t);
      CRLFText(t);
      ConnectOn(out, t, p, o, features, hooks, force);
    } else if !UsesCRLF(t) {
      NoCRLFMeans(t);
      LFUnchanged(t);
      ConnectOn(out, t, p, o, features, hooks, force);
    } else {
      MixedIsRewritten(t, o, hooks, force);
    }
  }

  lemma NoCRLFMeans(t: string)
    ensures UsesCRLF(t) <==> Contains(t, CRLF)
  {}

  lemma MixedIsRewritten(t: string, o: Opts, hooks: bool, force: bool)
    requires UsesCRLF(t) && |t| > 1 && t[|t| - 1] == '\n' && t[|t| - 2] != '\r'
    ensures Connect(t, o, hooks, force) != Written(t)
  {
    if Connect(t, o, hooks, force).Written? {
      ConnectIs(t, o, hooks, force);
      hide StripBlocks, EditBody, Pad, Block, UsesCRLF, Connect, NewText;
      var x := NewText(t, o, hooks, force);
      EveryBreak(x);
    }
  }

  // ---- files without a bare carriage return -----------------------------

  lemma {:induction false} SplitKeepsOut(s: string, c: char)
    requires c !in s
    ensures forall ln | ln in Split(s) :: c !in ln
  {
    if s != "" {
      SplitKeepsOut(s[1..], c);
      assert Split(s[1..])[0] in Split(s[1..]);
    }
  }

  lemma {:induction false} JoinKeepsOut(lines: seq<string>, c: char)
    requires c != '\n' && forall ln | ln in lines :: c !in ln
    ensures c !in Join(lines)
  {
    if |lines| > 1 {
      JoinKeepsOut(lines[1..], c);
    }
  }

  lemma {:induction false} StripKeepsOut(s: string, c: char)
    requires c !in s && StripBlocks(s).Some?
    ensures c !in StripBlocks(s).value
    decreases |s|
  {
    var i := IndexOf(s, BLOCK_START);
    if i >= 0 {
      var end := IndexFrom(s, BLOCK_END, i) + |BLOCK_END|;
      StripKeepsOut(s[..i] + s[if end < |s| && s[end] == '\n' then end + 1 else end..], c);
    }
  }

  lemma RemovalKeepsOut(body: string)
    requires '\r' !in body
    ensures '\r' !in RemoveTable(body)
  {
    SplitKeepsOut(body, '\r');
    KeptAreLines(Split(body), false);
    JoinKeepsOut(KeptLines(Split(body), false), '\r');
  }

  /** A file whose carriage returns all belong to CRLF line ends (or that has none)
      settles after one run, with the user's text intact. */
  lemma PlainFileSettles(existing: string, o: Opts, hooks: bool, force: bool)
    requires Clean(o) && '\r' !in ToLF(existing) && Connect(existing, o, hooks, force).Written?
    ensures var out := Connect(existing, o, hooks, force).text;
            Connect(out, o, hooks, force) == Written(out)
            && StripBlocks(ToLF(out)) == Some(Pad(EditedBody(existing, hooks, force).body))
  {
    ConnectIs(existing, o, hooks, force);
    var stripped := StripBlocks(ToLF(existing)).value;
    StripKeepsOut(ToLF(existing), '\r');
    RemovalKeepsOut(stripped);
    assert '\r' !in KeptText(existing);
    assert SettlesAtOnce(existing);
    hide *;
    SecondRunChangesNothing(existing, o, hooks, force);
    UserTextSurvives(existing, o, hooks, force);
  }

  lemma NoCR(t: string)
    requires '\r' !in t
    ensures !UsesCRLF(t)
  {
    assert CRLF[0] == '\r';
    NeedsFirst(t, CRLF);
    NoCRLFMeans(t);
  }

  lemma ReturnHasNoHeader(s: string)
    requires |s| == 1 && s[0] == '\r'
    ensures !HasPunkTable(s)
  {
    ReturnIsBlank(s);
    SplitOneLine(s);
    NotAHeader("");
    TrimmedAlready("");
    assert HasPunkTable(s) <==> exists ln :: ln in [s] && IsPunkHeader(TrimSpace(ln));
    hide *;
  }

  lemma ReturnIsBlank(s: string)
    requires |s| == 1 && s[0] == '\r'
    ensures TrimSpace(s) == ""
  {
    assert TrimLeft(s[1..]) == "";
  }

  lemma ReturnAlone(s: string)
    requires |s| == 1 && s[0] == '\r'
    ensures ToLF(s) == s && StripBlocks(s) == Some(s)
  {
    StartShape();
    assert |BLOCK_START| > |s|;
    assert ToLF(s[1..]) == "" && !HasPrefix(s, CRLF);
  }

  lemma ReturnPadded(s: string)
    requires |s| == 1 && s[0] == '\r'
    ensures |Pad(s)| >= 2 && Pad(s)[0] == '\r' && Pad(s)[1] == '\n'
    ensures !UsesCRLF(s)
  {}

  /** Without that, one run may not be enough: a file that is one bare carriage
      return gains a CRLF from the padding, and the second run converts the rest. */
  lemma BareReturnNeedsAnotherRun(o: Opts, force: bool)
    requires Clean(o)
    ensures var r := Connect(['\r'], o, false, force);
            r.Written? && Connect(r.text, o, false, force) != r
  {
    var s := ['\r'];
    ReturnHasNoHeader(s);
    ReturnAlone(s);
    ReturnPadded(s);
    hide HasPunkTable, ToLF, StripBlocks, Block, Clean, Pad, UsesCRLF, RemoveTable, FeatureState;
    var t := Pad(s) + Block(o, false);
    assert Connect(s, o, false, force) == Written(t);
    PairIsCRLF(t, 0);
    NoCRLFMeans(t);
    hide Connect;
    SecondRunChangesNothing(s, o, false, force);
  }
}
