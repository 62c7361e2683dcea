/** Which of the user's lines an edit of config.toml keeps. */
module CodexKept {
  import opened Text
  import opened TomlParse
  import opened CodexBlock
  import opened CodexFeatures
  import opened CodexEdit
  import CodexPrintParse

  // ---- which lines a forced run drops -----------------------------------

  /** Line `k` lies under a punk header that no other header has ended. */
  ghost predicate UnderPunkHeader(lines: seq<string>, k: nat)
    requires k < |lines|
  {
    exists j :: 0 <= j <= k && IsPunkLine(lines[j])
      && forall i | j < i <= k :: IsPunkLine(lines[i]) || !HeaderAt(lines[i], 0)
  }

  ghost function Outside(lines: seq<string>, k: nat): seq<string>
    requires k <= |lines|
    decreases |lines| - k
  {
    if k == |lines| then []
    else (if UnderPunkHeader(lines, k) then [] else [lines[k]]) + Outside(lines, k + 1)
  }

  lemma UnderNext(lines: seq<string>, k: nat)
    requires k < |lines|
    ensures UnderPunkHeader(lines, k) <==>
            IsPunkLine(lines[k]) || (k > 0 && UnderPunkHeader(lines, k - 1) && !HeaderAt(lines[k], 0))
  {
    hide IsPunkLine, HeaderAt;
    if k > 0 && UnderPunkHeader(lines, k - 1) && !HeaderAt(lines[k], 0) {
      var j :| 0 <= j <= k - 1 && IsPunkLine(lines[j])
        && forall i | j < i <= k - 1 :: IsPunkLine(lines[i]) || !HeaderAt(lines[i], 0);
      assert forall i | j < i <= k :: IsPunkLine(lines[i]) || !HeaderAt(lines[i], 0);
    }
    if UnderPunkHeader(lines, k) && !IsPunkLine(lines[k]) {
      var j :| 0 <= j <= k && IsPunkLine(lines[j])
        && forall i | j < i <= k :: IsPunkLine(lines[i]) || !HeaderAt(lines[i], 0);
      assert forall i | j < i <= k - 1 :: IsPunkLine(lines[i]) || !HeaderAt(lines[i], 0);
    }
  }

  lemma {:induction false} KeptAreOutside(lines: seq<string>, k: nat)
    requires k <= |lines|
    ensures KeptLines(lines[k..], k > 0 && UnderPunkHeader(lines, k - 1)) == Outside(lines, k)
    decreases |lines| - k
  {
    if k < |lines| {
      UnderNext(lines, k);
      KeptAreOutside(lines, k + 1);
      hide IsPunkLine, HeaderAt, UnderPunkHeader;
      assert lines[k..][0] == lines[k] && lines[k..][1..] == lines[k + 1..];
    }
  }

  /** removeTable keeps exactly the lines outside punk's tables, in order. */
  lemma RemovalIsExact(body: string)
    ensures RemoveTable(body) == Join(Outside(Split(body), 0))
  {
    KeptAreOutside(Split(body), 0);
    assert Split(body)[0..] == Split(body);
  }

  // ---- the edit as a whole ----------------------------------------------

  lemma PunkLineIsHeader(ln: string)
    ensures IsPunkLine(ln) <==> IsPunkHeader(TrimSpace(ln))
  {
    CodexPrintParse.PunkHeader();
    hide ParseHeader, TrimSpace;
  }

  lemma {:induction false} NothingToDrop(lines: seq<string>)
    requires forall ln | ln in lines :: !IsPunkLine(ln)
    ensures KeptLines(lines, false) == lines
  {
    hide IsPunkLine;
    if lines != [] {
      NothingToDrop(lines[1..]);
      assert lines == [lines[0]] + lines[1..];
    }
  }

  /** The user's lines: those outside punk's tables, of which an empty file has one
      empty line. */
  ghost function UserLines(stripped: string): seq<string> {
    var lines := Outside(Split(stripped), 0);
    if lines == [] then [""] else lines
  }

  lemma BaseLines(stripped: string)
    ensures Split(Base(stripped)) == UserLines(stripped)
  {
    var lines := Split(stripped);
    KeptAreOutside(lines, 0);
    assert lines[0..] == lines;
    var kept := KeptLines(lines, false);
    KeptAreLines(lines, false);
    if HasPunkTable(stripped) {
      if kept != [] {
        SplitJoin(kept);
      }
    } else {
      forall ln | ln in lines ensures !IsPunkLine(ln) {
        PunkLineIsHeader(ln);
      }
      NothingToDrop(lines);
    }
  }

  lemma FlagBetween(x: string, y: string)
    requires Closes(y)
    ensures var before := Split(x);
            && |before| <= |Split(x + y)|
            && Split(x + y)[..|before|] == before
            && Split(x + (INSERTED + y)) == before + [FLAG_LINE] + Split(x + y)[|before|..]
  {
    FlagIsALine();
    hide Split;
    SplitOneLine(FLAG_LINE);
    if y == "" {
      assert x + y == x && x + (INSERTED + y) == x + "\n" + FLAG_LINE;
      SplitConcat(x, FLAG_LINE);
    } else {
      var z := y[1..];
      assert x + y == x + "\n" + z;
      assert x + (INSERTED + y) == x + "\n" + (FLAG_LINE + "\n" + z);
      SplitConcat(x, z);
      SplitConcat(x, FLAG_LINE + "\n" + z);
      SplitConcat(FLAG_LINE, z);
    }
  }

  /** `have` is `lines`, or `lines` with one flag line put in between. */
  ghost predicate WithFlag(have: seq<string>, lines: seq<string>) {
    have == lines || exists i :: 0 < i <= |lines| && have == lines[..i] + [FLAG_LINE] + lines[i..]
  }

  /** An edit keeps every line outside punk's tables, in order, and adds at most one
      line, the flag: with it the file says that hooks are enabled. */
  lemma EditKeepsLines(stripped: string, hooks: bool, force: bool)
    requires EditBody(stripped, hooks, force).Edited?
    ensures var body := EditBody(stripped, hooks, force).body;
            && WithFlag(Split(body), UserLines(stripped))
            && (Split(body) != UserLines(stripped) ==> hooks && FeatureState(body) == Enabled)
  {
    EditIsLocal(stripped, hooks, force);
    FlagNeedsHooks(stripped, force);
    BaseLines(stripped);
    var base, body := Base(stripped), EditBody(stripped, hooks, force).body;
    hide *;
    SameLines(UserLines(stripped));
    if body != base {
      InsertedOnce(base);
      FlagGoesIn(base);
    }
  }

  lemma FlagNeedsHooks(stripped: string, force: bool)
    requires EditBody(stripped, false, force).Edited?
    ensures EditBody(stripped, false, force).body == Base(stripped)
  {
    hide HasPunkTable, RemoveTable;
  }

  lemma SameLines(lines: seq<string>)
    ensures WithFlag(lines, lines)
  {}

  lemma FlagGoesIn(base: string)
    requires FeatureState(base).Missing?
    ensures WithFlag(Split(InsertFlag(base, FeatureState(base).at)), Split(base))
  {
    InsertionCloses(base);
    hide *;
    var at := FeatureState(base).at;
    InsertedText(base, at);
    assert base == base[..at] + base[at..];
    FlagBetween(base[..at], base[at..]);
    FlagPlaced(Split(InsertFlag(base, at)), Split(base), |Split(base[..at])|);
  }

  lemma FlagPlaced(have: seq<string>, lines: seq<string>, i: nat)
    requires 0 < i <= |lines| && have == lines[..i] + [FLAG_LINE] + lines[i..]
    ensures WithFlag(have, lines)
  {}
}
