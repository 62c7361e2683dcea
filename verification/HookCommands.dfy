/** The shell commands in punk's hook groups, and recognising them again. */
module HookCommands {
  import opened Text
  import opened HookMerge

  // ---- building ---------------------------------------------------------

  predicate IsBlank(c: char) { c == ' ' || c == '\t' }

  predicate HasBlank(s: string) {
    exists i :: 0 <= i < |s| && IsBlank(s[i])
  }

  /** quotePunkPath. */
  function Quote(path: string): string {
    if HasBlank(path) then "\"" + path + "\"" else path
  }

  const HOOK := " hook"

  /** punkHookCommandFrom; punkHookCommand is the one without a `from`. */
  function HookCommand(path: string, url: string, ns: string, from: string): string {
    Quote(path) + (HOOK + (" --url " + url
      + (if from != "" then " --from " + from else "")
      + (if ns != "" then " --ns " + ns else "")))
  }

  /** punkInboxHookCommand and punkWakeHookCommand: `word` is inbox or wake, `flags`
      what follows the client. */
  function ClientCommand(path: string, word: string, client: string, flags: string): string {
    Quote(path) + (HOOK + (" " + word + " --client " + client + (" --" + flags)))
  }

  // ---- recognising ------------------------------------------------------

  function TrimBlanks(s: string): string {
    if s != "" && IsBlank(s[0]) then TrimBlanks(s[1..]) else s
  }

  /** isInboxSubcommand and isWakeSubcommand. */
  predicate IsSubcommand(after: string, word: string) {
    var t := TrimBlanks(after);
    |t| < |after| && HasPrefix(t, word) && (|t| == |word| || IsBlank(t[|word|]))
  }

  predicate StartsBinary(cmd: string, idx: int)
    requires idx <= |cmd|
  {
    idx == 0 || (idx > 0 && (cmd[idx - 1] == '/' || cmd[idx - 1] == '\\' || cmd[idx - 1] == '"'))
  }

  /** What follows the first occurrence of the path, its closing quote dropped. */
  function AfterPath(cmd: string, path: string): Option<string> {
    var idx := IndexOf(cmd, path);
    if idx < 0 then None else Some(TrimPrefix(cmd[idx + |path|..], "\""))
  }

  const MARKER := "punk hook --url "

  /** The rule for a relocated binary. */
  predicate Relocated(cmd: string) {
    var idx := IndexOf(cmd, MARKER);
    idx >= 0 && StartsBinary(cmd, idx)
  }

  const INBOX := "inbox"
  const WAKE := "wake"

  /** isPunkManaged. */
  predicate IsManaged(cmd: string, path: string) {
    var rest := AfterPath(cmd, path);
    if rest.Some? && HasPrefix(rest.value, HOOK) then
      var after := rest.value[|HOOK|..];
      if after == "" then true
      else if IsSubcommand(after, INBOX) || IsSubcommand(after, WAKE) then false
      else IsBlank(after[0]) || Relocated(cmd)
    else Relocated(cmd)
  }

  /** The shared shape of isPunkManagedInbox, isPunkManagedWake and
      isPunkManagedFromAgent: the entry after the path, or after a binary named punk. */
  predicate IsManagedEntry(cmd: string, path: string, entry: string) {
    var rest := AfterPath(cmd, path);
    || (rest.Some? && HasPrefix(rest.value, entry) && (|rest.value| == |entry| || IsBlank(rest.value[|entry|])))
    || (var marker := "punk" + entry;
        var idx := IndexOf(cmd, marker);
        idx >= 0 && StartsBinary(cmd, idx) && (idx + |marker| == |cmd| || IsBlank(cmd[idx + |marker|])))
  }

  function ClientEntry(word: string, client: string): string {
    HOOK + " " + word + " --client " + client
  }

  /** isPunkManagedInbox and isPunkManagedWake. */
  predicate IsManagedSub(cmd: string, path: string, word: string, client: string) {
    IsManagedEntry(cmd, path, ClientEntry(word, client))
  }

  /** isAnyPunkInboxGroup and isAnyPunkWakeGroup, for one command. */
  ghost predicate IsAnySub(cmd: string, word: string) {
    Contains(cmd, HOOK + " " + word + " --client ")
  }

  // ---- the path is found ------------------------------------------------

  lemma {:induction false} AllQuotes(path: string, cmd: string, k: nat)
    requires |cmd| > |path| && cmd == "\"" + path + cmd[|path| + 1..] && At(cmd, path, 0) && k < |path|
    ensures path[k] == '"'
  {
    assert cmd[..|path|][k] == path[k];
    if k > 0 {
      AllQuotes(path, cmd, k - 1);
      assert cmd[k] == ("\"" + path)[k];
    }
  }

  lemma QuotedParts(path: string, tail: string)
    ensures var cmd := "\"" + path + "\"" + tail;
            && |cmd| == |path| + 2 + |tail| && At(cmd, path, 1) && cmd[1 + |path|..] == "\"" + tail
            && cmd == "\"" + path + cmd[|path| + 1..] && ("\"" + tail)[1..] == tail && HasPrefix("\"" + tail, "\"")
  {
    var cmd := "\"" + path + "\"" + tail;
    assert cmd == "\"" + path + ("\"" + tail);
    assert cmd[1..1 + |path|] == path;
    assert ("\"" + tail)[..1] == "\"";
  }

  /** A quoted path with a blank in it is found after the quote. */
  lemma QuotedIsFound(path: string, tail: string)
    requires HasBlank(path)
    ensures IndexOf(Quote(path) + tail, path) == 1
  {
    var cmd := "\"" + path + "\"" + tail;
    var i :| 0 <= i < |path| && IsBlank(path[i]);
    assert Quote(path) + tail == cmd;
    QuotedParts(path, tail);
    hide At, IndexOf, IndexFrom, HasPrefix;
    if At(cmd, path, 0) {
      AllQuotes(path, cmd, i);
    }
  }

  lemma PlainIsFound(path: string, tail: string)
    requires !HasBlank(path)
    ensures IndexOf(Quote(path) + tail, path) == 0 && (Quote(path) + tail)[|path|..] == tail
  {
    var cmd := path + tail;
    assert cmd[..|path|] == path && cmd[0..|path|] == path && cmd[|path|..] == tail;
    assert At(cmd, path, 0);
    hide IndexOf, IndexFrom;
  }

  /** Quoted or not, what follows the path in a built command is what was put there. */
  lemma PathIsFound(path: string, tail: string)
    requires tail != "" && tail[0] != '"'
    ensures AfterPath(Quote(path) + tail, path) == Some(tail)
  {
    NotPrefix(tail, "\"");
    hide At, IndexOf, IndexFrom, HasPrefix;
    if HasBlank(path) {
      QuotedIsFound(path, tail);
      QuotedParts(path, tail);
    } else {
      PlainIsFound(path, tail);
    }
  }

  /** Every command punkHookCommand builds is recognised, whatever the path. */
  lemma CaptureIsRecognised(path: string, url: string, ns: string, from: string)
    ensures IsManaged(HookCommand(path, url, ns, from), path)
  {
    var after := " --url " + url
      + (if from != "" then " --from " + from else "")
      + (if ns != "" then " --ns " + ns else "");
    UrlFlagFirst(after, url);
    var tail := HOOK + after;
    assert tail[0] == ' ' && tail[|HOOK|..] == after && HasPrefix(tail, HOOK) by {
      assert tail[..|HOOK|] == HOOK;
    }
    hide IsSubcommand, Relocated, AfterPath;
    PathIsFound(path, tail);
  }

  lemma UrlFlagFirst(after: string, url: string)
    requires |after| >= 3 && after[..3] == " --"
    ensures !IsSubcommand(after, INBOX) && !IsSubcommand(after, WAKE) && after != "" && IsBlank(after[0])
  {
    assert after[0] == after[..3][0] && after[1] == after[..3][1];
    assert after[1..][0] == '-';
    var t := TrimBlanks(after);
    assert TrimBlanks(after[1..]) == after[1..];
    assert t == after[1..];
    NotPrefix(t, INBOX);
    NotPrefix(t, WAKE);
  }

  predicate Word(word: string) {
    word != "" && forall i | 0 <= i < |word| :: !IsBlank(word[i])
  }

  /** A built entry is recognised, whatever the path. */
  lemma EntryIsRecognised(path: string, entry: string, more: string)
    requires entry != "" && entry[0] != '"'
    ensures IsManagedEntry(Quote(path) + (entry + (" " + more)), path, entry)
  {
    var tail := entry + (" " + more);
    assert tail[..|entry|] == entry && tail[|entry|] == ' ';
    PathIsFound(path, tail);
  }

  /** An inbox or wake command is recognised as one. */
  lemma ClientIsRecognised(path: string, word: string, client: string, flags: string)
    ensures IsManagedSub(ClientCommand(path, word, client, flags), path, word, client)
  {
    var entry := ClientEntry(word, client);
    assert HOOK + (" " + word + " --client " + client + (" --" + flags)) == entry + (" " + ("--" + flags));
    EntryIsRecognised(path, entry, "--" + flags);
  }

  /** The capture merge leaves every inbox and wake command alone. */
  lemma ClientIsNotCapture(path: string, word: string, client: string, flags: string)
    requires word == INBOX || word == WAKE
    ensures !IsManaged(ClientCommand(path, word, client, flags), path)
  {
    var after := " " + word + " --client " + client + (" --" + flags);
    var tail := HOOK + after;
    assert tail[0] == ' ' && tail[|HOOK|..] == after && HasPrefix(tail, HOOK) by {
      assert tail[..|HOOK|] == HOOK;
    }
    SubcommandIs(after, word, "--client " + client + (" --" + flags));
    PathIsFound(path, tail);
    hide IsSubcommand, Relocated, AfterPath;
  }

  lemma SubcommandIs(after: string, word: string, rest: string)
    requires Word(word) && after == " " + word + " " + rest
    ensures IsSubcommand(after, word)
  {
    var t := word + " " + rest;
    assert after[1..] == t && t[0] == word[0];
    assert TrimBlanks(after) == t;
    assert t[..|word|] == word;
  }

  /** What is recognised as an inbox (or wake) command of one client looks like an
      inbox (or wake) command of any. */
  lemma SubIsAny(cmd: string, path: string, word: string, client: string)
    requires IsManagedSub(cmd, path, word, client)
    ensures IsAnySub(cmd, word)
  {
    hide At, Contains, HasPrefix, IndexOf, TrimPrefix;
    var any := HOOK + " " + word + " --client ";
    var entry := ClientEntry(word, client);
    assert entry == any + client;
    var rest := AfterPath(cmd, path);
    if rest.Some? && HasPrefix(rest.value, entry) {
      RestOfCommand(cmd, path);
      SuffixHolds(cmd, rest.value, any, client);
    } else {
      var idx := IndexOf(cmd, "punk" + entry);
      AtParts(cmd, "punk", any + client, idx);
      AtParts(cmd, any, client, idx + 4);
      FoundAt(cmd, any, idx + 4);
    }
  }

  lemma FoundAt(s: string, m: string, k: int)
    requires At(s, m, k)
    ensures Contains(s, m)
  {}

  lemma RestOfCommand(cmd: string, path: string)
    requires AfterPath(cmd, path).Some?
    ensures var rest := AfterPath(cmd, path).value; |rest| <= |cmd| && rest == cmd[|cmd| - |rest|..]
  {
    var idx := IndexOf(cmd, path);
    var tail := cmd[idx + |path|..];
    assert tail == cmd[|cmd| - |tail|..];
    assert TrimPrefix(tail, "\"") == tail || TrimPrefix(tail, "\"") == tail[1..];
  }

  lemma SuffixHolds(cmd: string, rest: string, any: string, client: string)
    requires |rest| <= |cmd| && rest == cmd[|cmd| - |rest|..] && HasPrefix(rest, any + client)
    ensures Contains(cmd, any)
  {
    var k := |cmd| - |rest|;
    assert At(rest, any + client, 0);
    AtParts(rest, any, client, 0);
    assert cmd[k..k + |any|] == rest[0..|any|];
    assert At(cmd, any, k);
  }

  // ---- the groups of one run --------------------------------------------

  /** An element of an event's list: a group with its handlers' commands, or anything
      else; `json` is the rest of its content. */
  datatype Group = Group(commands: seq<string>, json: string) | Odd(json: string)

  /** A group is punk's only when it has commands and all of them are. */
  ghost predicate AllAre(g: Group, p: string -> bool) {
    g.Group? && g.commands != [] && forall c | c in g.commands :: p(c)
  }

  method GroupIs(g: Group, p: string -> bool) returns (r: bool)
    ensures r <==> AllAre(g, p)
  {
    if g.Odd? || g.commands == [] {
      return false;
    }
    for k := 0 to |g.commands|
      invariant forall j | 0 <= j < k :: p(g.commands[j])
    {
      if !p(g.commands[k]) {
        assert g.commands[k] in g.commands;
        return false;
      }
    }
    r := true;
  }

  ghost function CaptureKind(path: string): Kind<Group> {
    (g: Group) => AllAre(g, cmd => IsManaged(cmd, path))
  }

  ghost function SubKind(path: string, word: string, client: string): Kind<Group> {
    (g: Group) => AllAre(g, cmd => IsManagedSub(cmd, path, word, client))
  }

  ghost function AnyKind(word: string): Kind<Group> {
    (g: Group) => AllAre(g, cmd => IsAnySub(cmd, word))
  }

  /** The groups of a run for one client, over one path. */
  ghost function SetupFor(path: string, client: string, c: Group, i: Group, w: Group): Setup<Group> {
    Setup(CaptureKind(path), SubKind(path, INBOX, client), SubKind(path, WAKE, client),
          AnyKind(INBOX), AnyKind(WAKE), c, i, w)
  }

  /** No command reads like a command of another kind; only a path, URL, namespace or
      flag that itself holds such a phrase can break this. */
  ghost predicate Apart(capture: string, inbox: string, wake: string) {
    && !IsAnySub(capture, INBOX) && !IsAnySub(capture, WAKE)
    && !IsAnySub(inbox, WAKE) && !IsAnySub(wake, INBOX)
  }

  /** So the merges of HookMerge converge on the real groups. */
  lemma RealGroupsAreLawful(path: string, url: string, ns: string, client: string, inboxFlags: string, wakeFlags: string,
                            cj: string, ij: string, wj: string)
    requires Apart(HookCommand(path, url, ns, ""), ClientCommand(path, INBOX, client, inboxFlags),
                   ClientCommand(path, WAKE, client, wakeFlags))
    ensures Lawful(SetupFor(path, client,
                            Group([HookCommand(path, url, ns, "")], cj),
                            Group([ClientCommand(path, INBOX, client, inboxFlags)], ij),
                            Group([ClientCommand(path, WAKE, client, wakeFlags)], wj)))
  {
    var capture, inbox := HookCommand(path, url, ns, ""), ClientCommand(path, INBOX, client, inboxFlags);
    var wake := ClientCommand(path, WAKE, client, wakeFlags);
    CaptureIsRecognised(path, url, ns, "");
    ClientIsRecognised(path, INBOX, client, inboxFlags);
    ClientIsRecognised(path, WAKE, client, wakeFlags);
    ClientIsNotCapture(path, INBOX, client, inboxFlags);
    ClientIsNotCapture(path, WAKE, client, wakeFlags);
    Single(path, client, capture, cj);
    Single(path, client, inbox, ij);
    Single(path, client, wake, wj);
    KindsNest(path, INBOX, client);
    KindsNest(path, WAKE, client);
    if IsManagedSub(capture, path, INBOX, client) {
      SubIsAny(capture, path, INBOX, client);
    }
    if IsManagedSub(capture, path, WAKE, client) {
      SubIsAny(capture, path, WAKE, client);
    }
    if IsManagedSub(inbox, path, WAKE, client) {
      SubIsAny(inbox, path, WAKE, client);
    }
    if IsManagedSub(wake, path, INBOX, client) {
      SubIsAny(wake, path, INBOX, client);
    }
    hide IsManaged, IsManagedSub, IsAnySub, HookCommand, ClientCommand, CaptureKind, SubKind, AnyKind;
  }

  lemma Single(path: string, client: string, cmd: string, json: string)
    ensures var g := Group([cmd], json);
            && (CaptureKind(path)(g) <==> IsManaged(cmd, path))
            && (SubKind(path, INBOX, client)(g) <==> IsManagedSub(cmd, path, INBOX, client))
            && (SubKind(path, WAKE, client)(g) <==> IsManagedSub(cmd, path, WAKE, client))
            && (AnyKind(INBOX)(g) <==> IsAnySub(cmd, INBOX)) && (AnyKind(WAKE)(g) <==> IsAnySub(cmd, WAKE))
  {
    hide IsManaged, IsManagedSub, IsAnySub;
    var g := Group([cmd], json);
    assert g.commands[0] == cmd && cmd in g.commands && forall x | x in g.commands :: x == cmd;
  }

  lemma KindsNest(path: string, word: string, client: string)
    ensures forall g :: SubKind(path, word, client)(g) ==> AnyKind(word)(g)
  {
    forall g | SubKind(path, word, client)(g) ensures AnyKind(word)(g) {
      forall cmd | cmd in g.commands ensures IsAnySub(cmd, word) {
        SubIsAny(cmd, path, word, client);
      }
    }
  }
}
