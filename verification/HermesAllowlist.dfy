/** Merging punk's approvals into the allowlist Hermes checks before it runs a shell
    hook without asking. Hermes matches an approval by exact (event, command). */
module HermesAllowlist {
  import opened Text
  import opened HookCommands

  type Pair = (string, string)

  /** One element of the file: an approval Hermes can read, or anything else. `rest`
      is its remaining content, timestamps included. */
  datatype Entry = Approval(event: string, command: string, rest: string) | Odd(json: string)

  // ---- what punk wires --------------------------------------------------

  function Events(): seq<string> {
    ["on_session_start", "pre_llm_call", "post_tool_call", "post_llm_call"]
  }

  const CLIENT := "hermes"
  const FROM_HERMES := " hook --from hermes"

  /** punkHermesHookCommand. */
  function CaptureCommand(path: string, url: string): string {
    Quote(path) + (FROM_HERMES + (" " + ("--url " + url)))
  }

  function InboxFlags(url: string): string {
    "mode context --url " + url + " --messaging"
  }

  function InboxCommand(path: string, url: string): string {
    ClientCommand(path, INBOX, CLIENT, InboxFlags(url))
  }

  function ForEvents(events: seq<string>, command: string): seq<Pair> {
    seq(|events|, i requires 0 <= i < |events| => (events[i], command))
  }

  /** hermesDesiredApprovals. */
  function Desired(path: string, url: string, messaging: bool): seq<Pair> {
    ForEvents(Events(), CaptureCommand(path, url)) + if messaging then [(Events()[1], InboxCommand(path, url))] else []
  }

  /** isPunkManagedHermesApproval. */
  predicate Managed(path: string, command: string) {
    IsManagedEntry(command, path, FROM_HERMES) || IsManagedSub(command, path, INBOX, CLIENT)
  }

  // ---- the merge --------------------------------------------------------

  predicate Ours(path: string, e: Entry) {
    e.Approval? && e.command != "" && Managed(path, e.command)
  }

  function PairOf(e: Entry): Pair
    requires e.Approval?
  {
    (e.event, e.command)
  }

  /** The entries that stay: what is not punk's, and the first approval of each pair. */
  function Keep(path: string, l: seq<Entry>, desired: seq<Pair>, seen: set<Pair>): seq<Entry> {
    if l == [] then []
    else if !Ours(path, l[0]) then [l[0]] + Keep(path, l[1..], desired, seen)
    else if PairOf(l[0]) in desired && PairOf(l[0]) !in seen then
      [l[0]] + Keep(path, l[1..], desired, seen + {PairOf(l[0])})
    else Keep(path, l[1..], desired, seen)
  }

  /** The desired pairs that the list already approves. */
  function Approved(path: string, l: seq<Entry>, desired: seq<Pair>): set<Pair> {
    set e | e in l && Ours(path, e) && PairOf(e) in desired :: PairOf(e)
  }

  function Fresh(desired: seq<Pair>, seen: set<Pair>, stamp: string): seq<Entry> {
    if desired == [] then []
    else
      (if desired[0] in seen then [] else [Approval(desired[0].0, desired[0].1, stamp)])
      + Fresh(desired[1..], seen, stamp)
  }

  function Merge(path: string, l: seq<Entry>, desired: seq<Pair>, stamp: string): seq<Entry> {
    Keep(path, l, desired, {}) + Fresh(desired, Approved(path, l, desired), stamp)
  }

  predicate Distinct(ps: seq<Pair>) {
    forall i, j | 0 <= i < j < |ps| :: ps[i] != ps[j]
  }

  /** findHermesApproval. */
  method FindApproval(desired: seq<Pair>, matched: array<bool>, p: Pair) returns (r: int)
    requires matched.Length == |desired|
    ensures -1 <= r < |desired|
    ensures r >= 0 ==> desired[r] == p && !matched[r]
    ensures r < 0 ==> forall i | 0 <= i < |desired| && desired[i] == p :: matched[i]
  {
    for i := 0 to |desired|
      invariant forall k | 0 <= k < i && desired[k] == p :: matched[k]
    {
      if !matched[i] && desired[i] == p {
        return i;
      }
    }
    r := -1;
  }

  /** connectHermesAllowlist, from the decoded list to the merged one. */
  method MergeAllowlist(path: string, l: seq<Entry>, desired: seq<Pair>, stamp: string) returns (kept: seq<Entry>)
    requires Distinct(desired)
    ensures kept == Merge(path, l, desired, stamp)
  {
    var matched := new bool[|desired|](_ => false);
    kept := KeepMatching(path, l, desired, matched);
    kept := AppendUnmatched(kept, desired, matched, Approved(path, l, desired), stamp);
  }

  method KeepMatching(path: string, l: seq<Entry>, desired: seq<Pair>, matched: array<bool>) returns (kept: seq<Entry>)
    requires Distinct(desired) && matched.Length == |desired| && forall i | 0 <= i < |desired| :: !matched[i]
    modifies matched
    ensures kept == Keep(path, l, desired, {})
    ensures forall i | 0 <= i < |desired| :: matched[i] <==> desired[i] in Approved(path, l, desired)
  {
    hide Managed, Approved;
    ghost var seen: set<Pair> := {};
    kept := [];
    NoneApproved(path, desired);
    for k := 0 to |l|
      invariant Keep(path, l, desired, {}) == kept + Keep(path, l[k..], desired, seen)
      invariant seen == Approved(path, l[..k], desired)
      invariant forall i | 0 <= i < |desired| :: matched[i] <==> desired[i] in seen
    {
      var e := l[k];
      ApprovedNext(path, l[..k], e, desired);
      KeepNext(path, l, k, desired, seen);
      assert l[..k + 1] == l[..k] + [e];
      if Ours(path, e) {
        var i := FindApproval(desired, matched, PairOf(e));
        if i >= 0 {
          matched[i] := true;
          kept := kept + [e];
          seen := seen + {PairOf(e)};
        }
        continue;
      }
      kept := kept + [e];
    }
    assert l[..|l|] == l;
  }

  lemma NoneApproved(path: string, desired: seq<Pair>)
    ensures Approved(path, [], desired) == {}
  {}

  lemma KeepNext(path: string, l: seq<Entry>, k: nat, desired: seq<Pair>, seen: set<Pair>)
    requires k < |l|
    ensures Keep(path, l[k..], desired, seen)
         == if !Ours(path, l[k]) then [l[k]] + Keep(path, l[k + 1..], desired, seen)
            else if PairOf(l[k]) in desired && PairOf(l[k]) !in seen then
              [l[k]] + Keep(path, l[k + 1..], desired, seen + {PairOf(l[k])})
            else Keep(path, l[k + 1..], desired, seen)
  {
    assert l[k..][1..] == l[k + 1..] && l[k..][0] == l[k];
  }

  method AppendUnmatched(kept0: seq<Entry>, desired: seq<Pair>, matched: array<bool>, ghost seen: set<Pair>, stamp: string)
    returns (kept: seq<Entry>)
    requires matched.Length == |desired| && forall i | 0 <= i < |desired| :: matched[i] <==> desired[i] in seen
    ensures kept == kept0 + Fresh(desired, seen, stamp)
  {
    kept := kept0;
    for i := 0 to |desired|
      invariant kept + Fresh(desired[i..], seen, stamp) == kept0 + Fresh(desired, seen, stamp)
    {
      assert desired[i..][1..] == desired[i + 1..] && desired[i..][0] == desired[i];
      if !matched[i] {
        kept := kept + [Approval(desired[i].0, desired[i].1, stamp)];
      }
    }
  }

  lemma ApprovedNext(path: string, l: seq<Entry>, e: Entry, desired: seq<Pair>)
    ensures Approved(path, l + [e], desired)
         == Approved(path, l, desired) + if Ours(path, e) && PairOf(e) in desired then {PairOf(e)} else {}
  {
    assert forall x :: x in l + [e] <==> x in l || x == e;
  }

  // ---- exact ownership --------------------------------------------------

  /** How many of punk's approvals of a pair the list holds. */
  function Count(path: string, l: seq<Entry>, p: Pair): nat {
    if l == [] then 0
    else (if Ours(path, l[0]) && PairOf(l[0]) == p then 1 else 0) + Count(path, l[1..], p)
  }

  function Foreign(path: string, l: seq<Entry>): seq<Entry> {
    if l == [] then [] else (if Ours(path, l[0]) then [] else [l[0]]) + Foreign(path, l[1..])
  }

  lemma {:induction false} CountConcat(path: string, a: seq<Entry>, b: seq<Entry>, p: Pair)
    ensures Count(path, a + b, p) == Count(path, a, p) + Count(path, b, p)
  {
    if a == [] {
      assert a + b == b;
    } else {
      assert (a + b)[1..] == a[1..] + b;
      CountConcat(path, a[1..], b, p);
    }
  }

  lemma {:induction false} ForeignConcat(path: string, a: seq<Entry>, b: seq<Entry>)
    ensures Foreign(path, a + b) == Foreign(path, a) + Foreign(path, b)
  {
    if a == [] {
      assert a + b == b;
    } else {
      assert (a + b)[1..] == a[1..] + b;
      ForeignConcat(path, a[1..], b);
    }
  }

  lemma {:induction false} CountKept(path: string, l: seq<Entry>, desired: seq<Pair>, seen: set<Pair>, p: Pair)
    ensures Count(path, Keep(path, l, desired, seen), p)
         == if p in desired && p !in seen && Count(path, l, p) > 0 then 1 else 0
  {
    hide Managed;
    if l != [] {
      var rest := if Ours(path, l[0]) && PairOf(l[0]) in desired then seen + {PairOf(l[0])} else seen;
      CountKept(path, l[1..], desired, rest, p);
      CountKept(path, l[1..], desired, seen, p);
    }
  }

  lemma {:induction false} ForeignKept(path: string, l: seq<Entry>, desired: seq<Pair>, seen: set<Pair>)
    ensures Foreign(path, Keep(path, l, desired, seen)) == Foreign(path, l)
  {
    hide Managed;
    if l != [] {
      ForeignKept(path, l[1..], desired, seen);
      ForeignKept(path, l[1..], desired, if Ours(path, l[0]) then seen + {PairOf(l[0])} else seen);
    }
  }

  lemma {:induction false} CountPositive(path: string, l: seq<Entry>, p: Pair)
    ensures Count(path, l, p) > 0 <==> exists e :: e in l && Ours(path, e) && PairOf(e) == p
  {
    hide Managed;
    if l != [] {
      CountPositive(path, l[1..], p);
      assert forall e :: e in l <==> e == l[0] || e in l[1..];
    }
  }

  /** Every pair that will be written is one punk recognises. */
  predicate Recognised(path: string, desired: seq<Pair>) {
    forall i | 0 <= i < |desired| :: desired[i].1 != "" && Managed(path, desired[i].1)
  }

  lemma {:induction false} CountFresh(path: string, desired: seq<Pair>, seen: set<Pair>, stamp: string, p: Pair)
    requires Distinct(desired) && Recognised(path, desired)
    ensures Count(path, Fresh(desired, seen, stamp), p) == if p in desired && p !in seen then 1 else 0
  {
    hide Managed;
    if desired != [] {
      CountFresh(path, desired[1..], seen, stamp, p);
      var d := desired[0];
      var e := Approval(d.0, d.1, stamp);
      assert Ours(path, e) && PairOf(e) == d;
      assert d !in desired[1..];
      CountConcat(path, if d in seen then [] else [e], Fresh(desired[1..], seen, stamp), p);
      assert [e][1..] == [];
    }
  }

  lemma {:induction false} ForeignFresh(path: string, desired: seq<Pair>, seen: set<Pair>, stamp: string)
    requires Recognised(path, desired)
    ensures Foreign(path, Fresh(desired, seen, stamp)) == []
  {
    hide Managed;
    if desired != [] {
      ForeignFresh(path, desired[1..], seen, stamp);
      var d := desired[0];
      var e := Approval(d.0, d.1, stamp);
      assert Ours(path, e) && [e][1..] == [];
      ForeignConcat(path, if d in seen then [] else [e], Fresh(desired[1..], seen, stamp));
    }
  }

  /** Afterwards punk's approvals are exactly the wired pairs, each once, and everything
      else is there as it was, in its order. */
  lemma ExactOwnership(path: string, l: seq<Entry>, desired: seq<Pair>, stamp: string)
    requires Distinct(desired) && Recognised(path, desired)
    ensures forall p :: Count(path, Merge(path, l, desired, stamp), p) == if p in desired then 1 else 0
    ensures Foreign(path, Merge(path, l, desired, stamp)) == Foreign(path, l)
  {
    var seen := Approved(path, l, desired);
    var a, b := Keep(path, l, desired, {}), Fresh(desired, seen, stamp);
    forall p ensures Count(path, a + b, p) == if p in desired then 1 else 0 {
      CountConcat(path, a, b, p);
      CountKept(path, l, desired, {}, p);
      CountFresh(path, desired, seen, stamp, p);
      CountPositive(path, l, p);
      assert p in seen <==> p in desired && exists e :: e in l && Ours(path, e) && PairOf(e) == p;
    }
    ForeignConcat(path, a, b);
    ForeignKept(path, l, desired, {});
    ForeignFresh(path, desired, seen, stamp);
  }

  // ---- when nothing changes ---------------------------------------------

  ghost predicate Owned(path: string, l: seq<Entry>, desired: seq<Pair>) {
    forall p :: Count(path, l, p) == if p in desired then 1 else 0
  }

  lemma {:induction false} KeepsAll(path: string, l: seq<Entry>, desired: seq<Pair>, seen: set<Pair>)
    requires forall p :: Count(path, l, p) <= if p in desired && p !in seen then 1 else 0
    ensures Keep(path, l, desired, seen) == l
  {
    hide Managed;
    if l != [] {
      if Ours(path, l[0]) {
        var d := PairOf(l[0]);
        assert Count(path, l, d) == 1 + Count(path, l[1..], d);
        forall p ensures Count(path, l[1..], p) <= if p in desired && p !in seen + {d} then 1 else 0 {
          assert Count(path, l, p) <= if p in desired && p !in seen then 1 else 0;
        }
        KeepsAll(path, l[1..], desired, seen + {d});
      } else {
        forall p ensures Count(path, l[1..], p) <= if p in desired && p !in seen then 1 else 0 {
          assert Count(path, l, p) <= if p in desired && p !in seen then 1 else 0;
        }
        KeepsAll(path, l[1..], desired, seen);
      }
    }
  }

  lemma {:induction false} NothingFresh(desired: seq<Pair>, seen: set<Pair>, stamp: string)
    requires forall p | p in desired :: p in seen
    ensures Fresh(desired, seen, stamp) == []
  {
    if desired != [] {
      NothingFresh(desired[1..], seen, stamp);
    }
  }

  /** A run changes nothing exactly when the list already owns each wired pair once and
      no other. */
  lemma UnchangedExactly(path: string, l: seq<Entry>, desired: seq<Pair>, stamp: string)
    requires Distinct(desired) && Recognised(path, desired)
    ensures Merge(path, l, desired, stamp) == l <==> Owned(path, l, desired)
  {
    ExactOwnership(path, l, desired, stamp);
    if Owned(path, l, desired) {
      KeepsAll(path, l, desired, {});
      forall p | p in desired ensures p in Approved(path, l, desired) {
        CountPositive(path, l, p);
      }
      NothingFresh(desired, Approved(path, l, desired), stamp);
      assert l + [] == l;
    }
  }

  /** So a second run, at any later time, changes nothing. */
  lemma SecondRunChangesNothing(path: string, l: seq<Entry>, desired: seq<Pair>, stamp: string, later: string)
    requires Distinct(desired) && Recognised(path, desired)
    ensures Merge(path, Merge(path, l, desired, stamp), desired, later) == Merge(path, l, desired, stamp)
  {
    ExactOwnership(path, l, desired, stamp);
    UnchangedExactly(path, Merge(path, l, desired, stamp), desired, later);
  }

  // ---- the pairs punk really wires --------------------------------------

  lemma EventsDiffer()
    ensures forall i, j | 0 <= i < j < 4 :: Events()[i] != Events()[j]
  {
    assert |Events()[0]| == 16 && |Events()[1]| == 12 && |Events()[2]| == 14 && |Events()[3]| == 13;
  }

  lemma CommandsDiffer(path: string, url: string)
    ensures CaptureCommand(path, url) != InboxCommand(path, url)
  {
    var k := |Quote(path)| + 6;
    assert FROM_HERMES[6] == '-' && |FROM_HERMES| > 6;
    assert CaptureCommand(path, url)[k] == FROM_HERMES[6];
    var after := " " + INBOX + " --client " + CLIENT + (" --" + InboxFlags(url));
    assert |HOOK| == 5 && after[1] == INBOX[0];
    assert InboxCommand(path, url)[k] == after[1];
    assert INBOX[0] == 'i';
  }

  lemma PairsDistinct(events: seq<string>, capture: string, inbox: string)
    requires |events| == 4 && (forall i, j | 0 <= i < j < 4 :: events[i] != events[j]) && capture != inbox
    ensures Distinct(ForEvents(events, capture)) && Distinct(ForEvents(events, capture) + [(events[1], inbox)])
  {}

  lemma PairsRecognised(path: string, events: seq<string>, capture: string, inbox: string)
    requires capture != "" && inbox != "" && Managed(path, capture) && Managed(path, inbox) && |events| == 4
    ensures Recognised(path, ForEvents(events, capture)) && Recognised(path, ForEvents(events, capture) + [(events[1], inbox)])
  {
    hide Managed;
  }

  /** The wired pairs are distinct, and each is recognised on the next run. */
  lemma DesiredIsFine(path: string, url: string, messaging: bool)
    ensures Distinct(Desired(path, url, messaging)) && Recognised(path, Desired(path, url, messaging))
  {
    EventsDiffer();
    CommandsDiffer(path, url);
    CommandsHold(path, url);
    CommandsManaged(path, url);
    PairsDistinct(Events(), CaptureCommand(path, url), InboxCommand(path, url));
    PairsRecognised(path, Events(), CaptureCommand(path, url), InboxCommand(path, url));
    assert !messaging ==> Desired(path, url, messaging) == ForEvents(Events(), CaptureCommand(path, url));
    hide *;
  }

  lemma CommandsManaged(path: string, url: string)
    ensures Managed(path, CaptureCommand(path, url)) && Managed(path, InboxCommand(path, url))
  {
    assert FROM_HERMES[0] == ' ';
    EntryIsRecognised(path, FROM_HERMES, "--url " + url);
    ClientIsRecognised(path, INBOX, CLIENT, InboxFlags(url));
    hide IsManagedEntry, IsManagedSub, ClientCommand, InboxFlags;
  }

  lemma CommandsHold(path: string, url: string)
    ensures CaptureCommand(path, url) != "" && InboxCommand(path, url) != "" && |Events()| == 4
  {}
}
