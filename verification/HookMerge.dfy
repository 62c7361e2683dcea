/** Merging punk's hook groups into one event's group list: capture before the first
    inbox group, inbox before the first wake group, wake last; each merge first takes
    out the groups of its own kind. */
module HookMerge {
  import opened Text

  type Kind<!G> = G -> bool

  /** The groups that are not of this kind. */
  function Kept<G>(groups: seq<G>, own: Kind<G>): (r: seq<G>)
    ensures forall g | g in r :: g in groups && !own(g)
  {
    if groups == [] then []
    else (if own(groups[0]) then [] else [groups[0]]) + Kept(groups[1..], own)
  }

  function Before<G>(groups: seq<G>, anchor: Kind<G>): seq<G> {
    if groups == [] || anchor(groups[0]) then [] else [groups[0]] + Before(groups[1..], anchor)
  }

  function From<G>(groups: seq<G>, anchor: Kind<G>): seq<G> {
    if groups == [] || anchor(groups[0]) then groups else From(groups[1..], anchor)
  }

  /** mergeEventGroups, mergeInboxGroups and mergeWakeGroups: `fresh` goes before the
      first group of kind `anchor`, or last. */
  function Merged<G>(groups: seq<G>, own: Kind<G>, anchor: Kind<G>, g: G): seq<G> {
    var kept := Kept(groups, own);
    Before(kept, anchor) + [g] + From(kept, anchor)
  }

  method MergeGroups<G>(raw: seq<G>, own: Kind<G>, anchor: Kind<G>, g: G) returns (groups: seq<G>)
    ensures groups == Merged(raw, own, anchor, g)
  {
    groups := DropOwn(raw, own);
    groups := Place(groups, anchor, g);
  }

  method DropOwn<G>(raw: seq<G>, own: Kind<G>) returns (groups: seq<G>)
    ensures groups == Kept(raw, own)
  {
    groups := [];
    for k := 0 to |raw|
      invariant groups == Kept(raw[..k], own)
    {
      KeptOneMore(raw, own, k);
      if own(raw[k]) {
        continue;
      }
      groups := groups + [raw[k]];
    }
    assert raw[..|raw|] == raw;
  }

  lemma KeptOneMore<G>(raw: seq<G>, own: Kind<G>, k: nat)
    requires k < |raw|
    ensures Kept(raw[..k + 1], own) == Kept(raw[..k], own) + if own(raw[k]) then [] else [raw[k]]
  {
    assert raw[..k + 1] == raw[..k] + [raw[k]];
    KeptConcat(raw[..k], [raw[k]], own);
    KeptOne(raw[k], own);
  }

  method Place<G>(groups: seq<G>, anchor: Kind<G>, g: G) returns (r: seq<G>)
    ensures r == Before(groups, anchor) + [g] + From(groups, anchor)
  {
    hide Before, From;
    assert groups[0..] == groups && groups[..0] == [];
    for i := 0 to |groups|
      invariant Before(groups, anchor) == groups[..i] + Before(groups[i..], anchor)
      invariant From(groups, anchor) == From(groups[i..], anchor)
    {
      NotYet(groups, anchor, i);
      if anchor(groups[i]) {
        return groups[..i] + [g] + groups[i..];
      }
    }
    NoAnchor(groups, anchor);
    return groups + [g];
  }

  lemma NotYet<G>(groups: seq<G>, anchor: Kind<G>, i: nat)
    requires i < |groups|
    ensures if anchor(groups[i]) then groups[..i] + Before(groups[i..], anchor) == groups[..i] && From(groups[i..], anchor) == groups[i..]
            else
              && groups[..i] + Before(groups[i..], anchor) == groups[..i + 1] + Before(groups[i + 1..], anchor)
              && From(groups[i..], anchor) == From(groups[i + 1..], anchor)
  {
    assert groups[i..][0] == groups[i] && groups[i..][1..] == groups[i + 1..];
    assert groups[..i + 1] == groups[..i] + [groups[i]];
  }

  lemma NoAnchor<G>(groups: seq<G>, anchor: Kind<G>)
    ensures groups[..|groups|] + Before(groups[|groups|..], anchor) == groups && From(groups[|groups|..], anchor) == []
    ensures groups + [] == groups
  {}

  // ---- lists and kinds --------------------------------------------------

  predicate Free<G>(groups: seq<G>, kind: Kind<G>) {
    forall i | 0 <= i < |groups| :: !kind(groups[i])
  }

  /** Nothing, or a list that starts with a group of this kind. */
  predicate StartsWith<G>(groups: seq<G>, kind: Kind<G>) {
    groups == [] || kind(groups[0])
  }

  lemma {:induction false} KeptConcat<G>(a: seq<G>, b: seq<G>, own: Kind<G>)
    ensures Kept(a + b, own) == Kept(a, own) + Kept(b, own)
  {
    if a == [] {
      assert a + b == b;
    } else {
      assert (a + b)[1..] == a[1..] + b;
      KeptConcat(a[1..], b, own);
    }
  }

  lemma {:induction false} KeptAll<G>(a: seq<G>, own: Kind<G>)
    requires Free(a, own)
    ensures Kept(a, own) == a
  {
    if a != [] {
      KeptAll(a[1..], own);
    }
  }

  lemma KeptOne<G>(g: G, own: Kind<G>)
    ensures Kept([g], own) == if own(g) then [] else [g]
  {
    assert [g][1..] == [];
  }

  lemma {:induction false} Parts<G>(groups: seq<G>, anchor: Kind<G>)
    ensures groups == Before(groups, anchor) + From(groups, anchor)
    ensures Free(Before(groups, anchor), anchor) && StartsWith(From(groups, anchor), anchor)
  {
    if groups != [] && !anchor(groups[0]) {
      Parts(groups[1..], anchor);
    }
  }

  lemma {:induction false} PartsAre<G>(a: seq<G>, b: seq<G>, anchor: Kind<G>)
    requires Free(a, anchor) && StartsWith(b, anchor)
    ensures Before(a + b, anchor) == a && From(a + b, anchor) == b
  {
    if a == [] {
      assert a + b == b;
    } else {
      assert (a + b)[1..] == a[1..] + b;
      PartsAre(a[1..], b, anchor);
    }
  }

  /** What a merge does to a list cut at the anchor. */
  lemma MergedParts<G>(groups: seq<G>, own: Kind<G>, anchor: Kind<G>, g: G, a: seq<G>, b: seq<G>)
    requires Kept(groups, own) == a + b && Free(a, anchor) && StartsWith(b, anchor)
    ensures Merged(groups, own, anchor, g) == a + [g] + b
  {
    PartsAre(a, b, anchor);
  }

  /** A merge repeated changes nothing. */
  lemma MergeTwice<G>(groups: seq<G>, own: Kind<G>, anchor: Kind<G>, g: G)
    requires own(g)
    ensures Merged(Merged(groups, own, anchor, g), own, anchor, g) == Merged(groups, own, anchor, g)
  {
    var kept := Kept(groups, own);
    var a, b := Before(kept, anchor), From(kept, anchor);
    Parts(kept, anchor);
    KeptConcat(a + [g], b, own);
    KeptConcat(a, [g], own);
    KeptOne(g, own);
    KeptAll(a, own);
    KeptAll(b, own);
    assert a + [] == a;
    MergedParts(a + [g] + b, own, anchor, g, a, b);
  }

  // ---- the merges of one run --------------------------------------------

  /** The kinds of groups, and the three groups of this run. */
  datatype Setup<!G> = Setup(
    capture: Kind<G>, inbox: Kind<G>, wake: Kind<G>, anyInbox: Kind<G>, anyWake: Kind<G>,
    c: G, i: G, w: G)

  /** Own inbox and wake groups look like inbox and wake groups; each of the run's
      groups is of its own kind and of no other. */
  ghost predicate Lawful<G(!new)>(s: Setup<G>) {
    && (forall g :: s.inbox(g) ==> s.anyInbox(g)) && (forall g :: s.wake(g) ==> s.anyWake(g))
    && s.capture(s.c) && !s.inbox(s.c) && !s.wake(s.c) && !s.anyInbox(s.c) && !s.anyWake(s.c)
    && s.inbox(s.i) && !s.capture(s.i) && !s.wake(s.i) && !s.anyWake(s.i)
    && s.wake(s.w) && !s.capture(s.w) && !s.inbox(s.w) && !s.anyInbox(s.w)
  }

  function Never<G>(): Kind<G> {
    g => false
  }

  function Capture<G>(s: Setup<G>, groups: seq<G>): seq<G> {
    Merged(groups, s.capture, s.anyInbox, s.c)
  }

  function Inbox<G>(s: Setup<G>, groups: seq<G>): seq<G> {
    Merged(groups, s.inbox, s.anyWake, s.i)
  }

  function Wake<G>(s: Setup<G>, groups: seq<G>): seq<G> {
    Merged(groups, s.wake, Never(), s.w)
  }

  /** A run with messaging. */
  function Run<G>(s: Setup<G>, groups: seq<G>): seq<G> {
    Inbox(s, Capture(s, groups))
  }

  /** A run with the wake bridge as well. */
  function RunWake<G>(s: Setup<G>, groups: seq<G>): seq<G> {
    Wake(s, Run(s, groups))
  }

  lemma FreeConcat<G>(a: seq<G>, b: seq<G>, kind: Kind<G>)
    ensures Free(a + b, kind) <==> Free(a, kind) && Free(b, kind)
  {
    assert forall i | 0 <= i < |a| :: (a + b)[i] == a[i];
    assert forall i | 0 <= i < |b| :: (a + b)[|a| + i] == b[i];
  }

  lemma InboxIsAny<G(!new)>(s: Setup<G>, a: seq<G>)
    requires Lawful(s)
    ensures Free(a, s.anyInbox) ==> Free(a, s.inbox)
    ensures Free(a, s.anyWake) ==> Free(a, s.wake)
  {}

  lemma CaptureIs<G>(s: Setup<G>, groups: seq<G>, a: seq<G>, b: seq<G>)
    requires Kept(groups, s.capture) == a + b && Free(a, s.anyInbox) && StartsWith(b, s.anyInbox)
    ensures Capture(s, groups) == a + [s.c] + b
  {
    MergedParts(groups, s.capture, s.anyInbox, s.c, a, b);
  }

  lemma InboxIs<G>(s: Setup<G>, groups: seq<G>, a: seq<G>, b: seq<G>)
    requires Kept(groups, s.inbox) == a + b && Free(a, s.anyWake) && StartsWith(b, s.anyWake)
    ensures Inbox(s, groups) == a + [s.i] + b
  {
    MergedParts(groups, s.inbox, s.anyWake, s.i, a, b);
  }

  lemma Assoc<G>(x: seq<G>, y: seq<G>, z: seq<G>)
    ensures x + (y + z) == (x + y) + z
  {}

  /** A run where no wake group precedes the capture group. */
  lemma RunPlain<G(!new)>(s: Setup<G>, groups: seq<G>, a: seq<G>, b: seq<G>, b1: seq<G>, b2: seq<G>)
    requires Lawful(s) && Kept(groups, s.capture) == a + b
    requires Free(a, s.anyInbox) && Free(a, s.anyWake) && StartsWith(b, s.anyInbox)
    requires Kept(b, s.inbox) == b1 + b2 && Free(b1, s.anyWake) && StartsWith(b2, s.anyWake)
    ensures Run(s, groups) == a + [s.c] + b1 + [s.i] + b2
  {
    CaptureIs(s, groups, a, b);
    KeptAfterCapture(s, a, b);
    assert Run(s, groups) == Inbox(s, a + [s.c] + b);
    hide *;
    FreeConcat(a, [s.c], s.anyWake);
    FreeConcat(a + [s.c], b1, s.anyWake);
    Assoc(a + [s.c], b1, b2);
    InboxIs(s, a + [s.c] + b, a + [s.c] + b1, b2);
  }

  lemma KeptAfterCapture<G(!new)>(s: Setup<G>, a: seq<G>, b: seq<G>)
    requires Lawful(s) && Free(a, s.anyInbox)
    ensures Kept(a + [s.c] + b, s.inbox) == a + [s.c] + Kept(b, s.inbox)
    ensures Free([s.c], s.anyWake)
  {
    InboxIsAny(s, a);
    KeptConcat(a + [s.c], b, s.inbox);
    FreeConcat(a, [s.c], s.inbox);
    KeptAll(a + [s.c], s.inbox);
  }

  /** A run where one does: the inbox group goes before it, ahead of the capture group. */
  lemma RunPast<G(!new)>(s: Setup<G>, groups: seq<G>, a1: seq<G>, a2: seq<G>, b: seq<G>)
    requires Lawful(s) && Kept(groups, s.capture) == (a1 + a2) + b
    requires Free(a1 + a2, s.anyInbox) && StartsWith(b, s.anyInbox)
    requires Free(a1, s.anyWake) && a2 != [] && s.anyWake(a2[0])
    ensures Run(s, groups) == a1 + [s.i] + (a2 + [s.c] + Kept(b, s.inbox))
  {
    var a, back := a1 + a2, a2 + [s.c] + Kept(b, s.inbox);
    CaptureIs(s, groups, a, b);
    KeptAfterCapture(s, a, b);
    assert StartsWith(back, s.anyWake);
    assert Run(s, groups) == Inbox(s, a + [s.c] + b);
    hide *;
    Assoc(a1, a2, [s.c]);
    Assoc(a1, a2 + [s.c], Kept(b, s.inbox));
    InboxIs(s, a + [s.c] + b, a1, back);
  }

  // ---- convergence ------------------------------------------------------

  /** One step on a list already in the plain shape: the capture group moves to the
      first inbox group, everything else stays. */
  lemma PlainAgain<G(!new)>(s: Setup<G>, a: seq<G>, b1: seq<G>, b2: seq<G>)
    requires Lawful(s) && Ours(s, a + b1 + b2)
    requires Free(a, s.anyInbox) && Free(a, s.anyWake) && Free(b1, s.anyWake) && StartsWith(b2, s.anyWake)
    ensures Run(s, a + [s.c] + b1 + [s.i] + b2)
         == (a + Before(b1, s.anyInbox)) + [s.c] + From(b1, s.anyInbox) + [s.i] + b2
  {
    var x, y := Before(b1, s.anyInbox), From(b1, s.anyInbox);
    var l, rest := a + [s.c] + b1 + [s.i] + b2, y + [s.i] + b2;
    Parts(b1, s.anyInbox);
    OursParts(s, a, b1, b2);
    OursConcat(s, x, y);
    assert StartsWith(rest, s.anyInbox);
    hide *;
    KeptShape(s, a, b1, b2);
    KeptBack(s, y, b2);
    FreeConcat(a, x, s.anyInbox);
    FreeConcat(x, y, s.anyWake);
    FreeConcat(a, x, s.anyWake);
    Assoc(a, x, y);
    Assoc(a + x, y, [s.i]);
    Assoc(a + x, y + [s.i], b2);
    RunPlain(s, l, a + x, rest, y, b2);
  }

  lemma OursConcat<G>(s: Setup<G>, a: seq<G>, b: seq<G>)
    ensures Ours(s, a + b) <==> Ours(s, a) && Ours(s, b)
  {
    FreeConcat(a, b, s.capture);
    FreeConcat(a, b, s.inbox);
  }

  /** No group of the run's own capture or inbox kind. */
  predicate Ours<G>(s: Setup<G>, groups: seq<G>) {
    Free(groups, s.capture) && Free(groups, s.inbox)
  }

  lemma OursParts<G>(s: Setup<G>, a: seq<G>, b: seq<G>, c: seq<G>)
    ensures Ours(s, a + b + c) <==> Ours(s, a) && Ours(s, b) && Ours(s, c)
  {
    OursConcat(s, a + b, c);
    OursConcat(s, a, b);
  }

  lemma KeptShape<G(!new)>(s: Setup<G>, a: seq<G>, b1: seq<G>, b2: seq<G>)
    requires Lawful(s) && Ours(s, a) && Ours(s, b1) && Ours(s, b2)
    ensures Kept(a + [s.c] + b1 + [s.i] + b2, s.capture) == a + b1 + [s.i] + b2
  {
    KeptConcat(a + [s.c] + b1 + [s.i], b2, s.capture);
    KeptConcat(a + [s.c] + b1, [s.i], s.capture);
    KeptConcat(a + [s.c], b1, s.capture);
    KeptConcat(a, [s.c], s.capture);
    KeptAll(a, s.capture);
    KeptAll(b1, s.capture);
    KeptAll(b2, s.capture);
    KeptOne(s.c, s.capture);
    KeptOne(s.i, s.capture);
    assert a + [] == a;
  }

  lemma KeptBack<G(!new)>(s: Setup<G>, y: seq<G>, b2: seq<G>)
    requires Lawful(s) && Ours(s, y) && Ours(s, b2)
    ensures Kept(y + [s.i] + b2, s.inbox) == y + b2
  {
    KeptConcat(y + [s.i], b2, s.inbox);
    KeptConcat(y, [s.i], s.inbox);
    KeptAll(y, s.inbox);
    KeptAll(b2, s.inbox);
    KeptOne(s.i, s.inbox);
    assert y + [] == y;
  }

  /** A run on a list in the other shape brings it into the plain one. */
  lemma PastAgain<G(!new)>(s: Setup<G>, a1: seq<G>, a2: seq<G>, b: seq<G>)
    requires Lawful(s) && Ours(s, a1) && Ours(s, a2) && Ours(s, b)
    requires Free(a1, s.anyInbox) && Free(a1, s.anyWake) && a2 != [] && s.anyWake(a2[0])
    ensures Run(s, a1 + [s.i] + (a2 + [s.c] + b)) == a1 + [s.c] + [] + [s.i] + (a2 + b)
  {
    var l, rest := a1 + [s.i] + (a2 + [s.c] + b), [s.i] + (a2 + b);
    KeptPast(s, a1, a2, b);
    assert Free<G>([], s.anyWake) && StartsWith(rest, s.anyInbox) && StartsWith(a2 + b, s.anyWake);
    assert [] + (a2 + b) == a2 + b;
    hide *;
    Assoc(a1, [s.i], a2 + b);
    RunPlain(s, l, a1, rest, [], a2 + b);
  }

  lemma KeptPast<G(!new)>(s: Setup<G>, a1: seq<G>, a2: seq<G>, b: seq<G>)
    requires Lawful(s) && Ours(s, a1) && Ours(s, a2) && Ours(s, b)
    ensures Kept(a1 + [s.i] + (a2 + [s.c] + b), s.capture) == a1 + [s.i] + (a2 + b)
    ensures Kept([s.i] + (a2 + b), s.inbox) == a2 + b
  {
    KeptConcat(a1 + [s.i], a2 + [s.c] + b, s.capture);
    KeptConcat(a1, [s.i], s.capture);
    KeptConcat(a2 + [s.c], b, s.capture);
    KeptConcat(a2, [s.c], s.capture);
    KeptAll(a1, s.capture);
    KeptAll(a2, s.capture);
    KeptAll(b, s.capture);
    KeptOne(s.c, s.capture);
    KeptOne(s.i, s.capture);
    KeptConcat([s.i], a2 + b, s.inbox);
    KeptConcat(a2, b, s.inbox);
    KeptAll(a2, s.inbox);
    KeptAll(b, s.inbox);
    KeptOne(s.i, s.inbox);
    assert a2 + [] == a2 && [] + (a2 + b) == a2 + b;
  }

  /** A settled list: the capture group stands right before the first inbox group, and
      that comes before any wake group. */
  lemma SettledStays<G(!new)>(s: Setup<G>, a: seq<G>, b1: seq<G>, b2: seq<G>)
    requires Lawful(s) && Ours(s, a + b1 + b2) && StartsWith(b1, s.anyInbox)
    requires Free(a, s.anyInbox) && Free(a, s.anyWake) && Free(b1, s.anyWake) && StartsWith(b2, s.anyWake)
    ensures Run(s, a + [s.c] + b1 + [s.i] + b2) == a + [s.c] + b1 + [s.i] + b2
  {
    PartsAre([], b1, s.anyInbox);
    assert [] + b1 == b1 && a + [] == a;
    hide *;
    PlainAgain(s, a, b1, b2);
  }

  /** The parts of a list as the first run sees it: `a` before the first inbox group,
      `b` the rest without the run's own inbox groups. */
  function Front<G>(s: Setup<G>, groups: seq<G>): seq<G> {
    Before(Kept(groups, s.capture), s.anyInbox)
  }

  function Back<G>(s: Setup<G>, groups: seq<G>): seq<G> {
    Kept(From(Kept(groups, s.capture), s.anyInbox), s.inbox)
  }

  lemma PartsAreOurs<G(!new)>(s: Setup<G>, groups: seq<G>)
    requires Lawful(s)
    ensures Ours(s, Front(s, groups)) && Ours(s, Back(s, groups)) && Free(Front(s, groups), s.anyInbox)
  {
    var f := Kept(groups, s.capture);
    Parts(f, s.anyInbox);
    InboxIsAny(s, Before(f, s.anyInbox));
    var a, b := Before(f, s.anyInbox), From(f, s.anyInbox);
    assert forall g | g in f :: !s.capture(g);
    assert forall i | 0 <= i < |a| :: a[i] == f[i];
    assert forall g | g in b :: g in a + b;
    assert forall g | g in Kept(b, s.inbox) :: g in b && !s.inbox(g);
  }

  /** What the first run leaves, when no wake group stands in front. */
  lemma FirstPlain<G(!new)>(s: Setup<G>, groups: seq<G>)
    requires Lawful(s) && Free(Front(s, groups), s.anyWake)
    ensures var a, b := Front(s, groups), Back(s, groups);
            var b1, b2 := Before(b, s.anyWake), From(b, s.anyWake);
            && Run(s, groups) == a + [s.c] + b1 + [s.i] + b2
            && Ours(s, a + b1 + b2) && Free(b1, s.anyWake) && StartsWith(b2, s.anyWake)
  {
    var f, a, b := Kept(groups, s.capture), Front(s, groups), Back(s, groups);
    var b0, b1, b2 := From(f, s.anyInbox), Before(b, s.anyWake), From(b, s.anyWake);
    PartsAreOurs(s, groups);
    Parts(f, s.anyInbox);
    Parts(b, s.anyWake);
    assert f == a + b0 && b == Kept(b0, s.inbox);
    hide *;
    OursConcat(s, b1, b2);
    OursParts(s, a, b1, b2);
    RunPlain(s, groups, a, b0, b1, b2);
  }

  lemma FirstPast<G(!new)>(s: Setup<G>, groups: seq<G>)
    requires Lawful(s) && !Free(Front(s, groups), s.anyWake)
    ensures var a, b := Front(s, groups), Back(s, groups);
            var a1, a2 := Before(a, s.anyWake), From(a, s.anyWake);
            && Run(s, groups) == a1 + [s.i] + (a2 + [s.c] + b)
            && Ours(s, a1) && Ours(s, a2) && Ours(s, b)
            && Free(a1, s.anyInbox) && Free(a1, s.anyWake) && a2 != [] && s.anyWake(a2[0])
  {
    var f, a, b := Kept(groups, s.capture), Front(s, groups), Back(s, groups);
    var a1, a2 := Before(a, s.anyWake), From(a, s.anyWake);
    PartsAreOurs(s, groups);
    Parts(f, s.anyInbox);
    Parts(a, s.anyWake);
    assert a2 == [] ==> a == a1;
    assert f == (a1 + a2) + From(f, s.anyInbox);
    FreeConcat(a1, a2, s.anyInbox);
    OursConcat(s, a1, a2);
    RunPast(s, groups, a1, a2, From(f, s.anyInbox));
  }

  /** Whatever the list, two runs settle it. */
  lemma TwoRunsSettle<G(!new)>(s: Setup<G>, groups: seq<G>)
    requires Lawful(s)
    ensures Run(s, Run(s, Run(s, groups))) == Run(s, Run(s, groups))
  {
    var a, b := Front(s, groups), Back(s, groups);
    PartsAreOurs(s, groups);
    if Free(a, s.anyWake) {
      FirstPlain(s, groups);
      var b1, b2 := Before(b, s.anyWake), From(b, s.anyWake);
      SettlesPlain(s, a, b1, b2);
    } else {
      FirstPast(s, groups);
      var a1, a2 := Before(a, s.anyWake), From(a, s.anyWake);
      SettlesPast(s, a1, a2, b);
    }
  }

  lemma SettlesPlain<G(!new)>(s: Setup<G>, a: seq<G>, b1: seq<G>, b2: seq<G>)
    requires Lawful(s) && Ours(s, a + b1 + b2)
    requires Free(a, s.anyInbox) && Free(a, s.anyWake) && Free(b1, s.anyWake) && StartsWith(b2, s.anyWake)
    ensures var l := a + [s.c] + b1 + [s.i] + b2; Run(s, Run(s, l)) == Run(s, l)
  {
    var x, y := Before(b1, s.anyInbox), From(b1, s.anyInbox);
    PlainAgain(s, a, b1, b2);
    Parts(b1, s.anyInbox);
    hide *;
    FreeConcat(a, x, s.anyInbox);
    FreeConcat(x, y, s.anyWake);
    FreeConcat(a, x, s.anyWake);
    Assoc(a, x, y);
    SettledStays(s, a + x, y, b2);
  }

  lemma SettlesPast<G(!new)>(s: Setup<G>, a1: seq<G>, a2: seq<G>, b: seq<G>)
    requires Lawful(s) && Ours(s, a1) && Ours(s, a2) && Ours(s, b)
    requires Free(a1, s.anyInbox) && Free(a1, s.anyWake) && a2 != [] && s.anyWake(a2[0])
    ensures var l := a1 + [s.i] + (a2 + [s.c] + b); Run(s, Run(s, l)) == Run(s, l)
  {
    PastAgain(s, a1, a2, b);
    assert StartsWith(a2 + b, s.anyWake) && StartsWith<G>([], s.anyInbox) && Free<G>([], s.anyWake);
    assert Ours(s, a1 + [] + (a2 + b)) by {
      OursConcat(s, a2, b);
      OursParts(s, a1, [], a2 + b);
    }
    hide *;
    SettledStays(s, a1, [], a2 + b);
  }

  /** One run is enough exactly when no wake group stands before the first inbox group
      and, past it, no group but inbox ones comes first once the run's own inbox
      groups are taken out. */
  predicate OneRunIsEnough<G>(s: Setup<G>, groups: seq<G>) {
    Free(Front(s, groups), s.anyWake) && StartsWith(Before(Back(s, groups), s.anyWake), s.anyInbox)
  }

  lemma OneRunExactly<G(!new)>(s: Setup<G>, groups: seq<G>)
    requires Lawful(s)
    ensures Run(s, Run(s, groups)) == Run(s, groups) <==> OneRunIsEnough(s, groups)
  {
    var a, b := Front(s, groups), Back(s, groups);
    PartsAreOurs(s, groups);
    if Free(a, s.anyWake) {
      FirstPlain(s, groups);
      var b1, b2 := Before(b, s.anyWake), From(b, s.anyWake);
      if StartsWith(b1, s.anyInbox) {
        hide *;
        SettledStays(s, a, b1, b2);
      } else {
        PlainAgain(s, a, b1, b2);
        Moves(s, a, b1, b2);
      }
    } else {
      FirstPast(s, groups);
      var a1, a2 := Before(a, s.anyWake), From(a, s.anyWake);
      PastAgain(s, a1, a2, b);
      assert (a1 + [s.i] + (a2 + [s.c] + b))[|a1|] == s.i;
      assert (a1 + [s.c] + [] + [s.i] + (a2 + b))[|a1|] == s.c;
    }
  }

  lemma Moves<G(!new)>(s: Setup<G>, a: seq<G>, b1: seq<G>, b2: seq<G>)
    requires Lawful(s) && Ours(s, a + b1 + b2) && !StartsWith(b1, s.anyInbox)
    ensures (a + Before(b1, s.anyInbox)) + [s.c] + From(b1, s.anyInbox) + [s.i] + b2 != a + [s.c] + b1 + [s.i] + b2
  {
    var x := Before(b1, s.anyInbox);
    OursParts(s, a, b1, b2);
    assert x[0] == b1[0];
    assert ((a + x) + [s.c] + From(b1, s.anyInbox) + [s.i] + b2)[|a|] == x[0];
    assert (a + [s.c] + b1 + [s.i] + b2)[|a|] == s.c;
  }

  /** Without any punk inbox or wake group at the start, one run is enough. */
  lemma FreshListSettlesAtOnce<G(!new)>(s: Setup<G>, groups: seq<G>)
    requires Lawful(s) && Free(groups, s.anyInbox) && Free(groups, s.anyWake)
    ensures Run(s, Run(s, groups)) == Run(s, groups)
  {
    var f := Kept(groups, s.capture);
    assert forall i | 0 <= i < |f| :: f[i] in f && f[i] in groups;
    PartsAre(f, [], s.anyInbox);
    assert f + [] == f;
    assert Kept<G>([], s.inbox) == [];
    OneRunExactly(s, groups);
  }

  // ---- what survives ----------------------------------------------------

  lemma KeptFirst<G>(groups: seq<G>, own: Kind<G>)
    requires groups != []
    ensures Kept(groups, own) == if own(groups[0]) then Kept(groups[1..], own) else [groups[0]] + Kept(groups[1..], own)
  {
    assert [] + Kept(groups[1..], own) == Kept(groups[1..], own);
  }

  lemma KeptPrepend<G>(g: G, rest: seq<G>, own: Kind<G>)
    ensures Kept([g] + rest, own) == if own(g) then Kept(rest, own) else [g] + Kept(rest, own)
  {
    assert ([g] + rest)[1..] == rest;
    KeptFirst([g] + rest, own);
  }

  lemma {:induction false} KeptKept<G>(groups: seq<G>, own: Kind<G>, more: Kind<G>)
    requires forall g | g in groups :: own(g) ==> more(g)
    ensures Kept(Kept(groups, own), more) == Kept(groups, more)
  {
    if groups != [] {
      KeptKept(groups[1..], own, more);
      KeptFirst(groups, own);
      KeptFirst(groups, more);
      KeptPrepend(groups[0], Kept(groups[1..], own), more);
      assert groups[0] in groups;
    }
  }

  /** A merge leaves every other group in place and in order. */
  lemma MergeKeepsOthers<G>(groups: seq<G>, own: Kind<G>, anchor: Kind<G>, g: G, more: Kind<G>)
    requires more(g) && forall x | x in groups :: own(x) ==> more(x)
    ensures Kept(Merged(groups, own, anchor, g), more) == Kept(groups, more)
  {
    var kept := Kept(groups, own);
    var a, b := Before(kept, anchor), From(kept, anchor);
    Parts(kept, anchor);
    KeptKept(groups, own, more);
    KeptConcat(a + [g], b, more);
    KeptConcat(a, [g], more);
    KeptOne(g, more);
    KeptConcat(a, b, more);
    assert Kept(a, more) + [] == Kept(a, more);
  }

  /** The groups that are neither capture nor own inbox groups keep their order, and of
      each of those two kinds exactly the fresh one remains. */
  lemma RunKeepsUsers<G(!new)>(s: Setup<G>, groups: seq<G>)
    requires Lawful(s)
    ensures var users := (g: G) => s.capture(g) || s.inbox(g); Kept(Run(s, groups), users) == Kept(groups, users)
    ensures Kept(Run(s, groups), g => !s.capture(g)) == [s.c]
    ensures Kept(Run(s, groups), g => !s.inbox(g)) == [s.i]
  {
    var users := (g: G) => s.capture(g) || s.inbox(g);
    var l := Capture(s, groups);
    MergeKeepsOthers(groups, s.capture, s.anyInbox, s.c, users);
    MergeKeepsOthers(l, s.inbox, s.anyWake, s.i, users);
    OnlyFresh(groups, s.capture, s.anyInbox, s.c);
    OnlyFresh(l, s.inbox, s.anyWake, s.i);
    var kept := Kept(l, s.inbox);
    var a, b := Before(kept, s.anyWake), From(kept, s.anyWake);
    var others := (g: G) => !s.capture(g);
    Parts(kept, s.anyWake);
    KeptConcat(a + [s.i], b, others);
    KeptConcat(a, [s.i], others);
    KeptOne(s.i, others);
    KeptConcat(a, b, others);
    assert Kept(a, others) + [] == Kept(a, others);
    KeptTwice(l, s.inbox, others, s.c);
  }

  lemma {:induction false} KeptTwice<G>(l: seq<G>, own: Kind<G>, others: Kind<G>, c: G)
    requires Kept(l, others) == [c] && !own(c)
    ensures Kept(Kept(l, own), others) == [c]
  {
    KeptCommute(l, own, others);
    KeptOne(c, own);
  }

  lemma {:induction false} KeptCommute<G>(l: seq<G>, p: Kind<G>, q: Kind<G>)
    ensures Kept(Kept(l, p), q) == Kept(Kept(l, q), p)
  {
    if l != [] {
      KeptCommute(l[1..], p, q);
      KeptFirst(l, p);
      KeptFirst(l, q);
      KeptPrepend(l[0], Kept(l[1..], p), q);
      KeptPrepend(l[0], Kept(l[1..], q), p);
      hide *;
    }
  }

  lemma OnlyFresh<G>(groups: seq<G>, own: Kind<G>, anchor: Kind<G>, g: G)
    requires own(g)
    ensures Kept(Merged(groups, own, anchor, g), x => !own(x)) == [g]
  {
    var others := (x: G) => !own(x);
    var kept := Kept(groups, own);
    var a, b := Before(kept, anchor), From(kept, anchor);
    Parts(kept, anchor);
    assert forall x | x in a + b :: !own(x);
    AllDropped(a, others);
    AllDropped(b, others);
    KeptConcat(a + [g], b, others);
    KeptConcat(a, [g], others);
    KeptOne(g, others);
  }

  lemma {:induction false} AllDropped<G>(a: seq<G>, own: Kind<G>)
    requires forall x | x in a :: own(x)
    ensures Kept(a, own) == []
  {
    if a != [] {
      AllDropped(a[1..], own);
    }
  }

  // ---- with the wake bridge ---------------------------------------------

  /** A last element that a merge neither takes out nor is placed after stays last. */
  lemma MergedBeforeLast<G>(groups: seq<G>, own: Kind<G>, anchor: Kind<G>, g: G, w: G)
    requires !own(w) && (anchor(w) || !Free(Kept(groups, own), anchor))
    ensures Merged(groups + [w], own, anchor, g) == Merged(groups, own, anchor, g) + [w]
  {
    var kept := Kept(groups, own);
    var a, b := Before(kept, anchor), From(kept, anchor);
    KeptConcat(groups, [w], own);
    KeptOne(w, own);
    Parts(kept, anchor);
    assert b == [] ==> kept == a by {
      assert a + [] == a;
    }
    assert StartsWith(b + [w], anchor);
    hide *;
    Assoc(a, b, [w]);
    Assoc(a + [g], b, [w]);
    MergedParts(groups + [w], own, anchor, g, a, b + [w]);
    MergedParts(groups, own, anchor, g, a, b);
  }

  /** A list the wake merge has been over: its own group last, an inbox group before it. */
  predicate Waked<G(==)>(s: Setup<G>, groups: seq<G>) {
    && groups != [] && groups[|groups| - 1] == s.w
    && Free(groups[..|groups| - 1], s.wake) && s.i in groups[..|groups| - 1]
  }

  lemma MergedHolds<G>(groups: seq<G>, own: Kind<G>, anchor: Kind<G>, g: G)
    ensures forall x :: x in Merged(groups, own, anchor, g) <==> x == g || (x in groups && !own(x))
  {
    var kept := Kept(groups, own);
    Parts(kept, anchor);
    KeptHolds(groups, own);
    assert forall x :: x in kept <==> x in Before(kept, anchor) || x in From(kept, anchor);
  }

  lemma {:induction false} KeptHolds<G>(groups: seq<G>, own: Kind<G>)
    ensures forall x :: x in Kept(groups, own) <==> x in groups && !own(x)
  {
    if groups != [] {
      KeptHolds(groups[1..], own);
      KeptFirst(groups, own);
      assert forall x :: x in groups <==> x == groups[0] || x in groups[1..];
    }
  }

  lemma FreeMeans<G>(groups: seq<G>, kind: Kind<G>)
    ensures Free(groups, kind) <==> forall x | x in groups :: !kind(x)
  {}

  lemma WakeLast<G>(s: Setup<G>, groups: seq<G>)
    ensures Wake(s, groups) == Kept(groups, s.wake) + [s.w]
  {
    var kept := Kept(groups, s.wake);
    PartsAre(kept, [], Never<G>());
    assert kept + [] == kept && kept + [s.w] + [] == kept + [s.w];
  }

  /** After one run with the wake bridge, the wake merge has nothing left to do. */
  lemma WakeIsIdle<G(!new)>(s: Setup<G>, groups: seq<G>)
    requires Lawful(s) && Waked(s, groups)
    ensures RunWake(s, groups) == Run(s, groups) && Waked(s, Run(s, groups))
  {
    var l := groups[..|groups| - 1];
    assert groups == l + [s.w];
    var r := Run(s, l);
    hide Run, Kept, Free;
    RunBeforeLast(s, l);
    KeptConcat(r, [s.w], s.wake);
    KeptOne(s.w, s.wake);
    KeptAll(r, s.wake);
    WakeLast(s, r + [s.w]);
    assert r + [] == r;
    assert (r + [s.w])[..|r|] == r;
  }

  /** The run goes on before its own wake group, and brings no other. */
  lemma RunBeforeLast<G(!new)>(s: Setup<G>, l: seq<G>)
    requires Lawful(s) && Free(l, s.wake) && s.i in l
    ensures Run(s, l + [s.w]) == Run(s, l) + [s.w] && Free(Run(s, l), s.wake) && s.i in Run(s, l)
  {
    KeptHolds(l, s.capture);
    FreeMeans(Kept(l, s.capture), s.anyInbox);
    FreeMeans(l, s.wake);
    FreeMeans(Run(s, l), s.wake);
    hide Kept, Free, Merged;
    MergedBeforeLast(l, s.capture, s.anyInbox, s.c, s.w);
    MergedBeforeLast(Capture(s, l), s.inbox, s.anyWake, s.i, s.w);
    MergedHolds(l, s.capture, s.anyInbox, s.c);
    MergedHolds(Capture(s, l), s.inbox, s.anyWake, s.i);
  }

  lemma FirstWakes<G(!new)>(s: Setup<G>, groups: seq<G>)
    requires Lawful(s)
    ensures Waked(s, RunWake(s, groups))
  {
    var r := Run(s, groups);
    WakeLast(s, r);
    KeptHolds(r, s.wake);
    MergedHolds(Capture(s, groups), s.inbox, s.anyWake, s.i);
    FreeMeans(Kept(r, s.wake), s.wake);
    assert (Kept(r, s.wake) + [s.w])[..|Kept(r, s.wake)|] == Kept(r, s.wake);
  }

  /** With the wake bridge three runs settle any list. */
  lemma ThreeRunsSettle<G(!new)>(s: Setup<G>, groups: seq<G>)
    requires Lawful(s)
    ensures var r := RunWake(s, RunWake(s, RunWake(s, groups))); RunWake(s, r) == r
  {
    var m := RunWake(s, groups);
    FirstWakes(s, groups);
    WakeIsIdle(s, m);
    WakeIsIdle(s, Run(s, m));
    WakeIsIdle(s, Run(s, Run(s, m)));
    TwoRunsSettle(s, m);
    hide *;
  }

  // ---- when two runs with the bridge are enough --------------------------

  /** With the run's own wake groups out, what stands behind the place of the inbox
      group is nothing, an inbox group, or a wake group. */
  predicate NothingToPass<G>(s: Setup<G>, behind: seq<G>) {
    StartsWith(Before(Kept(behind, s.wake), s.anyWake), s.anyInbox)
  }

  /** Two runs with the bridge are enough exactly when no group has to pass punk's
      inbox group once its wake groups have moved to the end: there is an inbox group
      of another client between the capture group and the first wake group, or no
      group of the user comes first behind the place of the inbox group. */
  predicate TwoRunsAreEnough<G>(s: Setup<G>, groups: seq<G>) {
    var a, b := Front(s, groups), Back(s, groups);
    if Free(a, s.anyWake) then
      !Free(Before(b, s.anyWake), s.anyInbox) || NothingToPass(s, From(b, s.anyWake))
    else
      NothingToPass(s, From(a, s.anyWake) + b)
  }

  lemma BeforeMore<G>(y: seq<G>, r: seq<G>, anchor: Kind<G>)
    requires Free(y, anchor)
    ensures Before(y + r, anchor) == y + Before(r, anchor)
  {
    Parts(r, anchor);
    FreeConcat(y, Before(r, anchor), anchor);
    PartsAre(y + Before(r, anchor), From(r, anchor), anchor);
    Assoc(y, Before(r, anchor), From(r, anchor));
  }

  /** A last group of the anchor's kind cuts nothing off. */
  lemma BeforeLast<G>(k: seq<G>, w: G, anchor: Kind<G>)
    requires anchor(w)
    ensures Before(k + [w], anchor) == Before(k, anchor)
  {
    var a, b := Before(k, anchor), From(k, anchor);
    Parts(k, anchor);
    assert StartsWith(b + [w], anchor);
    hide *;
    Assoc(a, b, [w]);
    PartsAre(a, b + [w], anchor);
  }

  lemma OursKept<G(!new)>(s: Setup<G>, a: seq<G>, kind: Kind<G>)
    requires Lawful(s) && Ours(s, a)
    ensures Ours(s, Kept(a, kind)) && Ours(s, Kept(a, kind) + [s.w])
  {
    var k := Kept(a, kind);
    assert forall g | g in k :: g in a;
    OursConcat(s, k, [s.w]);
  }

  /** What the first run leaves, when no wake group stands in front. */
  lemma WakedPlain<G(!new)>(s: Setup<G>, groups: seq<G>)
    requires Lawful(s) && Free(Front(s, groups), s.anyWake)
    ensures var a, b := Front(s, groups), Back(s, groups);
            var b1, b2 := Before(b, s.anyWake), From(b, s.anyWake);
            && RunWake(s, groups) == a + [s.c] + b1 + [s.i] + (Kept(b2, s.wake) + [s.w])
            && Ours(s, a + b1 + b2) && Free(a, s.anyInbox) && Free(b1, s.anyWake)
  {
    var a, b := Front(s, groups), Back(s, groups);
    var b1, b2 := Before(b, s.anyWake), From(b, s.anyWake);
    FirstPlain(s, groups);
    PartsAreOurs(s, groups);
    WakeLast(s, Run(s, groups));
    InboxIsAny(s, a);
    InboxIsAny(s, b1);
    KeptAround(s, a, b1, b2);
    hide *;
    Assoc(a + [s.c] + b1 + [s.i], Kept(b2, s.wake), [s.w]);
    RunWakeIs(s, groups);
  }

  lemma RunWakeIs<G>(s: Setup<G>, groups: seq<G>)
    ensures RunWake(s, groups) == Wake(s, Run(s, groups))
  {}

  lemma KeptAround<G(!new)>(s: Setup<G>, a: seq<G>, b1: seq<G>, b2: seq<G>)
    requires Lawful(s) && Free(a, s.wake) && Free(b1, s.wake)
    ensures Kept(a + [s.c] + b1 + [s.i] + b2, s.wake) == a + [s.c] + b1 + [s.i] + Kept(b2, s.wake)
  {
    KeptConcat(a + [s.c] + b1 + [s.i], b2, s.wake);
    KeptConcat(a + [s.c] + b1, [s.i], s.wake);
    KeptConcat(a + [s.c], b1, s.wake);
    KeptConcat(a, [s.c], s.wake);
    KeptAll(a, s.wake);
    KeptAll(b1, s.wake);
    KeptOne(s.c, s.wake);
    KeptOne(s.i, s.wake);
  }

  /** The parts of such a list, as the second run sees them. */
  lemma PlainSeen<G(!new)>(s: Setup<G>, a: seq<G>, b1: seq<G>, k: seq<G>)
    requires Lawful(s) && Ours(s, a) && Ours(s, b1) && Ours(s, k + [s.w])
    requires Free(a, s.anyInbox) && Free(a, s.anyWake) && Free(b1, s.anyWake)
    ensures var m := a + [s.c] + b1 + [s.i] + (k + [s.w]);
            OneRunIsEnough(s, m) <==> !Free(b1, s.anyInbox) || StartsWith(Before(k, s.anyWake), s.anyInbox)
  {
    var x, y, t := Before(b1, s.anyInbox), From(b1, s.anyInbox), k + [s.w];
    Parts(b1, s.anyInbox);
    OursConcat(s, x, y);
    FreeConcat(x, y, s.anyInbox);
    FreeConcat(x, y, s.anyWake);
    FreeConcat(a, x, s.anyInbox);
    FreeConcat(a, x, s.anyWake);
    SeenPlain(s, a, x, y, t);
    BeforeMore(y, t, s.anyWake);
    BeforeLast(k, s.w, s.anyWake);
    assert y == [] ==> y + Before(k, s.anyWake) == Before(k, s.anyWake);
  }

  lemma SeenPlain<G(!new)>(s: Setup<G>, a: seq<G>, x: seq<G>, y: seq<G>, t: seq<G>)
    requires Lawful(s) && Ours(s, a) && Ours(s, x + y) && Ours(s, y) && Ours(s, t)
    requires Free(a + x, s.anyInbox) && StartsWith(y, s.anyInbox)
    ensures var m := a + [s.c] + (x + y) + [s.i] + t; Front(s, m) == a + x && Back(s, m) == y + t
  {
    KeptShape(s, a, x + y, t);
    KeptBack(s, y, t);
    assert StartsWith(y + [s.i] + t, s.anyInbox);
    hide *;
    Regroup(a, x, y, [s.i], t);
    PartsAre(a + x, y + [s.i] + t, s.anyInbox);
    SeenIs(s, a + [s.c] + (x + y) + [s.i] + t);
  }

  lemma Regroup<G>(a: seq<G>, x: seq<G>, y: seq<G>, i: seq<G>, t: seq<G>)
    ensures a + (x + y) + i + t == (a + x) + (y + i + t)
  {}

  lemma SeenIs<G>(s: Setup<G>, groups: seq<G>)
    ensures Front(s, groups) == Before(Kept(groups, s.capture), s.anyInbox)
    ensures Back(s, groups) == Kept(From(Kept(groups, s.capture), s.anyInbox), s.inbox)
  {}

  lemma WakedPast<G(!new)>(s: Setup<G>, groups: seq<G>)
    requires Lawful(s) && !Free(Front(s, groups), s.anyWake)
    ensures var a, b := Front(s, groups), Back(s, groups);
            var a1, a2 := Before(a, s.anyWake), From(a, s.anyWake);
            && RunWake(s, groups) == a1 + [s.i] + (Kept(a2, s.wake) + [s.c] + (Kept(b, s.wake) + [s.w]))
            && Ours(s, a1) && Ours(s, a2) && Ours(s, b) && Free(a1, s.anyInbox) && Free(a1, s.anyWake)
  {
    var a, b := Front(s, groups), Back(s, groups);
    var a1, a2 := Before(a, s.anyWake), From(a, s.anyWake);
    FirstPast(s, groups);
    WakeLast(s, Run(s, groups));
    RunWakeIs(s, groups);
    InboxIsAny(s, a1);
    KeptBetween(s, a1, a2, b);
  }

  lemma KeptBetween<G(!new)>(s: Setup<G>, a1: seq<G>, a2: seq<G>, b: seq<G>)
    requires Lawful(s) && Free(a1, s.wake)
    ensures Kept(a1 + [s.i] + (a2 + [s.c] + b), s.wake) + [s.w]
         == a1 + [s.i] + (Kept(a2, s.wake) + [s.c] + (Kept(b, s.wake) + [s.w]))
  {
    KeptOne(s.c, s.wake);
    KeptOne(s.i, s.wake);
    assert Kept([s.c], s.wake) == [s.c] && Kept([s.i], s.wake) == [s.i];
    hide *;
    var k2, kb := Kept(a2, s.wake), Kept(b, s.wake);
    KeptConcat(a1 + [s.i], a2 + [s.c] + b, s.wake);
    KeptConcat(a1, [s.i], s.wake);
    KeptConcat(a2 + [s.c], b, s.wake);
    KeptConcat(a2, [s.c], s.wake);
    KeptAll(a1, s.wake);
    Assoc(k2 + [s.c], kb, [s.w]);
    Assoc(a1 + [s.i], k2 + [s.c] + kb, [s.w]);
  }

  lemma PastSeen<G(!new)>(s: Setup<G>, a1: seq<G>, k2: seq<G>, kb: seq<G>)
    requires Lawful(s) && Ours(s, a1) && Ours(s, k2) && Ours(s, kb + [s.w])
    requires Free(a1, s.anyInbox) && Free(a1, s.anyWake)
    ensures var m := a1 + [s.i] + (k2 + [s.c] + (kb + [s.w]));
            OneRunIsEnough(s, m) <==> StartsWith(Before(k2 + kb, s.anyWake), s.anyInbox)
  {
    var t := kb + [s.w];
    KeptPast(s, a1, k2, t);
    assert StartsWith([s.i] + (k2 + t), s.anyInbox);
    Assoc(a1, [s.i], k2 + t);
    PartsAre(a1, [s.i] + (k2 + t), s.anyInbox);
    Assoc(k2, kb, [s.w]);
    BeforeLast(k2 + kb, s.w, s.anyWake);
    SeenIs(s, a1 + [s.i] + (k2 + [s.c] + t));
  }

  /** With the wake bridge two runs settle a list exactly when `TwoRunsAreEnough`. */
  lemma TwoRunsExactly<G(!new)>(s: Setup<G>, groups: seq<G>)
    requires Lawful(s)
    ensures var r := RunWake(s, RunWake(s, groups)); RunWake(s, r) == r <==> TwoRunsAreEnough(s, groups)
  {
    var m := RunWake(s, groups);
    FirstWakes(s, groups);
    WakeIsIdle(s, m);
    WakeIsIdle(s, Run(s, m));
    OneRunExactly(s, m);
    EnoughExactly(s, groups);
    hide *;
  }

  lemma EnoughExactly<G(!new)>(s: Setup<G>, groups: seq<G>)
    requires Lawful(s)
    ensures OneRunIsEnough(s, RunWake(s, groups)) <==> TwoRunsAreEnough(s, groups)
  {
    var a, b := Front(s, groups), Back(s, groups);
    if Free(a, s.anyWake) {
      WakedPlain(s, groups);
      var b1, b2 := Before(b, s.anyWake), From(b, s.anyWake);
      OursParts(s, a, b1, b2);
      OursKept(s, b2, s.wake);
      hide Lawful, Ours, Front, Back, OneRunIsEnough, RunWake;
      PlainSeen(s, a, b1, Kept(b2, s.wake));
    } else {
      WakedPast(s, groups);
      var a1, a2 := Before(a, s.anyWake), From(a, s.anyWake);
      OursKept(s, a2, s.wake);
      OursKept(s, b, s.wake);
      KeptConcat(a2, b, s.wake);
      hide Lawful, Ours, Front, Back, OneRunIsEnough, RunWake;
      PastSeen(s, a1, Kept(a2, s.wake), Kept(b, s.wake));
    }
  }

  /** The same with the bridge: other groups keep their order, and of each of the three
      kinds exactly the fresh group remains, the wake group last. */
  lemma RunWakeKeepsUsers<G(!new)>(s: Setup<G>, groups: seq<G>)
    requires Lawful(s)
    ensures var users := (g: G) => s.capture(g) || s.inbox(g) || s.wake(g);
            Kept(RunWake(s, groups), users) == Kept(groups, users)
    ensures Kept(RunWake(s, groups), g => !s.capture(g)) == [s.c]
    ensures Kept(RunWake(s, groups), g => !s.inbox(g)) == [s.i]
    ensures Kept(RunWake(s, groups), g => !s.wake(g)) == [s.w]
    ensures RunWake(s, groups) != [] && RunWake(s, groups)[|RunWake(s, groups)| - 1] == s.w
  {
    var users := (g: G) => s.capture(g) || s.inbox(g) || s.wake(g);
    var l, r := Capture(s, groups), Run(s, groups);
    MergeKeepsOthers(groups, s.capture, s.anyInbox, s.c, users);
    MergeKeepsOthers(l, s.inbox, s.anyWake, s.i, users);
    MergeKeepsOthers(r, s.wake, Never(), s.w, users);
    OnlyFresh(r, s.wake, Never(), s.w);
    RunKeepsUsers(s, groups);
    WakeLast(s, r);
    OthersStay(r, s.wake, g => !s.capture(g), s.c, s.w);
    OthersStay(r, s.wake, g => !s.inbox(g), s.i, s.w);
  }

  lemma OthersStay<G>(r: seq<G>, own: Kind<G>, others: Kind<G>, c: G, w: G)
    requires Kept(r, others) == [c] && !own(c) && others(w)
    ensures Kept(Kept(r, own) + [w], others) == [c]
  {
    KeptTwice(r, own, others, c);
    KeptConcat(Kept(r, own), [w], others);
    KeptOne(w, others);
  }

  // ---- a connect run, which finds out for itself whether there is a bridge --

  /** The bridge is asked for, or was installed before: for this list, in it; for
      the other lists of the file, that is part of `asked`. */
  predicate Bridged<G>(s: Setup<G>, asked: bool, groups: seq<G>) {
    asked || !Free(groups, s.wake)
  }

  function Connect<G>(s: Setup<G>, asked: bool, groups: seq<G>): seq<G> {
    if Bridged(s, asked, groups) then RunWake(s, groups) else Run(s, groups)
  }

  lemma BridgedStays<G(!new)>(s: Setup<G>, asked: bool, groups: seq<G>)
    requires Lawful(s)
    ensures Bridged(s, asked, Connect(s, asked, groups)) <==> Bridged(s, asked, groups)
  {
    var r := Run(s, groups);
    if Bridged(s, asked, groups) {
      WakeLast(s, r);
      var m := RunWake(s, groups);
      assert m[|m| - 1] == s.w;
    } else {
      FreeMeans(groups, s.wake);
      FreeMeans(r, s.wake);
      MergedHolds(groups, s.capture, s.anyInbox, s.c);
      MergedHolds(Capture(s, groups), s.inbox, s.anyWake, s.i);
    }
  }

  /** A connect run repeated: three always settle a list, and two do exactly when it
      has no bridge or `TwoRunsAreEnough`. */
  lemma ConnectSettles<G(!new)>(s: Setup<G>, asked: bool, groups: seq<G>)
    requires Lawful(s)
    ensures var r := Connect(s, asked, Connect(s, asked, groups));
            && (Connect(s, asked, r) == r <==> !Bridged(s, asked, groups) || TwoRunsAreEnough(s, groups))
            && Connect(s, asked, Connect(s, asked, r)) == Connect(s, asked, r)
  {
    var a := Connect(s, asked, groups);
    var b := Connect(s, asked, a);
    BridgedStays(s, asked, groups);
    BridgedStays(s, asked, a);
    BridgedStays(s, asked, b);
    if Bridged(s, asked, groups) {
      ThreeRunsSettle(s, groups);
      TwoRunsExactly(s, groups);
    } else {
      TwoRunsSettle(s, groups);
    }
    hide Lawful, Bridged, RunWake, Run, TwoRunsAreEnough;
  }

  datatype Sample = OldInbox | OldWake | User | NewCapture | NewInbox | NewWake
  {
    predicate Capture() { NewCapture? }
    predicate Inbox() { OldInbox? || NewInbox? }
    predicate Wake() { OldWake? || NewWake? }
  }

  function SampleSetup(): Setup<Sample> {
    var inbox, wake := (g: Sample) => g.Inbox(), (g: Sample) => g.Wake();
    Setup((g: Sample) => g.Capture(), inbox, wake, inbox, wake, NewCapture, NewInbox, NewWake)
  }

  /** And some lists need all three. */
  lemma ThreeRunsNeeded()
    ensures var s := SampleSetup();
            && Lawful(s)
            && RunWake(s, [OldInbox, OldWake, User]) == [NewCapture, NewInbox, User, NewWake]
            && RunWake(s, [NewCapture, NewInbox, User, NewWake]) == [NewCapture, User, NewInbox, NewWake]
            && RunWake(s, [NewCapture, User, NewInbox, NewWake]) == [User, NewCapture, NewInbox, NewWake]
  {
    hide *;
    SampleLawful();
    SampleFirst();
    SampleSecond();
    SampleThird();
  }

  lemma SampleLawful()
    ensures Lawful(SampleSetup())
  {}

  lemma SampleFirstKept()
    ensures var s := SampleSetup(); var b := [OldInbox, OldWake, User];
            Kept(b, s.capture) == b && Kept(b, s.inbox) == [OldWake, User] && Kept([OldWake, User], s.wake) == [User]
  {
    hide Kept;
    var s := SampleSetup();
    var b := [OldInbox, OldWake, User];
    KeptAll(b, s.capture);
    KeptPrepend(OldInbox, [OldWake, User], s.inbox);
    KeptAll([OldWake, User], s.inbox);
    KeptPrepend(OldWake, [User], s.wake);
    KeptOne(User, s.wake);
    assert [OldInbox] + [OldWake, User] == b && [OldWake] + [User] == [OldWake, User];
  }

  lemma SampleFirst()
    ensures RunWake(SampleSetup(), [OldInbox, OldWake, User]) == [NewCapture, NewInbox, User, NewWake]
  {
    hide Kept, Before, From, Merged, Run, RunWake, Lawful;
    SampleFirstKept();
    var b := [OldInbox, OldWake, User];
    SampleRun(b, [], b, [], [OldWake, User], [User]);
  }

  lemma SampleSecondKept()
    ensures var s := SampleSetup(); var b := [NewInbox, User, NewWake];
            && Kept([NewCapture, NewInbox, User, NewWake], s.capture) == b && Kept(b, s.inbox) == [User, NewWake]
            && Kept([NewWake], s.wake) == []
  {
    hide Kept;
    var s := SampleSetup();
    var b := [NewInbox, User, NewWake];
    KeptPrepend(NewCapture, b, s.capture);
    KeptAll(b, s.capture);
    KeptPrepend(NewInbox, [User, NewWake], s.inbox);
    KeptAll([User, NewWake], s.inbox);
    KeptOne(NewWake, s.wake);
    assert [NewCapture] + b == [NewCapture, NewInbox, User, NewWake] && [NewInbox] + [User, NewWake] == b;
  }

  lemma SampleSecond()
    ensures RunWake(SampleSetup(), [NewCapture, NewInbox, User, NewWake]) == [NewCapture, User, NewInbox, NewWake]
  {
    hide Kept, Before, From, Merged, Run, RunWake, Lawful;
    SampleSecondKept();
    SampleRun([NewCapture, NewInbox, User, NewWake], [], [NewInbox, User, NewWake], [User], [NewWake], []);
  }

  lemma SampleThirdKept()
    ensures var s := SampleSetup(); var rest := [User, NewInbox, NewWake];
            && Kept([NewCapture, User, NewInbox, NewWake], s.capture) == rest
            && Kept([NewInbox, NewWake], s.inbox) == [NewWake] && Kept([NewWake], s.wake) == []
  {
    hide Kept;
    var s := SampleSetup();
    var rest := [User, NewInbox, NewWake];
    KeptPrepend(NewCapture, rest, s.capture);
    KeptAll(rest, s.capture);
    KeptPrepend(NewInbox, [NewWake], s.inbox);
    KeptOne(NewWake, s.inbox);
    KeptOne(NewWake, s.wake);
    assert [NewCapture] + rest == [NewCapture, User, NewInbox, NewWake] && [NewInbox] + [NewWake] == [NewInbox, NewWake];
  }

  lemma SampleThird()
    ensures RunWake(SampleSetup(), [NewCapture, User, NewInbox, NewWake]) == [User, NewCapture, NewInbox, NewWake]
  {
    hide Kept, Before, From, Merged, Run, RunWake, Lawful;
    SampleThirdKept();
    assert [User] + [NewInbox, NewWake] == [User, NewInbox, NewWake];
    SampleRun([NewCapture, User, NewInbox, NewWake], [User], [NewInbox, NewWake], [], [NewWake], []);
  }

  lemma SampleRun(groups: seq<Sample>, a: seq<Sample>, b: seq<Sample>, b1: seq<Sample>, b2: seq<Sample>, last: seq<Sample>)
    requires var s := SampleSetup();
             && Kept(groups, s.capture) == a + b && Free(a, s.anyInbox) && Free(a, s.anyWake) && StartsWith(b, s.anyInbox)
             && Kept(b, s.inbox) == b1 + b2 && Free(b1, s.anyWake) && StartsWith(b2, s.anyWake)
             && Free(a + b1, s.wake) && Kept(b2, s.wake) == last
    ensures RunWake(SampleSetup(), groups) == a + [NewCapture] + b1 + [NewInbox] + last + [NewWake]
  {
    var s := SampleSetup();
    RunPlain(s, groups, a, b, b1, b2);
    WakeLast(s, Run(s, groups));
    FreeConcat(a, b1, s.wake);
    KeptConcat(a + [s.c] + b1 + [s.i], b2, s.wake);
    KeptConcat(a + [s.c] + b1, [s.i], s.wake);
    KeptConcat(a + [s.c], b1, s.wake);
    KeptConcat(a, [s.c], s.wake);
    KeptAll(a, s.wake);
    KeptAll(b1, s.wake);
    KeptOne(s.c, s.wake);
    KeptOne(s.i, s.wake);
  }
}
