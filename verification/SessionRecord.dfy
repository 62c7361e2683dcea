/** The bookkeeping facts of a session: which fact IDs its context blocks have shown,
    and which prompts were answered. A record is one space-separated text, capped at
    a number of entries from which the oldest-sorted fall off. */
module SessionRecord {
  import opened Text

  const INJECTED_MAX := 500
  const DELIVERED_MAX := 200
  const POOL_CAP := 20

  // ---- one record -------------------------------------------------------

  function ToSet(xs: seq<string>): set<string> {
    set x | x in xs
  }

  function Ids(body: string): set<string> {
    ToSet(Fields(body))
  }

  predicate Distinct(xs: seq<string>) {
    forall i, j | 0 <= i < j < |xs| :: xs[i] != xs[j]
  }

  /** The order of sort.Strings: that of the UTF-8 bytes is that of the scalar
      values. */
  predicate Less(a: string, b: string) {
    b != "" && (a == "" || a[0] < b[0] || (a[0] == b[0] && Less(a[1..], b[1..])))
  }

  predicate Sorted(order: seq<string>) {
    forall i, j | 0 <= i < j < |order| :: Less(order[i], order[j])
  }

  /** `order` lists the set in sorted order, each element once. */
  predicate Lists(order: seq<string>, prior: set<string>) {
    Distinct(order) && Sorted(order) && ToSet(order) == prior
  }

  function NotIn(ids: seq<string>, prior: set<string>): (r: seq<string>)
    ensures forall x :: x in r <==> x in ids && x !in prior
  {
    if ids == [] then []
    else (if ids[0] in prior then [] else [ids[0]]) + NotIn(ids[1..], prior)
  }

  /** The last `cap` entries. */
  function Capped(merged: seq<string>, cap: nat): (r: seq<string>)
    ensures |r| == if |merged| <= cap then |merged| else cap
  {
    if |merged| > cap then merged[|merged| - cap..] else merged
  }

  function Recorded(order: seq<string>, ids: seq<string>, cap: nat): string {
    JoinWords(Capped(order + NotIn(ids, ToSet(order)), cap))
  }

  class Record {
    var body: string
    const cap: nat

    constructor (cap: nat)
      ensures this.cap == cap && body == ""
    {
      this.cap, body := cap, "";
    }

    /** readInjectedIDs, readDeliveredTurns. */
    method Read() returns (seen: set<string>)
      ensures seen == Ids(body)
    {
      var words := Fields(body);
      seen := {};
      for i := 0 to |words|
        invariant seen == ToSet(words[..i])
      {
        seen := seen + {words[i]};
        assert words[..i + 1] == words[..i] + [words[i]];
      }
      assert words[..|words|] == words;
    }

    /** recordInjectedIDs, recordDeliveredTurn; `prior` is what was read. */
    method Merge(prior: set<string>, ids: seq<string>) returns (ghost order: seq<string>)
      modifies this
      ensures Lists(order, prior)
      ensures body == if ids == [] then old(body) else Recorded(order, ids, cap)
    {
      var merged := ListSet(prior);
      order := merged;
      if ids == [] {
        return;
      }
      hide Lists, NotIn, JoinWords;
      merged := AppendNew(merged, ids, prior);
      assert ToSet(order) == prior by {
        ListsAll(order, prior);
      }
      if |merged| > cap {
        merged := merged[|merged| - cap..];
      }
      body := JoinWords(merged);
    }
  }

  lemma ListsAll(order: seq<string>, prior: set<string>)
    requires Lists(order, prior)
    ensures ToSet(order) == prior
  {}

  method AppendNew(order: seq<string>, ids: seq<string>, prior: set<string>) returns (merged: seq<string>)
    ensures merged == order + NotIn(ids, prior)
  {
    hide NotIn;
    merged := order;
    NotInNone(ids, prior);
    for i := 0 to |ids|
      invariant merged + NotIn(ids[i..], prior) == order + NotIn(ids, prior)
    {
      NotInNext(ids, i, prior);
      if ids[i] !in prior {
        assert merged + ([ids[i]] + NotIn(ids[i + 1..], prior)) == merged + [ids[i]] + NotIn(ids[i + 1..], prior);
        merged := merged + [ids[i]];
      }
    }
  }

  lemma NotInNone(ids: seq<string>, prior: set<string>)
    ensures ids[0..] == ids && NotIn(ids[|ids|..], prior) == []
  {}

  lemma NotInNext(ids: seq<string>, i: nat, prior: set<string>)
    requires i < |ids|
    ensures NotIn(ids[i..], prior)
         == if ids[i] in prior then NotIn(ids[i + 1..], prior) else [ids[i]] + NotIn(ids[i + 1..], prior)
  {
    assert ids[i..][0] == ids[i] && ids[i..][1..] == ids[i + 1..];
  }

  lemma {:induction false} LessOrEqual(a: string, b: string)
    ensures Less(a, b) || Less(b, a) || a == b
    ensures !(Less(a, b) && Less(b, a))
  {
    if a != "" && b != "" {
      LessOrEqual(a[1..], b[1..]);
      assert a == [a[0]] + a[1..] && b == [b[0]] + b[1..];
    }
  }

  lemma {:induction false} LessNext(a: string, b: string, c: string)
    requires Less(a, b) && Less(b, c)
    ensures Less(a, c)
  {
    if a != "" && a[0] == b[0] == c[0] {
      LessNext(a[1..], b[1..], c[1..]);
    }
  }

  lemma {:induction false} HasLeast(todo: set<string>) returns (id: string)
    requires todo != {}
    ensures id in todo && forall x | x in todo && x != id :: Less(id, x)
    decreases todo
  {
    var first :| first in todo;
    var rest := todo - {first};
    id := first;
    if rest != {} {
      var least := HasLeast(rest);
      LessOrEqual(first, least);
      if Less(least, first) {
        id := least;
      } else {
        forall x | x in rest && x != least ensures Less(first, x) {
          LessNext(first, least, x);
        }
      }
    }
    forall x | x in todo && x != id ensures Less(id, x) {
      assert x == first || x in rest;
    }
  }

  method ListSet(prior: set<string>) returns (order: seq<string>)
    ensures Lists(order, prior)
  {
    hide Less;
    var todo := prior;
    order := [];
    while todo != {}
      invariant todo <= prior && Lists(order, prior - todo)
      invariant forall x, y | x in order && y in todo :: Less(x, y)
      decreases todo
    {
      ghost var least := HasLeast(todo);
      var id :| id in todo && forall x | x in todo && x != id :: Less(id, x);
      assert forall x | x in order :: x in ToSet(order);
      assert id !in ToSet(order);
      ListOneMore(order, id);
      order, todo := order + [id], todo - {id};
    }
    assert prior - todo == prior;
  }

  lemma ListOneMore(order: seq<string>, id: string)
    ensures ToSet(order + [id]) == ToSet(order) + {id}
  {
    var more := order + [id];
    assert more[|order|] == id;
    assert forall i | 0 <= i < |order| :: more[i] == order[i];
    assert forall x | x in order :: x in more;
  }

  lemma DistinctConcat(a: seq<string>, b: seq<string>)
    requires Distinct(a) && Distinct(b) && forall x | x in b :: x !in a
    ensures Distinct(a + b)
  {
    var m := a + b;
    forall i, j | 0 <= i < j < |m| ensures m[i] != m[j] {
      if i < |a| <= j {
        assert m[j] in b && m[i] in a;
      }
    }
  }

  // ---- what a record keeps ----------------------------------------------

  lemma {:induction false} DistinctSize(xs: seq<string>)
    requires Distinct(xs)
    ensures |ToSet(xs)| == |xs|
  {
    if xs != [] {
      DistinctSize(xs[1..]);
      assert ToSet(xs) == {xs[0]} + ToSet(xs[1..]);
      assert xs[0] !in xs[1..];
    }
  }

  lemma {:induction false} NotInDistinct(ids: seq<string>, prior: set<string>)
    requires Distinct(ids)
    ensures Distinct(NotIn(ids, prior)) && |NotIn(ids, prior)| <= |ids|
  {
    if ids != [] {
      NotInDistinct(ids[1..], prior);
      assert ids[0] !in ids[1..];
    }
  }

  ghost predicate Words(ids: seq<string>) {
    forall id | id in ids :: IsWord(id)
  }

  /** What the next read sees: the capped list itself. */
  lemma RecordedReadsBack(order: seq<string>, ids: seq<string>, cap: nat)
    requires Words(order) && Words(ids)
    ensures Fields(Recorded(order, ids, cap)) == Capped(order + NotIn(ids, ToSet(order)), cap)
  {
    FieldsJoinWords(Capped(order + NotIn(ids, ToSet(order)), cap));
  }

  lemma MergedIsAll(order: seq<string>, ids: seq<string>)
    requires Distinct(order) && Distinct(ids)
    ensures var merged := order + NotIn(ids, ToSet(order));
            && Distinct(merged) && ToSet(merged) == ToSet(order) + ToSet(ids)
            && |merged| == |ToSet(order) + ToSet(ids)|
  {
    var added := NotIn(ids, ToSet(order));
    NotInDistinct(ids, ToSet(order));
    assert forall x | x in order :: x in ToSet(order);
    DistinctConcat(order, added);
    DistinctSize(order + added);
    assert forall x :: x in order + added <==> x in order || x in added;
    assert ToSet(order + added) == ToSet(order) + ToSet(ids);
  }

  lemma LastKept(order: seq<string>, added: seq<string>, cap: nat)
    requires |added| <= cap
    ensures ToSet(added) <= ToSet(Capped(order + added, cap))
  {
    var merged, kept := order + added, Capped(order + added, cap);
    forall x | x in added ensures x in kept {
      var i :| 0 <= i < |added| && added[i] == x;
      assert merged[|order| + i] == x;
      if |merged| > cap {
        assert kept[|order| + i - (|merged| - cap)] == x;
      }
    }
  }

  lemma CappedWithin(merged: seq<string>, cap: nat)
    requires Distinct(merged)
    ensures Distinct(Capped(merged, cap)) && ToSet(Capped(merged, cap)) <= ToSet(merged)
  {
    assert forall x | x in Capped(merged, cap) :: x in merged;
  }

  /** The record holds everything while it fits, and exactly `cap` entries after;
      the newly added IDs survive as long as one block has at most `cap`. */
  lemma RecordKeeps(order: seq<string>, ids: seq<string>, cap: nat)
    requires Words(order) && Words(ids) && Distinct(order) && Distinct(ids)
    ensures var all := ToSet(order) + ToSet(ids);
            var now := Fields(Recorded(order, ids, cap));
            && Distinct(now) && ToSet(now) <= all
            && |now| == (if |all| <= cap then |all| else cap)
            && (|all| <= cap ==> ToSet(now) == all)
            && (|ids| <= cap ==> ToSet(ids) - ToSet(order) <= ToSet(now))
  {
    var added := NotIn(ids, ToSet(order));
    RecordedReadsBack(order, ids, cap);
    MergedIsAll(order, ids);
    NotInDistinct(ids, ToSet(order));
    CappedWithin(order + added, cap);
    if |ids| <= cap {
      LastKept(order, added, cap);
      assert ToSet(ids) - ToSet(order) == ToSet(added);
    }
    hide Distinct, Words, Recorded, Fields;
  }

  /** The IDs of a set that sort before `id`. */
  ghost function Smaller(prior: set<string>, id: string): set<string> {
    set x | x in prior && Less(x, id)
  }

  lemma RankIsIndex(order: seq<string>, i: nat)
    requires Sorted(order) && Distinct(order) && i < |order|
    ensures |Smaller(ToSet(order), order[i])| == i
  {
    var before := order[..i];
    forall x | x in order ensures x in before <==> Less(x, order[i]) {
      var k :| 0 <= k < |order| && order[k] == x;
      LessOrEqual(x, order[i]);
      assert k < i ==> before[k] == x;
      if x in before {
        var m :| 0 <= m < i && before[m] == x;
        assert order[m] == x;
      }
    }
    hide Less;
    assert forall x | x in before :: x in order;
    assert Smaller(ToSet(order), order[i]) == ToSet(before);
    DistinctSize(before);
  }

  lemma CappedAt(merged: seq<string>, cap: nat, i: nat)
    requires Distinct(merged) && i < |merged|
    ensures merged[i] in Capped(merged, cap) <==> i + cap >= |merged|
  {
    var kept := Capped(merged, cap);
    if |merged| > cap {
      var n := |merged| - cap;
      if i >= n {
        assert kept[i - n] == merged[i];
      }
    }
  }

  /** Exactly which IDs survive a rewrite: a newly added one always, one that was
      recorded before, whether just shown or not, when enough of the earlier set
      sorts before it. */
  lemma SurvivorsExactly(prior: set<string>, order: seq<string>, ids: seq<string>, cap: nat)
    requires Lists(order, prior) && Words(order) && Words(ids) && Distinct(ids) && |ids| <= cap
    ensures forall id | id in prior + ToSet(ids) ::
              id in Fields(Recorded(order, ids, cap))
              <==> id !in prior || |Smaller(prior, id)| + cap >= |prior + ToSet(ids)|
  {
    var added := NotIn(ids, prior);
    var merged := order + added;
    RecordedReadsBack(order, ids, cap);
    MergedIsAll(order, ids);
    NotInDistinct(ids, prior);
    hide Words, Recorded, Fields;
    forall id | id in prior + ToSet(ids)
      ensures id in Capped(merged, cap) <==> id !in prior || |Smaller(prior, id)| + cap >= |merged|
    {
      if id in prior {
        var i :| 0 <= i < |order| && order[i] == id;
        RankIsIndex(order, i);
        assert merged[i] == id;
        CappedAt(merged, cap, i);
      } else {
        assert id in added;
        LastKept(order, added, cap);
        assert id in ToSet(added);
      }
    }
  }

  // ---- the blocks of a session ------------------------------------------

  datatype Hit = Hit(id: string, excluded: bool)

  /** The search hits a turn may use: none excluded, none shown before, at most
      POOL_CAP of them. */
  function Eligible(hits: seq<Hit>, seen: set<string>, room: nat): (r: seq<string>)
    ensures forall id | id in r :: id !in seen
  {
    if hits == [] || room == 0 then []
    else if hits[0].excluded || hits[0].id in seen then Eligible(hits[1..], seen, room)
    else [hits[0].id] + Eligible(hits[1..], seen, room - 1)
  }

  method PickEligible(hits: seq<Hit>, seen: set<string>) returns (ids: seq<string>)
    ensures ids == Eligible(hits, seen, POOL_CAP)
  {
    ids := [];
    for i := 0 to |hits|
      invariant |ids| < POOL_CAP
      invariant Eligible(hits, seen, POOL_CAP) == ids + Eligible(hits[i..], seen, POOL_CAP - |ids|)
    {
      assert hits[i..][1..] == hits[i + 1..];
      if hits[i].excluded || hits[i].id in seen {
        continue;
      }
      ids := ids + [hits[i].id];
      if |ids| == POOL_CAP {
        assert Eligible(hits[i + 1..], seen, 0) == [];
        return;
      }
    }
  }

  /** One context block of the session, the IDs it shows, and the order in which the
      record's set was listed when it was rewritten. A turn shows what the token
      budget leaves of the eligible hits. */
  datatype Block =
    | Start(ids: seq<string>, order: seq<string>)
    | Turn(hits: seq<Hit>, ids: seq<string>, order: seq<string>)

  ghost predicate Possible(body: string, b: Block) {
    && Words(b.ids) && Distinct(b.ids) && Lists(b.order, Ids(body))
    && (b.Turn? ==> forall id | id in b.ids :: id in Eligible(b.hits, Ids(body), POOL_CAP))
  }

  function AfterBlock(body: string, b: Block): string {
    if b.ids == [] then body else Recorded(b.order, b.ids, INJECTED_MAX)
  }

  ghost predicate Session(body: string, blocks: seq<Block>)
    decreases |blocks|
  {
    blocks == [] || (Possible(body, blocks[0]) && Session(AfterBlock(body, blocks[0]), blocks[1..]))
  }

  function Shown(blocks: seq<Block>): set<string> {
    if blocks == [] then {} else ToSet(blocks[0].ids) + Shown(blocks[1..])
  }

  lemma ListedAreWords(order: seq<string>, body: string)
    requires Lists(order, Ids(body))
    ensures Words(order) && ToSet(order) == Ids(body)
  {
    FieldsAreWords(body, "");
    assert forall x | x in order :: x in ToSet(order);
  }

  lemma BlockIsRecorded(body: string, b: Block)
    requires Possible(body, b) && |Ids(body) + ToSet(b.ids)| <= INJECTED_MAX
    ensures Ids(AfterBlock(body, b)) == Ids(body) + ToSet(b.ids)
  {
    ListedAreWords(b.order, body);
    RecordKeeps(b.order, b.ids, INJECTED_MAX);
  }

  /** All that the session shows, on top of the record, is within the cap. */
  ghost predicate Fits(body: string, blocks: seq<Block>) {
    |Ids(body) + Shown(blocks)| <= INJECTED_MAX
  }

  lemma FirstBlock(body: string, blocks: seq<Block>)
    requires blocks != [] && Session(body, blocks) && Fits(body, blocks)
    ensures var after := AfterBlock(body, blocks[0]);
            && Ids(after) == Ids(body) + ToSet(blocks[0].ids) && Session(after, blocks[1..])
            && Fits(after, blocks[1..])
  {
    var b := blocks[0];
    assert Shown(blocks) == ToSet(b.ids) + Shown(blocks[1..]);
    Subset(Ids(body) + ToSet(b.ids), Ids(body) + Shown(blocks));
    BlockIsRecorded(body, b);
    hide Ids, ToSet, Shown, Possible, AfterBlock;
    assert Ids(AfterBlock(body, b)) + Shown(blocks[1..]) == Ids(body) + Shown(blocks);
  }

  /** While it fits, the record holds whatever the earlier blocks have shown. */
  lemma {:induction false} RecordIsTheUnion(body: string, blocks: seq<Block>, j: nat)
    requires Session(body, blocks) && Fits(body, blocks)
    requires j < |blocks| && blocks[j].Turn?
    ensures ToSet(blocks[j].ids) !! Ids(body) + Shown(blocks[..j])
    decreases |blocks|
  {
    hide *;
    if j > 0 {
      var rest := blocks[1..];
      FirstBlock(body, blocks);
      ShownEarlier(blocks, j);
      RecordIsTheUnion(AfterBlock(body, blocks[0]), rest, j - 1);
      Regroup(ToSet(blocks[j].ids), Ids(body), ToSet(blocks[0].ids), Shown(rest[..j - 1]));
    } else {
      TurnIsNew(body, blocks);
    }
  }

  lemma ShownEarlier(blocks: seq<Block>, j: nat)
    requires 0 < j < |blocks|
    ensures blocks[1..][j - 1] == blocks[j]
    ensures Shown(blocks[..j]) == ToSet(blocks[0].ids) + Shown(blocks[1..][..j - 1])
  {
    assert blocks[1..][..j - 1] == blocks[..j][1..];
  }

  lemma {:induction false} ShownHolds(blocks: seq<Block>, i: nat)
    requires i < |blocks|
    ensures ToSet(blocks[i].ids) <= Shown(blocks)
  {
    if i > 0 {
      ShownHolds(blocks[1..], i - 1);
    }
  }

  lemma Regroup(x: set<string>, a: set<string>, b: set<string>, c: set<string>)
    requires x !! (a + b) + c
    ensures x !! a + (b + c)
  {}

  lemma TurnIsNew(body: string, blocks: seq<Block>)
    requires blocks != [] && Session(body, blocks) && blocks[0].Turn?
    ensures ToSet(blocks[0].ids) !! Ids(body) + Shown(blocks[..0])
  {
    assert blocks[..0] == [];
  }

  lemma Subset(a: set<string>, b: set<string>)
    requires a <= b
    ensures |a| <= |b|
  {
    if a != {} {
      var x :| x in a;
      Subset(a - {x}, b - {x});
    }
  }

  /** In a sequential session that shows at most 500 IDs in all, no turn repeats an
      ID shown by the session-start block or an earlier turn. */
  lemma NoTurnRepeats(blocks: seq<Block>)
    requires Session("", blocks) && |Shown(blocks)| <= INJECTED_MAX
    ensures forall i, j | 0 <= i < j < |blocks| && blocks[j].Turn? :: ToSet(blocks[i].ids) !! ToSet(blocks[j].ids)
  {
    assert Ids("") + Shown(blocks) == Shown(blocks);
    forall i, j | 0 <= i < j < |blocks| && blocks[j].Turn? ensures ToSet(blocks[i].ids) !! ToSet(blocks[j].ids) {
      RecordIsTheUnion("", blocks, j);
      ShownHolds(blocks[..j], i);
    }
  }

  /** Past the cap the record stays full, and every newly added ID is in it. */
  lemma FullRecordStaysFull(body: string, b: Block)
    requires Possible(body, b) && |Fields(body)| == |Ids(body)| == INJECTED_MAX && |b.ids| <= INJECTED_MAX
    ensures var after := AfterBlock(body, b);
            |Fields(after)| == |Ids(after)| == INJECTED_MAX && ToSet(b.ids) - Ids(body) <= Ids(after)
  {
    ListedAreWords(b.order, body);
    RecordKeeps(b.order, b.ids, INJECTED_MAX);
    Subset(Ids(body), Ids(body) + ToSet(b.ids));
    if b.ids != [] {
      DistinctSize(Fields(AfterBlock(body, b)));
    }
  }

  // ---- answered prompts -------------------------------------------------

  /** A prompt whose turn is recorded for the first time is found again, and so is every
      earlier one while the record has room. */
  lemma PromptStaysAnswered(body: string, order: seq<string>, pid: string)
    requires Lists(order, Ids(body)) && IsWord(pid)
    ensures pid !in Ids(body) ==> pid in Ids(Recorded(order, [pid], DELIVERED_MAX))
    ensures |Ids(body) + {pid}| <= DELIVERED_MAX ==> Ids(Recorded(order, [pid], DELIVERED_MAX)) == Ids(body) + {pid}
  {
    ListedAreWords(order, body);
    RecordKeeps(order, [pid], DELIVERED_MAX);
    assert ToSet([pid]) == {pid};
  }

  // ---- caller-supplied IDs ----------------------------------------------

  predicate Slug(c: char) {
    'A' <= c <= 'Z' || 'a' <= c <= 'z' || '0' <= c <= '9' || c == '_' || c == '-'
  }

  /** Every run of other characters becomes one dash. */
  function Slugged(s: string, inRun: bool): string {
    if s == "" then ""
    else if Slug(s[0]) then [s[0]] + Slugged(s[1..], false)
    else (if inRun then "" else "-") + Slugged(s[1..], true)
  }

  function TrimDashes(s: string): string {
    if s != "" && s[0] == '-' then TrimDashes(s[1..])
    else if s != "" && s[|s| - 1] == '-' then TrimDashes(s[..|s| - 1])
    else s
  }

  function SanitizeID(s: string): string {
    TrimDashes(Slugged(s, false))
  }

  predicate SlugText(s: string) {
    forall i | 0 <= i < |s| :: Slug(s[i])
  }

  lemma {:induction false} SluggedIsSlug(s: string, inRun: bool)
    ensures SlugText(Slugged(s, inRun))
  {
    if s != "" {
      SluggedIsSlug(s[1..], !Slug(s[0]));
    }
  }

  lemma {:induction false} SlugUnchanged(s: string)
    requires SlugText(s)
    ensures Slugged(s, false) == s
  {
    if s != "" {
      SlugUnchanged(s[1..]);
      assert [s[0]] + s[1..] == s;
    }
  }

  lemma {:induction false} TrimmedSlug(s: string)
    requires SlugText(s)
    ensures var t := TrimDashes(s); SlugText(t) && TrimDashes(t) == t
  {
    if s != "" && s[0] == '-' {
      TrimmedSlug(s[1..]);
    } else if s != "" && s[|s| - 1] == '-' {
      TrimmedSlug(s[..|s| - 1]);
    }
  }

  /** A sanitized ID is one key segment and one word of a record, and sanitizing is
      idempotent. */
  lemma SanitizedIsSafe(s: string)
    ensures var id := SanitizeID(s);
            && '/' !in id && '|' !in id && (id != "" ==> IsWord(id))
            && SanitizeID(id) == id
  {
    SluggedIsSlug(s, false);
    TrimmedSlug(Slugged(s, false));
    SlugUnchanged(SanitizeID(s));
  }

  // ---- the delivery marker ----------------------------------------------

  const ISSUED := "issued"

  function MarkerBody(event: string, rev: string): string {
    event + " " + rev + " " + ISSUED
  }

  function ReadMarker(body: string): Option<(string, string)> {
    var parts := Fields(body);
    if |parts| == 3 then Some((parts[0], parts[1])) else None
  }

  /** The marker reads back as the pair it was written for. */
  lemma MarkerReadsBack(event: string, rev: string)
    requires SanitizeID(event) == event && event != "" && IsWord(rev)
    ensures ReadMarker(MarkerBody(event, rev)) == Some((event, rev))
  {
    SanitizedIsSafe(event);
    var words := [event, rev, ISSUED];
    assert words[1..] == [rev, ISSUED] && words[1..][1..] == [ISSUED];
    assert JoinWords(words[1..]) == rev + " " + ISSUED;
    assert JoinWords(words) == event + " " + (rev + " " + ISSUED);
    assert MarkerBody(event, rev) == JoinWords(words);
    FieldsJoinWords(words);
  }

  /** Lock keys tell deliveries apart, whatever the namespace holds. */
  lemma LockKeysDiffer(ns: string, sid: string, event: string, ns2: string, sid2: string, event2: string)
    requires '|' !in sid && '|' !in event && '|' !in sid2 && '|' !in event2
    requires ns + "|" + sid + "|" + event == ns2 + "|" + sid2 + "|" + event2
    ensures ns == ns2 && sid == sid2 && event == event2
  {
    LastBar(ns + "|" + sid, event, ns2 + "|" + sid2, event2);
    LastBar(ns, sid, ns2, sid2);
  }

  lemma LastBar(a: string, b: string, c: string, d: string)
    requires '|' !in b && '|' !in d && a + "|" + b == c + "|" + d
    ensures a == c && b == d
  {
    var s := a + "|" + b;
    assert s[|a|] == '|' && s[|c|] == '|';
    assert forall i | |a| < i < |s| :: s[i] == b[i - |a| - 1];
    assert forall i | |c| < i < |s| :: s[i] == d[i - |c| - 1];
    assert |a| == |c|;
    assert a == s[..|a|] && c == s[..|c|];
    assert b == s[|a| + 1..] && d == s[|c| + 1..];
  }
}
