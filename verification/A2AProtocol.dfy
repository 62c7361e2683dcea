/** The ledger, the bus channel and one stream, interleaved: commits and their later
    notices, appends to the log, a channel of bounded size, and the stream's steps. */
module A2AProtocol {
  import opened Text
  import opened Task
  import opened A2AMap
  import opened A2AStream
  import Bus

  /** `pending` holds the statuses committed but not yet published; `dropped` says
      that the channel was full when a notice came. */
  datatype State = State(
    status: Status,
    log: seq<Event>,
    pending: seq<Status>,
    buffer: seq<Notice>,
    dropped: bool,
    stream: Stream)

  datatype Step =
    | Commit(to: Status)
    | Append(e: Event)
    | Exhausted
    | Publish(k: nat)
    | Noise
    | Subscribe
    | Open(written: bool)
    | Receive
    | Handle(read: bool, room: nat)
    | Leave

  const IDLE := Stream(Idle, {}, [])

  predicate Enabled(s: State, step: Step) {
    match step
    case Commit(to) => Allowed(s.status, to)
    case Append(e) => Int64(e.number) && (s.log == [] || s.log[|s.log| - 1].number < e.number)
    case Exhausted => true
    case Publish(k) => k < |s.pending|
    case Noise => true
    case Subscribe => s.stream.phase.Idle?
    case Open(_) => s.stream.phase.Subscribed? && EventsWithin(s.log)
    case Receive => s.stream.phase.Streaming? && s.buffer != []
    case Handle(_, _) => s.stream.phase.Handling? && EventsWithin(s.log)
    case Leave => s.stream.phase.Live()
  }

  /** A notice reaches the channel only while the stream is subscribed to it. */
  function Deliver(s: State, n: Notice): State {
    if s.stream.phase.Subscribed? || s.stream.phase.Live() then
      s.(buffer := Bus.Offered(s.buffer, n), dropped := s.dropped || |s.buffer| >= Bus.CAPACITY)
    else s
  }

  function Apply(s: State, step: Step): State
    requires Enabled(s, step)
  {
    match step
    case Commit(to) => s.(status := to, pending := s.pending + [to])
    case Append(e) => s.(log := s.log + [e])
    case Exhausted => s.(pending := s.pending + [InputRequired])
    case Publish(k) => Deliver(s.(pending := s.pending[..k] + s.pending[k + 1..]), Mine(s.pending[k]))
    case Noise => Deliver(s, Foreign)
    case Subscribe => s.(stream := IDLE.(phase := Subscribed), buffer := [], dropped := false)
    case Open(written) => s.(stream := Begin(s.status, s.log, written))
    case Receive =>
      s.(buffer := s.buffer[1..],
         stream := if s.buffer[0].Foreign? then s.stream else s.stream.(phase := Handling(s.buffer[0].status)))
    case Handle(read, room) =>
      s.(stream := React(s.stream, s.stream.phase.status, if read then Some(s.log) else None, room))
    case Leave => s.(stream := s.stream.(phase := Gone))
  }

  predicate Init(s: State) {
    s.log == [] && s.pending == [] && s.buffer == [] && s.stream == IDLE
  }

  predicate CanRun(s: State, steps: seq<Step>)
    decreases |steps|
  {
    steps == [] || (Enabled(s, steps[0]) && CanRun(Apply(s, steps[0]), steps[1..]))
  }

  function After(s: State, steps: seq<Step>): State
    requires CanRun(s, steps)
    decreases |steps|
  {
    if steps == [] then s else After(Apply(s, steps[0]), steps[1..])
  }

  // ---- the log ----------------------------------------------------------

  predicate LogFine(s: State) {
    EventsWithin(s.log) && Increasing(s.log)
  }

  // ---- artifacts go out once --------------------------------------------

  function FrameIds(frames: seq<Frame>): seq<string> {
    if frames == [] then [] else FrameIds(frames[..|frames| - 1]) + frames[|frames| - 1].Ids()
  }

  ghost predicate OnceOnly(st: Stream) {
    && Distinct(FrameIds(st.frames)) && ToSet(FrameIds(st.frames)) <= st.sent
    && (!st.phase.Gone? ==> st.sent == ToSet(FrameIds(st.frames)))
  }

  lemma FrameIdsStep(a: seq<Frame>, f: Frame)
    ensures FrameIds(a + [f]) == FrameIds(a) + f.Ids()
  {
    assert (a + [f])[..|a|] == a;
  }

  lemma {:induction false} FrameIdsConcat(a: seq<Frame>, b: seq<Frame>)
    ensures FrameIds(a + b) == FrameIds(a) + FrameIds(b)
  {
    if b == [] {
      assert a + b == a && FrameIds(b) == [];
    } else {
      var init, f := b[..|b| - 1], b[|b| - 1];
      assert b == init + [f] && a + b == (a + init) + [f];
      FrameIdsConcat(a, init);
      FrameIdsStep(init, f);
      FrameIdsStep(a + init, f);
      Assoc(FrameIds(a), FrameIds(init), f.Ids());
      hide *;
    }
  }

  lemma Assoc(x: seq<string>, y: seq<string>, z: seq<string>)
    ensures x + (y + z) == (x + y) + z
  {}

  lemma {:induction false} UpdateIds(ids: seq<string>)
    ensures FrameIds(Updates(ids)) == ids
  {
    if ids != [] {
      var init := ids[..|ids| - 1];
      UpdateIds(init);
      assert Updates(ids)[..|ids| - 1] == Updates(init);
      assert ids == init + [ids[|ids| - 1]];
    }
  }

  lemma {:induction false} UnsentFresh(ids: seq<string>, sent: set<string>)
    ensures var r := Unsent(ids, sent);
            && Distinct(r) && (forall x :: x in r <==> x in ids && x !in sent)
  {
    if ids != [] {
      UnsentFresh(ids[1..], if ids[0] in sent then sent else sent + {ids[0]});
    }
  }

  lemma DistinctConcat(a: seq<string>, b: seq<string>)
    requires Distinct(a) && Distinct(b) && forall x | x in b :: x !in a
    ensures Distinct(a + b)
  {
    var m := a + b;
    forall i, j | 0 <= i < j < |m| ensures m[i] != m[j] {
      if i < |a| <= j {
        assert m[j] in b && m[i] in a;
      }
    }
  }

  lemma ToSetConcat(a: seq<string>, b: seq<string>)
    ensures ToSet(a + b) == ToSet(a) + ToSet(b)
  {
    assert forall x :: x in a + b <==> x in a || x in b;
  }

  /** The first `room` of the frames one turn writes, and the ids in them. */
  lemma WrittenIds(all: seq<string>, last: Frame, room: nat) returns (added: seq<string>)
    requires last.StatusUpdate?
    ensures var more := Updates(all) + [last];
            && added <= all && (room >= |all| ==> added == all)
            && FrameIds(if room < |more| then more[..room] else more) == added
            && ToSet(added) <= ToSet(if room < |all| then all[..room + 1] else all)
  {
    var more := Updates(all) + [last];
    if room < |more| {
      added := all[..room];
      assert more[..room] == Updates(added);
      UpdateIds(added);
      if room < |all| {
        assert all[..room + 1] == added + [all[room]];
        ToSetConcat(added, [all[room]]);
      }
    } else {
      added := all;
      UpdateIds(all);
      FrameIdsStep(Updates(all), last);
      assert all + [] == all;
    }
  }

  /** The ids that one turn adds: those unsent, or as many as could be written. */
  lemma ReactIds(s: Stream, status: Status, log: Option<seq<Event>>, room: nat) returns (added: seq<string>, all: seq<string>)
    requires log.Some? ==> EventsWithin(log.value)
    ensures all == if log.Some? then Unsent(Artifacts(log.value), s.sent) else []
    ensures var t := React(s, status, log, room);
            && FrameIds(t.frames) == FrameIds(s.frames) + added && added <= all
            && s.sent + ToSet(added) <= t.sent
            && (!t.phase.Gone? ==> added == all && t.sent == s.sent + ToSet(all))
  {
    all := if log.Some? then Unsent(Artifacts(log.value), s.sent) else [];
    var last := StatusUpdate(status, Terminal(status));
    var more := Updates(all) + [last];
    hide Unsent, Artifacts, Updates, FrameIds;
    added := WrittenIds(all, last, room);
    FrameIdsConcat(s.frames, if room < |more| then more[..room] else more);
  }

  lemma ReactOnce(s: Stream, status: Status, log: Option<seq<Event>>, room: nat)
    requires OnceOnly(s) && !s.phase.Gone? && (log.Some? ==> EventsWithin(log.value))
    ensures OnceOnly(React(s, status, log, room))
  {
    var added, all := ReactIds(s, status, log, room);
    if log.Some? {
      UnsentFresh(Artifacts(log.value), s.sent);
    }
    hide React, Unsent, Artifacts, FrameIds;
    forall x | x in added ensures x !in FrameIds(s.frames) {
      assert x in all;
      assert x in FrameIds(s.frames) ==> x in ToSet(FrameIds(s.frames));
    }
    assert Distinct(added) by {
      assert forall i | 0 <= i < |added| :: added[i] == all[i];
    }
    DistinctConcat(FrameIds(s.frames), added);
    ToSetConcat(FrameIds(s.frames), added);
  }

  lemma BeginOnce(status: Status, log: seq<Event>, written: bool)
    requires EventsWithin(log) && Increasing(log)
    ensures OnceOnly(Begin(status, log, written))
  {
    ArtifactsDistinct(log);
    var frame := Snapshot(status, Artifacts(log));
    assert FrameIds([frame]) == FrameIds([]) + frame.Ids();
  }

  // ---- a final frame is the last ----------------------------------------

  ghost predicate FinalLast(st: Stream) {
    && (forall k | 0 <= k < |st.frames| && st.frames[k].Final() :: k == |st.frames| - 1)
    && (st.phase.Finished? <==> st.frames != [] && st.frames[|st.frames| - 1].Final())
  }

  // ---- a terminal status is on its way ----------------------------------

  predicate Ends(n: Notice) {
    n.Mine? && Terminal(n.status)
  }

  /** The terminal status is committed but unpublished, in the channel, being
      handled, or was dropped by a full channel. */
  ghost predicate OnItsWay(s: State) {
    || s.dropped
    || (exists k :: 0 <= k < |s.pending| && Terminal(s.pending[k]))
    || (exists k :: 0 <= k < |s.buffer| && Ends(s.buffer[k]))
    || (s.stream.phase.Handling? && Terminal(s.stream.phase.status))
  }

  /** Terminal notices tell the truth. */
  ghost predicate Truthful(s: State) {
    && (forall k | 0 <= k < |s.pending| && Terminal(s.pending[k]) :: s.pending[k] == s.status)
    && (forall k | 0 <= k < |s.buffer| && Ends(s.buffer[k]) :: s.buffer[k].status == s.status)
    && (s.stream.phase.Handling? && Terminal(s.stream.phase.status) ==> s.stream.phase.status == s.status)
  }

  predicate Reports(f: Frame, status: Status) {
    f.Final() && !f.ArtifactUpdate? && f.status == status
  }

  /** A finished stream ended with the ledger's own, terminal, status. */
  ghost predicate FinalTruthful(s: State) {
    var frames := s.stream.frames;
    s.stream.phase.Finished? ==> Terminal(s.status) && frames != [] && Reports(frames[|frames| - 1], s.status)
  }

  ghost predicate Inv(s: State) {
    && LogFine(s) && OnceOnly(s.stream) && FinalLast(s.stream)
    && Truthful(s) && FinalTruthful(s)
    && (s.stream.phase.Live() && Terminal(s.status) ==> OnItsWay(s))
  }

  lemma StreamKept(s: State, step: Step)
    requires LogFine(s) && OnceOnly(s.stream) && FinalLast(s.stream) && Enabled(s, step)
    ensures LogFine(Apply(s, step)) && OnceOnly(Apply(s, step).stream)
  {
    match step
    case Open(written) => BeginOnce(s.status, s.log, written);
    case Handle(read, room) =>
      ReactOnce(s.stream, s.stream.phase.status, if read then Some(s.log) else None, room);
    case _ =>
      hide Distinct;
  }

  /** Appending updates and then one status frame keeps the final frame last. */
  lemma FinalAppended(a: seq<Frame>, unsent: seq<string>, last: Frame, n: nat)
    requires forall k | 0 <= k < |a| :: !a[k].Final()
    requires n <= |unsent| + 1 && last.StatusUpdate?
    ensures var t := a + (Updates(unsent) + [last])[..n];
            forall k | 0 <= k < |t| && t[k].Final() :: n == |unsent| + 1 && k == |t| - 1 && t[k] == last
  {
    var more := Updates(unsent) + [last];
    assert forall k | 0 <= k < |unsent| :: more[k] == ArtifactUpdate(unsent[k]);
    assert more[|unsent|] == last;
    var t := a + more[..n];
    assert forall k | 0 <= k < |a| :: t[k] == a[k];
    assert forall k | |a| <= k < |t| :: t[k] == more[k - |a|];
  }

  lemma ReactFinal(s: Stream, status: Status, log: Option<seq<Event>>, room: nat)
    requires FinalLast(s) && s.phase.Handling? && (log.Some? ==> EventsWithin(log.value))
    ensures FinalLast(React(s, status, log, room))
    ensures var t := React(s, status, log, room);
            t.phase.Finished? ==> Terminal(status) && t.frames != [] && t.frames[|t.frames| - 1] == StatusUpdate(status, true)
  {
    hide Artifacts, Unsent;
    var unsent := if log.Some? then Unsent(Artifacts(log.value), s.sent) else [];
    var last := StatusUpdate(status, Terminal(status));
    var more := Updates(unsent) + [last];
    var n := if room < |more| then room else |more|;
    assert more[..|more|] == more;
    FinalAppended(s.frames, unsent, last, n);
    var t := React(s, status, log, room);
    assert t.frames == s.frames + more[..n];
    if n == |more| {
      assert t.frames[|t.frames| - 1] == last;
    }
    hide React, Updates;
  }

  lemma FinalKept(s: State, step: Step)
    requires FinalLast(s.stream) && FinalTruthful(s) && Truthful(s) && Enabled(s, step)
    ensures FinalLast(Apply(s, step).stream) && FinalTruthful(Apply(s, step))
  {
    match step
    case Handle(read, room) =>
      ReactFinal(s.stream, s.stream.phase.status, if read then Some(s.log) else None, room);
    case Commit(to) =>
    case _ => hide React;
  }

  lemma TruthKept(s: State, step: Step)
    requires Truthful(s) && Enabled(s, step)
    ensures Truthful(Apply(s, step))
  {
    hide Begin, React;
    var t := Apply(s, step);
    if step.Handle? {
      ReactPhase(s.stream, s.stream.phase.status, if step.read then Some(s.log) else None, step.room);
    }
    if step.Open? {
      BeginPhase(s.status, s.log, step.written);
    }
  }

  lemma ReactPhase(s: Stream, status: Status, log: Option<seq<Event>>, room: nat)
    requires log.Some? ==> EventsWithin(log.value)
    ensures var t := React(s, status, log, room);
            t.phase.Gone? || (if Terminal(status) then t.phase.Finished? else t.phase.Streaming?)
  {}

  lemma BeginPhase(status: Status, log: seq<Event>, written: bool)
    requires EventsWithin(log)
    ensures var t := Begin(status, log, written);
            t.phase.Gone? || (if Terminal(status) then t.phase.Finished? else t.phase.Streaming?)
  {}

  lemma WayKept(s: State, step: Step)
    requires Truthful(s) && Enabled(s, step)
    requires s.stream.phase.Live() && Terminal(s.status) ==> OnItsWay(s)
    ensures var t := Apply(s, step); t.stream.phase.Live() && Terminal(t.status) ==> OnItsWay(t)
  {
    hide Begin, React;
    var t := Apply(s, step);
    if t.stream.phase.Live() && Terminal(t.status) {
      match step
      case Commit(to) => assert t.pending[|s.pending|] == to;
      case Open(written) => BeginPhase(s.status, s.log, written);
      case Handle(read, room) =>
        ReactPhase(s.stream, s.stream.phase.status, if read then Some(s.log) else None, room);
      case Publish(k) => PublishKeepsWay(s, k);
      case Receive =>
        assert forall j | 1 <= j < |s.buffer| :: t.buffer[j - 1] == s.buffer[j];
      case Exhausted =>
        assert forall j | 0 <= j < |s.pending| :: t.pending[j] == s.pending[j];
      case Noise =>
        assert forall j | 0 <= j < |s.buffer| :: t.buffer[j] == s.buffer[j];
      case _ =>
    }
  }

  lemma PublishKeepsWay(s: State, k: nat)
    requires s.stream.phase.Live() && OnItsWay(s) && Enabled(s, Publish(k))
    ensures OnItsWay(Apply(s, Publish(k)))
  {
    var t := Apply(s, Publish(k));
    assert forall j | 0 <= j < |s.buffer| :: t.buffer[j] == s.buffer[j];
    if j :| 0 <= j < |s.pending| && Terminal(s.pending[j]) {
      if j == k {
        assert t.dropped || t.buffer[|s.buffer|] == Mine(s.pending[k]);
      } else {
        assert t.pending[if j < k then j else j - 1] == s.pending[j];
      }
    }
  }

  lemma StepKeeps(s: State, step: Step)
    requires Inv(s) && Enabled(s, step)
    ensures Inv(Apply(s, step))
  {
    StreamKept(s, step);
    FinalKept(s, step);
    TruthKept(s, step);
    WayKept(s, step);
  }

  lemma {:induction false} RunKeeps(s: State, steps: seq<Step>)
    requires Inv(s) && CanRun(s, steps)
    ensures Inv(After(s, steps))
    decreases |steps|
  {
    hide Inv, Enabled;
    if steps != [] {
      StepKeeps(s, steps[0]);
      RunKeeps(Apply(s, steps[0]), steps[1..]);
    }
  }

  // ---- the theorems -----------------------------------------------------

  /** In every interleaving: no artifact goes out twice; a final frame is the last,
      and it reports the status the ledger has. */
  lemma EveryStreamIsSound(s0: State, steps: seq<Step>)
    requires Init(s0) && CanRun(s0, steps)
    ensures var s := After(s0, steps); var frames := s.stream.frames;
            && Distinct(FrameIds(frames))
            && (forall k | 0 <= k < |frames| && frames[k].Final() ::
                  k == |frames| - 1 && s.stream.phase.Finished? && Reports(frames[k], s.status))
  {
    assert FrameIds([]) == [];
    assert Inv(s0);
    RunKeeps(s0, steps);
  }

  /** A stream that has nothing more to read, with no notice outstanding, has missed
      no terminal status, unless its channel overflowed. */
  lemma TerminalIsNotMissed(s0: State, steps: seq<Step>)
    requires Init(s0) && CanRun(s0, steps)
    requires var s := After(s0, steps); s.stream.phase.Streaming? && s.buffer == [] && s.pending == [] && !s.dropped
    ensures !Terminal(After(s0, steps).status)
  {
    assert FrameIds([]) == [];
    assert Inv(s0);
    RunKeeps(s0, steps);
  }

  /** A final update whose ledger read succeeded leaves no finding behind. */
  lemma FinalLeavesNothing(s0: State, steps: seq<Step>, room: nat)
    requires Init(s0) && CanRun(s0, steps) && Enabled(After(s0, steps), Handle(true, room))
    requires Apply(After(s0, steps), Handle(true, room)).stream.phase.Finished?
    ensures var s := Apply(After(s0, steps), Handle(true, room));
            forall id | id in Artifacts(s.log) :: id in FrameIds(s.stream.frames)
  {
    assert FrameIds([]) == [];
    assert Inv(s0);
    RunKeeps(s0, steps);
    var s := After(s0, steps);
    var added, all := ReactIds(s.stream, s.stream.phase.status, Some(s.log), room);
    UnsentFresh(Artifacts(s.log), s.stream.sent);
    forall id | id in Artifacts(s.log) ensures id in FrameIds(s.stream.frames) + added {
      if id in s.stream.sent {
        assert id in ToSet(FrameIds(s.stream.frames));
      }
    }
  }
}
