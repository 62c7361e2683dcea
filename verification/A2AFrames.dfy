/** What the frames of one A2A stream tell its client: every status it was told of, in
    order, up to the first terminal one, and every artifact the ledger showed. */
module A2AFrames {
  import opened Text
  import opened Task
  import opened A2AMap
  import opened A2AStream
  import opened A2AProtocol

  // ---- what a stream hears ----------------------------------------------

  predicate Ended(told: seq<Status>) {
    told != [] && Terminal(told[|told| - 1])
  }

  /** The turn is about this task, and no terminal status came before it. */
  predicate Heeds(told: seq<Status>, x: Input) {
    x.notice.Mine? && !Ended(told)
  }

  /** The statuses of the task's own notices, up to the first terminal one. */
  function Heard(first: Status, inputs: seq<Input>): seq<Status> {
    if Terminal(first) || inputs == [] then []
    else
      var told, x := Heard(first, inputs[..|inputs| - 1]), inputs[|inputs| - 1];
      if Heeds(told, x) then told + [x.notice.status] else told
  }

  /** The artifacts that the snapshot's log and the logs read since show. */
  ghost function Shown(first: Status, log: seq<Event>, inputs: seq<Input>): set<string>
    requires EventsWithin(log) && Readable(inputs)
  {
    if Terminal(first) || inputs == [] then ToSet(Artifacts(log))
    else
      var before, x := inputs[..|inputs| - 1], inputs[|inputs| - 1];
      assert x in inputs;
      Shown(first, log, before)
      + if Heeds(Heard(first, before), x) && x.log.Some? then ToSet(Artifacts(x.log.value)) else {}
  }

  /** The statuses in the frames after the snapshot. */
  function Told(frames: seq<Frame>): seq<Status> {
    if frames == [] then []
    else
      var last := frames[|frames| - 1];
      Told(frames[..|frames| - 1]) + if last.StatusUpdate? then [last.status] else []
  }

  ghost predicate FinalMarks(frames: seq<Frame>) {
    forall f | f in frames && f.StatusUpdate? :: f.final <==> f.status == Completed || f.status == Failed || f.status == Canceled
  }

  /** What the stream has told agrees with what it heard. */
  ghost predicate Agrees(st: Stream, first: Status, log: seq<Event>, inputs: seq<Input>)
    requires EventsWithin(log) && Readable(inputs)
  {
    var heard := Heard(first, inputs);
    && FinalMarks(st.frames) && Told(st.frames) <= heard
    && (st.phase.Streaming? || st.phase.Finished? || st.phase.Gone?)
    && (!st.phase.Gone? ==> Told(st.frames) == heard && st.sent == Shown(first, log, inputs))
    && (st.phase.Streaming? ==> !Terminal(first) && !Ended(heard))
    && (st.phase.Finished? ==> Terminal(first) || Ended(heard))
  }

  lemma ToldStep(a: seq<Frame>, f: Frame)
    ensures Told(a + [f]) == Told(a) + if f.StatusUpdate? then [f.status] else []
  {
    assert (a + [f])[..|a|] == a;
  }

  lemma {:induction false} ToldUpdates(a: seq<Frame>, ids: seq<string>)
    ensures Told(a + Updates(ids)) == Told(a)
  {
    if ids == [] {
      assert a + Updates(ids) == a;
    } else {
      var init := ids[..|ids| - 1];
      ToldUpdates(a, init);
      assert a + Updates(ids) == (a + Updates(init)) + [ArtifactUpdate(ids[|ids| - 1])];
      ToldStep(a + Updates(init), ArtifactUpdate(ids[|ids| - 1]));
    }
  }

  /** The frames of one turn tell one status, the last, if all of them were written. */
  lemma ReactTells(st: Stream, status: Status, log: Option<seq<Event>>, room: nat)
    requires (log.Some? ==> EventsWithin(log.value)) && FinalMarks(st.frames)
    ensures var t := React(st, status, log, room);
            && FinalMarks(t.frames)
            && (if t.phase.Gone? then Told(t.frames) == Told(st.frames) else Told(t.frames) == Told(st.frames) + [status])
            && (t.phase.Gone? || (t.phase.Finished? <==> Terminal(status)))
            && (t.phase.Gone? || t.phase.Finished? || t.phase.Streaming?)
  {
    hide Unsent, Artifacts, Told, FinalMarks, Updates;
    TurnTells(st.frames, if log.Some? then Unsent(Artifacts(log.value), st.sent) else [], status, room);
  }

  lemma TurnTells(frames: seq<Frame>, ids: seq<string>, status: Status, room: nat)
    requires FinalMarks(frames)
    ensures var more := Updates(ids) + [StatusUpdate(status, Terminal(status))];
            && FinalMarks(frames + more) && Told(frames + more) == Told(frames) + [status]
            && (room < |more| ==> FinalMarks(frames + more[..room]) && Told(frames + more[..room]) == Told(frames))
  {
    hide Told, FinalMarks, Terminal;
    var last := StatusUpdate(status, Terminal(status));
    var more := Updates(ids) + [last];
    MarksOf(ids, status);
    MarksJoin(frames, more);
    ToldUpdates(frames, ids);
    ToldStep(frames + Updates(ids), last);
    assert frames + more == frames + Updates(ids) + [last];
    if room < |more| {
      assert more[..room] == Updates(ids[..room]);
      MarksOf(ids[..room], status);
      MarksJoin(frames, Updates(ids[..room]));
      ToldUpdates(frames, ids[..room]);
    }
  }

  lemma MarksJoin(a: seq<Frame>, b: seq<Frame>)
    requires FinalMarks(a) && FinalMarks(b)
    ensures FinalMarks(a + b)
  {}

  lemma MarksOf(ids: seq<string>, status: Status)
    ensures FinalMarks(Updates(ids)) && FinalMarks(Updates(ids) + [StatusUpdate(status, Terminal(status))])
  {}

  lemma HeardStep(first: Status, log: seq<Event>, before: seq<Input>, x: Input)
    requires EventsWithin(log) && Readable(before + [x]) && Readable(before) && (x.log.Some? ==> EventsWithin(x.log.value))
    ensures var heeded := !Terminal(first) && Heeds(Heard(first, before), x);
            && Heard(first, before + [x]) == Heard(first, before) + (if heeded then [x.notice.status] else [])
            && Shown(first, log, before + [x])
               == Shown(first, log, before) + if heeded && x.log.Some? then ToSet(Artifacts(x.log.value)) else {}
  {
    var inputs := before + [x];
    assert inputs[..|inputs| - 1] == before && inputs[|inputs| - 1] == x;
    hide Artifacts, ToSet, Terminal;
  }

  lemma ReactShows(st: Stream, status: Status, log: Option<seq<Event>>, room: nat)
    requires log.Some? ==> EventsWithin(log.value)
    ensures var t := React(st, status, log, room);
            !t.phase.Gone? ==> t.sent == st.sent + if log.Some? then ToSet(Artifacts(log.value)) else {}
  {
    if log.Some? {
      UnsentFresh(Artifacts(log.value), st.sent);
    }
    hide Unsent, Artifacts;
  }

  lemma TurnAgrees(st: Stream, first: Status, log: seq<Event>, before: seq<Input>, x: Input)
    requires EventsWithin(log) && Readable(before + [x]) && Readable(before) && (x.log.Some? ==> EventsWithin(x.log.value))
    requires Agrees(st, first, log, before)
    ensures Agrees(Turn(st, x), first, log, before + [x])
  {
    hide FinalMarks, Told, Artifacts, Heard, Shown, Terminal, ToSet;
    HeardStep(first, log, before, x);
    if st.phase.Streaming? && x.notice.Mine? {
      hide React;
      ReactTells(st, x.notice.status, x.log, x.room);
      ReactShows(st, x.notice.status, x.log, x.room);
    }
  }

  lemma {:induction false} TurnsAgree(first: Status, log: seq<Event>, inputs: seq<Input>)
    requires EventsWithin(log) && Readable(inputs)
    ensures Agrees(Turns(Begin(first, log, true), inputs), first, log, inputs)
    decreases |inputs|
  {
    if inputs == [] {
      BeginAgrees(first, log);
    } else {
      var before, x := inputs[..|inputs| - 1], inputs[|inputs| - 1];
      assert x in inputs && inputs == before + [x];
      hide Agrees, Begin, Turn;
      TurnsAgree(first, log, before);
      TurnAgrees(Turns(Begin(first, log, true), before), first, log, before, x);
    }
  }

  lemma BeginAgrees(first: Status, log: seq<Event>)
    requires EventsWithin(log)
    ensures Agrees(Begin(first, log, true), first, log, [])
  {
    var f := Snapshot(first, Artifacts(log));
    ToldStep([], f);
    assert [] + [f] == [f];
  }

  lemma {:induction false} SnapshotStays(st: Stream, inputs: seq<Input>)
    requires Readable(inputs) && st.frames != []
    ensures var t := Turns(st, inputs); t.frames != [] && t.frames[0] == st.frames[0]
    decreases |inputs|
  {
    if inputs != [] {
      assert inputs[|inputs| - 1] in inputs;
      SnapshotStays(st, inputs[..|inputs| - 1]);
    }
  }

  /** The first frame is the snapshot. After it, as long as every frame could be
      written, the client is told exactly the statuses of the task's own notices up to
      the first terminal one, and has been sent exactly the artifacts that the logs
      read so far show; a lost client was told a first part of them. A status frame is
      final exactly when its status is one of the three that end a task, and the
      stream ends exactly then, or with a snapshot of such a task. */
  lemma FramesTellAll(first: Status, log: seq<Event>, inputs: seq<Input>)
    requires EventsWithin(log) && Readable(inputs)
    ensures var s := Turns(Begin(first, log, true), inputs); var heard := Heard(first, inputs);
            && s.frames != [] && s.frames[0] == Snapshot(first, Artifacts(log))
            && FinalMarks(s.frames)
            && Told(s.frames) <= heard && (!s.phase.Gone? ==> Told(s.frames) == heard)
            && (!s.phase.Gone? ==> ToSet(FrameIds(s.frames)) == Shown(first, log, inputs))
            && (!s.phase.Gone? ==> (s.phase.Finished? <==> Terminal(first) || Ended(heard)))
  {
    TurnsAgree(first, log, inputs);
    SnapshotStays(Begin(first, log, true), inputs);
    SentIsFramed(first, log, inputs);
    hide Turns, Told, Shown, Artifacts, FrameIds, FinalMarks;
  }

  /** The ids that are noted as sent are those in the frames. */
  ghost predicate Framed(st: Stream) {
    !st.phase.Gone? ==> st.sent == ToSet(FrameIds(st.frames))
  }

  lemma {:induction false} SentIsFramed(first: Status, log: seq<Event>, inputs: seq<Input>)
    requires EventsWithin(log) && Readable(inputs)
    ensures Framed(Turns(Begin(first, log, true), inputs))
    decreases |inputs|
  {
    if inputs == [] {
      SnapshotIds(first, Artifacts(log));
    } else {
      var before, x := inputs[..|inputs| - 1], inputs[|inputs| - 1];
      assert x in inputs;
      SentIsFramed(first, log, before);
      hide Framed, Begin, React;
      var s := Turns(Begin(first, log, true), before);
      if s.phase.Streaming? && x.notice.Mine? {
        ReactFramed(s, x.notice.status, x.log, x.room);
      }
    }
  }

  lemma SnapshotIds(first: Status, ids: seq<string>)
    ensures FrameIds([Snapshot(first, ids)]) == ids
  {
    assert [Snapshot(first, ids)][..0] == [];
  }

  lemma ReactFramed(st: Stream, status: Status, log: Option<seq<Event>>, room: nat)
    requires (log.Some? ==> EventsWithin(log.value)) && !st.phase.Gone? && Framed(st)
    ensures Framed(React(st, status, log, room))
  {
    var added, all := ReactIds(st, status, log, room);
    hide React, Unsent, Artifacts, FrameIds;
    ToSetConcat(FrameIds(st.frames), added);
  }
}
