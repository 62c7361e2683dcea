/** One A2A stream: it subscribes, sends a snapshot of the task, then one update for
    each status notice, while the ledger commits and publishes beside it. */
module A2AStream {
  import opened Text
  import opened Task
  import opened A2AMap

  /** A frame on the wire. */
  datatype Frame =
    | Snapshot(status: Status, artifacts: seq<string>)
    | ArtifactUpdate(id: string)
    | StatusUpdate(status: Status, final: bool)
  {
    predicate Final() { if Snapshot? then Terminal(status) else StatusUpdate? && final }
    function Ids(): seq<string> { if Snapshot? then artifacts else if ArtifactUpdate? then [id] else [] }
  }

  /** What the bus delivers: a notice about this task, or anything else. */
  datatype Notice = Mine(status: Status) | Foreign

  datatype Phase = Idle | Subscribed | Streaming | Handling(status: Status) | Finished | Gone
  {
    predicate Live() { Streaming? || Handling? }
  }

  datatype Stream = Stream(phase: Phase, sent: set<string>, frames: seq<Frame>)

  function ToSet(xs: seq<string>): set<string> {
    set x | x in xs
  }

  // ---- the stream's own moves -------------------------------------------

  /** The artifacts not sent so far, each once. */
  function Unsent(ids: seq<string>, sent: set<string>): (r: seq<string>) {
    if ids == [] then []
    else if ids[0] in sent then Unsent(ids[1..], sent)
    else [ids[0]] + Unsent(ids[1..], sent + {ids[0]})
  }

  function Updates(ids: seq<string>): seq<Frame> {
    seq(|ids|, i requires 0 <= i < |ids| => ArtifactUpdate(ids[i]))
  }

  /** The first frame; `written` says whether the client took it. */
  function Begin(status: Status, log: seq<Event>, written: bool): Stream
    requires EventsWithin(log)
  {
    var ids := Artifacts(log);
    if !written then Stream(Gone, ToSet(ids), [])
    else Stream(if Terminal(status) then Finished else Streaming, ToSet(ids), [Snapshot(status, ids)])
  }

  /** One notice: `log` is what the ledger read returned, if it succeeded, and only
      the first `room` writes succeed. */
  function React(s: Stream, status: Status, log: Option<seq<Event>>, room: nat): Stream
    requires log.Some? ==> EventsWithin(log.value)
  {
    var unsent := if log.Some? then Unsent(Artifacts(log.value), s.sent) else [];
    var more := Updates(unsent) + [StatusUpdate(status, Terminal(status))];
    if room < |more| then
      Stream(Gone, s.sent + ToSet(if room < |unsent| then unsent[..room + 1] else unsent), s.frames + more[..room])
    else
      Stream(if Terminal(status) then Finished else Streaming, s.sent + ToSet(unsent), s.frames + more)
  }

  method EmitNew(ids: seq<string>, sent0: set<string>, room: nat) returns (sent: set<string>, frames: seq<Frame>, ok: bool)
    ensures var all := Unsent(ids, sent0);
            && (ok <==> |all| <= room)
            && (ok ==> frames == Updates(all) && sent == sent0 + ToSet(all))
            && (!ok ==> frames == Updates(all)[..room] && sent == sent0 + ToSet(all[..room + 1]))
  {
    hide Unsent;
    NoneUnsent(ids);
    sent, frames := sent0, [];
    ghost var done: seq<string> := [];
    for k := 0 to |ids|
      invariant Unsent(ids, sent0) == done + Unsent(ids[k..], sent)
      invariant frames == Updates(done) && |done| <= room && sent == sent0 + ToSet(done)
    {
      UnsentNext(ids, k, sent);
      if ids[k] in sent {
        continue;
      }
      ghost var before := sent;
      sent := sent + {ids[k]};
      AddOne(done, ids[k]);
      assert done + Unsent(ids[k..], before) == done + [ids[k]] + Unsent(ids[k + 1..], sent);
      if |frames| == room {
        assert Unsent(ids, sent0)[..room + 1] == done + [ids[k]];
        assert Updates(Unsent(ids, sent0))[..room] == Updates(done);
        return sent, frames, false;
      }
      frames := frames + [ArtifactUpdate(ids[k])];
      done := done + [ids[k]];
    }
    assert done + [] == done;
    ok := true;
  }

  lemma UnsentNext(ids: seq<string>, k: nat, sent: set<string>)
    requires k < |ids|
    ensures Unsent(ids[k..], sent)
         == if ids[k] in sent then Unsent(ids[k + 1..], sent) else [ids[k]] + Unsent(ids[k + 1..], sent + {ids[k]})
  {
    assert ids[k..][0] == ids[k] && ids[k..][1..] == ids[k + 1..];
  }

  lemma NoneUnsent(ids: seq<string>)
    ensures ids[0..] == ids && forall sent :: Unsent(ids[|ids|..], sent) == []
  {}

  lemma AddOne(done: seq<string>, id: string)
    ensures ToSet(done + [id]) == ToSet(done) + {id}
  {
    assert forall x :: x in done + [id] <==> x in done || x == id;
  }

  /** What one turn of the loop meets. */
  datatype Input = Input(notice: Notice, log: Option<seq<Event>>, room: nat)

  ghost predicate Readable(inputs: seq<Input>) {
    forall x | x in inputs && x.log.Some? :: EventsWithin(x.log.value)
  }

  function Turn(s: Stream, x: Input): Stream
    requires x.log.Some? ==> EventsWithin(x.log.value)
  {
    if !s.phase.Streaming? || x.notice.Foreign? then s else React(s, x.notice.status, x.log, x.room)
  }

  ghost function Turns(s: Stream, inputs: seq<Input>): Stream
    requires Readable(inputs)
    decreases |inputs|
  {
    if inputs == [] then s
    else
      var last := inputs[|inputs| - 1];
      assert last in inputs;
      Turn(Turns(s, inputs[..|inputs| - 1]), last)
  }

  lemma {:induction false} EndedStays(s: Stream, inputs: seq<Input>, k: nat)
    requires Readable(inputs) && k <= |inputs| && !Turns(s, inputs[..k]).phase.Streaming?
    ensures Turns(s, inputs) == Turns(s, inputs[..k])
    decreases |inputs|
  {
    if k == |inputs| {
      assert inputs[..k] == inputs;
    } else {
      var init := inputs[..|inputs| - 1];
      assert init[..k] == inputs[..k];
      EndedStays(s, init, k);
    }
  }

  /** One turn of the loop: the read, the new artifacts, the status frame. */
  method HandleNotice(s: Stream, status: Status, log: Option<seq<Event>>, room: nat) returns (t: Stream)
    requires log.Some? ==> EventsWithin(log.value)
    ensures t == React(s, status, log, room)
  {
    hide Artifacts, Unsent;
    var sent, updates: seq<Frame>, ok := s.sent, [], true;
    if log.Some? {
      var latest, _ := TaskFromLedger(log.value, 0);
      sent, updates, ok := EmitNew(latest, sent, room);
    }
    var last := StatusUpdate(status, Terminal(status));
    ghost var next := React(s, status, log, room);
    if ok && |updates| < room {
      t := Stream(if Terminal(status) then Finished else Streaming, sent, s.frames + updates + [last]);
      assert t.frames == s.frames + (updates + [last]);
    } else {
      t := Stream(Gone, sent, s.frames + updates);
      assert next.frames == t.frames && next.sent == sent;
    }
  }

  /** a2aStream: the snapshot, then the loop over what the channel delivers. */
  method RunStream(status: Status, log: seq<Event>, written: bool, inputs: seq<Input>) returns (s: Stream)
    requires EventsWithin(log) && Readable(inputs)
    ensures s == Turns(Begin(status, log, written), inputs)
  {
    ghost var start := Begin(status, log, written);
    var ids, _ := TaskFromLedger(log, 0);
    var sent := set a | a in ids;
    s := if !written then Stream(Gone, sent, [])
         else Stream(if Terminal(status) then Finished else Streaming, sent, [Snapshot(status, ids)]);
    hide Begin, React;
    for k := 0 to |inputs|
      invariant s == Turns(start, inputs[..k])
    {
      if !s.phase.Streaming? {
        EndedStays(start, inputs, k);
        return;
      }
      var x := inputs[k];
      assert inputs[..k + 1][..k] == inputs[..k] && x in inputs;
      if x.notice.Mine? {
        s := HandleNotice(s, x.notice.status, x.log, x.room);
      }
    }
    assert inputs[..|inputs|] == inputs;
  }
}
