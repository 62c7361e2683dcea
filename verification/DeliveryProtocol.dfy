/** Session-start context deliveries over the keyed mutex: requests of any number of
    sessions run interleaved, each under the lock of its own (session, event), and
    all requests of one session share that session's marker. Store reads and writes
    may fail, a caller may lack the write grant, and markers may expire. */
module DeliveryProtocol {
  import opened Text
  import M = DeliveryMutex

  type Call = M.Call

  datatype Session = Session(ns: string, sid: string)

  /** What a request has come to. A revision is chosen when the block is assembled. */
  datatype Phase =
    | Started
    | Deciding(rev: string)
    | Marked(rev: string)
    | Unmarked(rev: string)
    | Delivered(rev: string)
    | Suppressed(rev: string)
    | Empty
  {
    /** Between the marker read and the answer. */
    predicate Open() { Deciding? || Marked? || Unmarked? }
    /** Answered; the lock may go. */
    predicate Done() { Delivered? || Suppressed? || Empty? }
  }

  datatype Request = Request(session: Session, event: string, phase: Phase)

  datatype Issue = Issue(c: Call, event: string, rev: string)

  /** `issued` records, for each session, the marker writes that succeeded. `perfect`
      is true as long as no read, write or grant has failed and no marker expired. */
  datatype State = State(
    mutex: M.State<nat>,
    requests: map<Call, Request>,
    marker: map<Session, (string, string)>,
    issued: map<Session, seq<Issue>>,
    perfect: bool)

  function Key(session: Session, event: string): string {
    session.ns + "|" + session.sid + "|" + event
  }

  function Log(s: State, session: Session): seq<Issue> {
    if session in s.issued then s.issued[session] else []
  }

  const INIT := State(M.Init<nat>(), map[], map[], map[], true)

  datatype Step =
    | Arrive(c: Call, session: Session, event: string, l: nat)
    | Take(c: Call)
    | Nothing(c: Call)
    | ReadHit(c: Call, rev: string)
    | ReadMiss(c: Call, rev: string, failed: bool)
    | Mark(c: Call)
    | Skip(c: Call)
    | Answer(c: Call)
    | Unlock(c: Call)
    | Leave(c: Call)
    | Foreign(step: M.Step<nat>)
    | Expire(session: Session)

  predicate Running(s: State, c: Call) {
    c in s.requests && c in s.mutex.calls && s.mutex.calls[c].Holding?
  }

  predicate MarkerIs(s: State, session: Session, event: string, rev: string) {
    session in s.marker && s.marker[session] == (event, rev)
  }

  predicate Enabled(s: State, step: Step) {
    match step
    case Arrive(c, session, event, l) =>
      c !in s.requests && event != "" && M.Enabled(s.mutex, M.Register(c, Key(session, event), l))
    case Take(c) => c in s.requests && M.Enabled(s.mutex, M.Acquire(c))
    case Nothing(c) => Running(s, c) && s.requests[c].phase.Started?
    case ReadHit(c, rev) =>
      Running(s, c) && s.requests[c].phase.Started? && MarkerIs(s, s.requests[c].session, s.requests[c].event, rev)
    case ReadMiss(c, rev, failed) =>
      && Running(s, c) && s.requests[c].phase.Started?
      && (failed || !MarkerIs(s, s.requests[c].session, s.requests[c].event, rev))
    case Mark(c) => Running(s, c) && s.requests[c].phase.Deciding?
    case Skip(c) => Running(s, c) && s.requests[c].phase.Deciding?
    case Answer(c) => Running(s, c) && (s.requests[c].phase.Marked? || s.requests[c].phase.Unmarked?)
    case Unlock(c) => Running(s, c) && s.requests[c].phase.Done() && M.Enabled(s.mutex, M.Unlock(c))
    case Leave(c) => c in s.requests && M.Enabled(s.mutex, M.Leave(c))
    case Foreign(step) => step.c !in s.requests && M.Enabled(s.mutex, step)
    case Expire(session) => true
  }

  function Move(s: State, c: Call, phase: Phase): State
    requires c in s.requests
  {
    s.(requests := s.requests[c := s.requests[c].(phase := phase)])
  }

  function Apply(s: State, step: Step): State
    requires Enabled(s, step)
  {
    match step
    case Arrive(c, session, event, l) =>
      s.(mutex := M.Apply(s.mutex, M.Register(c, Key(session, event), l)),
         requests := s.requests[c := Request(session, event, Started)])
    case Take(c) => s.(mutex := M.Apply(s.mutex, M.Acquire(c)))
    case Nothing(c) => Move(s, c, Empty)
    case ReadHit(c, rev) => Move(s, c, Suppressed(rev))
    case ReadMiss(c, rev, failed) => Move(s, c, Deciding(rev)).(perfect := s.perfect && !failed)
    case Mark(c) =>
      var r := s.requests[c];
      Move(s, c, Marked(r.phase.rev)).(
        marker := s.marker[r.session := (r.event, r.phase.rev)],
        issued := s.issued[r.session := Log(s, r.session) + [Issue(c, r.event, r.phase.rev)]])
    case Skip(c) => Move(s, c, Unmarked(s.requests[c].phase.rev)).(perfect := false)
    case Answer(c) => Move(s, c, Delivered(s.requests[c].phase.rev))
    case Unlock(c) => s.(mutex := M.Apply(s.mutex, M.Unlock(c)))
    case Leave(c) => s.(mutex := M.Apply(s.mutex, M.Leave(c)))
    case Foreign(step) => s.(mutex := M.Apply(s.mutex, step))
    case Expire(session) => s.(marker := s.marker - {session}, perfect := false)
  }

  predicate CanRun(s: State, steps: seq<Step>)
    decreases |steps|
  {
    steps == [] || (Enabled(s, steps[0]) && CanRun(Apply(s, steps[0]), steps[1..]))
  }

  function After(s: State, steps: seq<Step>): State
    requires CanRun(s, steps)
    decreases |steps|
  {
    if steps == [] then s else After(Apply(s, steps[0]), steps[1..])
  }

  // ---- what every step keeps --------------------------------------------

  /** Each request owns its mutex call, and an open one still holds its lock. */
  ghost predicate Locked(s: State) {
    && M.Inv(s.mutex)
    && (forall c | c in s.requests :: c in s.mutex.calls
          && s.mutex.calls[c].key == Key(s.requests[c].session, s.requests[c].event))
    && (forall c | c in s.requests && s.requests[c].phase.Open() :: s.mutex.calls[c].Holding?)
  }

  /** `c` is the request that marked the pair, answered or about to answer. */
  predicate Source(s: State, c: Call, session: Session, event: string, rev: string) {
    && c in s.requests && s.requests[c].session == session && s.requests[c].event == event
    && (s.requests[c].phase == Marked(rev) || s.requests[c].phase == Delivered(rev))
  }

  predicate Answered(s: State, c: Call, session: Session, event: string, rev: string) {
    c in s.requests && s.requests[c] == Request(session, event, Delivered(rev))
  }

  ghost predicate Sourced(s: State) {
    forall session | session in s.marker ::
      exists c :: Source(s, c, session, s.marker[session].0, s.marker[session].1)
  }

  ghost predicate Justified(s: State, c: Call)
    requires c in s.requests
  {
    s.requests[c].phase.Suppressed? ==>
      exists d :: Answered(s, d, s.requests[c].session, s.requests[c].event, s.requests[c].phase.rev)
  }

  ghost predicate AllJustified(s: State) {
    forall c | c in s.requests :: Justified(s, c)
  }

  ghost predicate Inv(s: State) {
    Locked(s) && Sourced(s) && AllJustified(s)
  }

  /** A mutex step of another call leaves every request's call alone. */
  lemma OthersUntouched(s: M.State<nat>, step: M.Step<nat>)
    requires M.Enabled(s, step)
    ensures var t := M.Apply(s, step);
            && (forall c | c in s.calls :: c in t.calls && t.calls[c].key == s.calls[c].key)
            && (forall c | c in s.calls && c != step.c :: t.calls[c] == s.calls[c])
            && (step.Register? ==> step.c in t.calls && t.calls[step.c].key == step.key)
            && (step.Acquire? ==> t.calls[step.c].Holding?)
  {}

  /** A mutex step that no open request gives its lock up by. */
  lemma MutexMoves(s: State, step: M.Step<nat>)
    requires Locked(s) && M.Enabled(s.mutex, step)
    requires step.c in s.requests ==> step.Acquire? || !s.requests[step.c].phase.Open()
    ensures Locked(s.(mutex := M.Apply(s.mutex, step)))
  {
    M.StepKeeps(s.mutex, step);
    OthersUntouched(s.mutex, step);
    hide M.Inv, M.Apply, M.Enabled, Key;
    var t := s.(mutex := M.Apply(s.mutex, step));
    forall c | c in t.requests && t.requests[c].phase.Open() ensures t.mutex.calls[c].Holding? {
      assert s.mutex.calls[c].Holding?;
    }
  }

  lemma ArriveKeeps(s: State, c: Call, session: Session, event: string, l: nat)
    requires Locked(s) && Enabled(s, Arrive(c, session, event, l))
    ensures Locked(Apply(s, Arrive(c, session, event, l)))
  {
    hide M.Inv, M.Apply, M.Enabled, Key;
    var step := M.Register(c, Key(session, event), l);
    MutexMoves(s, step);
    OthersUntouched(s.mutex, step);
  }

  lemma LockedKept(s: State, step: Step)
    requires Locked(s) && Enabled(s, step)
    ensures Locked(Apply(s, step))
  {
    match step
    case Arrive(c, session, event, l) => ArriveKeeps(s, c, session, event, l);
    case Take(c) => MutexMoves(s, M.Acquire(c));
    case Unlock(c) => MutexMoves(s, M.Unlock(c));
    case Leave(c) => MutexMoves(s, M.Leave(c));
    case Foreign(step) => MutexMoves(s, step);
    case _ => PhaseMoves(s, step);
  }

  /** The steps that leave the mutex alone. */
  lemma PhaseMoves(s: State, step: Step)
    requires Locked(s) && Enabled(s, step) && !step.Arrive? && Apply(s, step).mutex == s.mutex
    ensures Locked(Apply(s, step))
  {
    hide M.Inv, M.Apply, M.Enabled, Key;
  }

  /** Requests of one (session, event) never run together. */
  lemma OneRunner(s: State, c: Call, d: Call)
    requires Locked(s) && Running(s, c) && Running(s, d)
    requires s.requests[c].session == s.requests[d].session && s.requests[c].event == s.requests[d].event
    ensures c == d
  {
    M.OneHolder(s.mutex, c, d);
  }

  /** A pair once marked stays with its source. */
  lemma SourceStays(s: State, step: Step, c: Call, session: Session, event: string, rev: string)
    requires Enabled(s, step) && Source(s, c, session, event, rev)
    ensures Source(Apply(s, step), c, session, event, rev)
  {}

  lemma AnsweredStays(s: State, step: Step, c: Call, session: Session, event: string, rev: string)
    requires Enabled(s, step) && Answered(s, c, session, event, rev)
    ensures Answered(Apply(s, step), c, session, event, rev)
  {}

  lemma SourcedKept(s: State, step: Step)
    requires Sourced(s) && Enabled(s, step)
    ensures Sourced(Apply(s, step))
  {
    var t := Apply(s, step);
    forall session | session in t.marker
      ensures exists c :: Source(t, c, session, t.marker[session].0, t.marker[session].1)
    {
      if session in s.marker && t.marker[session] == s.marker[session] {
        var c :| Source(s, c, session, s.marker[session].0, s.marker[session].1);
        SourceStays(s, step, c, session, s.marker[session].0, s.marker[session].1);
      } else {
        assert Source(t, step.c, session, t.marker[session].0, t.marker[session].1);
      }
    }
  }

  /** The marker a request sees for its own event belongs to a finished request. */
  lemma HitIsJustified(s: State, c: Call, rev: string)
    requires Inv(s) && Enabled(s, ReadHit(c, rev))
    ensures exists d :: Answered(s, d, s.requests[c].session, s.requests[c].event, rev)
  {
    var session, event := s.requests[c].session, s.requests[c].event;
    assert Sourced(s);
    var d :| Source(s, d, session, event, rev);
    if s.requests[d].phase.Marked? {
      assert Locked(s) && Running(s, d);
      OneRunner(s, c, d);
    } else {
      assert Answered(s, d, session, event, rev);
    }
  }

  lemma JustifiedKept(s: State, step: Step)
    requires Inv(s) && Enabled(s, step)
    ensures AllJustified(Apply(s, step))
  {
    var t := Apply(s, step);
    if step.ReadHit? {
      HitIsJustified(s, step.c, step.rev);
    }
    hide Locked, Sourced;
    forall c | c in t.requests ensures Justified(t, c) {
      if t.requests[c].phase.Suppressed? {
        var session, event, rev := t.requests[c].session, t.requests[c].event, t.requests[c].phase.rev;
        if c in s.requests && s.requests[c].phase.Suppressed? {
          assert Justified(s, c);
        }
        var d :| Answered(s, d, session, event, rev);
        AnsweredStays(s, step, d, session, event, rev);
      }
    }
  }

  lemma StepKeeps(s: State, step: Step)
    requires Inv(s) && Enabled(s, step)
    ensures Inv(Apply(s, step))
  {
    LockedKept(s, step);
    SourcedKept(s, step);
    JustifiedKept(s, step);
  }

  // ---- with nothing lost ------------------------------------------------

  predicate LastIs(log: seq<Issue>, event: string, rev: string) {
    log != [] && log[|log| - 1].event == event && log[|log| - 1].rev == rev
  }

  /** No pair is issued twice running. */
  predicate NoRepeat(log: seq<Issue>) {
    forall i | 0 < i < |log| :: !LastIs(log[..i], log[i].event, log[i].rev)
  }

  ghost predicate Logged(s: State, c: Call)
    requires c in s.requests
  {
    var r := s.requests[c];
    && !r.phase.Unmarked?
    && (r.phase.Deciding? ==> !LastIs(Log(s, r.session), r.event, r.phase.rev))
    && (r.phase.Marked? || r.phase.Delivered? ==> Issue(c, r.event, r.phase.rev) in Log(s, r.session))
  }

  ghost predicate MarkerIsLast(s: State) {
    forall session, event, rev :: MarkerIs(s, session, event, rev) <==> LastIs(Log(s, session), event, rev)
  }

  ghost predicate NoneRepeats(s: State) {
    forall session :: NoRepeat(Log(s, session))
  }

  ghost predicate AllLogged(s: State) {
    forall c | c in s.requests :: Logged(s, c)
  }

  ghost predicate Faithful(s: State) {
    MarkerIsLast(s) && NoneRepeats(s) && AllLogged(s)
  }

  lemma NoRepeatExtends(log: seq<Issue>, e: Issue)
    requires NoRepeat(log) && !LastIs(log, e.event, e.rev)
    ensures NoRepeat(log + [e]) && LastIs(log + [e], e.event, e.rev)
  {
    var more := log + [e];
    assert more[..|log|] == log;
    assert forall i | 0 <= i < |log| :: more[..i] == log[..i];
  }

  lemma MarkLogs(s: State, c: Call)
    requires Enabled(s, Mark(c))
    ensures var t, r := Apply(s, Mark(c)), s.requests[c];
            && Log(t, r.session) == Log(s, r.session) + [Issue(c, r.event, r.phase.rev)]
            && (forall session | session != r.session :: Log(t, session) == Log(s, session))
            && t.requests == s.requests[c := r.(phase := Marked(r.phase.rev))]
            && t.marker == s.marker[r.session := (r.event, r.phase.rev)]
  {}

  lemma MarkKeepsLast(s: State, c: Call)
    requires Faithful(s) && Enabled(s, Mark(c))
    ensures MarkerIsLast(Apply(s, Mark(c))) && NoneRepeats(Apply(s, Mark(c)))
  {
    var t, r := Apply(s, Mark(c)), s.requests[c];
    MarkLogs(s, c);
    assert Logged(s, c);
    NoRepeatExtends(Log(s, r.session), Issue(c, r.event, r.phase.rev));
    hide Apply, Enabled, NoRepeat, Log;
    forall session, event, rev
      ensures MarkerIs(t, session, event, rev) <==> LastIs(Log(t, session), event, rev)
    {
      assert MarkerIs(s, session, event, rev) <==> LastIs(Log(s, session), event, rev);
    }
  }

  lemma MarkKeepsLogged(s: State, c: Call)
    requires Locked(s) && Faithful(s) && Enabled(s, Mark(c))
    ensures AllLogged(Apply(s, Mark(c)))
  {
    var t, r := Apply(s, Mark(c)), s.requests[c];
    MarkLogs(s, c);
    assert Running(s, c);
    hide Apply, Enabled, Log, NoneRepeats, MarkerIsLast;
    forall d | d in t.requests ensures Logged(t, d) {
      assert Logged(s, d);
      if s.requests[d].session == r.session && s.requests[d].event == r.event && s.requests[d].phase.Deciding? {
        assert Running(s, d);
        OneRunner(s, c, d);
      }
    }
  }

  lemma OthersKeepFaith(s: State, step: Step)
    requires Faithful(s) && Enabled(s, step) && !step.Mark? && Apply(s, step).perfect
    ensures Faithful(Apply(s, step))
  {
    var t := Apply(s, step);
    assert t.issued == s.issued && t.marker == s.marker && s.perfect;
    assert forall session :: Log(t, session) == Log(s, session);
    assert forall session, event, rev :: MarkerIs(t, session, event, rev) <==> MarkerIs(s, session, event, rev);
    hide NoRepeat, LastIs, Log;
    assert MarkerIsLast(t) && NoneRepeats(t);
    hide MarkerIsLast, NoneRepeats;
    forall d | d in t.requests ensures Logged(t, d) {
      if d in s.requests {
        assert Logged(s, d);
      }
      assert step.ReadMiss? ==> !MarkerIs(s, s.requests[step.c].session, s.requests[step.c].event, step.rev);
    }
  }

  lemma FaithKept(s: State, step: Step)
    requires Inv(s) && (s.perfect ==> Faithful(s)) && Enabled(s, step)
    ensures Apply(s, step).perfect ==> Faithful(Apply(s, step))
  {
    if Apply(s, step).perfect {
      if step.Mark? {
        MarkKeepsLast(s, step.c);
        MarkKeepsLogged(s, step.c);
      } else {
        OthersKeepFaith(s, step);
      }
    }
  }

  lemma {:induction false} RunKeeps(s: State, steps: seq<Step>)
    requires Inv(s) && (s.perfect ==> Faithful(s)) && CanRun(s, steps)
    ensures var t := After(s, steps); Inv(t) && (t.perfect ==> Faithful(t))
    decreases |steps|
  {
    hide Inv, Faithful, Enabled;
    if steps != [] {
      StepKeeps(s, steps[0]);
      FaithKept(s, steps[0]);
      RunKeeps(Apply(s, steps[0]), steps[1..]);
    }
  }

  // ---- the theorems -----------------------------------------------------

  /** In every interleaving, whatever fails: an answer suppressed as a duplicate
      follows a non-empty answer to the same session, event and revision. */
  lemma SuppressedWasAnswered(steps: seq<Step>, c: Call)
    requires CanRun(INIT, steps)
    requires var s := After(INIT, steps); c in s.requests && s.requests[c].phase.Suppressed?
    ensures var s := After(INIT, steps); var r := s.requests[c];
            exists d :: d != c && Answered(s, d, r.session, r.event, r.phase.rev)
  {
    assert Inv(INIT) && Faithful(INIT);
    RunKeeps(INIT, steps);
    var s := After(INIT, steps);
    assert Justified(s, c);
  }

  /** Between any two issues of one pair in a session lies an issue of another. */
  lemma RepeatsAreSeparated(log: seq<Issue>, i: nat, j: nat)
    requires NoRepeat(log) && i < j < |log| && log[i].event == log[j].event && log[i].rev == log[j].rev
    ensures exists k :: i < k < j && (log[k].event != log[i].event || log[k].rev != log[i].rev)
  {
    assert log[..j][j - 1] == log[j - 1];
    assert !LastIs(log[..j], log[j].event, log[j].rev);
    assert i < j - 1;
  }

  /** In every interleaving without failures, two non-empty answers with the same
      session, event and revision have a different issued pair between them. */
  lemma SameAnswersAreSeparated(steps: seq<Step>, c: Call, d: Call, session: Session, event: string, rev: string)
    returns (i: nat, j: nat, k: nat)
    requires CanRun(INIT, steps) && After(INIT, steps).perfect && c != d
    requires Answered(After(INIT, steps), c, session, event, rev) && Answered(After(INIT, steps), d, session, event, rev)
    ensures var log := Log(After(INIT, steps), session);
            && i < |log| && j < |log| && log[i] == Issue(c, event, rev) && log[j] == Issue(d, event, rev)
            && (i < k < j || j < k < i) && (log[k].event != event || log[k].rev != rev)
  {
    assert Inv(INIT) && Faithful(INIT);
    RunKeeps(INIT, steps);
    var s := After(INIT, steps);
    var log := Log(s, session);
    assert Logged(s, c) && Logged(s, d) && NoneRepeats(s) && NoRepeat(log);
    i :| i < |log| && log[i] == Issue(c, event, rev);
    j :| j < |log| && log[j] == Issue(d, event, rev);
    RepeatsAreSeparated(log, if i < j then i else j, if i < j then j else i);
    k :| (i < k < j || j < k < i) && (log[k].event != event || log[k].rev != rev);
  }
}
