/** The stale-while-revalidate cache behind the console's read models. Callers, the
    goroutine that runs a load, and every section under the cache's mutex interleave
    as atomic steps. */
module TtlCache {
  import opened Text

  datatype Result<+T> = Ok(value: T) | Err(error: string)

  datatype Entry<+T> = Entry(value: T, at: int)

  /** A flight's goroutine: the load runs, its result is set, the cache is updated,
      and only then is `done` closed. */
  datatype Flight<+T> =
    | Loading
    | Loaded(res: Result<T>)
    | Published(res: Result<T>)
    | Closed(res: Result<T>)
  {
    predicate Busy() { Loading? || Loaded? }
  }

  /** What a `get` has come to. `F` is the identity of a flight. */
  datatype Caller<+T, +F> =
    | Waiting(f: F)
    | Hit(value: T)
    | Joined(f: F, res: Result<T>)
    | CutOff

  /** `good` records the results of successful loads and the values put. */
  datatype State<T, !F> = State(
    value: Option<Entry<T>>,
    flight: Option<F>,
    flights: map<F, Flight<T>>,
    callers: map<nat, Caller<T, F>>,
    good: seq<T>)

  datatype Step<T, F> =
    | Get(c: nat, now: int, spare: Option<F>)
    | Put(v: T, now: int)
    | Warm(spare: Option<F>)
    | Load(f: F, res: Result<T>)
    | Publish(f: F, now: int)
    | Close(f: F)
    | Wake(c: nat)
    | Cancel(c: nat)

  ghost function Init<T, F>(): State<T, F> {
    State(None, None, map[], map[], [])
  }

  /** startLocked. */
  ghost function Start<T, F>(s: State<T, F>, spare: Option<F>): State<T, F>
    requires s.flight.None? ==> spare.Some?
  {
    if s.flight.Some? then s else s.(flight := spare, flights := s.flights[spare.value := Loading])
  }

  ghost predicate Stale<T, F>(ttl: int, s: State<T, F>, now: int) {
    s.value.None? || now - s.value.value.at >= ttl
  }

  /** `spare` is the new flight, if the section starts one. */
  ghost predicate Supplies<T, F>(s: State<T, F>, starts: bool, spare: Option<F>) {
    spare.Some? == (starts && s.flight.None?) && (spare.Some? ==> spare.value !in s.flights)
  }

  ghost predicate Enabled<T, F>(ttl: int, s: State<T, F>, step: Step<T, F>) {
    match step
    case Get(c, now, spare) => c !in s.callers && Supplies(s, Stale(ttl, s, now), spare)
    case Put(_, _) => true
    case Warm(spare) => Supplies(s, true, spare)
    case Load(f, _) => f in s.flights && s.flights[f].Loading?
    case Publish(f, _) => f in s.flights && s.flights[f].Loaded?
    case Close(f) => f in s.flights && s.flights[f].Published?
    case Wake(c) => c in s.callers && s.callers[c].Waiting? && s.callers[c].f in s.flights && s.flights[s.callers[c].f].Closed?
    case Cancel(c) => c in s.callers && s.callers[c].Waiting?
  }

  ghost function Apply<T, F>(ttl: int, s: State<T, F>, step: Step<T, F>): State<T, F>
    requires Enabled(ttl, s, step)
  {
    match step
    case Get(c, now, spare) =>
      if s.value.Some? then
        var t := if Stale(ttl, s, now) then Start(s, spare) else s;
        t.(callers := s.callers[c := Hit(s.value.value.value)])
      else
        var t := Start(s, spare);
        t.(callers := s.callers[c := Waiting(t.flight.value)])
    case Put(v, now) => s.(value := Some(Entry(v, now)), good := s.good + [v])
    case Warm(spare) => Start(s, spare)
    case Load(f, res) =>
      s.(flights := s.flights[f := Loaded(res)], good := if res.Ok? then s.good + [res.value] else s.good)
    case Publish(f, now) =>
      var res := s.flights[f].res;
      s.(value := if res.Ok? then Some(Entry(res.value, now)) else s.value,
         flight := None,
         flights := s.flights[f := Published(res)])
    case Close(f) => s.(flights := s.flights[f := Closed(s.flights[f].res)])
    case Wake(c) => s.(callers := s.callers[c := Joined(s.callers[c].f, s.flights[s.callers[c].f].res)])
    case Cancel(c) => s.(callers := s.callers[c := CutOff])
  }

  // ---- what every step keeps --------------------------------------------

  /** The one flight in the cache is the one whose load has not been published. */
  ghost predicate OneFlight<T, F>(s: State<T, F>) {
    && (s.flight.Some? ==> s.flight.value in s.flights && s.flights[s.flight.value].Busy())
    && (forall f | f in s.flights && s.flights[f].Busy() :: s.flight == Some(f))
  }

  ghost predicate CallerFine<T, F>(s: State<T, F>, c: nat)
    requires c in s.callers
  {
    match s.callers[c]
    case Waiting(f) => f in s.flights
    case Hit(v) => v in s.good
    case Joined(f, res) => f in s.flights && s.flights[f] == Closed(res)
    case CutOff => true
  }

  ghost predicate FlightFine<T, F>(s: State<T, F>, f: F)
    requires f in s.flights
  {
    match s.flights[f]
    case Loading => true
    case Loaded(res) => res.Ok? ==> res.value in s.good
    case Published(res) => res.Ok? ==> res.value in s.good && s.value.Some?
    case Closed(res) => res.Ok? ==> res.value in s.good && s.value.Some?
  }

  ghost predicate Inv<T, F>(s: State<T, F>) {
    && OneFlight(s)
    && (s.value.Some? ==> s.value.value.value in s.good)
    && (forall c | c in s.callers :: CallerFine(s, c))
    && (forall f | f in s.flights :: FlightFine(s, f))
  }

  lemma OneFlightKept<T, F>(ttl: int, s: State<T, F>, step: Step<T, F>)
    requires OneFlight(s) && Enabled(ttl, s, step)
    ensures OneFlight(Apply(ttl, s, step))
  {}

  /** A step never takes a good value back, and never reopens a closed flight. */
  lemma Monotone<T, F>(ttl: int, s: State<T, F>, step: Step<T, F>)
    requires Enabled(ttl, s, step)
    ensures var t := Apply(ttl, s, step);
            && (forall v | v in s.good :: v in t.good)
            && (s.value.Some? ==> t.value.Some?)
            && (forall f | f in s.flights :: f in t.flights && (s.flights[f].Closed? ==> t.flights[f] == s.flights[f]))
  {}

  lemma CallersKept<T, F>(ttl: int, s: State<T, F>, step: Step<T, F>)
    requires Inv(s) && Enabled(ttl, s, step)
    ensures var t := Apply(ttl, s, step); forall c | c in t.callers :: CallerFine(t, c)
  {
    var t := Apply(ttl, s, step);
    Monotone(ttl, s, step);
    forall c | c in t.callers ensures CallerFine(t, c) {
      if c in s.callers {
        assert CallerFine(s, c);
      }
    }
  }

  lemma FlightsKept<T, F>(ttl: int, s: State<T, F>, step: Step<T, F>)
    requires Inv(s) && Enabled(ttl, s, step)
    ensures var t := Apply(ttl, s, step); forall f | f in t.flights :: FlightFine(t, f)
  {
    var t := Apply(ttl, s, step);
    Monotone(ttl, s, step);
    forall f | f in t.flights ensures FlightFine(t, f) {
      if f in s.flights {
        assert FlightFine(s, f);
      }
    }
  }

  lemma StepKeeps<T, F>(ttl: int, s: State<T, F>, step: Step<T, F>)
    requires Inv(s) && Enabled(ttl, s, step)
    ensures Inv(Apply(ttl, s, step))
  {
    OneFlightKept(ttl, s, step);
    CallersKept(ttl, s, step);
    FlightsKept(ttl, s, step);
    Monotone(ttl, s, step);
    if step.Publish? {
      assert FlightFine(s, step.f);
    }
  }

  ghost predicate CanRun<T, F>(ttl: int, s: State<T, F>, steps: seq<Step<T, F>>)
    decreases |steps|
  {
    steps == [] || (Enabled(ttl, s, steps[0]) && CanRun(ttl, Apply(ttl, s, steps[0]), steps[1..]))
  }

  ghost function After<T, F>(ttl: int, s: State<T, F>, steps: seq<Step<T, F>>): State<T, F>
    requires CanRun(ttl, s, steps)
    decreases |steps|
  {
    if steps == [] then s else After(ttl, Apply(ttl, s, steps[0]), steps[1..])
  }

  lemma {:induction false} RunKeeps<T, F>(ttl: int, s: State<T, F>, steps: seq<Step<T, F>>)
    requires Inv(s) && CanRun(ttl, s, steps)
    ensures Inv(After(ttl, s, steps))
    ensures s.value.Some? ==> After(ttl, s, steps).value.Some?
    decreases |steps|
  {
    hide Inv, Enabled;
    if steps != [] {
      StepKeeps(ttl, s, steps[0]);
      Monotone(ttl, s, steps[0]);
      RunKeeps(ttl, Apply(ttl, s, steps[0]), steps[1..]);
    }
  }

  // ---- the theorems -----------------------------------------------------

  /** In every interleaving: one load at a time; the cached value and every value
      answered came from a successful load or a put; a caller that waited has the
      result of the flight it joined. */
  lemma EveryRunIsSafe<T, F>(ttl: int, steps: seq<Step<T, F>>)
    requires CanRun(ttl, Init(), steps)
    ensures var s := After(ttl, Init(), steps);
            && (forall f, g | f in s.flights && g in s.flights && s.flights[f].Loading? && s.flights[g].Loading? :: f == g)
            && (s.value.Some? ==> s.value.value.value in s.good)
            && (forall c | c in s.callers && s.callers[c].Hit? :: s.callers[c].value in s.good)
            && (forall c | c in s.callers && s.callers[c].Joined? ::
                  s.callers[c].f in s.flights && s.flights[s.callers[c].f] == Closed(s.callers[c].res))
            && (forall c | c in s.callers && s.callers[c].Joined? && s.callers[c].res.Ok? :: s.callers[c].res.value in s.good)
  {
    RunKeeps(ttl, Init<T, F>(), steps);
    var s := After(ttl, Init<T, F>(), steps);
    forall c | c in s.callers ensures CallerFine(s, c) && (s.callers[c].Joined? ==> FlightFine(s, s.callers[c].f)) {
      assert CallerFine(s, c);
    }
  }

  lemma {:induction false} RunSplits<T, F>(ttl: int, s: State<T, F>, a: seq<Step<T, F>>, b: seq<Step<T, F>>)
    requires CanRun(ttl, s, a + b)
    ensures CanRun(ttl, s, a) && CanRun(ttl, After(ttl, s, a), b) && After(ttl, s, a + b) == After(ttl, After(ttl, s, a), b)
    decreases |a|
  {
    if a == [] {
      assert a + b == b;
    } else {
      assert (a + b)[1..] == a[1..] + b;
      RunSplits(ttl, Apply(ttl, s, a[0]), a[1..], b);
    }
  }

  /** A cache that has a value keeps one for ever, and from then on no caller waits. */
  lemma NeverEmptyAgain<T, F>(ttl: int, before: seq<Step<T, F>>, after: seq<Step<T, F>>, c: nat, now: int, spare: Option<F>)
    requires CanRun(ttl, Init<T, F>(), before + after + [Get(c, now, spare)])
    requires CanRun(ttl, Init<T, F>(), before) && After(ttl, Init<T, F>(), before).value.Some?
    ensures var s := After(ttl, Init<T, F>(), before + after + [Get(c, now, spare)]);
            s.value.Some? && c in s.callers && s.callers[c] == Hit(s.value.value.value)
  {
    RunSplits(ttl, Init(), before + after, [Get(c, now, spare)]);
    RunSplits(ttl, Init(), before, after);
    RunKeeps(ttl, Init<T, F>(), before);
    RunKeeps(ttl, After(ttl, Init<T, F>(), before), after);
    var t := After(ttl, Init<T, F>(), before + after);
    assert [Step<T, F>.Get(c, now, spare)][1..] == [];
  }

  /** No put, and no load that succeeds. */
  ghost predicate Fruitless<T, F>(steps: seq<Step<T, F>>) {
    forall k | 0 <= k < |steps| :: !steps[k].Put? && (steps[k].Load? ==> steps[k].res.Err?)
  }

  /** No result that still has to be published is a success. */
  ghost predicate NothingPending<T, F>(s: State<T, F>) {
    forall f | f in s.flights && s.flights[f].Loaded? :: s.flights[f].res.Err?
  }

  lemma {:induction false} FruitlessRun<T, F>(ttl: int, s: State<T, F>, steps: seq<Step<T, F>>)
    requires CanRun(ttl, s, steps) && Fruitless(steps) && NothingPending(s)
    ensures var t := After(ttl, s, steps); t.value == s.value && t.good == s.good
    decreases |steps|
  {
    if steps != [] {
      var t := Apply(ttl, s, steps[0]);
      assert NothingPending(t) && t.value == s.value && t.good == s.good;
      FruitlessRun(ttl, t, steps[1..]);
    }
  }

  lemma {:induction false} FlightsStay<T, F>(ttl: int, s: State<T, F>, steps: seq<Step<T, F>>, f: F)
    requires CanRun(ttl, s, steps) && f in s.flights && !s.flights[f].Busy()
    ensures var t := After(ttl, s, steps); f in t.flights && !t.flights[f].Busy()
    decreases |steps|
  {
    if steps != [] {
      FlightsStay(ttl, Apply(ttl, s, steps[0]), steps[1..], f);
    }
  }

  /** A failed load changes nothing, ever: until a later load succeeds or a value is
      put, the cache holds what it held before the failure. A get is answered with
      that value, or, with none, waits for another flight, a new one unless a retry
      is under way. */
  lemma FailureChangesNothing<T, F>(ttl: int, before: seq<Step<T, F>>, f: F, now: int, after: seq<Step<T, F>>,
                                    c: nat, later: int, spare: Option<F>, error: string)
    requires CanRun(ttl, Init<T, F>(), before + ([Publish(f, now)] + (after + [Get(c, later, spare)])))
    requires CanRun(ttl, Init<T, F>(), before) && f in After(ttl, Init<T, F>(), before).flights
    requires After(ttl, Init<T, F>(), before).flights[f] == Loaded(Err(error)) && Fruitless(after)
    ensures var s := After(ttl, Init<T, F>(), before);
            var t := After(ttl, Init<T, F>(), before + ([Publish(f, now)] + (after + [Get(c, later, spare)])));
            && t.value == s.value && t.good == s.good && c in t.callers
            && (s.value.Some? ==> t.callers[c] == Hit(s.value.value.value))
            && (s.value.None? ==> t.callers[c].Waiting? && t.flight == Some(t.callers[c].f) && t.callers[c].f != f
                                  && (spare.Some? ==> t.callers[c].f == spare.value && spare.value in t.flights && t.flights[spare.value].Loading?))
  {
    assert Inv(Init<T, F>());
    hide Inv, Enabled, Apply;
    RunSplits(ttl, Init(), before, [Publish(f, now)] + (after + [Get(c, later, spare)]));
    RunKeeps(ttl, Init<T, F>(), before);
    var s := After(ttl, Init<T, F>(), before);
    RunSplits(ttl, s, [Publish(f, now)], after + [Get(c, later, spare)]);
    OneStep(ttl, s, Publish(f, now));
    var u := Apply(ttl, s, Publish(f, now));
    RunSplits(ttl, u, after, [Get(c, later, spare)]);
    FailedPublish(ttl, s, f, now);
    FruitlessRun(ttl, u, after);
    FlightsStay(ttl, u, after, f);
    RunKeeps(ttl, u, after);
    var v := After(ttl, u, after);
    OneStep(ttl, v, Get(c, later, spare));
    GetAfter(ttl, v, f, c, later, spare);
  }

  lemma OneStep<T, F>(ttl: int, s: State<T, F>, step: Step<T, F>)
    requires CanRun(ttl, s, [step])
    ensures Enabled(ttl, s, step) && After(ttl, s, [step]) == Apply(ttl, s, step)
  {
    assert [step][1..] == [];
  }

  lemma FailedPublish<T, F>(ttl: int, s: State<T, F>, f: F, now: int)
    requires Inv(s) && Enabled(ttl, s, Publish(f, now)) && s.flights[f].res.Err?
    ensures var u := Apply(ttl, s, Publish(f, now));
            && Inv(u) && u.value == s.value && u.good == s.good && NothingPending(u)
            && f in u.flights && !u.flights[f].Busy()
  {
    StepKeeps(ttl, s, Publish(f, now));
  }

  lemma GetAfter<T, F>(ttl: int, v: State<T, F>, f: F, c: nat, later: int, spare: Option<F>)
    requires Inv(v) && Enabled(ttl, v, Get(c, later, spare)) && f in v.flights && !v.flights[f].Busy()
    ensures var t := Apply(ttl, v, Get(c, later, spare));
            && t.value == v.value && t.good == v.good && c in t.callers
            && (v.value.Some? ==> t.callers[c] == Hit(v.value.value.value))
            && (v.value.None? ==> t.callers[c].Waiting? && t.flight == Some(t.callers[c].f) && t.callers[c].f != f
                                  && (spare.Some? ==> t.callers[c].f == spare.value && spare.value in t.flights && t.flights[spare.value].Loading?))
  {}

  function Closes<T, F(==)>(steps: seq<Step<T, F>>, f: F): nat {
    if steps == [] then 0
    else (if steps[0].Close? && steps[0].f == f then 1 else 0) + Closes(steps[1..], f)
  }

  /** `done` is closed at most once for each flight. */
  lemma {:induction false} ClosedOnce<T, F>(ttl: int, s: State<T, F>, steps: seq<Step<T, F>>, f: F)
    requires CanRun(ttl, s, steps)
    ensures Closes(steps, f) <= if f in s.flights && s.flights[f].Closed? then 0 else 1
    decreases |steps|
  {
    if steps != [] {
      Monotone(ttl, s, steps[0]);
      ClosedOnce(ttl, Apply(ttl, s, steps[0]), steps[1..], f);
    }
  }

  // ---- fresh and stale --------------------------------------------------

  /** The value that the step puts into the cache, with the time of the step: a put, or
      the publication of a load that succeeded. */
  ghost function Sets<T, F>(s: State<T, F>, step: Step<T, F>): Option<Entry<T>> {
    match step
    case Put(v, now) => Some(Entry(v, now))
    case Publish(f, now) =>
      if f in s.flights && s.flights[f].Loaded? && s.flights[f].res.Ok? then Some(Entry(s.flights[f].res.value, now)) else None
    case _ => None
  }

  /** The last step of the run that set a value set this one. */
  ghost predicate SetLast<T, F>(ttl: int, s: State<T, F>, steps: seq<Step<T, F>>, k: nat, e: Entry<T>)
    requires CanRun(ttl, s, steps)
  {
    && k < |steps| && SetAt(ttl, s, steps, k) == Some(e)
    && forall j | k < j < |steps| :: SetAt(ttl, s, steps, j) == None
  }

  ghost function SetAt<T, F>(ttl: int, s: State<T, F>, steps: seq<Step<T, F>>, k: nat): Option<Entry<T>>
    requires CanRun(ttl, s, steps) && k < |steps|
    decreases |steps|
  {
    if k == 0 then Sets(s, steps[0]) else SetAt(ttl, Apply(ttl, s, steps[0]), steps[1..], k - 1)
  }

  lemma StepSets<T, F>(ttl: int, s: State<T, F>, step: Step<T, F>)
    requires Enabled(ttl, s, step)
    ensures Apply(ttl, s, step).value == if Sets(s, step).Some? then Sets(s, step) else s.value
  {}

  /** The value, and the time it is dated, are those of the last step that set one. */
  lemma {:induction false} ValueIsSet<T, F>(ttl: int, s: State<T, F>, steps: seq<Step<T, F>>)
    requires CanRun(ttl, s, steps)
    ensures var t := After(ttl, s, steps);
            || (exists k: nat, e :: SetLast(ttl, s, steps, k, e) && t.value == Some(e))
            || (t.value == s.value && forall k: nat | k < |steps| :: SetAt(ttl, s, steps, k) == None)
    decreases |steps|
  {
    if steps != [] {
      var u := Apply(ttl, s, steps[0]);
      StepSets(ttl, s, steps[0]);
      ValueIsSet(ttl, u, steps[1..]);
      hide Enabled, Apply, Sets, SetLast, SetAt;
      var t := After(ttl, s, steps);
      if k: nat, e :| SetLast(ttl, u, steps[1..], k, e) && t.value == Some(e) {
        LastLater(ttl, s, steps, k, e);
      } else {
        FirstIsLast(ttl, s, steps);
      }
    }
  }

  lemma LastLater<T, F>(ttl: int, s: State<T, F>, steps: seq<Step<T, F>>, k: nat, e: Entry<T>)
    requires CanRun(ttl, s, steps) && steps != [] && SetLast(ttl, Apply(ttl, s, steps[0]), steps[1..], k, e)
    ensures SetLast(ttl, s, steps, k + 1, e)
  {
    hide Enabled, Apply, Sets;
    SetShift(ttl, s, steps);
    forall j | k + 1 < j < |steps| ensures SetAt(ttl, s, steps, j) == None {
      assert SetAt(ttl, Apply(ttl, s, steps[0]), steps[1..], j - 1) == None;
    }
  }

  lemma FirstIsLast<T, F>(ttl: int, s: State<T, F>, steps: seq<Step<T, F>>)
    requires CanRun(ttl, s, steps) && steps != []
    requires forall j: nat | j < |steps[1..]| :: SetAt(ttl, Apply(ttl, s, steps[0]), steps[1..], j) == None
    ensures forall k: nat | 0 < k < |steps| :: SetAt(ttl, s, steps, k) == None
    ensures SetAt(ttl, s, steps, 0) == Sets(s, steps[0])
    ensures Sets(s, steps[0]).Some? ==> SetLast(ttl, s, steps, 0, Sets(s, steps[0]).value)
  {
    hide Enabled, Apply, Sets;
    SetShift(ttl, s, steps);
    forall k: nat | 0 < k < |steps| ensures SetAt(ttl, s, steps, k) == None {
      assert SetAt(ttl, Apply(ttl, s, steps[0]), steps[1..], k - 1) == None;
    }
  }

  lemma SetShift<T, F>(ttl: int, s: State<T, F>, steps: seq<Step<T, F>>)
    requires CanRun(ttl, s, steps) && steps != []
    ensures SetAt(ttl, s, steps, 0) == Sets(s, steps[0])
    ensures forall k: nat | 0 < k < |steps| :: SetAt(ttl, s, steps, k) == SetAt(ttl, Apply(ttl, s, steps[0]), steps[1..], k - 1)
  {
    hide Enabled, Apply, Sets;
  }

  /** A cache that was never given a value has none, and any value it has is dated when
      it was put or published. A get finds it stale when that is at least the TTL ago,
      and then a flight is under way afterwards, a new one if there was none; while it
      is younger the get starts nothing. */
  lemma RefreshedExactly<T, F>(ttl: int, before: seq<Step<T, F>>, c: nat, now: int, spare: Option<F>)
    requires CanRun(ttl, Init<T, F>(), before + [Get(c, now, spare)]) && CanRun(ttl, Init<T, F>(), before)
    ensures var s, t := After(ttl, Init<T, F>(), before), After(ttl, Init<T, F>(), before + [Get(c, now, spare)]);
            && (s.value.None? ==> forall k: nat | k < |before| :: SetAt(ttl, Init<T, F>(), before, k) == None)
            && (s.value.Some? ==> exists k: nat :: SetLast(ttl, Init<T, F>(), before, k, s.value.value))
            && (if s.value.None? || now - s.value.value.at >= ttl
                then t.flight.Some? && t.flight.value in t.flights && t.flights[t.flight.value].Busy()
                     && (s.flight.Some? ==> t.flight == s.flight && t.flights == s.flights)
                     && (s.flight.None? ==> t.flight == spare && t.flight.value !in s.flights && t.flights[t.flight.value].Loading?)
                else spare.None? && t.flight == s.flight && t.flights == s.flights)
  {
    RunSplits(ttl, Init(), before, [Get(c, now, spare)]);
    RunKeeps(ttl, Init<T, F>(), before);
    ValueIsSet(ttl, Init<T, F>(), before);
    var s := After(ttl, Init<T, F>(), before);
    OneStep(ttl, s, Get(c, now, spare));
    GetStarts(ttl, s, c, now, spare);
  }

  lemma GetStarts<T, F>(ttl: int, s: State<T, F>, c: nat, now: int, spare: Option<F>)
    requires Inv(s) && Enabled(ttl, s, Get(c, now, spare))
    ensures var t := Apply(ttl, s, Get(c, now, spare));
            if s.value.None? || now - s.value.value.at >= ttl
            then t.flight.Some? && t.flight.value in t.flights && t.flights[t.flight.value].Busy()
                 && (s.flight.Some? ==> t.flight == s.flight && t.flights == s.flights)
                 && (s.flight.None? ==> t.flight == spare && t.flight.value !in s.flights && t.flights[t.flight.value].Loading?)
            else spare.None? && t.flight == s.flight && t.flights == s.flights
  {}

  // ---- the objects ------------------------------------------------------

  class CacheFlight<T> {
    var res: Option<Result<T>>
    var done: bool
    ghost var published: bool

    constructor ()
      ensures res == None && !done && !published
    {
      res, done, published := None, false, false;
    }

    ghost function View(): Flight<T>
      reads this
    {
      if res.None? then Loading
      else if done then Closed(res.value)
      else if published then Published(res.value)
      else Loaded(res.value)
    }
  }

  class Cache<T(0)> {
    const ttl: int
    var val: T
    var at: int
    var ok: bool
    var flight: CacheFlight?<T>
    ghost var all: set<CacheFlight<T>>
    ghost var callers: map<nat, Caller<T, CacheFlight<T>>>
    ghost var good: seq<T>

    ghost function View(): State<T, CacheFlight<T>>
      reads this, all
    {
      State(if ok then Some(Entry(val, at)) else None,
            if flight == null then None else Some(flight as CacheFlight<T>),
            map f | f in all :: f.View(),
            callers, good)
    }

    constructor (ttl: int)
      ensures this.ttl == ttl && View() == Init() && all == {}
    {
      this.ttl, ok, flight, all, callers, good := ttl, false, null, {}, map[], [];
    }

    method StartLocked() returns (f: CacheFlight<T>)
      modifies this
      ensures if old(flight) != null then f == old(flight) && all == old(all)
              else fresh(f) && f !in old(all) && all == old(all) + {f} && f.View() == Loading
      ensures flight == f && val == old(val) && at == old(at) && ok == old(ok) && callers == old(callers) && good == old(good)
    {
      if flight != null {
        return flight;
      }
      f := new CacheFlight();
      flight, all := f, all + {f};
    }

    /** The section of `get` under the mutex: a value at once, or a flight to wait for. */
    method Lookup(now: int, ghost c: nat) returns (hit: bool, v: T, f: CacheFlight?<T>, ghost started: Option<CacheFlight<T>>)
      requires Inv(View()) && c !in callers
      modifies this
      ensures all == old(all) || (started.Some? && fresh(started.value) && all == old(all) + {started.value})
      ensures Enabled(ttl, old(View()), Get(c, now, started)) && View() == Apply(ttl, old(View()), Get(c, now, started))
      ensures hit == old(ok) && (hit ==> v == old(val)) && (!hit ==> f != null && flight == f)
      ensures started.Some? <==> old(flight) == null && (!old(ok) || now - old(at) >= ttl)
      ensures if started.Some? then flight == started.value else flight == old(flight)
      ensures val == old(val) && at == old(at) && ok == old(ok)
      ensures Inv(View())
    {
      hide Inv;
      ghost var s := View();
      v, f, hit, started := val, null, ok, None;
      if ok {
        callers := callers[c := Hit(val)];
        if now - at >= ttl {
          f := StartLocked();
          started := if s.flight.None? then Some(f) else None;
        }
      } else {
        f := StartLocked();
        started := if s.flight.None? then Some(f) else None;
        callers := callers[c := Waiting(f)];
      }
      StepKeeps(ttl, s, Get(c, now, started));
    }

    method Warm() returns (ghost started: Option<CacheFlight<T>>)
      requires Inv(View())
      modifies this
      ensures all == old(all) || (started.Some? && fresh(started.value) && all == old(all) + {started.value})
      ensures Enabled(ttl, old(View()), Step.Warm(started)) && View() == Apply(ttl, old(View()), Step.Warm(started))
      ensures Inv(View())
    {
      ghost var s := View();
      var f := StartLocked();
      started := if s.flight.None? then Some(f) else None;
      StepKeeps(ttl, s, Step.Warm(started));
    }

    method Put(v: T, now: int)
      requires Inv(View())
      modifies this
      ensures all == old(all) && View() == Apply(ttl, old(View()), Step.Put(v, now)) && Inv(View())
      ensures ok && val == v && at == now && flight == old(flight)
    {
      ghost var s := View();
      val, at, ok := v, now, true;
      good := good + [v];
      StepKeeps(ttl, s, Step.Put(v, now));
    }

    /** The load has returned: its result is set before anyone can see it. */
    method Land(f: CacheFlight<T>, res: Result<T>)
      requires Inv(View()) && f in all && f.res.None? && !f.done && !f.published
      modifies this`good, f`res
      ensures View() == Apply(ttl, old(View()), Load(f, res)) && Inv(View())
      ensures f.View() == Loaded(res)
    {
      ghost var s := View();
      f.res := Some(res);
      good := if res.Ok? then good + [res.value] else good;
      StepKeeps(ttl, s, Load(f, res));
    }

    /** The goroutine's section under the mutex, after the load has ended. */
    method Finish(f: CacheFlight<T>, now: int)
      requires Inv(View()) && f in all && f.View().Loaded?
      modifies this, f
      ensures all == old(all) && View() == Apply(ttl, old(View()), Publish(f, now)) && Inv(View())
      ensures flight == null
      ensures if old(f.res.value).Ok? then ok && val == old(f.res.value).value && at == now
              else ok == old(ok) && val == old(val) && at == old(at)
    {
      hide Inv;
      ghost var s := View();
      assert s.flights[f].Busy();
      if f.res.value.Ok? {
        val, at, ok := f.res.value.value, now, true;
      }
      flight := null;
      f.published := true;
      StepKeeps(ttl, s, Publish(f, now));
    }

    /** close(f.done). */
    method Signal(f: CacheFlight<T>)
      requires Inv(View()) && f in all && f.View().Published?
      modifies f
      ensures View() == Apply(ttl, old(View()), Close(f)) && Inv(View())
    {
      ghost var s := View();
      f.done := true;
      StepKeeps(ttl, s, Close(f));
    }
  }
}
