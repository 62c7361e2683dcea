/** The refcounted keyed mutex that fences concurrent context deliveries. A call of
    `lock` is followed from its registration under the map's own mutex, through the
    wait for the key's lock, to the two halves of its release; calls interleave
    between these steps in any way. */
module DeliveryMutex {
  import opened Text

  type Call = nat

  /** Where one call of `lock`, and the release function it returned, stands. */
  datatype Pc<L> =
    | Waiting(key: string, l: L)
    | Holding(key: string, l: L)
    | Leaving(key: string, l: L)
    | Released(key: string)
  {
    predicate Registered() { !Released? }
  }

  /** `L` is the identity of a lock object; a deleted object keeps its last state. */
  datatype State<L> = State(
    locks: map<string, L>,
    owner: map<L, Option<Call>>,
    refs: map<L, int>,
    calls: map<Call, Pc<L>>)

  datatype Step<L> =
    | Register(c: Call, key: string, l: L)
    | Acquire(c: Call)
    | Unlock(c: Call)
    | Leave(c: Call)
    | ReleaseAgain(c: Call)

  function Init<L(==)>(): State<L> {
    State(map[], map[], map[], map[])
  }

  predicate Enabled<L(==)>(s: State<L>, step: Step<L>) {
    match step
    case Register(c, key, l) =>
      && c !in s.calls
      && (if key in s.locks then l == s.locks[key] && l in s.owner && l in s.refs else l !in s.owner)
    case Acquire(c) => c in s.calls && s.calls[c].Waiting? && s.calls[c].l in s.owner && s.owner[s.calls[c].l] == None
    case Unlock(c) => c in s.calls && s.calls[c].Holding?
    case Leave(c) => c in s.calls && s.calls[c].Leaving? && s.calls[c].l in s.refs
    case ReleaseAgain(c) => c in s.calls && (s.calls[c].Leaving? || s.calls[c].Released?)
  }

  function Apply<L(==)>(s: State<L>, step: Step<L>): State<L>
    requires Enabled(s, step)
  {
    match step
    case Register(c, key, l) =>
      State(s.locks[key := l],
            if key in s.locks then s.owner else s.owner[l := None],
            s.refs[l := (if key in s.locks then s.refs[l] else 0) + 1],
            s.calls[c := Waiting(key, l)])
    case Acquire(c) =>
      var p := s.calls[c];
      s.(owner := s.owner[p.l := Some(c)], calls := s.calls[c := Holding(p.key, p.l)])
    case Unlock(c) =>
      var p := s.calls[c];
      s.(owner := s.owner[p.l := None], calls := s.calls[c := Leaving(p.key, p.l)])
    case Leave(c) =>
      var p := s.calls[c];
      s.(locks := if s.refs[p.l] == 1 then s.locks - {p.key} else s.locks,
         refs := s.refs[p.l := s.refs[p.l] - 1],
         calls := s.calls[c := Released(p.key)])
    case ReleaseAgain(c) => s
  }

  /** The calls registered on a key and not yet released. */
  function On<L>(s: State<L>, key: string): set<Call> {
    set c | c in s.calls && s.calls[c].Registered() && s.calls[c].key == key
  }

  /** The count of a key's lock is the number of calls registered on the key. */
  ghost predicate Counted<L>(s: State<L>) {
    forall k | k in s.locks :: s.locks[k] in s.refs && s.refs[s.locks[k]] == |On(s, k)| > 0
  }

  ghost predicate Separate<L>(s: State<L>) {
    && s.owner.Keys == s.refs.Keys
    && (forall k | k in s.locks :: s.locks[k] in s.owner)
    && (forall j, k | j in s.locks && k in s.locks && s.locks[j] == s.locks[k] :: j == k)
  }

  predicate OnMapped<L(==)>(s: State<L>, c: Call)
    requires c in s.calls && s.calls[c].Registered()
  {
    s.calls[c].key in s.locks && s.locks[s.calls[c].key] == s.calls[c].l
  }

  /** Every registered call has the lock object that is in the map. */
  ghost predicate Shared<L>(s: State<L>) {
    forall c | c in s.calls && s.calls[c].Registered() :: OnMapped(s, c)
  }

  predicate Owns<L(==)>(s: State<L>, l: L, c: Call) {
    c in s.calls && s.calls[c].Holding? && s.calls[c].l == l
  }

  /** A lock is owned by the call that holds it, and by no other. */
  ghost predicate Owned<L>(s: State<L>) {
    && (forall c | c in s.calls && s.calls[c].Holding? :: s.calls[c].l in s.owner && s.owner[s.calls[c].l] == Some(c))
    && (forall l | l in s.owner && s.owner[l].Some? :: Owns(s, l, s.owner[l].value))
  }

  ghost predicate Inv<L>(s: State<L>) {
    Counted(s) && Separate(s) && Shared(s) && Owned(s)
  }

  // ---- runs -------------------------------------------------------------

  predicate CanRun<L(==)>(s: State<L>, steps: seq<Step<L>>)
    decreases |steps|
  {
    steps == [] || (Enabled(s, steps[0]) && CanRun(Apply(s, steps[0]), steps[1..]))
  }

  function After<L(==)>(s: State<L>, steps: seq<Step<L>>): State<L>
    requires CanRun(s, steps)
    decreases |steps|
  {
    if steps == [] then s else After(Apply(s, steps[0]), steps[1..])
  }

  lemma OnRegistered<L>(s: State<L>, t: State<L>, c: Call, p: Pc<L>)
    requires t.calls == s.calls[c := p] && p.Registered()
    ensures forall k :: On(t, k) == if k == p.key then On(s, k) + {c} else On(s, k) - {c}
  {}

  lemma OnLeft<L>(s: State<L>, t: State<L>, c: Call, key: string)
    requires t.calls == s.calls[c := Released(key)]
    ensures forall k :: On(t, k) == On(s, k) - {c}
  {}

  lemma NobodyOn<L>(s: State<L>, key: string)
    requires Shared(s) && key !in s.locks
    ensures On(s, key) == {}
  {
    assert forall d | d in s.calls && s.calls[d].Registered() :: OnMapped(s, d);
  }

  lemma CountsNew<L>(s: State<L>, c: Call, key: string, l: L)
    requires Counted(s) && Separate(s) && Shared(s) && Enabled(s, Register(c, key, l)) && key !in s.locks
    ensures Counted(Apply(s, Register(c, key, l)))
  {
    var t := Apply(s, Register(c, key, l));
    OnRegistered(s, t, c, Waiting(key, l));
    NewIsNowhere(s, c);
    NobodyOn(s, key);
    hide On, Shared;
    assert On(t, key) == {c};
    forall k | k in t.locks ensures t.locks[k] in t.refs && t.refs[t.locks[k]] == |On(t, k)| > 0 {
      if k != key {
        assert On(s, k) - {c} == On(s, k);
      }
    }
  }

  lemma CountsJoined<L>(s: State<L>, c: Call, key: string, l: L)
    requires Counted(s) && Separate(s) && Enabled(s, Register(c, key, l)) && key in s.locks
    ensures Counted(Apply(s, Register(c, key, l)))
  {
    var t := Apply(s, Register(c, key, l));
    OnRegistered(s, t, c, Waiting(key, l));
    NewIsNowhere(s, c);
    hide On;
    assert |On(s, key) + {c}| == |On(s, key)| + 1;
    forall k | k in t.locks ensures t.locks[k] in t.refs && t.refs[t.locks[k]] == |On(t, k)| > 0 {
      if k != key {
        assert On(s, k) - {c} == On(s, k);
      }
    }
  }

  lemma CountsLeft<L>(s: State<L>, c: Call)
    requires Inv(s) && Enabled(s, Leave(c))
    ensures Counted(Apply(s, Leave(c)))
  {
    hide Owned;
    var p, t := s.calls[c], Apply(s, Leave(c));
    OnLeft(s, t, c, p.key);
    assert OnMapped(s, c);
    OnlyOn(s, c);
    hide On, Shared;
    forall k | k in t.locks ensures t.locks[k] in t.refs && t.refs[t.locks[k]] == |On(t, k)| > 0 {
      if k != p.key {
        assert On(s, k) - {c} == On(s, k);
      }
    }
  }

  lemma CountsKept<L>(s: State<L>, step: Step<L>)
    requires Inv(s) && Enabled(s, step)
    ensures Counted(Apply(s, step))
  {
    hide Owned, Shared;
    match step
    case Register(c, key, l) =>
      if key in s.locks {
        CountsJoined(s, c, key, l);
      } else {
        CountsNew(s, c, key, l);
      }
    case Acquire(c) => MovedOn(s, Apply(s, step), c, Holding(s.calls[c].key, s.calls[c].l)); hide On;
    case Unlock(c) => MovedOn(s, Apply(s, step), c, Leaving(s.calls[c].key, s.calls[c].l)); hide On;
    case Leave(c) => CountsLeft(s, c);
    case ReleaseAgain(c) =>
  }

  lemma NewIsNowhere<L>(s: State<L>, c: Call)
    requires c !in s.calls
    ensures forall k :: c !in On(s, k)
  {}

  lemma OnlyOn<L>(s: State<L>, c: Call)
    requires c in s.calls && s.calls[c].Registered()
    ensures forall k :: c in On(s, k) <==> k == s.calls[c].key
  {}

  lemma MovedOn<L>(s: State<L>, t: State<L>, c: Call, p: Pc<L>)
    requires c in s.calls && s.calls[c].Registered() && p.Registered() && s.calls[c].key == p.key
    requires t.calls == s.calls[c := p]
    ensures forall k :: On(t, k) == On(s, k)
  {}

  lemma SeparationKept<L>(s: State<L>, step: Step<L>)
    requires Separate(s) && Shared(s) && Enabled(s, step)
    ensures Separate(Apply(s, step))
  {}

  lemma SharingKept<L>(s: State<L>, step: Step<L>)
    requires Inv(s) && Enabled(s, step)
    ensures Shared(Apply(s, step))
  {
    hide Owned, Separate;
    var t := Apply(s, step);
    match step
    case Leave(c) =>
      LastLeaves(s, c);
    case Register(c, key, l) =>
      if key !in s.locks {
        NobodyOn(s, key);
      }
      forall d | d in t.calls && t.calls[d].Registered() ensures OnMapped(t, d) {
        assert d != c ==> OnMapped(s, d);
      }
    case Acquire(c) => assert OnMapped(s, c);
    case Unlock(c) => assert OnMapped(s, c);
    case ReleaseAgain(c) =>
  }

  /** The count reaches zero only when no other call is registered on the key. */
  lemma LastLeaves<L>(s: State<L>, c: Call)
    requires Inv(s) && Enabled(s, Leave(c))
    ensures Shared(Apply(s, Leave(c)))
  {
    hide Owned, Separate;
    var p, t := s.calls[c], Apply(s, Leave(c));
    assert OnMapped(s, c);
    assert c in On(s, p.key);
    forall d | d in t.calls && t.calls[d].Registered() ensures OnMapped(t, d) {
      assert OnMapped(s, d);
      if s.calls[d].key == p.key && s.refs[p.l] == 1 {
        assert d in On(s, p.key);
        OnlyOne(On(s, p.key), c, d);
      }
    }
  }

  lemma OnlyOne(x: set<Call>, c: Call, d: Call)
    requires |x| == 1 && c in x && d in x
    ensures c == d
  {
    assert |x - {c}| == 0;
  }

  lemma OwnershipKept<L>(s: State<L>, step: Step<L>)
    requires Separate(s) && Shared(s) && Owned(s) && Enabled(s, step)
    ensures Owned(Apply(s, step))
  {
    var t := Apply(s, step);
    forall c | c in s.calls && s.calls[c].Holding? ensures s.calls[c].l in s.owner && s.owner[s.calls[c].l] == Some(c) {}
    hide Shared;
    forall l | l in t.owner && t.owner[l].Some? ensures Owns(t, l, t.owner[l].value) {
      assert l in s.owner && s.owner[l].Some? ==> Owns(s, l, s.owner[l].value);
    }
  }

  lemma StepKeeps<L>(s: State<L>, step: Step<L>)
    requires Inv(s) && Enabled(s, step)
    ensures Inv(Apply(s, step))
  {
    CountsKept(s, step);
    SeparationKept(s, step);
    SharingKept(s, step);
    OwnershipKept(s, step);
  }

  lemma {:induction false} RunKeeps<L>(s: State<L>, steps: seq<Step<L>>)
    requires Inv(s) && CanRun(s, steps)
    ensures Inv(After(s, steps))
    decreases |steps|
  {
    hide Inv, Enabled;
    if steps != [] {
      StepKeeps(s, steps[0]);
      RunKeeps(Apply(s, steps[0]), steps[1..]);
    }
  }

  lemma OneHolder<L>(s: State<L>, c: Call, d: Call)
    requires Inv(s) && c in s.calls && d in s.calls && s.calls[c].Holding? && s.calls[d].Holding?
    requires s.calls[c].key == s.calls[d].key
    ensures c == d
  {
    assert OnMapped(s, c) && OnMapped(s, d);
  }

  // ---- what every run keeps ---------------------------------------------

  /** In every interleaving: one holder per key, one lock object per key, counts
      that are the number of calls registered, and no key left behind. */
  lemma EveryRunIsSafe<L>(steps: seq<Step<L>>)
    requires CanRun(Init<L>(), steps)
    ensures var s := After(Init<L>(), steps);
            && (forall c, d | c in s.calls && d in s.calls && s.calls[c].Holding? && s.calls[d].Holding?
                  && s.calls[c].key == s.calls[d].key :: c == d)
            && (forall c, d | c in s.calls && d in s.calls && s.calls[c].Registered() && s.calls[d].Registered()
                  && s.calls[c].key == s.calls[d].key :: s.calls[c].l == s.calls[d].l)
            && (forall k | k in s.locks :: s.locks[k] in s.refs && s.refs[s.locks[k]] == |On(s, k)| > 0)
            && (forall k :: k in s.locks <==> On(s, k) != {})
  {
    assert Inv(Init<L>());
    RunKeeps(Init<L>(), steps);
    var s := After(Init<L>(), steps);
    forall k ensures k in s.locks <==> On(s, k) != {} {
      if c :| c in On(s, k) {
        assert s.calls[c].Registered();
      }
    }
  }

  lemma EmptyWhenAllReleased<L>(steps: seq<Step<L>>)
    requires CanRun(Init<L>(), steps)
    requires forall c | c in After(Init<L>(), steps).calls :: After(Init<L>(), steps).calls[c].Released?
    ensures After(Init<L>(), steps).locks == map[]
  {
    EveryRunIsSafe<L>(steps);
    var s := After(Init<L>(), steps);
    assert forall k | k in s.locks :: On(s, k) == {};
  }

  /** A call that waits on a key nobody holds can always take it. */
  lemma FreeKeyIsTaken<L>(steps: seq<Step<L>>, c: Call)
    requires CanRun(Init<L>(), steps)
    requires var s := After(Init<L>(), steps); c in s.calls && s.calls[c].Waiting?
    ensures var s := After(Init<L>(), steps);
            Enabled(s, Acquire(c)) || exists d :: d in s.calls && s.calls[d] == Holding(s.calls[c].key, s.calls[c].l)
  {
    assert Inv(Init<L>());
    RunKeeps(Init<L>(), steps);
  }

  // ---- the objects ------------------------------------------------------

  class DeliveryLock {
    var mu: Option<Call>
    var refs: int

    constructor ()
      ensures mu == None && refs == 0
    {
      mu, refs := None, 0;
    }
  }

  /** Both halves of a release. */
  ghost function LetGo<L>(s: State<L>, c: Call): State<L>
    requires Inv(s) && c in s.calls && s.calls[c].Holding?
  {
    HolderCanLeave(s, c);
    Apply(Apply(s, Unlock(c)), Leave(c))
  }

  lemma LetGoIs<L>(s: State<L>, c: Call)
    requires Inv(s) && c in s.calls && s.calls[c].Holding?
    requires Enabled(s, Unlock(c)) && Enabled(Apply(s, Unlock(c)), Leave(c))
    ensures LetGo(s, c) == Apply(Apply(s, Unlock(c)), Leave(c))
  {}

  lemma HolderCanLeave<L>(s: State<L>, c: Call)
    requires Inv(s) && c in s.calls && s.calls[c].Holding?
    ensures Enabled(s, Unlock(c)) && Enabled(Apply(s, Unlock(c)), Leave(c))
  {
    assert OnMapped(s, c);
  }

  class KeyedMutex {
    var locks: map<string, DeliveryLock>
    ghost var all: set<DeliveryLock>
    ghost var calls: map<Call, Pc<DeliveryLock>>

    ghost function View(): State<DeliveryLock>
      reads this, all
    {
      State(locks, map l | l in all :: l.mu, map l | l in all :: l.refs, calls)
    }

    constructor ()
      ensures View() == Init<DeliveryLock>() && all == {}
    {
      locks, all, calls := map[], {}, map[];
    }

    /** The key is known: one more call on its lock. */
    method Join(key: string, ghost c: Call) returns (l: DeliveryLock)
      requires Inv(View()) && c !in calls && key in locks
      modifies this, all
      ensures all == old(all) && l in all && l == old(locks[key])
      ensures Enabled(old(View()), Register(c, key, l)) && View() == Apply(old(View()), Register(c, key, l))
    {
      l := locks[key];
      assert l in View().owner;
      hide Inv;
      l.refs := l.refs + 1;
      calls := calls[c := Waiting(key, l)];
      assert locks[key := l] == locks;
    }

    /** The key is new: a fresh lock with one call on it. */
    method Open(key: string, ghost c: Call) returns (l: DeliveryLock)
      requires c !in calls && key !in locks
      modifies this
      ensures all == old(all) + {l} && fresh(l)
      ensures Enabled(old(View()), Register(c, key, l)) && View() == Apply(old(View()), Register(c, key, l))
    {
      hide Inv;
      l := new DeliveryLock();
      l.refs := l.refs + 1;
      locks, all, calls := locks[key := l], all + {l}, calls[c := Waiting(key, l)];
    }

    /** The part of `lock` under the map's mutex. */
    method Enter(key: string, ghost c: Call) returns (l: DeliveryLock)
      requires Inv(View()) && c !in calls
      modifies this, all
      ensures all == old(all) + {l} && (l in old(all) || fresh(l))
      ensures Enabled(old(View()), Register(c, key, l)) && View() == Apply(old(View()), Register(c, key, l))
      ensures Inv(View())
    {
      ghost var s := View();
      hide Inv, Apply, Enabled;
      if key in locks {
        l := Join(key, c);
      } else {
        l := Open(key, c);
      }
      StepKeeps(s, Register(c, key, l));
    }

    /** The lock is taken; the step is possible once nobody holds it. */
    method Take(l: DeliveryLock, c: Call)
      requires Inv(View()) && c in calls && calls[c].Waiting? && calls[c].l == l && l in all && l.mu == None
      modifies this, l
      ensures all == old(all)
      ensures View() == Apply(old(View()), Acquire(c)) && Inv(View())
    {
      hide Inv;
      ghost var s := View();
      l.mu := Some(c);
      calls := calls[c := Holding(calls[c].key, l)];
      StepKeeps(s, Acquire(c));
      assert View() == Apply(s, Acquire(c));
    }

    /** First half of the release. */
    method Drop(l: DeliveryLock, ghost c: Call)
      requires Inv(View()) && c in calls && calls[c].Holding? && calls[c].l == l && l in all
      modifies this, l
      ensures all == old(all)
      ensures View() == Apply(old(View()), Unlock(c)) && Inv(View())
    {
      hide Inv;
      ghost var s := View();
      l.mu := None;
      calls := calls[c := Leaving(calls[c].key, l)];
      StepKeeps(s, Unlock(c));
      assert View() == Apply(s, Unlock(c));
    }

    /** Second half, under the map's mutex. */
    method Exit(key: string, l: DeliveryLock, ghost c: Call)
      requires Inv(View()) && c in calls && calls[c] == Leaving(key, l) && l in all
      modifies this, l
      ensures all == old(all)
      ensures View() == Apply(old(View()), Leave(c)) && Inv(View())
    {
      ghost var s := View();
      hide Inv;
      l.refs := l.refs - 1;
      if l.refs == 0 {
        locks := locks - {key};
      }
      calls := calls[c := Released(key)];
      StepKeeps(s, Leave(c));
      assert View() == Apply(s, Leave(c));
    }

    /** The body of the release function, its two halves in turn. */
    method LetGoNow(key: string, l: DeliveryLock, ghost c: Call)
      requires Inv(View()) && c in calls && calls[c] == Holding(key, l) && l in all
      modifies this, l
      ensures all == old(all) && c in calls && calls[c] == Released(key)
      ensures View() == LetGo(old(View()), c) && Inv(View())
    {
      HolderCanLeave(View(), c);
      hide Inv, LetGo;
      LetGoIs(View(), c);
      Drop(l, c);
      Exit(key, l, c);
    }
  }

  /** The function that `lock` returns, with its sync.Once. */
  class Release {
    const mutex: KeyedMutex
    const key: string
    const l: DeliveryLock
    ghost const c: Call
    var done: bool

    ghost predicate Valid()
      reads this, mutex, mutex.all
    {
      && Inv(mutex.View()) && l in mutex.all && c in mutex.calls
      && mutex.calls[c] == if done then Released(key) else Holding(key, l)
    }

    constructor (mutex: KeyedMutex, key: string, l: DeliveryLock, ghost c: Call)
      requires Inv(mutex.View()) && l in mutex.all && c in mutex.calls && mutex.calls[c] == Holding(key, l)
      ensures Valid() && !done && this.mutex == mutex && this.key == key && this.l == l && this.c == c
    {
      this.mutex, this.key, this.l, this.c, done := mutex, key, l, c, false;
    }

    /** The first call releases; any other changes nothing. */
    method Run()
      requires Valid()
      modifies this, mutex, l
      ensures Valid() && done
      ensures mutex.View() == if old(done) then old(mutex.View()) else LetGo(old(mutex.View()), c)
    {
      if done {
        return;
      }
      HolderCanLeave(mutex.View(), c);
      done := true;
      mutex.LetGoNow(key, l, c);
    }
  }
}
