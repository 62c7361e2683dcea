/** The in-process event bus: bounded channels, publishers that never block, and a
    read-write lock that keeps subscribers from leaving while a publish is under way. */
module Bus {

  const CAPACITY := 64

  // ---- the objects ------------------------------------------------------

  class Channel<E> {
    var buffer: seq<E>
    var closed: bool

    constructor ()
      ensures buffer == [] && !closed
    {
      buffer, closed := [], false;
    }

    /** A select with a default branch: a full buffer drops the event. */
    method Offer(e: E)
      requires !closed
      modifies this
      ensures closed == old(closed)
      ensures buffer == Offered(old(buffer), e)
    {
      if |buffer| < CAPACITY {
        buffer := buffer + [e];
      }
    }
  }

  function Offered<E>(buffer: seq<E>, e: E): seq<E> {
    if |buffer| < CAPACITY then buffer + [e] else buffer
  }

  class EventBus<E> {
    var subs: set<Channel<E>>

    ghost predicate Valid()
      reads this, subs
    {
      forall ch | ch in subs :: !ch.closed && |ch.buffer| <= CAPACITY
    }

    constructor ()
      ensures Valid() && subs == {}
    {
      subs := {};
    }

    method Subscribe() returns (ch: Channel<E>)
      requires Valid()
      modifies this
      ensures Valid() && fresh(ch) && subs == old(subs) + {ch} && ch.buffer == []
    {
      ch := new Channel();
      subs := subs + {ch};
    }

    /** The cancel function; a second call finds the channel gone and does nothing. */
    method Cancel(ch: Channel<E>)
      requires Valid()
      modifies this, ch
      ensures Valid() && subs == old(subs) - {ch} && ch.buffer == old(ch.buffer)
      ensures ch.closed <==> old(ch.closed) || ch in old(subs)
      ensures old(ch.closed) ==> subs == old(subs)
    {
      if ch in subs {
        subs := subs - {ch};
        ch.closed := true;
      }
    }

    method Publish(e: E)
      requires Valid()
      modifies subs
      ensures Valid() && subs == old(subs)
      ensures forall ch | ch in subs :: ch.buffer == Offered(old(ch.buffer), e)
    {
      var todo := subs;
      while todo != {}
        invariant todo <= subs && Valid()
        invariant forall ch | ch in subs ::
                    ch.buffer == if ch in todo then old(ch.buffer) else Offered(old(ch.buffer), e)
        decreases todo
      {
        var ch :| ch in todo;
        ch.Offer(e);
        todo := todo - {ch};
      }
    }
  }

  // ---- publishers and subscribers interleaved ---------------------------

  /** `sending` holds, for each publish under way, the subscribers it has not reached;
      several may run at once, since they share the read lock. */
  datatype State<E> = State(
    subs: set<nat>,
    buffers: map<nat, seq<E>>,
    closed: set<nat>,
    sending: map<nat, (E, set<nat>)>)

  datatype Step<E> =
    | Subscribe(ch: nat)
    | Cancel(ch: nat)
    | Begin(p: nat, e: E)
    | Send(p: nat, ch: nat)
    | End(p: nat)
    | Receive(ch: nat)

  ghost predicate Enabled<E>(s: State<E>, step: Step<E>) {
    match step
    case Subscribe(ch) => s.sending == map[] && ch !in s.buffers
    case Cancel(ch) => s.sending == map[] && ch in s.buffers
    case Begin(p, e) => p !in s.sending
    case Send(p, ch) => p in s.sending && ch in s.sending[p].1 && ch in s.buffers
    case End(p) => p in s.sending && s.sending[p].1 == {}
    case Receive(ch) => ch in s.buffers && s.buffers[ch] != []
  }

  ghost function Apply<E>(s: State<E>, step: Step<E>): State<E>
    requires Enabled(s, step)
  {
    match step
    case Subscribe(ch) => s.(subs := s.subs + {ch}, buffers := s.buffers[ch := []])
    case Cancel(ch) => if ch in s.subs then s.(subs := s.subs - {ch}, closed := s.closed + {ch}) else s
    case Begin(p, e) => s.(sending := s.sending[p := (e, s.subs)])
    case Send(p, ch) =>
      s.(buffers := s.buffers[ch := Offered(s.buffers[ch], s.sending[p].0)],
         sending := s.sending[p := (s.sending[p].0, s.sending[p].1 - {ch})])
    case End(p) => s.(sending := s.sending - {p})
    case Receive(ch) => s.(buffers := s.buffers[ch := s.buffers[ch][1..]])
  }

  ghost predicate Inv<E>(s: State<E>) {
    && s.subs !! s.closed && s.subs + s.closed == s.buffers.Keys
    && (forall p | p in s.sending :: s.sending[p].1 <= s.subs)
    && (forall ch | ch in s.buffers :: |s.buffers[ch]| <= CAPACITY)
  }

  lemma StepKeeps<E>(s: State<E>, step: Step<E>)
    requires Inv(s) && Enabled(s, step)
    ensures Inv(Apply(s, step))
  {}

  ghost predicate CanRun<E>(s: State<E>, steps: seq<Step<E>>)
    decreases |steps|
  {
    steps == [] || (Enabled(s, steps[0]) && CanRun(Apply(s, steps[0]), steps[1..]))
  }

  function SendsTo<E>(step: Step<E>): set<nat> {
    if step.Send? then {step.ch} else {}
  }

  /** In every interleaving no event is sent on a closed channel. */
  lemma {:induction false} NeverSendsOnClosed<E>(s: State<E>, steps: seq<Step<E>>, k: nat)
    requires Inv(s) && CanRun(s, steps) && k < |steps|
    ensures forall j | 0 <= j < k && steps[j].Cancel? && steps[k].Send? :: steps[j].ch != steps[k].ch
    ensures forall ch | ch in s.closed :: ch !in SendsTo(steps[k])
    decreases |steps|
  {
    StepKeeps(s, steps[0]);
    if k > 0 {
      var rest := steps[1..];
      NeverSendsOnClosed(Apply(s, steps[0]), rest, k - 1);
      assert rest[k - 1] == steps[k];
      assert forall j | 0 < j < k :: steps[j] == rest[j - 1];
    }
  }

  /** How often a channel is closed: a cancel closes one that is still subscribed. */
  ghost function Closings<E>(s: State<E>, steps: seq<Step<E>>, ch: nat): nat
    requires CanRun(s, steps)
    decreases |steps|
  {
    if steps == [] then 0
    else
      (if steps[0] == Step<E>.Cancel(ch) && ch in s.subs then 1 else 0)
      + Closings(Apply(s, steps[0]), steps[1..], ch)
  }

  /** No channel is closed a second time, however often it is cancelled. */
  lemma {:induction false} ClosedOnce<E>(s: State<E>, steps: seq<Step<E>>, ch: nat)
    requires Inv(s) && CanRun(s, steps)
    ensures Closings(s, steps, ch) <= if ch in s.closed then 0 else 1
    decreases |steps|
  {
    if steps != [] {
      StepKeeps(s, steps[0]);
      ClosedOnce(Apply(s, steps[0]), steps[1..], ch);
    }
  }
}
