/** Two-level admission of long-lived streams: a slot per inbox, then a slot per
    client address, taken and given back by handlers that interleave. */
module StreamLimits {
  import opened Text

  // ---- one limiter ------------------------------------------------------

  function Count(active: map<string, int>, key: string): int {
    if key in active then active[key] else 0
  }

  function Released(active: map<string, int>, key: string): map<string, int> {
    if Count(active, key) > 1 then active[key := active[key] - 1] else active - {key}
  }

  const DEFAULT_LIMIT := 4

  class ConcurrencyLimiter {
    const limit: int
    var active: map<string, int>

    constructor (limit: int)
      ensures active == map[] && this.limit > 0 && (limit > 0 ==> this.limit == limit)
    {
      this.limit, active := if limit <= 0 then DEFAULT_LIMIT else limit, map[];
    }

    method Acquire(key: string) returns (ok: bool)
      modifies this
      ensures ok <==> Count(old(active), key) < limit
      ensures active == if ok then old(active)[key := Count(old(active), key) + 1] else old(active)
    {
      if Count(active, key) >= limit {
        return false;
      }
      active := active[key := Count(active, key) + 1];
      ok := true;
    }

    method Release(key: string)
      modifies this
      ensures active == Released(old(active), key)
    {
      if Count(active, key) > 1 {
        active := active[key := active[key] - 1];
      } else {
        active := active - {key};
      }
    }
  }

  /** A stray release never drives a count below zero. */
  lemma ReleaseStopsAtZero(active: map<string, int>, key: string)
    requires forall k | k in active :: active[k] >= 0
    ensures var after := Released(active, key);
            && (forall k :: k != key ==> Count(after, k) == Count(active, k))
            && Count(after, key) == if Count(active, key) > 0 then Count(active, key) - 1 else 0
  {}

  /** InboxStreamKey: subject, namespace and agent with NUL bytes between. */
  function InboxStreamKey(subject: string, namespace: string, agent: string): string {
    subject + "\0" + namespace + "\0" + agent
  }

  class Allocator {
    const streams: ConcurrencyLimiter
    const ipStreams: ConcurrencyLimiter

    constructor (inboxLimit: int, ipLimit: int)
      ensures fresh(streams) && fresh(ipStreams) && streams != ipStreams
      ensures streams.active == map[] && ipStreams.active == map[] && streams.limit > 0 && ipStreams.limit > 0
    {
      streams := new ConcurrencyLimiter(inboxLimit);
      ipStreams := new ConcurrencyLimiter(ipLimit);
    }

    /** acquireStream run alone: both slots or, after a refusal, the counts as before. */
    method AcquireStream(inboxKey: string, ipKey: string) returns (ok: bool)
      requires streams != ipStreams && streams.limit > 0
      modifies streams, ipStreams
      ensures ok <==> Count(old(streams.active), inboxKey) < streams.limit && Count(old(ipStreams.active), ipKey) < ipStreams.limit
      ensures forall k :: Count(streams.active, k)
                == Count(old(streams.active), k) + if ok && k == inboxKey then 1 else 0
      ensures forall k :: Count(ipStreams.active, k)
                == Count(old(ipStreams.active), k) + if ok && k == ipKey then 1 else 0
      requires forall k | k in streams.active :: streams.active[k] > 0
      ensures forall k | k in streams.active :: streams.active[k] > 0
    {
      var inbox := streams.Acquire(inboxKey);
      if !inbox {
        return false;
      }
      var ip := ipStreams.Acquire(ipKey);
      if !ip {
        streams.Release(inboxKey);
        return false;
      }
      ok := true;
    }

    /** releaseStream: the guards make the zero value release nothing. */
    method ReleaseStream(inboxKey: string, ipKey: string)
      requires streams != ipStreams
      modifies streams, ipStreams
      ensures ipStreams.active == if ipKey != "" then Released(old(ipStreams.active), ipKey) else old(ipStreams.active)
      ensures streams.active == if inboxKey != "" then Released(old(streams.active), inboxKey) else old(streams.active)
    {
      if ipKey != "" {
        ipStreams.Release(ipKey);
      }
      if inboxKey != "" {
        streams.Release(inboxKey);
      }
    }
  }

  // ---- handlers interleaved ---------------------------------------------

  /** Where one handler stands; a slot is held from the step that takes it to the
      step that gives it back. */
  datatype Pc =
    | Arrived | HalfHeld | Backing | Held | HalfFreed | Done | Refused

  datatype Handler = Handler(inbox: string, ip: string, pc: Pc)
  {
    predicate HasInbox() { pc.HalfHeld? || pc.Backing? || pc.Held? || pc.HalfFreed? }

    /** An address that is empty is counted but never released. */
    predicate HasIp() { pc.Held? || (ip == "" && (pc.HalfFreed? || pc.Done?)) }
  }

  datatype State = State(
    limit: int, ipLimit: int,
    streams: map<string, int>, ipStreams: map<string, int>,
    handlers: map<nat, Handler>)

  datatype Step =
    | Arrive(t: nat, inbox: string, ip: string)
    | TakeInbox(t: nat)
    | TakeIp(t: nat)
    | GiveBack(t: nat)
    | FreeIp(t: nat)
    | FreeInbox(t: nat)

  predicate At(s: State, t: nat, pc: Pc) {
    t in s.handlers && s.handlers[t].pc == pc
  }

  predicate Enabled(s: State, step: Step) {
    match step
    case Arrive(t, inbox, ip) => t !in s.handlers && inbox != ""
    case TakeInbox(t) => At(s, t, Arrived)
    case TakeIp(t) => At(s, t, HalfHeld)
    case GiveBack(t) => At(s, t, Backing)
    case FreeIp(t) => At(s, t, Held)
    case FreeInbox(t) => At(s, t, HalfFreed)
  }

  function Go(s: State, t: nat, pc: Pc): State
    requires t in s.handlers
  {
    s.(handlers := s.handlers[t := s.handlers[t].(pc := pc)])
  }

  function Apply(s: State, step: Step): State
    requires Enabled(s, step)
  {
    match step
    case Arrive(t, inbox, ip) => s.(handlers := s.handlers[t := Handler(inbox, ip, Arrived)])
    case TakeInbox(t) =>
      var k := s.handlers[t].inbox;
      if Count(s.streams, k) >= s.limit then Go(s, t, Refused)
      else Go(s, t, HalfHeld).(streams := s.streams[k := Count(s.streams, k) + 1])
    case TakeIp(t) =>
      var k := s.handlers[t].ip;
      if Count(s.ipStreams, k) >= s.ipLimit then Go(s, t, Backing)
      else Go(s, t, Held).(ipStreams := s.ipStreams[k := Count(s.ipStreams, k) + 1])
    case GiveBack(t) => Go(s, t, Refused).(streams := Released(s.streams, s.handlers[t].inbox))
    case FreeIp(t) =>
      Go(s, t, HalfFreed).(ipStreams :=
        if s.handlers[t].ip != "" then Released(s.ipStreams, s.handlers[t].ip) else s.ipStreams)
    case FreeInbox(t) => Go(s, t, Done).(streams := Released(s.streams, s.handlers[t].inbox))
  }

  function InboxHolders(s: State, key: string): set<nat> {
    set t | t in s.handlers && s.handlers[t].HasInbox() && s.handlers[t].inbox == key
  }

  function IpHolders(s: State, key: string): set<nat> {
    set t | t in s.handlers && s.handlers[t].HasIp() && s.handlers[t].ip == key
  }

  ghost predicate InboxFine(s: State) {
    && s.limit > 0 && (forall k | k in s.streams :: s.streams[k] > 0)
    && (forall k :: Count(s.streams, k) == |InboxHolders(s, k)| <= s.limit)
  }

  ghost predicate IpFine(s: State) {
    && s.ipLimit > 0 && (forall k | k in s.ipStreams :: s.ipStreams[k] > 0)
    && (forall k :: Count(s.ipStreams, k) == |IpHolders(s, k)| <= s.ipLimit)
  }

  ghost predicate Inv(s: State) {
    InboxFine(s) && IpFine(s)
  }

  lemma Sizes(x: set<nat>, t: nat)
    ensures t !in x ==> |x + {t}| == |x| + 1 && x - {t} == x
    ensures t in x ==> |x - {t}| == |x| - 1 && x + {t} == x
  {}

  /** How the holders of every inbox change when one handler moves. */
  lemma InboxMove(s: State, t: nat, h: Handler, u: State)
    requires u.handlers == s.handlers[t := h] && (t in s.handlers ==> s.handlers[t].inbox == h.inbox)
    ensures forall k | k != h.inbox :: InboxHolders(u, k) == InboxHolders(s, k)
    ensures InboxHolders(u, h.inbox) == if h.HasInbox() then InboxHolders(s, h.inbox) + {t} else InboxHolders(s, h.inbox) - {t}
    ensures t in InboxHolders(s, h.inbox) <==> t in s.handlers && s.handlers[t].HasInbox()
  {}

  lemma IpMove(s: State, t: nat, h: Handler, u: State)
    requires u.handlers == s.handlers[t := h] && (t in s.handlers ==> s.handlers[t].ip == h.ip)
    ensures forall k | k != h.ip :: IpHolders(u, k) == IpHolders(s, k)
    ensures IpHolders(u, h.ip) == if h.HasIp() then IpHolders(s, h.ip) + {t} else IpHolders(s, h.ip) - {t}
    ensures t in IpHolders(s, h.ip) <==> t in s.handlers && s.handlers[t].HasIp()
  {}

  function One(b: bool): int {
    if b then 1 else 0
  }

  /** Each step moves the counts as it moves the handler's slots. */
  lemma CountsMove(s: State, step: Step)
    requires Enabled(s, step) && s.limit > 0 && s.ipLimit > 0
    requires (forall k | k in s.streams :: s.streams[k] > 0) && (forall k | k in s.ipStreams :: s.ipStreams[k] > 0)
    requires step.t in s.handlers && s.handlers[step.t].HasInbox() ==> Count(s.streams, s.handlers[step.t].inbox) > 0
    requires step.t in s.handlers && s.handlers[step.t].HasIp() ==> Count(s.ipStreams, s.handlers[step.t].ip) > 0
    ensures var u := Apply(s, step); var h := u.handlers[step.t];
            && u.limit == s.limit && u.ipLimit == s.ipLimit
            && (forall k | k in u.streams :: u.streams[k] > 0) && (forall k | k in u.ipStreams :: u.ipStreams[k] > 0)
            && (forall k | k != h.inbox :: Count(u.streams, k) == Count(s.streams, k))
            && (forall k | k != h.ip :: Count(u.ipStreams, k) == Count(s.ipStreams, k))
            && Count(u.streams, h.inbox) == Count(s.streams, h.inbox)
                 + One(h.HasInbox()) - One(step.t in s.handlers && s.handlers[step.t].HasInbox())
            && Count(u.ipStreams, h.ip) == Count(s.ipStreams, h.ip)
                 + One(h.HasIp()) - One(step.t in s.handlers && s.handlers[step.t].HasIp())
            && (Count(u.streams, h.inbox) <= Count(s.streams, h.inbox) || Count(u.streams, h.inbox) <= s.limit)
            && (Count(u.ipStreams, h.ip) <= Count(s.ipStreams, h.ip) || Count(u.ipStreams, h.ip) <= s.ipLimit)
  {}

  lemma HolderCounts(s: State, t: nat)
    requires Inv(s) && t in s.handlers
    ensures s.handlers[t].HasInbox() ==> Count(s.streams, s.handlers[t].inbox) > 0
    ensures s.handlers[t].HasIp() ==> Count(s.ipStreams, s.handlers[t].ip) > 0
  {
    var h := s.handlers[t];
    assert h.HasInbox() ==> t in InboxHolders(s, h.inbox);
    assert h.HasIp() ==> t in IpHolders(s, h.ip);
  }

  lemma InboxKept(s: State, u: State, t: nat, h: Handler)
    requires InboxFine(s) && u.limit == s.limit && (forall k | k in u.streams :: u.streams[k] > 0)
    requires u.handlers == s.handlers[t := h] && (t in s.handlers ==> s.handlers[t].inbox == h.inbox)
    requires forall k | k != h.inbox :: Count(u.streams, k) == Count(s.streams, k)
    requires Count(u.streams, h.inbox) == Count(s.streams, h.inbox) + One(h.HasInbox()) - One(t in s.handlers && s.handlers[t].HasInbox())
    requires Count(u.streams, h.inbox) <= Count(s.streams, h.inbox) || Count(u.streams, h.inbox) <= s.limit
    ensures InboxFine(u)
  {
    InboxMove(s, t, h, u);
    Sizes(InboxHolders(s, h.inbox), t);
    hide Count, InboxHolders;
    forall k ensures Count(u.streams, k) == |InboxHolders(u, k)| <= u.limit {
      assert Count(s.streams, k) == |InboxHolders(s, k)| <= s.limit;
    }
  }

  lemma IpKept(s: State, u: State, t: nat, h: Handler)
    requires IpFine(s) && u.ipLimit == s.ipLimit && (forall k | k in u.ipStreams :: u.ipStreams[k] > 0)
    requires u.handlers == s.handlers[t := h] && (t in s.handlers ==> s.handlers[t].ip == h.ip)
    requires forall k | k != h.ip :: Count(u.ipStreams, k) == Count(s.ipStreams, k)
    requires Count(u.ipStreams, h.ip) == Count(s.ipStreams, h.ip) + One(h.HasIp()) - One(t in s.handlers && s.handlers[t].HasIp())
    requires Count(u.ipStreams, h.ip) <= Count(s.ipStreams, h.ip) || Count(u.ipStreams, h.ip) <= s.ipLimit
    ensures IpFine(u)
  {
    IpMove(s, t, h, u);
    Sizes(IpHolders(s, h.ip), t);
    hide Count, IpHolders;
    forall k ensures Count(u.ipStreams, k) == |IpHolders(u, k)| <= u.ipLimit {
      assert Count(s.ipStreams, k) == |IpHolders(s, k)| <= s.ipLimit;
    }
  }

  lemma StepKeeps(s: State, step: Step)
    requires Inv(s) && Enabled(s, step)
    ensures Inv(Apply(s, step))
  {
    var u := Apply(s, step);
    var h := u.handlers[step.t];
    if step.t in s.handlers {
      HolderCounts(s, step.t);
    }
    CountsMove(s, step);
    assert u.handlers == s.handlers[step.t := h];
    hide Count, InboxHolders, IpHolders;
    InboxKept(s, u, step.t, h);
    IpKept(s, u, step.t, h);
  }

  predicate CanRun(s: State, steps: seq<Step>)
    decreases |steps|
  {
    steps == [] || (Enabled(s, steps[0]) && CanRun(Apply(s, steps[0]), steps[1..]))
  }

  function After(s: State, steps: seq<Step>): State
    requires CanRun(s, steps)
    decreases |steps|
  {
    if steps == [] then s else After(Apply(s, steps[0]), steps[1..])
  }

  lemma {:induction false} RunKeeps(s: State, steps: seq<Step>)
    requires Inv(s) && CanRun(s, steps)
    ensures Inv(After(s, steps))
    decreases |steps|
  {
    hide Inv, Enabled;
    if steps != [] {
      StepKeeps(s, steps[0]);
      RunKeeps(Apply(s, steps[0]), steps[1..]);
    }
  }

  function Start(limit: int, ipLimit: int): State {
    State(limit, ipLimit, map[], map[], map[])
  }

  lemma StartFine(limit: int, ipLimit: int)
    requires limit > 0 && ipLimit > 0
    ensures Inv(Start(limit, ipLimit))
  {
    var s := Start(limit, ipLimit);
    assert forall k :: InboxHolders(s, k) == {} && IpHolders(s, k) == {};
  }

  /** In every interleaving each count is the number of slots held or in transit, and
      never exceeds its limit; a refused handler holds nothing. */
  lemma CountsAreSlots(limit: int, ipLimit: int, steps: seq<Step>)
    requires limit > 0 && ipLimit > 0 && CanRun(Start(limit, ipLimit), steps)
    ensures var s := After(Start(limit, ipLimit), steps);
            && (forall k :: Count(s.streams, k) == |InboxHolders(s, k)| <= s.limit)
            && (forall k :: Count(s.ipStreams, k) == |IpHolders(s, k)| <= s.ipLimit)
            && (forall t | t in s.handlers && s.handlers[t].pc.Refused? :: !s.handlers[t].HasInbox() && !s.handlers[t].HasIp())
  {
    StartFine(limit, ipLimit);
    RunKeeps(Start(limit, ipLimit), steps);
  }

  predicate AllLeft(s: State) {
    forall t | t in s.handlers :: s.handlers[t].pc.Done? || s.handlers[t].pc.Refused?
  }

  /** A handler whose address was empty has been and gone. */
  predicate PassedNameless(s: State, t: nat) {
    t in s.handlers && s.handlers[t].ip == "" && s.handlers[t].pc.Done?
  }

  /** When every handler has left, no inbox count remains, and an address keeps a
      count exactly when it is the empty one and was ever admitted. */
  lemma OnlyEmptyAddressLeaks(limit: int, ipLimit: int, steps: seq<Step>, key: string)
    requires limit > 0 && ipLimit > 0 && CanRun(Start(limit, ipLimit), steps)
    requires AllLeft(After(Start(limit, ipLimit), steps))
    ensures var s := After(Start(limit, ipLimit), steps);
            && Count(s.streams, key) == 0
            && (Count(s.ipStreams, key) > 0 <==> key == "" && exists t :: PassedNameless(s, t))
  {
    CountsAreSlots(limit, ipLimit, steps);
    var s := After(Start(limit, ipLimit), steps);
    hide After;
    assert InboxHolders(s, key) == {} by {
      assert forall t | t in s.handlers :: !s.handlers[t].HasInbox();
    }
    if t :| PassedNameless(s, t) {
      assert t in IpHolders(s, "");
    }
    if key != "" || !exists t :: PassedNameless(s, t) {
      assert forall t | t in s.handlers && s.handlers[t].HasIp() :: PassedNameless(s, t);
      assert IpHolders(s, key) == {};
    }
  }
}
