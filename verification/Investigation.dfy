/** The investigation loop: one bounded run per task against an arbitrary model and
    arbitrary tools, with subagents run in place. Everything outside is an oracle,
    asked at a fresh tick of the ledger each time. */
module Investigation {
  import opened Text
  import opened Task
  import L = Ledger
  import F = Findings
  import T = Toolset

  type Id = L.Id
  type Row = L.Row
  type Log = L.Log

  datatype ToolRequest = ToolRequest(tool: string, args: string)

  /** One answer of the model, or a failed call. */
  datatype Reply = NoReply | Reply(prompt: nat, completion: nat, calls: seq<ToolRequest>, content: string)

  datatype Agent = Agent(patterns: seq<string>, skills: seq<string>)

  datatype Verdict = Deny | Propose | Allow

  datatype World = World(
    agents: string -> Option<Agent>,
    pool: seq<string>,
    glob: T.Glob,
    memory: bool,
    verdict: (string, string) -> Verdict,
    decode: string -> Option<F.Finding>,
    spawnTarget: string -> Option<string>,
    chat: nat -> Reply,
    says: nat -> bool,
    maxIterations: nat)

  function AllowedNames(w: World, agent: string, subagents: int): seq<string>
    requires w.agents(agent).Some?
  {
    var a := w.agents(agent).value;
    T.Allowed(w.glob, w.pool, a.patterns, a.skills, w.memory, subagents)
  }

  /** Built-in tools act on the deployment's own state and bypass the policy. */
  datatype Kind = Spawning | Memory | External

  function KindOf(tool: string): Kind {
    if tool == T.SPAWN then Spawning
    else if tool == T.REMEMBER || tool == T.RECALL || tool == T.LIST_KEYS then Memory
    else External
  }

  lemma KindsExactly(tool: string)
    ensures KindOf(tool).Spawning? <==> tool == "punk__spawn_subagent"
    ensures KindOf(tool).Memory? <==> tool == "punk__remember" || tool == "punk__recall" || tool == "punk__list_keys"
  {
    assert |"punk__spawn_subagent"| == 20 && |"punk__remember"| == 14 && |"punk__recall"| == 12 && |"punk__list_keys"| == 15;
  }

  // ---- the trace of payments and executions -----------------------------

  /** `Round` is the start of an iteration, with the tick of its first question. */
  datatype Act =
    | Paid(task: Id)
    | Ran(task: Id, tool: string, agent: string, subagents: int)
    | Proposed(task: Id, tool: string, agent: string, subagents: int)
    | Round(task: Id, at: nat)

  predicate Permitted(w: World, agent: string, subagents: int, tool: string) {
    && w.agents(agent).Some? && tool in AllowedNames(w, agent, subagents)
    && (KindOf(tool).External? ==> w.verdict(agent, tool).Allow?)
  }

  /** A requested tool is executed when it is permitted and, for a built-in memory tool,
      when there is a memory. */
  predicate Executes(w: World, agent: string, subagents: int, tool: string) {
    Permitted(w, agent, subagents, tool) && (KindOf(tool).Memory? ==> w.memory)
  }

  /** A requested tool is put before the operator instead: it is on the allowlist, no
      built-in, and the agent's policy asks for approval. */
  predicate Proposes(w: World, agent: string, subagents: int, tool: string) {
    && w.agents(agent).Some? && tool in AllowedNames(w, agent, subagents)
    && KindOf(tool).External? && w.verdict(agent, tool).Propose?
  }

  /** The act has a tool: it was executed, or proposed. */
  predicate Tooled(act: Act) {
    act.Ran? || act.Proposed?
  }

  predicate Due(w: World, act: Act)
    requires Tooled(act)
  {
    if act.Ran? then Permitted(w, act.agent, act.subagents, act.tool) else Proposes(w, act.agent, act.subagents, act.tool)
  }

  /** Every execution was permitted and every proposal asked for by the policy, and
      each paid for by the act just before it. */
  predicate Orderly(w: World, trace: seq<Act>) {
    forall p | 0 <= p < |trace| && Tooled(trace[p]) :: p > 0 && trace[p - 1] == Paid(trace[p].task) && Due(w, trace[p])
  }

  /** The trace is only ever added to. */
  predicate Longer(a: seq<Act>, b: seq<Act>) {
    a <= b
  }

  /** The first act that was added. */
  predicate Begins(a: seq<Act>, b: seq<Act>, first: Act) {
    a + [first] <= b
  }

  lemma LongerNext(a: seq<Act>, b: seq<Act>, c: seq<Act>)
    requires Longer(a, b) && Longer(b, c)
    ensures Longer(a, c)
  {}

  function Payments(trace: seq<Act>, id: Id): nat {
    if trace == [] then 0
    else Payments(trace[..|trace| - 1], id) + if trace[|trace| - 1] == Paid(id) then 1 else 0
  }

  function Rounds(trace: seq<Act>, id: Id): nat {
    if trace == [] then 0
    else
      Rounds(trace[..|trace| - 1], id)
      + if trace[|trace| - 1].Round? && trace[|trace| - 1].task == id then 1 else 0
  }

  lemma {:induction false} RoundsGrow(a: seq<Act>, b: seq<Act>, id: Id)
    requires Longer(a, b)
    ensures Rounds(a, id) <= Rounds(b, id)
    decreases |b|
  {
    if a == b {
    } else {
      assert a == b[..|a|] && b[..|b| - 1][..|a|] == a;
      RoundsGrow(a, b[..|b| - 1], id);
    }
  }

  // ---- why a run parks its task -----------------------------------------

  /** In some iteration added since `before` the wall clock had run out, or the model
      gave no reply. */
  ghost predicate CutShort(w: World, t: Row, id: Id, before: seq<Act>, trace: seq<Act>) {
    exists p :: |before| <= p < |trace| && trace[p].Round? && trace[p].task == id
      && ((t.budget.wallMS > 0 && w.says(trace[p].at)) || w.chat(trace[p].at + 2).NoReply?)
  }

  /** The loop was left before its last iteration for one of these reasons. */
  ghost predicate Stopped(w: World, t: Row, id: Id, row: Row, before: seq<Act>, trace: seq<Act>) {
    L.Over(row, L.Tokens) || L.Over(row, L.ToolCalls) || CutShort(w, t, id, before, trace)
  }

  /** Why a run that could start, at tick `start`, left its task parked as `row`: no
      model client, the agent's daily allowance, a budget, the wall clock, a model
      that gave no reply, or all iterations used up. */
  ghost predicate Excused(w: World, t: Row, id: Id, row: Row, start: nat, before: seq<Act>, trace: seq<Act>) {
    var ready := if t.status.Submitted? then start + 2 else start + 1;
    || !w.says(ready) || w.says(ready + 1)
    || Stopped(w, t, id, row, before, trace)
    || Rounds(trace, id) >= Rounds(before, id) + w.maxIterations
  }

  lemma StoppedSince(w: World, t: Row, id: Id, row: Row, before: seq<Act>, mid: seq<Act>, trace: seq<Act>)
    requires Longer(before, mid) && Stopped(w, t, id, row, mid, trace)
    ensures Stopped(w, t, id, row, before, trace)
  {
    hide L.Over;
  }

  lemma RoundBegun(w: World, rows: map<Id, Row>, trace: seq<Act>, id: Id, at: nat)
    requires Orderly(w, trace) && Accounted(rows, trace)
    ensures var more := trace + [Round(id, at)];
            Orderly(w, more) && Accounted(rows, more) && Rounds(more, id) == Rounds(trace, id) + 1
  {
    assert (trace + [Round(id, at)])[..|trace|] == trace;
    assert forall x :: Payments(trace + [Round(id, at)], x) == Payments(trace, x);
    hide Permitted;
  }

  lemma CutHere(w: World, t: Row, id: Id, before: seq<Act>, at: nat, trace: seq<Act>)
    requires Longer(before + [Round(id, at)], trace)
    requires (t.budget.wallMS > 0 && w.says(at)) || w.chat(at + 2).NoReply?
    ensures CutShort(w, t, id, before, trace)
  {
    assert trace[|before|] == Round(id, at);
  }

  function Executions(trace: seq<Act>, id: Id): nat {
    if trace == [] then 0
    else
      Executions(trace[..|trace| - 1], id)
      + if trace[|trace| - 1].Ran? && trace[|trace| - 1].task == id then 1 else 0
  }

  /** Payments are in the task's books, and within its cap. */
  ghost predicate Booked(rows: map<Id, Row>, trace: seq<Act>) {
    forall id :: if id in rows then
        Payments(trace, id) <= rows[id].spentCalls
        && (rows[id].budget.toolCalls > 0 ==> Payments(trace, id) <= rows[id].budget.toolCalls)
      else Payments(trace, id) == 0
  }

  /** Every execution and every proposal was made for the task's own agent, under the
      task's own budget. */
  ghost predicate Rightful(rows: map<Id, Row>, trace: seq<Act>) {
    forall p | 0 <= p < |trace| && Tooled(trace[p]) ::
      && trace[p].task in rows && rows[trace[p].task].agent == trace[p].agent != ""
      && rows[trace[p].task].budget.subagents == trace[p].subagents
  }

  /** Payments and executions agree with the rows. */
  ghost predicate Accounted(rows: map<Id, Row>, trace: seq<Act>) {
    Booked(rows, trace) && Rightful(rows, trace)
  }

  /** Whatever was executed for a task was on the allowlist of that task's own agent,
      with the agent's policy allowing it. */
  lemma ExecutedIsPermitted(w: World, rows: map<Id, Row>, trace: seq<Act>, p: nat)
    requires Orderly(w, trace) && Accounted(rows, trace) && p < |trace| && trace[p].Ran?
    ensures var id := trace[p].task;
            && id in rows && Permitted(w, rows[id].agent, rows[id].budget.subagents, trace[p].tool)
            && p > 0 && trace[p - 1] == Paid(id)
  {
    hide Booked, Permitted;
  }

  lemma {:induction false} ExecutionsArePaid(w: World, trace: seq<Act>, id: Id)
    requires Orderly(w, trace)
    ensures Executions(trace, id) <= Payments(trace, id)
    ensures trace != [] && trace[|trace| - 1] == Paid(id) ==> Executions(trace, id) < Payments(trace, id)
  {
    if trace != [] {
      ExecutionsArePaid(w, trace[..|trace| - 1], id);
    }
  }

  // ---- what a run leaves alone and what it adds -------------------------

  /** What no operation of a run changes about a task that existed before it. */
  predicate SameTask(a: Row, b: Row) {
    L.SameTerms(a, b) && a.agent == b.agent
  }

  /** Only task `id` of those that existed has moved; its log has only grown, and any
      task that is new is its child. */
  ghost predicate Keeps(rows0: map<Id, Row>, logs0: map<Id, Log>, rows: map<Id, Row>, logs: map<Id, Log>, id: Id) {
    && rows0.Keys == logs0.Keys && rows.Keys == logs.Keys && rows0.Keys <= rows.Keys
    && (forall x | x in rows0 :: SameTask(rows0[x], rows[x]) && logs0[x] <= logs[x])
    && (forall x | x in rows && x !in rows0 :: rows[x].parent == Some(id))
    && (forall x | x in rows0 && x != id :: rows[x] == rows0[x] && logs[x] == logs0[x])
  }

  predicate Quiet(log0: Log, log: Log) {
    log0 <= log && forall k | |log0| <= k < |log| :: !log[k].what.Finding?
  }

  /** The numbers in `calls` are tool calls appended from position `from` on. */
  ghost predicate Happened(log: Log, from: nat, calls: set<int>) {
    forall n | n in calls :: exists j :: from <= j < |log| && log[j].number == n && log[j].what.ToolCall?
  }

  /** Entry `k` is a finding with evidence, all of it tool calls of this run. */
  ghost predicate Supported(log: Log, from: nat, k: nat) {
    && from <= k < |log| && log[k].what.Finding? && log[k].what.evidence != []
    && Happened(log[..k], from, set n | n in log[k].what.evidence)
  }

  ghost predicate OnlyFinding(log0: Log, log: Log, k: nat) {
    Supported(log, |log0|, k) && forall j | |log0| <= j < |log| && j != k :: !log[j].what.Finding?
  }

  ghost predicate OneFinding(log0: Log, log: Log) {
    log0 <= log && exists k: nat :: OnlyFinding(log0, log, k)
  }

  /** What a run that ends with `ok` has made of its task. */
  ghost predicate Concluded(ok: bool, status: Status, log0: Log, log: Log) {
    && (Quiet(log0, log) || OneFinding(log0, log))
    && (ok ==> status.Completed? || status.InputRequired?)
    && (ok && status.Completed? ==> OneFinding(log0, log))
    && (ok && status.InputRequired? ==> Quiet(log0, log))
  }

  lemma KeepsNext(r0: map<Id, Row>, l0: map<Id, Log>, r1: map<Id, Row>, l1: map<Id, Log>, r2: map<Id, Row>, l2: map<Id, Log>, id: Id)
    requires Keeps(r0, l0, r1, l1, id) && Keeps(r1, l1, r2, l2, id)
    ensures Keeps(r0, l0, r2, l2, id)
  {}

  /** One task's row and log written, nothing else. */
  lemma WriteKeeps(r0: map<Id, Row>, l0: map<Id, Log>, id: Id, row: Row, log: Log, trace: seq<Act>)
    requires r0.Keys == l0.Keys && id in r0 && SameTask(r0[id], row) && Quiet(l0[id], log)
    requires Accounted(r0, trace) && r0[id].spentCalls <= row.spentCalls
    ensures Keeps(r0, l0, r0[id := row], l0[id := log], id) && Accounted(r0[id := row], trace)
  {}

  lemma NothingKeeps(r0: map<Id, Row>, l0: map<Id, Log>, id: Id)
    requires r0.Keys == l0.Keys && id in r0
    ensures Keeps(r0, l0, r0, l0, id) && Quiet(l0[id], l0[id]) && Stirs(r0, l0, r0, l0, id)
    ensures r0[id := r0[id]] == r0 && l0[id := l0[id]] == l0
  {}

  lemma {:induction false} PaymentCounts(trace: seq<Act>, id: Id)
    ensures Payments(trace + [Paid(id)], id) == Payments(trace, id) + 1
    ensures forall x | x != id :: Payments(trace + [Paid(id)], x) == Payments(trace, x)
  {
    assert (trace + [Paid(id)])[..|trace|] == trace;
  }

  /** A payment that leaves the task within its cap. */
  lemma PaymentBooked(rows: map<Id, Row>, trace: seq<Act>, id: Id)
    requires Accounted(rows, trace) && id in rows
    requires !L.Over(L.Spent(rows[id], L.ToolCalls, 1), L.ToolCalls)
    ensures Accounted(rows[id := L.Spent(rows[id], L.ToolCalls, 1)], trace + [Paid(id)])
  {
    PaymentCounts(trace, id);
    hide Payments;
  }

  lemma PaymentOrderly(w: World, trace: seq<Act>, id: Id)
    requires Orderly(w, trace)
    ensures Orderly(w, trace + [Paid(id)])
  {}

  lemma QuietNext(a: Log, b: Log, c: Log)
    requires Quiet(a, b) && Quiet(b, c)
    ensures Quiet(a, c)
  {}

  lemma QuietExtend(log: Log, what: L.What)
    requires !what.Finding?
    ensures Quiet(log, L.Extend(log, what))
  {}

  lemma HappenedGrows(log: Log, more: Log, from: nat, calls: set<int>)
    requires Happened(log, from, calls) && log <= more
    ensures Happened(more, from, calls)
  {
    forall n | n in calls ensures exists j :: from <= j < |more| && more[j].number == n && more[j].what.ToolCall? {
      var j :| from <= j < |log| && log[j].number == n && log[j].what.ToolCall?;
      assert more[j] == log[j];
    }
  }

  lemma HappenedAdds(log: Log, from: nat, calls: set<int>, tool: string)
    requires Happened(log, from, calls) && from <= |log|
    ensures Happened(L.Extend(log, L.ToolCall(tool)), from, calls + {L.NextNumber(log)})
  {
    var more := L.Extend(log, L.ToolCall(tool));
    HappenedGrows(log, more, from, calls);
    assert more[|log|].number == L.NextNumber(log) && more[|log|].what.ToolCall?;
  }

  /** A finding whose evidence all happened, appended to a quiet run. */
  lemma FindingRecorded(log0: Log, log: Log, calls: set<int>, evidence: seq<int>)
    requires Quiet(log0, log) && Happened(log, |log0|, calls)
    requires evidence != [] && forall e | e in evidence :: e in calls
    ensures OneFinding(log0, L.Extend(log, L.Finding(evidence)))
  {
    var more := L.Extend(log, L.Finding(evidence));
    assert more[..|log|] == log;
    assert OnlyFinding(log0, more, |log|);
  }

  lemma FindingStays(log0: Log, log: Log, more: Log)
    requires OneFinding(log0, log) && Quiet(log, more)
    ensures OneFinding(log0, more)
  {
    var k: nat :| OnlyFinding(log0, log, k);
    assert more[..k] == log[..k] && more[k] == log[k];
    assert forall j | |log0| <= j < |log| :: more[j] == log[j];
    assert OnlyFinding(log0, more, k);
  }

  /** `Keeps`, and the task's own log gained no finding. */
  ghost predicate Stirs(r0: map<Id, Row>, l0: map<Id, Log>, r1: map<Id, Row>, l1: map<Id, Log>, id: Id) {
    id in r0 && id in l0 && id in r1 && id in l1 && Keeps(r0, l0, r1, l1, id) && Quiet(l0[id], l1[id])
  }

  lemma StirsNext(r0: map<Id, Row>, l0: map<Id, Log>, r1: map<Id, Row>, l1: map<Id, Log>, r2: map<Id, Row>, l2: map<Id, Log>, id: Id)
    requires Stirs(r0, l0, r1, l1, id) && Stirs(r1, l1, r2, l2, id)
    ensures Stirs(r0, l0, r2, l2, id)
  {
    KeepsNext(r0, l0, r1, l1, r2, l2, id);
    QuietNext(l0[id], l1[id], l2[id]);
  }

  /** A child entered under `id`. */
  lemma ChildEntered(r0: map<Id, Row>, l0: map<Id, Log>, id: Id, c: Id, row: Row, log: Log, trace: seq<Act>)
    requires r0.Keys == l0.Keys && id in r0 && c !in r0 && row.parent == Some(id) && Accounted(r0, trace)
    ensures Stirs(r0, l0, r0[c := row], l0[c := log], id) && Accounted(r0[c := row], trace)
  {}

  /** A child without an agent, of which nothing was executed yet, is given one. */
  lemma ChildRouted(r0: map<Id, Row>, l0: map<Id, Log>, r1: map<Id, Row>, l1: map<Id, Log>, id: Id, c: Id,
                    row: Row, log: Log, trace: seq<Act>)
    requires Stirs(r0, l0, r1, l1, id) && c !in r0 && c in r1 && L.SameTerms(r1[c], row) && r1[c].spentCalls <= row.spentCalls
    requires Accounted(r1, trace) && Unused(trace, c)
    ensures Stirs(r0, l0, r1[c := row], l1[c := log], id) && Accounted(r1[c := row], trace)
  {}

  /** No tool has been executed or proposed for the task. */
  ghost predicate Unused(trace: seq<Act>, c: Id) {
    forall p | 0 <= p < |trace| && Tooled(trace[p]) :: trace[p].task != c
  }

  lemma FreshIsUnused(rows: map<Id, Row>, trace: seq<Act>, c: Id)
    requires Accounted(rows, trace) && c !in rows
    ensures Unused(trace, c)
  {
    hide Booked;
  }

  /** Tasks entered since `r0` have this agent, or none. */
  ghost predicate NewAgents(r0: map<Id, Row>, r: map<Id, Row>, agent: string) {
    forall x | x in r && x !in r0 :: r[x].agent == "" || r[x].agent == agent
  }

  /** Whatever happens to a task entered since, its parent has not noticed. */
  lemma ChildMoved(r0: map<Id, Row>, l0: map<Id, Log>, r1: map<Id, Row>, l1: map<Id, Log>,
                   r2: map<Id, Row>, l2: map<Id, Log>, id: Id, c: Id)
    requires Stirs(r0, l0, r1, l1, id) && c !in r0 && c in r1 && Keeps(r1, l1, r2, l2, c)
    requires L.Family(r2) && r1[c].budget.subagents == 0
    ensures Stirs(r0, l0, r2, l2, id) && r2[id] == r1[id] && l2[id] == l1[id]
    ensures forall agent: string :: NewAgents(r0, r1, agent) ==> NewAgents(r0, r2, agent)
  {
    hide L.Family, Quiet;
    Childless(r2, c);
  }

  lemma Childless(rows: map<Id, Row>, c: Id)
    requires L.Family(rows) && c in rows && rows[c].budget.subagents == 0
    ensures forall x | x in rows :: rows[x].parent != Some(c)
  {
    assert |L.Children(rows, c)| <= 0;
    assert L.Children(rows, c) == {};
    forall x | x in rows ensures rows[x].parent != Some(c) {
      assert x !in L.Children(rows, c);
    }
  }

  lemma ToolOrderly(w: World, trace: seq<Act>, act: Act)
    requires Orderly(w, trace) && trace != [] && Tooled(act) && trace[|trace| - 1] == Paid(act.task) && Due(w, act)
    ensures Orderly(w, trace + [act])
  {}

  lemma ToolBooked(rows: map<Id, Row>, trace: seq<Act>, act: Act)
    requires Accounted(rows, trace) && Tooled(act) && act.task in rows
    requires rows[act.task].agent == act.agent != "" && rows[act.task].budget.subagents == act.subagents
    ensures Accounted(rows, trace + [act])
  {
    assert (trace + [act])[..|trace|] == trace;
    assert forall id :: Payments(trace + [act], id) == Payments(trace, id);
  }

  // ---- proposals --------------------------------------------------------

  /** The tools that the log says were proposed, in order. */
  function Filings(log: Log): seq<string> {
    if log == [] then []
    else
      Filings(log[..|log| - 1])
      + if log[|log| - 1].what.Proposal? then [log[|log| - 1].what.tool] else []
  }

  /** The tools that were proposed for the task, in order. */
  function Asked(trace: seq<Act>, id: Id): seq<string> {
    if trace == [] then []
    else
      Asked(trace[..|trace| - 1], id)
      + if trace[|trace| - 1].Proposed? && trace[|trace| - 1].task == id then [trace[|trace| - 1].tool] else []
  }

  function FilingsOf(logs: map<Id, Log>, id: Id): seq<string> {
    if id in logs then Filings(logs[id]) else []
  }

  /** Beyond those of `base`, the proposals in the logs are those that were made. */
  ghost predicate Filed(base: map<Id, Log>, logs: map<Id, Log>, trace: seq<Act>) {
    forall id :: FilingsOf(logs, id) == FilingsOf(base, id) + Asked(trace, id)
  }

  lemma NothingFiled(logs: map<Id, Log>)
    ensures Filed(logs, logs, [])
  {}

  lemma {:induction false} FilingsNext(log: Log, what: L.What)
    ensures Filings(L.Extend(log, what)) == Filings(log) + if what.Proposal? then [what.tool] else []
  {
    assert L.Extend(log, what)[..|log|] == log;
  }

  lemma {:induction false} AskedNext(trace: seq<Act>, act: Act, id: Id)
    ensures Asked(trace + [act], id) == Asked(trace, id) + if act.Proposed? && act.task == id then [act.tool] else []
  {
    assert (trace + [act])[..|trace|] == trace;
  }

  /** An entry that is no proposal files nothing. */
  lemma FiledEntry(base: map<Id, Log>, logs: map<Id, Log>, trace: seq<Act>, id: Id, what: L.What)
    requires Filed(base, logs, trace) && id in logs && !what.Proposal?
    ensures Filed(base, logs[id := L.Extend(logs[id], what)], trace)
  {
    hide Filings, Asked, L.Extend, FilingsOf;
    forall x ensures FilingsOf(logs[id := L.Extend(logs[id], what)], x) == FilingsOf(base, x) + Asked(trace, x) {
      assert FilingsOf(logs, x) == FilingsOf(base, x) + Asked(trace, x);
      FilingsAfter(logs, id, what, x);
    }
  }

  lemma FiledParked(base: map<Id, Log>, logs: map<Id, Log>, trace: seq<Act>, id: Id, status: Status)
    requires Filed(base, logs, trace) && id in logs
    ensures Filed(base, logs[id := L.ParkedLog(status, logs[id])], trace)
  {
    hide Filed, L.Extend;
    FiledEntry(base, logs, trace, id, L.BudgetExhausted);
    if status.Working? {
      var once := logs[id := L.Extend(logs[id], L.BudgetExhausted)];
      FiledEntry(base, once, trace, id, L.Moved(Working, InputRequired));
      assert once[id := L.Extend(once[id], L.Moved(Working, InputRequired))] == logs[id := L.ParkedLog(status, logs[id])];
    }
  }

  /** A task that is entered has filed nothing. */
  lemma FiledIntake(base: map<Id, Log>, logs: map<Id, Log>, trace: seq<Act>, c: Id)
    requires Filed(base, logs, trace) && c !in logs
    ensures Filed(base, logs[c := L.Extend([], L.Intake)], trace)
  {
    FilingsNext([], L.Intake);
    hide Asked, L.Extend;
    assert Filings([]) == [];
    forall x ensures FilingsOf(logs[c := L.Extend([], L.Intake)], x) == FilingsOf(base, x) + Asked(trace, x) {
      assert FilingsOf(logs, x) == FilingsOf(base, x) + Asked(trace, x);
    }
  }

  lemma FiledAct(base: map<Id, Log>, logs: map<Id, Log>, trace: seq<Act>, act: Act)
    requires Filed(base, logs, trace) && !act.Proposed?
    ensures Filed(base, logs, trace + [act])
  {
    hide Filings, Asked, FilingsOf;
    forall x ensures FilingsOf(logs, x) == FilingsOf(base, x) + Asked(trace + [act], x) {
      AskedNext(trace, act, x);
      assert FilingsOf(logs, x) == FilingsOf(base, x) + Asked(trace, x);
    }
  }

  /** One proposal, in the log and in the trace. */
  lemma FiledProposal(base: map<Id, Log>, logs: map<Id, Log>, trace: seq<Act>, act: Act)
    requires Filed(base, logs, trace) && act.Proposed? && act.task in logs
    ensures Filed(base, logs[act.task := L.Extend(logs[act.task], L.Proposal(act.tool))], trace + [act])
  {
    hide Filings, Asked, L.Extend, FilingsOf;
    forall x ensures FilingsOf(logs[act.task := L.Extend(logs[act.task], L.Proposal(act.tool))], x) == FilingsOf(base, x) + Asked(trace + [act], x) {
      AskedNext(trace, act, x);
      assert FilingsOf(logs, x) == FilingsOf(base, x) + Asked(trace, x);
      FilingsAfter(logs, act.task, L.Proposal(act.tool), x);
    }
  }

  lemma FilingsAfter(logs: map<Id, Log>, id: Id, what: L.What, x: Id)
    requires id in logs
    ensures FilingsOf(logs[id := L.Extend(logs[id], what)], x)
            == FilingsOf(logs, x) + if x == id && what.Proposal? then [what.tool] else []
  {
    FilingsNext(logs[id], what);
    hide Filings, L.Extend;
  }

  /** What one task filed, by what was proposed for it. */
  lemma FiledFor(base: map<Id, Log>, logs: map<Id, Log>, trace: seq<Act>, id: Id)
    requires Filed(base, logs, trace) && id in logs
    ensures Filings(logs[id]) == FilingsOf(base, id) + Asked(trace, id)
  {
    hide Filings, Asked;
    assert FilingsOf(logs, id) == FilingsOf(base, id) + Asked(trace, id);
  }

  /** The trace only grows, and so does what was proposed. */
  lemma {:induction false} AskedGrows(a: seq<Act>, b: seq<Act>, id: Id)
    requires Longer(a, b)
    ensures Asked(a, id) <= Asked(b, id)
    ensures forall k: nat | |Asked(a, id)| <= k < |Asked(b, id)| ::
              exists p :: |a| <= p < |b| && b[p].Proposed? && b[p].task == id && b[p].tool == Asked(b, id)[k]
    decreases |b|
  {
    if a != b {
      var front := b[..|b| - 1];
      assert a == b[..|a|] && front[..|a|] == a;
      AskedGrows(a, front, id);
      forall k: nat | |Asked(a, id)| <= k < |Asked(b, id)|
        ensures exists p :: |a| <= p < |b| && b[p].Proposed? && b[p].task == id && b[p].tool == Asked(b, id)[k]
      {
        if k < |Asked(front, id)| {
          var p :| |a| <= p < |front| && front[p].Proposed? && front[p].task == id && front[p].tool == Asked(front, id)[k];
          assert b[p] == front[p];
        } else {
          assert b[|b| - 1].Proposed?;
        }
      }
    }
  }

  /** Every proposal that a run adds to a log belongs to a request of that task that
      was paid for just before, of a tool on the allowlist of the task's own agent for
      which that agent's policy asks for approval; so a denied tool leaves none. The
      run began with trace `before` and logs `logs0`. */
  lemma ProposalsAreDue(w: World, base: map<Id, Log>, rows: map<Id, Row>, logs0: map<Id, Log>, logs: map<Id, Log>,
                        before: seq<Act>, trace: seq<Act>, id: Id, k: nat) returns (p: nat)
    requires Orderly(w, trace) && Accounted(rows, trace) && Filed(base, logs0, before) && Filed(base, logs, trace)
    requires Longer(before, trace) && id in logs && |FilingsOf(logs0, id)| <= k < |Filings(logs[id])|
    ensures FilingsOf(logs0, id) <= Filings(logs[id])
    ensures |before| <= p < |trace| && trace[p].Proposed? && trace[p].task == id && trace[p].tool == Filings(logs[id])[k]
    ensures p > 0 && trace[p - 1] == Paid(id)
    ensures id in rows && Proposes(w, rows[id].agent, rows[id].budget.subagents, Filings(logs[id])[k])
    ensures w.verdict(rows[id].agent, Filings(logs[id])[k]) == Propose
  {
    hide Filings, Asked, Orderly, Accounted, Proposes, FilingsOf;
    assert FilingsOf(logs0, id) == FilingsOf(base, id) + Asked(before, id);
    FiledFor(base, logs, trace, id);
    AskedGrows(before, trace, id);
    var j: nat := k - |FilingsOf(base, id)|;
    assert Filings(logs[id])[k] == Asked(trace, id)[j];
    p :| |before| <= p < |trace| && trace[p].Proposed? && trace[p].task == id && trace[p].tool == Asked(trace, id)[j];
    ProposedIsDue(w, rows, trace, p);
  }

  /** A proposal was made for the task's own agent, whose policy asks for it. */
  lemma ProposedIsDue(w: World, rows: map<Id, Row>, trace: seq<Act>, p: nat)
    requires Orderly(w, trace) && Accounted(rows, trace) && p < |trace| && trace[p].Proposed?
    ensures var id := trace[p].task;
            && id in rows && p > 0 && trace[p - 1] == Paid(id)
            && Proposes(w, rows[id].agent, rows[id].budget.subagents, trace[p].tool)
            && w.verdict(rows[id].agent, trace[p].tool) == Propose
  {
    hide Booked, Permitted, AllowedNames, KindOf;
  }

  /** In the loop: the task is working, and the citable calls are this run's own. */
  ghost predicate InLoop(r0: map<Id, Row>, l0: map<Id, Log>, r1: map<Id, Row>, l1: map<Id, Log>, id: Id, calls: set<int>) {
    Stirs(r0, l0, r1, l1, id) && r1[id].status == Working && Happened(l1[id], |l0[id]|, calls)
  }

  lemma LoopStirs(r0: map<Id, Row>, l0: map<Id, Log>, r1: map<Id, Row>, l1: map<Id, Log>, r2: map<Id, Row>, l2: map<Id, Log>,
                  id: Id, calls: set<int>)
    requires InLoop(r0, l0, r1, l1, id, calls) && Stirs(r1, l1, r2, l2, id)
    ensures Stirs(r0, l0, r2, l2, id) && Happened(l2[id], |l0[id]|, calls) && SameTask(r1[id], r2[id])
    ensures r2[id].status == Working ==> InLoop(r0, l0, r2, l2, id, calls)
  {
    StirsNext(r0, l0, r1, l1, r2, l2, id);
    HappenedGrows(l1[id], l2[id], |l0[id]|, calls);
  }

  lemma LoopCalled(r0: map<Id, Row>, l0: map<Id, Log>, r1: map<Id, Row>, l1: map<Id, Log>, l2: map<Id, Log>,
                   id: Id, calls: set<int>, tool: string)
    requires InLoop(r0, l0, r1, l1, id, calls)
    requires Stirs(r1, l1, r1, l2, id) && l2[id] == L.Extend(l1[id], L.ToolCall(tool))
    ensures InLoop(r0, l0, r1, l2, id, calls + {L.NextNumber(l1[id])})
  {
    StirsNext(r0, l0, r1, l1, r1, l2, id);
    HappenedAdds(l1[id], |l0[id]|, calls, tool);
  }

  /** What RunTask makes of a ledger: nothing, without such a task. */
  ghost predicate RunDone(ok: bool, r0: map<Id, Row>, l0: map<Id, Log>, r1: map<Id, Row>, l1: map<Id, Log>, id: Id) {
    if id in r0 && id in l0 then
      id in r1 && id in l1 && Keeps(r0, l0, r1, l1, id) && Concluded(ok, r1[id].status, l0[id], l1[id])
    else !ok && r1 == r0 && l1 == l0
  }

  lemma NotRead(r: map<Id, Row>, l: map<Id, Log>, id: Id)
    requires r.Keys == l.Keys
    ensures RunDone(false, r, l, r, l, id)
  {
    if id in r {
      NothingKeeps(r, l, id);
    }
  }

  /** A task never executes more tools than its cap. */
  lemma ExecutionsWithinCap(w: World, rows: map<Id, Row>, trace: seq<Act>, id: Id)
    requires Orderly(w, trace) && Accounted(rows, trace) && id in rows && rows[id].budget.toolCalls > 0
    ensures Executions(trace, id) <= rows[id].budget.toolCalls
  {
    ExecutionsArePaid(w, trace, id);
  }

  /** A completed run recorded one finding, and every number it cites belongs to one
      entry of the whole log: a tool call of this run, before the finding. */
  lemma CompletedIsSupported(log0: Log, log: Log) returns (k: nat)
    requires Concluded(true, Completed, log0, log) && L.Numbered(log)
    ensures |log0| <= k < |log| && log[k].what.Finding? && log[k].what.evidence != []
    ensures forall j | |log0| <= j < |log| && log[j].what.Finding? :: j == k
    ensures forall n, j | n in log[k].what.evidence && 0 <= j < |log| && log[j].number == n ::
              |log0| <= j < k && log[j].what.ToolCall?
    ensures forall n | n in log[k].what.evidence :: exists j :: |log0| <= j < k && log[j].number == n
  {
    k :| OnlyFinding(log0, log, k);
    forall n | n in log[k].what.evidence
      ensures exists j :: |log0| <= j < k && log[j].number == n && log[j].what.ToolCall?
    {
      var cited := set x | x in log[k].what.evidence;
      assert n in cited && Happened(log[..k], |log0|, cited);
      var j :| |log0| <= j < |log[..k]| && log[..k][j].number == n && log[..k][j].what.ToolCall?;
      assert log[j] == log[..k][j];
    }
    forall n, j | n in log[k].what.evidence && 0 <= j < |log| && log[j].number == n
      ensures |log0| <= j < k && log[j].what.ToolCall?
    {
      var i :| |log0| <= i < k && log[i].number == n && log[i].what.ToolCall?;
      assert !(i < j) && !(j < i);
    }
  }
}
