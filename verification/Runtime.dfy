/** RunTask and what it calls, over the ledger. */
module Runtime {
  import opened Text
  import opened Task
  import opened Investigation
  import L = Ledger
  import F = Findings
  import T = Toolset

  /** How one round of the loop ends: go on, stop with the task parked, or fail. */
  datatype Round = Next | Parked | Broken

  class Runtime {
    const ledger: L.TaskLedger
    const world: World
    ghost var trace: seq<Act>
    /** The logs as they were when the trace was empty. */
    ghost const base: map<Id, Log>

    ghost predicate Valid()
      reads this, ledger
    {
      ledger.Valid() && Orderly(world, trace) && Accounted(ledger.rows, trace) && Filed(base, ledger.logs, trace)
    }

    constructor (ledger: L.TaskLedger, world: World)
      requires ledger.Valid()
      ensures Valid() && this.ledger == ledger && this.world == world && trace == []
    {
      this.ledger, this.world, trace, base := ledger, world, [], ledger.logs;
      NothingFiled(ledger.logs);
    }

    lemma Facts(id: Id)
      requires Valid() && id in ledger.rows
      ensures ledger.rows.Keys == ledger.logs.Keys && Stirs(ledger.rows, ledger.logs, ledger.rows, ledger.logs, id)
      ensures Keeps(ledger.rows, ledger.logs, ledger.rows, ledger.logs, id)
    {
      hide L.TaskLedger.Valid;
      ledger.Facts();
      NothingKeeps(ledger.rows, ledger.logs, id);
    }

    lemma IsFiled()
      requires Valid()
      ensures Filed(base, ledger.logs, trace)
    {
      hide Orderly, Accounted, Filed, L.TaskLedger.Valid;
    }

    /** Every proposal added since the logs were `l0` is one that the policy of the
        task's own agent asks for. */
    ghost predicate AllDue(l0: map<Id, L.Log>)
      reads ledger
    {
      forall x, k: nat | x in ledger.logs && |FilingsOf(l0, x)| <= k < |Filings(ledger.logs[x])| ::
        x in ledger.rows && Proposes(world, ledger.rows[x].agent, ledger.rows[x].budget.subagents, Filings(ledger.logs[x])[k])
    }

    lemma DueSince(l0: map<Id, L.Log>, before: seq<Act>)
      requires Valid() && Filed(base, l0, before) && Longer(before, trace)
      ensures AllDue(l0)
    {
      hide Filed, Longer;
      forall x, k: nat | x in ledger.logs && |FilingsOf(l0, x)| <= k < |Filings(ledger.logs[x])|
        ensures x in ledger.rows && Proposes(world, ledger.rows[x].agent, ledger.rows[x].budget.subagents, Filings(ledger.logs[x])[k])
      {
        DueOne(l0, before, x, k);
      }
    }

    lemma DueOne(l0: map<Id, L.Log>, before: seq<Act>, x: Id, k: nat)
      requires Valid() && Filed(base, l0, before) && Longer(before, trace)
      requires x in ledger.logs && |FilingsOf(l0, x)| <= k < |Filings(ledger.logs[x])|
      ensures x in ledger.rows && Proposes(world, ledger.rows[x].agent, ledger.rows[x].budget.subagents, Filings(ledger.logs[x])[k])
    {
      hide Orderly, Accounted, Filed, L.TaskLedger.Valid, Proposes, Filings, Longer;
      var p := ProposalsAreDue(world, base, ledger.rows, l0, ledger.logs, before, trace, x, k);
    }

    /** No store operation fails. */
    ghost predicate Reliable() {
      forall n: nat :: !ledger.fails(n)
    }

    /** A question to the outside: a clock, a sink, a setting. */
    method Ask() returns (yes: bool)
      requires Valid()
      modifies ledger`tick
      ensures Valid() && ledger.tick == old(ledger.tick) + 1 && yes == world.says(old(ledger.tick))
    {
      hide Orderly, Accounted, Filed, L.Family, L.Numbered;
      yes := world.says(ledger.tick);
      ledger.tick := ledger.tick + 1;
    }

    /** A store operation that leaves rows and logs alone. */
    method Store() returns (ok: bool)
      requires Valid()
      modifies ledger`tick
      ensures Valid() && ok == !ledger.fails(old(ledger.tick))
    {
      hide Orderly, Accounted, Filed, L.TaskLedger.Valid;
      var failed := ledger.Fault();
      ok := !failed;
    }

    /** Only task `id` has moved since, and no finding was added to its log. */
    twostate predicate Stirred(id: Id)
      reads ledger
    {
      Stirs(old(ledger.rows), old(ledger.logs), ledger.rows, ledger.logs, id)
    }

    /** An event that is not a finding. */
    method Record(id: Id, what: L.What) returns (number: Option<int>)
      requires Valid() && id in ledger.rows && !what.Finding? && !what.Proposal?
      modifies ledger
      ensures Valid() && Stirred(id) && ledger.rows == old(ledger.rows)
      ensures number.Some? ==> ledger.logs == old(ledger.logs)[id := L.Extend(old(ledger.logs[id]), what)]
      ensures number.Some? ==> number.value == L.NextNumber(old(ledger.logs[id]))
      ensures number.None? ==> ledger.logs == old(ledger.logs)
      ensures ledger.tick == old(ledger.tick) + 1 && (number.Some? <==> !ledger.fails(old(ledger.tick)))
    {
      hide Stirs, Orderly, Accounted, Filed, L.TaskLedger.Valid, L.Numbered, L.Extend, L.NextNumber;
      ledger.Facts();
      AppendStirs(ledger.rows, ledger.logs, id, what);
      FiledEntry(base, ledger.logs, trace, id, what);
      number := ledger.Append(id, what);
    }

    /** A status change made by the run. */
    method Move(id: Id, to: Status) returns (ok: bool)
      requires Valid() && id in ledger.rows
      modifies ledger
      ensures Valid() && Stirred(id)
      ensures ok <==> Allowed(old(ledger.rows[id].status), to) && !ledger.fails(old(ledger.tick))
      ensures ledger.rows == if ok then old(ledger.rows)[id := old(ledger.rows[id]).(status := to)] else old(ledger.rows)
      ensures ledger.logs == if ok then old(ledger.logs)[id := L.Extend(old(ledger.logs[id]), L.Moved(old(ledger.rows[id]).status, to))] else old(ledger.logs)
    {
      hide Stirs, Orderly, Accounted, Filed, L.TaskLedger.Valid, L.Numbered, L.Extend, Allowed;
      ledger.Facts();
      MoveStirs(ledger.rows, ledger.logs, id, to, trace);
      FiledEntry(base, ledger.logs, trace, id, L.Moved(ledger.rows[id].status, to));
      ok := ledger.SetStatus(id, to);
    }

    /** Whether the reason can be logged and the status then moved. */
    ghost predicate CanPark(status: Status, tick: nat) {
      Allowed(status, InputRequired) && !ledger.fails(tick) && !ledger.fails(tick + 1)
    }

    /** park: the reason is logged, then the status moved. */
    method Park(id: Id) returns (ok: bool)
      requires Valid() && id in ledger.rows
      modifies ledger
      ensures Valid() && Stirred(id)
      ensures ok <==> CanPark(old(ledger.rows[id].status), old(ledger.tick))
      ensures ledger.rows == if ok then old(ledger.rows)[id := old(ledger.rows[id]).(status := InputRequired)] else old(ledger.rows)
    {
      hide Keeps, Quiet, Orderly, Accounted, Filed, L.Family, L.Numbered, L.Extend;
      ghost var r0, l0 := ledger.rows, ledger.logs;
      var number := Record(id, L.Error);
      if number.None? {
        return false;
      }
      ghost var r1, l1 := ledger.rows, ledger.logs;
      ok := Move(id, InputRequired);
      StirsNext(r0, l0, r1, l1, ledger.rows, ledger.logs, id);
    }

    /** What a charge does to one task. */
    method Charge(id: Id, meter: L.Meter, amount: nat) returns (charge: L.Charge)
      requires Valid() && id in ledger.rows && ledger.rows[id].status == Working
      modifies ledger
      ensures ledger.Valid() && Accounted(ledger.rows, trace) && Filed(base, ledger.logs, trace) && Stirred(id)
      ensures charge.Charged? ==> ledger.rows == old(ledger.rows)[id := L.Spent(old(ledger.rows[id]), meter, amount)]
      ensures charge.Charged? ==> !L.Over(L.Spent(old(ledger.rows[id]), meter, amount), meter)
      ensures charge.Exhausted? ==> ledger.rows[id].status == InputRequired && L.Over(ledger.rows[id], meter)
      ensures charge.Exhausted? ==> L.Over(L.Spent(old(ledger.rows[id]), meter, amount), meter)
      ensures charge.ChargeFailed? <==> ledger.fails(old(ledger.tick))
      ensures ledger.tick == old(ledger.tick) + 1
    {
      hide Stirs, Orderly, Accounted, Filed, L.TaskLedger.Valid, L.Numbered, L.ParkedLog, L.Over, L.Spent, L.Parked;
      ledger.Facts();
      ChargeKeeps(ledger.rows, ledger.logs, id, meter, amount, trace);
      FiledParked(base, ledger.logs, trace, id, Working);
      L.ParkedOver(L.Spent(ledger.rows[id], meter, amount), meter);
      charge := ledger.Spend(id, meter, amount);
    }

    /** The model's usage. */
    method PayTokens(id: Id, amount: nat) returns (r: Round)
      requires Valid() && id in ledger.rows && ledger.rows[id].status == Working
      modifies ledger
      ensures Valid() && Stirred(id)
      ensures r.Next? ==> ledger.rows[id].status == Working
      ensures r.Parked? ==> ledger.rows[id].status == InputRequired && L.Over(ledger.rows[id], L.Tokens)
      ensures r.Parked? ==> L.Over(L.Spent(old(ledger.rows[id]), L.Tokens, amount), L.Tokens)
      ensures r.Broken? <==> ledger.fails(old(ledger.tick))
    {
      hide Keeps, Quiet, Orderly, Accounted, Filed, L.TaskLedger.Valid, L.Over;
      var charge := Charge(id, L.Tokens, amount);
      r := if charge.Charged? then Next else if charge.Exhausted? then Parked else Broken;
    }

    /** One tool invocation against the cap; a payment that goes through is traced. */
    method PayCall(id: Id) returns (r: Round)
      requires Valid() && id in ledger.rows && ledger.rows[id].status == Working
      modifies ledger, this`trace
      ensures Longer(old(trace), trace)
      ensures Valid() && Stirred(id)
      ensures r.Next? ==> ledger.rows[id].status == Working && trace == old(trace) + [Paid(id)]
      ensures r.Parked? ==> ledger.rows[id].status == InputRequired && L.Over(ledger.rows[id], L.ToolCalls)
      ensures r.Broken? <==> ledger.fails(old(ledger.tick))
      ensures ledger.tick == old(ledger.tick) + 1
    {
      hide Keeps, Quiet, Orderly, Accounted, Filed, L.Family, L.Numbered;
      ghost var r0 := ledger.rows;
      var charge := Charge(id, L.ToolCalls, 1);
      r := if charge.Charged? then Next else if charge.Exhausted? then Parked else Broken;
      if r.Next? {
        PaymentBooked(r0, trace, id);
        PaymentOrderly(world, trace, id);
        FiledAct(base, ledger.logs, trace, Paid(id));
        trace := trace + [Paid(id)];
      }
    }

    /** A sink outside, whose failure is only logged; `ok` unless that fails too. */
    method Noted(id: Id) returns (ok: bool)
      requires Valid() && id in ledger.rows
      modifies ledger
      ensures Valid() && Stirred(id) && ledger.rows == old(ledger.rows)
      ensures Filings(ledger.logs[id]) == old(Filings(ledger.logs[id]))
      ensures Reliable() ==> ok
    {
      hide Valid, Keeps, Quiet, Stirs, L.Extend, L.NextNumber, Filings;
      Facts(id);
      FilingsNext(ledger.logs[id], L.Error);
      ok := true;
      var synced := Ask();
      if !synced {
        var number := Record(id, L.Error);
        ok := number.Some?;
      }
    }

    // ---- tools ----------------------------------------------------------

    /** The proposal, in the task's log and in the trace. */
    method File(id: Id, t: Row, tool: string) returns (ok: bool)
      requires Valid() && id in ledger.rows && SameTask(ledger.rows[id], t) && t.agent != ""
      requires trace != [] && trace[|trace| - 1] == Paid(id) && Proposes(world, t.agent, t.budget.subagents, tool)
      modifies ledger, this`trace
      ensures Valid() && Stirred(id) && ledger.rows == old(ledger.rows)
      ensures ledger.tick == old(ledger.tick) + 1 && ok == !ledger.fails(old(ledger.tick))
      ensures ledger.logs == if ok then old(ledger.logs)[id := L.Extend(old(ledger.logs[id]), L.Proposal(tool))] else old(ledger.logs)
      ensures trace == if ok then old(trace) + [Proposed(id, tool, t.agent, t.budget.subagents)] else old(trace)
    {
      hide Stirs, Orderly, Accounted, Filed, L.TaskLedger.Valid, L.Numbered, L.Extend, L.NextNumber, Proposes;
      ledger.Facts();
      ghost var act := Proposed(id, tool, t.agent, t.budget.subagents);
      AppendStirs(ledger.rows, ledger.logs, id, L.Proposal(tool));
      FiledProposal(base, ledger.logs, trace, act);
      ToolOrderly(world, trace, act);
      ToolBooked(ledger.rows, trace, act);
      var number := ledger.Append(id, L.Proposal(tool));
      ok := number.Some?;
      if ok {
        trace := trace + [act];
      }
    }

    /** propose: one proposal is recorded if the store answers, nothing is executed. */
    method ProposeAction(id: Id, t: Row, tool: string)
      requires Valid() && id in ledger.rows && SameTask(ledger.rows[id], t) && t.agent != ""
      requires trace != [] && trace[|trace| - 1] == Paid(id) && Proposes(world, t.agent, t.budget.subagents, tool)
      modifies ledger, this`trace
      ensures Valid() && Stirred(id) && ledger.rows == old(ledger.rows)
      ensures if Stores(old(ledger.tick))
              then trace == old(trace) + [Proposed(id, tool, t.agent, t.budget.subagents)]
                   && Filings(ledger.logs[id]) == old(Filings(ledger.logs[id])) + [tool]
              else trace == old(trace) && Filings(ledger.logs[id]) == old(Filings(ledger.logs[id]))
    {
      hide Valid, Keeps, Quiet, Stirs, L.Extend, L.NextNumber, Proposes, Filings;
      Facts(id);
      var stored := Ask();
      if !stored {
        return;
      }
      ghost var r0, l0 := ledger.rows, ledger.logs;
      FilingsNext(l0[id], L.Proposal(tool));
      var filed := File(id, t, tool);
      ghost var r1, l1 := ledger.rows, ledger.logs;
      if filed {
        var synced := Noted(id);
        StirsNext(r0, l0, r1, l1, ledger.rows, ledger.logs, id);
      }
    }

    /** The proposal store is there and takes one, and the ledger notes it. */
    predicate Stores(tick: nat) {
      world.says(tick) && !ledger.fails(tick + 1)
    }

    /** The execution of a paid and permitted tool. */
    ghost method Trace(id: Id, t: Row, tool: string)
      requires Valid() && trace != [] && trace[|trace| - 1] == Paid(id) && Permitted(world, t.agent, t.budget.subagents, tool)
      requires id in ledger.rows && SameTask(ledger.rows[id], t) && t.agent != ""
      modifies this`trace
      ensures Longer(old(trace), trace)
      ensures Valid() && trace == old(trace) + [Ran(id, tool, t.agent, t.budget.subagents)]
    {
      ToolOrderly(world, trace, Ran(id, tool, t.agent, t.budget.subagents));
      ToolBooked(ledger.rows, trace, Ran(id, tool, t.agent, t.budget.subagents));
      FiledAct(base, ledger.logs, trace, Ran(id, tool, t.agent, t.budget.subagents));
      trace := trace + [Ran(id, tool, t.agent, t.budget.subagents)];
    }

    /** One requested tool: executed exactly when it is to be, and otherwise proposed
        exactly when the policy asks for it and the store answers; a tool that is
        refused leaves no trace and no proposal. */
    method Dispatch(id: Id, t: Row, allowed: seq<string>, call: ToolRequest)
      requires Valid() && id in ledger.rows && SameTask(ledger.rows[id], t)
      requires !Unassigned(t) && allowed == AllowedNames(world, t.agent, t.budget.subagents)
      requires trace != [] && trace[|trace| - 1] == Paid(id)
      modifies ledger, this`trace
      ensures Longer(old(trace), trace)
      ensures Valid() && Stirred(id) && ledger.rows[id] == old(ledger.rows[id])
      ensures if Executes(world, t.agent, t.budget.subagents, call.tool)
              then Begins(old(trace), trace, Ran(id, call.tool, t.agent, t.budget.subagents))
              else if Proposes(world, t.agent, t.budget.subagents, call.tool) && Stores(old(ledger.tick))
              then trace == old(trace) + [Proposed(id, call.tool, t.agent, t.budget.subagents)]
                   && Filings(ledger.logs[id]) == old(Filings(ledger.logs[id])) + [call.tool]
              else trace == old(trace) && Filings(ledger.logs[id]) == old(Filings(ledger.logs[id]))
      decreases if t.budget.subagents > 0 then 1 else 0, 3
    {
      hide Keeps, Quiet, Orderly, Accounted, Filed, L.TaskLedger.Valid, AllowedNames, KindOf;
      Facts(id);
      if call.tool in allowed {
        var kind := KindOf(call.tool);
        if kind.External? && !world.verdict(t.agent, call.tool).Allow? {
          if world.verdict(t.agent, call.tool).Propose? {
            ProposeAction(id, t, call.tool);
          }
        } else if !kind.Memory? || world.memory {
          Execute(id, t, call);
        }
      }
    }

    /** A tool that is permitted: delegated, served from memory, or called. */
    method Execute(id: Id, t: Row, call: ToolRequest)
      requires Valid() && id in ledger.rows && SameTask(ledger.rows[id], t)
      requires Permitted(world, t.agent, t.budget.subagents, call.tool) && t.agent != ""
      requires trace != [] && trace[|trace| - 1] == Paid(id)
      modifies ledger, this`trace
      ensures Longer(old(trace), trace)
      ensures Valid() && Stirred(id) && ledger.rows[id] == old(ledger.rows[id])
      ensures Begins(old(trace), trace, Ran(id, call.tool, t.agent, t.budget.subagents))
      decreases if t.budget.subagents > 0 then 1 else 0, 2
    {
      hide Keeps, Quiet, Orderly, Accounted, Filed, L.TaskLedger.Valid, AllowedNames, KindOf, Permitted;
      Facts(id);
      Trace(id, t, call.tool);
      if KindOf(call.tool).Spawning? {
        Spawn(id, t, call.args);
      }
    }

    /** spawnSubagent: `t` is the parent as its run first read it. Nothing happens when
        the arguments name no agent; a child that is entered is given that agent. */
    method Spawn(id: Id, t: Row, args: string)
      requires Valid() && id in ledger.rows && SameTask(ledger.rows[id], t)
      modifies ledger, this`trace
      ensures Longer(old(trace), trace)
      ensures Valid() && Stirred(id) && ledger.rows[id] == old(ledger.rows[id])
      ensures var target := world.spawnTarget(args);
              if target.None? || world.agents(target.value).None? then ledger.rows == old(ledger.rows) && ledger.logs == old(ledger.logs)
              else NewAgents(old(ledger.rows), ledger.rows, target.value)
      decreases if t.budget.subagents > 0 then 1 else 0, 1
    {
      hide Keeps, Quiet, Orderly, Accounted, Filed, L.TaskLedger.Valid, L.Children;
      Facts(id);
      var target := world.spawnTarget(args);
      if target.None? || world.agents(target.value).None? {
        return;
      }
      ghost var r0, l0 := ledger.rows, ledger.logs;
      var child := Enter(id, t, target.value);
      if child.Some? {
        Delegate(id, t, child.value, target.value, r0, l0);
      }
    }

    /** The child's own run, and the hand-back. The parent was last as in `r0`, `l0`. */
    method Delegate(id: Id, t: Row, c: Id, ghost agent: string, ghost r0: map<Id, Row>, ghost l0: map<Id, L.Log>)
      requires Valid() && Stirs(r0, l0, ledger.rows, ledger.logs, id) && c !in r0 && c in ledger.rows
      requires t.budget.subagents > 0 && ledger.rows[c].budget.subagents == 0 && NewAgents(r0, ledger.rows, agent)
      modifies ledger, this`trace
      ensures Longer(old(trace), trace)
      ensures Valid() && Stirs(r0, l0, ledger.rows, ledger.logs, id)
      ensures ledger.rows[id] == old(ledger.rows[id]) && NewAgents(r0, ledger.rows, agent)
      decreases if t.budget.subagents > 0 then 1 else 0, 0
    {
      hide Keeps, Quiet, Orderly, Accounted, Filed, L.TaskLedger.Valid, L.Family, L.Children, NewAgents;
      ghost var r1, l1 := ledger.rows, ledger.logs;
      ledger.Facts();
      var ok := RunTask(c);
      ghost var r2, l2 := ledger.rows, ledger.logs;
      ledger.Related();
      ChildMoved(r0, l0, r1, l1, r2, l2, id, c);
      if !ok {
        return;
      }
      var row := ledger.Get(c);
      if row.None? {
        return;
      }
      var number := Record(id, L.Handoff(c));
      StirsNext(r0, l0, r2, l2, ledger.rows, ledger.logs, id);
    }

    function ChildBudget(t: Row): L.Budget {
      L.Budget(L.AtLeastZero(t.budget.tokens - t.spentTokens) / 2,
               L.AtLeastZero(t.budget.toolCalls - t.spentCalls) / 2, t.budget.wallMS, 0)
    }

    /** The child task, if the subagent budget allows one more, with its agent. */
    method Enter(id: Id, t: Row, agent: string) returns (child: Option<Id>)
      requires Valid() && id in ledger.rows && SameTask(ledger.rows[id], t)
      modifies ledger
      ensures Valid() && Stirred(id) && ledger.rows[id] == old(ledger.rows[id])
      ensures NewAgents(old(ledger.rows), ledger.rows, agent)
      ensures child.Some? ==> child.value !in old(ledger.rows) && t.budget.subagents > 0
      ensures child.Some? ==>
                ledger.rows == old(ledger.rows)[child.value := L.Row(Submitted, agent, Some(id), ChildBudget(t), 0, 0)]
    {
      hide Quiet, Keeps, Orderly, Accounted, Filed, L.TaskLedger.Valid, L.Children, Unused;
      ghost var r0, l0 := ledger.rows, ledger.logs;
      Facts(id);
      child := None;
      var n := ledger.CountChildren(id);
      if n.None? || n.value >= t.budget.subagents {
        return;
      }
      child := Grant(id, t);
      if child.Some? {
        var routed := Assign(child.value, agent, id, r0, l0);
        if !routed {
          child := None;
        }
      }
    }

    /** A child is granted half of what its parent had left when its run began. */
    method Grant(id: Id, t: Row) returns (child: Option<Id>)
      requires Valid() && id in ledger.rows && SameTask(ledger.rows[id], t)
      requires |L.Children(ledger.rows, id)| < t.budget.subagents
      modifies ledger
      ensures Valid() && Stirred(id)
      ensures child.None? ==> ledger.rows == old(ledger.rows)
      ensures child.Some? ==> child.value !in old(ledger.rows) && Unused(trace, child.value)
      ensures child.Some? ==>
                ledger.rows == old(ledger.rows)[child.value := L.Row(Submitted, "", Some(id), ChildBudget(t), 0, 0)]
    {
      hide Quiet, Keeps, Stirs, Orderly, Accounted, Filed, L.TaskLedger.Valid, L.Children, Unused, L.Extend;
      ghost var r0, l0 := ledger.rows, ledger.logs;
      Facts(id);
      child := ledger.SubmitChild(id, ChildBudget(t));
      if child.Some? {
        FreshIsUnused(r0, trace, child.value);
        FiledIntake(base, l0, trace, child.value);
        ChildEntered(r0, l0, id, child.value, L.Row(Submitted, "", Some(id), ChildBudget(t), 0, 0), L.Extend([], L.Intake), trace);
      }
    }

    /** A task that is new since `r0` and has run nothing is given its agent. */
    method Assign(c: Id, agent: string, ghost id: Id, ghost r0: map<Id, Row>, ghost l0: map<Id, L.Log>) returns (ok: bool)
      requires Valid() && Stirs(r0, l0, ledger.rows, ledger.logs, id) && c !in r0 && c in ledger.rows && Unused(trace, c)
      modifies ledger
      ensures Valid() && Stirs(r0, l0, ledger.rows, ledger.logs, id)
      ensures ledger.rows == if ok then old(ledger.rows)[c := old(ledger.rows[c]).(agent := agent)] else old(ledger.rows)
    {
      hide Stirs, Orderly, Accounted, Filed, L.TaskLedger.Valid, L.Numbered, L.Extend, Unused;
      ledger.Facts();
      ghost var r1, l1 := ledger.rows, ledger.logs;
      ChildRouted(r0, l0, r1, l1, id, c, r1[c].(agent := agent), L.Extend(l1[c], L.Routed), trace);
      FiledEntry(base, l1, trace, c, L.Routed);
      ok := ledger.AssignAgent(c, agent);
    }

    // ---- the loop -------------------------------------------------------

    /** One requested tool: paid, dispatched, logged, and then citable. */
    method RunCall(id: Id, t: Row, allowed: seq<string>, call: ToolRequest, calls: set<int>,
                   ghost r0: map<Id, Row>, ghost l0: map<Id, L.Log>) returns (r: Round, more: set<int>)
      requires Valid() && InLoop(r0, l0, ledger.rows, ledger.logs, id, calls) && SameTask(ledger.rows[id], t)
      requires !Unassigned(t) && allowed == AllowedNames(world, t.agent, t.budget.subagents)
      modifies ledger, this`trace
      ensures Longer(old(trace), trace)
      ensures Valid() && Stirs(r0, l0, ledger.rows, ledger.logs, id)
      ensures r.Next? ==> InLoop(r0, l0, ledger.rows, ledger.logs, id, more) && SameTask(ledger.rows[id], t)
      ensures r.Parked? ==> ledger.rows[id].status == InputRequired && L.Over(ledger.rows[id], L.ToolCalls)
      ensures Reliable() ==> !r.Broken?
      ensures r.Next? ==>
                var paid, ran := old(trace) + [Paid(id)], Ran(id, call.tool, t.agent, t.budget.subagents);
                if Executes(world, t.agent, t.budget.subagents, call.tool) then Begins(paid, trace, ran)
                else if Proposes(world, t.agent, t.budget.subagents, call.tool) && Stores(old(ledger.tick) + 1)
                then trace == paid + [Proposed(id, call.tool, t.agent, t.budget.subagents)]
                else trace == paid
      decreases if t.budget.subagents > 0 then 1 else 0, 4
    {
      hide Keeps, Quiet, Orderly, Accounted, Filed, Happened, L.Family, L.Numbered, AllowedNames, L.Extend, L.NextNumber, Longer,
           Proposes, Executes, Stores, Filings, L.Over, Begins;
      more := calls;
      ghost var r1, l1 := ledger.rows, ledger.logs;
      ghost var before := trace;
      r := PayCall(id);
      ghost var paid := trace;
      ghost var r2, l2 := ledger.rows, ledger.logs;
      LoopStirs(r0, l0, r1, l1, r2, l2, id, calls);
      if !r.Next? {
        return;
      }
      Dispatch(id, t, allowed, call);
      LongerNext(before, paid, trace);
      ghost var r3, l3 := ledger.rows, ledger.logs;
      LoopStirs(r0, l0, r2, l2, r3, l3, id, calls);
      var number := Record(id, L.ToolCall(call.tool));
      LoopStirs(r0, l0, r3, l3, ledger.rows, ledger.logs, id, calls);
      if number.None? {
        return Broken, calls;
      }
      LoopCalled(r0, l0, r3, l3, ledger.logs, id, calls, call.tool);
      more := calls + {number.value};
      var stored := Store();
      r := if stored then Next else Broken;
    }

    method RunCalls(id: Id, t: Row, allowed: seq<string>, requests: seq<ToolRequest>, calls: set<int>,
                    ghost r0: map<Id, Row>, ghost l0: map<Id, L.Log>) returns (r: Round, more: set<int>)
      requires Valid() && InLoop(r0, l0, ledger.rows, ledger.logs, id, calls) && SameTask(ledger.rows[id], t)
      requires !Unassigned(t) && allowed == AllowedNames(world, t.agent, t.budget.subagents)
      modifies ledger, this`trace
      ensures Longer(old(trace), trace)
      ensures Valid() && Stirs(r0, l0, ledger.rows, ledger.logs, id)
      ensures r.Next? ==> InLoop(r0, l0, ledger.rows, ledger.logs, id, more) && SameTask(ledger.rows[id], t)
      ensures r.Parked? ==> ledger.rows[id].status == InputRequired && L.Over(ledger.rows[id], L.ToolCalls)
      ensures Reliable() ==> !r.Broken?
      decreases if t.budget.subagents > 0 then 1 else 0, 5
    {
      hide Keeps, Quiet, Orderly, Accounted, Filed, Happened, Valid, AllowedNames;
      more := calls;
      ghost var before := trace;
      for k := 0 to |requests|
        invariant Valid() && InLoop(r0, l0, ledger.rows, ledger.logs, id, more) && SameTask(ledger.rows[id], t) && Longer(before, trace)
      {
        ghost var mid := trace;
        r, more := RunCall(id, t, allowed, requests[k], more, r0, l0);
        LongerNext(before, mid, trace);
        if !r.Next? {
          return;
        }
      }
      r := Next;
    }

    /** The finding is recorded, forwarded, and the task completed. */
    method Finish(id: Id, f: F.Finding, calls: set<int>, ghost r0: map<Id, Row>, ghost l0: map<Id, L.Log>) returns (ok: bool)
      requires Valid() && InLoop(r0, l0, ledger.rows, ledger.logs, id, calls) && F.Acceptable(f, calls)
      modifies ledger
      ensures Valid() && id in ledger.rows && id in l0 && Keeps(r0, l0, ledger.rows, ledger.logs, id)
      ensures Concluded(ok, ledger.rows[id].status, l0[id], ledger.logs[id])
      ensures ok ==> ledger.rows[id].status == Completed
      ensures Reliable() ==> ok
    {
      hide Orderly, Accounted, Filed, Happened, L.Family, L.Numbered, L.Extend, Supported, Quiet, OneFinding;
      ghost var r1, l1 := ledger.rows, ledger.logs;
      var number := ledger.Append(id, L.Finding(f.evidence));
      if number.None? {
        return false;
      }
      ghost var l2 := ledger.logs;
      FindingRecorded(l0[id], l1[id], calls, f.evidence);
      FindingKeeps(r0, l0, r1, l1, id, f.evidence);
      FiledEntry(base, l1, trace, id, L.Finding(f.evidence));
      hide Keeps;
      ok := Complete(id);
      KeepsNext(r0, l0, r1, l2, ledger.rows, ledger.logs, id);
      FindingStays(l0[id], l2[id], ledger.logs[id]);
    }

    /** After the finding: the sink, and the last move. */
    method Complete(id: Id) returns (ok: bool)
      requires Valid() && id in ledger.rows
      modifies ledger
      ensures Valid() && Stirred(id)
      ensures ok ==> ledger.rows[id].status == Completed
      ensures Reliable() && old(ledger.rows[id].status).Working? ==> ok
    {
      hide Keeps, Quiet, Orderly, Accounted, Filed, Valid, L.Extend, L.TaskLedger.Valid;
      ghost var r0, l0 := ledger.rows, ledger.logs;
      ok := Noted(id);
      if ok {
        ghost var r1, l1 := ledger.rows, ledger.logs;
        ok := Move(id, Completed);
        StirsNext(r0, l0, r1, l1, ledger.rows, ledger.logs, id);
      }
    }

    /** park, out of the loop or before it. */
    method Stop(id: Id, ghost r0: map<Id, Row>, ghost l0: map<Id, L.Log>) returns (ok: bool)
      requires Valid() && Stirs(r0, l0, ledger.rows, ledger.logs, id)
      modifies ledger
      ensures Valid() && id in ledger.rows && id in l0 && Keeps(r0, l0, ledger.rows, ledger.logs, id)
      ensures Concluded(ok, ledger.rows[id].status, l0[id], ledger.logs[id])
      ensures ok <==> CanPark(old(ledger.rows[id].status), old(ledger.tick))
      ensures ledger.rows == if ok then old(ledger.rows)[id := old(ledger.rows[id]).(status := InputRequired)] else old(ledger.rows)
      ensures Reliable() && old(ledger.rows[id].status).Working? ==> ok
    {
      hide Keeps, Quiet, Orderly, Accounted, Filed, Happened, L.Family, L.Numbered;
      ghost var r1, l1 := ledger.rows, ledger.logs;
      ok := Park(id);
      StirsNext(r0, l0, r1, l1, ledger.rows, ledger.logs, id);
    }

    /** The wall clock has run out. */
    method StopExpired(id: Id, ghost r0: map<Id, Row>, ghost l0: map<Id, L.Log>) returns (ok: bool)
      requires Valid() && Stirs(r0, l0, ledger.rows, ledger.logs, id)
      modifies ledger
      ensures Valid() && id in ledger.rows && id in l0 && Keeps(r0, l0, ledger.rows, ledger.logs, id)
      ensures Concluded(ok, ledger.rows[id].status, l0[id], ledger.logs[id])
      ensures ok <==> CanPark(old(ledger.rows[id].status), old(ledger.tick))
      ensures Reliable() && old(ledger.rows[id].status).Working? ==> ok
      ensures ok ==> ledger.rows[id].status == InputRequired
    {
      hide Keeps, Quiet, Orderly, Accounted, Filed, Happened, L.Family, L.Numbered;
      ghost var r1, l1 := ledger.rows, ledger.logs;
      var number := Record(id, L.BudgetExhausted);
      ghost var r2, l2 := ledger.rows, ledger.logs;
      StirsNext(r0, l0, r1, l1, r2, l2, id);
      if number.None? {
        return false;
      }
      ok := Move(id, InputRequired);
      StirsNext(r0, l0, r2, l2, ledger.rows, ledger.logs, id);
    }

    /** A turn without tool requests: an acceptable finding ends the run, anything
        else is noted. */
    method TakeContent(id: Id, t: Row, content: string, calls: set<int>, ghost r0: map<Id, Row>, ghost l0: map<Id, L.Log>)
      returns (going: bool, ok: bool)
      requires Valid() && InLoop(r0, l0, ledger.rows, ledger.logs, id, calls) && SameTask(ledger.rows[id], t)
      modifies ledger
      ensures Valid() && id in ledger.rows && id in l0
      ensures going ==> InLoop(r0, l0, ledger.rows, ledger.logs, id, calls) && SameTask(ledger.rows[id], t)
      ensures !going ==> Keeps(r0, l0, ledger.rows, ledger.logs, id)
      ensures !going ==> Concluded(ok, ledger.rows[id].status, l0[id], ledger.logs[id])
      ensures Reliable() ==> going || ok
      ensures if F.Accepts(content, world.decode, calls) then !going && (ok ==> ledger.rows[id].status == Completed)
              else going || !ok
    {
      hide Keeps, Quiet, Orderly, Accounted, Filed, Happened, L.Family, L.Numbered, F.Acceptable, F.ObjectText;
      going, ok := false, false;
      var f := F.ParseFinding(content, world.decode);
      if f.Some? {
        var problem := F.ValidateFinding(f.value, calls);
        if problem.None? {
          ok := Finish(id, f.value, calls, r0, l0);
          return;
        }
      }
      ghost var r1, l1 := ledger.rows, ledger.logs;
      var number := Record(id, L.Note);
      LoopStirs(r0, l0, r1, l1, ledger.rows, ledger.logs, id, calls);
      going := number.Some?;
    }

    /** What the model's reply leads to: tokens paid, then tools or content. */
    method Answer(id: Id, t: Row, allowed: seq<string>, reply: Reply, calls: set<int>, ghost r0: map<Id, Row>, ghost l0: map<Id, L.Log>)
      returns (going: bool, ok: bool, more: set<int>)
      requires Valid() && InLoop(r0, l0, ledger.rows, ledger.logs, id, calls) && SameTask(ledger.rows[id], t)
      requires !Unassigned(t) && allowed == AllowedNames(world, t.agent, t.budget.subagents) && reply.Reply?
      modifies ledger, this`trace
      ensures Longer(old(trace), trace)
      ensures Valid() && id in ledger.rows && id in l0
      ensures going ==> InLoop(r0, l0, ledger.rows, ledger.logs, id, more) && SameTask(ledger.rows[id], t)
      ensures !going ==> Keeps(r0, l0, ledger.rows, ledger.logs, id)
      ensures !going ==> Concluded(ok, ledger.rows[id].status, l0[id], ledger.logs[id])
      ensures Reliable() ==> going || ok
      ensures !going && ok ==> if IsFinding(reply, calls) && ledger.rows[id].status.Completed? then true else Spent(ledger.rows[id])
      ensures IsFinding(reply, calls) ==> !going
      decreases if t.budget.subagents > 0 then 1 else 0, 6
    {
      hide Keeps, Quiet, Orderly, Accounted, Filed, Happened, Valid, AllowedNames, L.Over, L.Spent, F.Accepts;
      going, ok, more := false, false, calls;
      ghost var r1, l1 := ledger.rows, ledger.logs;
      var r := PayTokens(id, reply.prompt + reply.completion);
      LoopStirs(r0, l0, r1, l1, ledger.rows, ledger.logs, id, calls);
      if r.Next? && |reply.calls| > 0 {
        r, more := RunCalls(id, t, allowed, reply.calls, calls, r0, l0);
        going := r.Next?;
      } else if r.Next? {
        going, ok := TakeContent(id, t, reply.content, calls, r0, l0);
        return;
      }
      ok := r.Parked?;
    }

    /** A turn without tool requests whose content the run accepts. */
    predicate IsFinding(reply: Reply, calls: set<int>) {
      reply.Reply? && reply.calls == [] && F.Accepts(reply.content, world.decode, calls)
    }

    /** A budget is exceeded, and the task parked for it. */
    predicate Spent(row: Row) {
      row.status.InputRequired? && (L.Over(row, L.Tokens) || L.Over(row, L.ToolCalls))
    }

    /** One iteration. It ends the run with the task completed only for a finding that
        is accepted, and parked only for a reason. */
    method Iterate(id: Id, t: Row, allowed: seq<string>, calls: set<int>, ghost r0: map<Id, Row>, ghost l0: map<Id, L.Log>)
      returns (going: bool, ok: bool, more: set<int>)
      requires Valid() && InLoop(r0, l0, ledger.rows, ledger.logs, id, calls) && SameTask(ledger.rows[id], t)
      requires !Unassigned(t) && allowed == AllowedNames(world, t.agent, t.budget.subagents)
      modifies ledger, this`trace
      ensures Longer(old(trace), trace)
      ensures Valid() && id in ledger.rows && id in l0
      ensures going ==> InLoop(r0, l0, ledger.rows, ledger.logs, id, more) && SameTask(ledger.rows[id], t)
      ensures !going ==> Keeps(r0, l0, ledger.rows, ledger.logs, id)
      ensures !going ==> Concluded(ok, ledger.rows[id].status, l0[id], ledger.logs[id])
      ensures Reliable() ==> going || ok
      ensures going ==> Rounds(trace, id) > Rounds(old(trace), id)
      ensures IsFinding(world.chat(old(ledger.tick) + 2), calls) ==> !going
      ensures !going && ok ==>
                || (ledger.rows[id].status.Completed? && IsFinding(world.chat(old(ledger.tick) + 2), calls))
                || (ledger.rows[id].status.InputRequired? && Stopped(world, t, id, ledger.rows[id], old(trace), trace))
      decreases if t.budget.subagents > 0 then 1 else 0, 7
    {
      hide Keeps, Quiet, Orderly, Accounted, Filed, Happened, Valid, AllowedNames, L.Over, IsFinding, CutShort, Rounds;
      going, ok, more := false, false, calls;
      ghost var before, at := trace, ledger.tick;
      Begin(id);
      ghost var begun := trace;
      var expired := Ask();
      if t.budget.wallMS > 0 && expired {
        CutHere(world, t, id, before, at, trace);
        ok := StopExpired(id, r0, l0);
        return;
      }
      var extended := Ask();
      var reply := world.chat(ledger.tick);
      var answered := Ask();
      if reply.NoReply? {
        CutHere(world, t, id, before, at, trace);
        ok := Stop(id, r0, l0);
        return;
      }
      going, ok, more := Answer(id, t, allowed, reply, calls, r0, l0);
      RoundsGrow(begun, trace, id);
    }

    /** An iteration begins. */
    ghost method Begin(id: Id)
      requires Valid()
      modifies this`trace
      ensures Valid() && trace == old(trace) + [Round(id, ledger.tick)]
      ensures Longer(old(trace), trace) && Rounds(trace, id) == Rounds(old(trace), id) + 1
    {
      hide Orderly, Accounted, Filed, L.TaskLedger.Valid, Rounds;
      RoundBegun(world, ledger.rows, trace, id, ledger.tick);
      FiledAct(base, ledger.logs, trace, Round(id, ledger.tick));
      trace := trace + [Round(id, ledger.tick)];
    }

    method Investigate(id: Id, t: Row, allowed: seq<string>, ghost r0: map<Id, Row>, ghost l0: map<Id, L.Log>) returns (ok: bool)
      requires Valid() && InLoop(r0, l0, ledger.rows, ledger.logs, id, {}) && SameTask(ledger.rows[id], t)
      requires !Unassigned(t) && allowed == AllowedNames(world, t.agent, t.budget.subagents)
      modifies ledger, this`trace
      ensures Longer(old(trace), trace)
      ensures Valid() && id in ledger.rows && id in l0 && Keeps(r0, l0, ledger.rows, ledger.logs, id)
      ensures Concluded(ok, ledger.rows[id].status, l0[id], ledger.logs[id])
      ensures Reliable() ==> ok
      ensures ok && ledger.rows[id].status.InputRequired? ==>
                || Stopped(world, t, id, ledger.rows[id], old(trace), trace)
                || Rounds(trace, id) >= Rounds(old(trace), id) + world.maxIterations
      decreases if t.budget.subagents > 0 then 1 else 0, 8
    {
      hide Keeps, Quiet, Orderly, Accounted, Filed, Happened, L.TaskLedger.Valid, AllowedNames, Stopped;
      var calls: set<int> := {};
      ghost var before := trace;
      for i := 0 to world.maxIterations
        invariant Valid() && InLoop(r0, l0, ledger.rows, ledger.logs, id, calls) && SameTask(ledger.rows[id], t) && Longer(before, trace)
        invariant Rounds(trace, id) >= Rounds(before, id) + i
      {
        ghost var mid := trace;
        var going;
        going, ok, calls := Iterate(id, t, allowed, calls, r0, l0);
        LongerNext(before, mid, trace);
        if !going {
          if ok && ledger.rows[id].status.InputRequired? {
            StoppedSince(world, t, id, ledger.rows[id], before, mid, trace);
          }
          return;
        }
      }
      ok := Stop(id, r0, l0);
    }

    /** The task is claimed, or was working already. */
    method Start(id: Id, t: Row) returns (ok: bool)
      requires Valid() && id in ledger.rows && ledger.rows[id] == t
      modifies ledger
      ensures Valid() && Stirred(id)
      ensures ok ==> ledger.rows[id].status == Working
      ensures ok <==> t.status.Working? || (t.status.Submitted? && !ledger.fails(old(ledger.tick)))
      ensures !ok ==> ledger.rows == old(ledger.rows) && ledger.logs == old(ledger.logs)
      ensures ledger.tick == if t.status.Submitted? then old(ledger.tick) + 1 else old(ledger.tick)
    {
      hide Stirs, Orderly, Accounted, Filed, L.TaskLedger.Valid, L.Numbered, L.Extend, Allowed;
      ledger.Facts();
      StartKeeps(ledger.rows, ledger.logs, id, trace);
      FiledEntry(base, ledger.logs, trace, id, L.Moved(ledger.rows[id].status, Working));
      StartAllowed();
      if t.status == Submitted {
        ok := ledger.Claim(id, t.agent);
      } else {
        ok := t.status == Working;
      }
    }

    /** RunTask: `ok` is a nil error. Without store failures it is nil exactly for a
        task that can be worked on; a task without a usable agent is parked exactly
        when its status allows that and neither store call fails; a task that cannot
        be worked on is left as it is. Any other task that ends parked has an excuse.
        Every proposal it leaves, its own or a child's, is one the policy asks for. */
    method RunTask(id: Id) returns (ok: bool)
      requires Valid()
      modifies ledger, this`trace
      ensures Longer(old(trace), trace)
      ensures Valid() && RunDone(ok, old(ledger.rows), old(ledger.logs), ledger.rows, ledger.logs, id)
      ensures AllDue(old(ledger.logs))
      ensures ledger.fails(old(ledger.tick)) ==> !ok
      ensures Reliable() ==> (ok <==> id in old(ledger.rows) && Runnable(old(ledger.rows[id])))
      ensures id in old(ledger.rows) && !ledger.fails(old(ledger.tick)) && Unassigned(old(ledger.rows[id])) ==>
                && (ok <==> CanPark(old(ledger.rows[id]).status, old(ledger.tick) + 1))
                && ledger.rows == if ok then old(ledger.rows)[id := old(ledger.rows[id]).(status := InputRequired)] else old(ledger.rows)
      ensures id in old(ledger.rows) && !Unassigned(old(ledger.rows[id]))
              && ok && id in ledger.rows && ledger.rows[id].status.InputRequired? ==>
                Excused(world, old(ledger.rows[id]), id, ledger.rows[id], old(ledger.tick), old(trace), trace)
      ensures id in old(ledger.rows) && !Unassigned(old(ledger.rows[id])) && !Runnable(old(ledger.rows[id])) ==>
                !ok && ledger.rows == old(ledger.rows) && ledger.logs == old(ledger.logs)
      decreases if id in ledger.rows && ledger.rows[id].budget.subagents > 0 then 1 else 0, 11
    {
      hide RunDone, Valid, Reliable, CanPark, Unassigned, Runnable, Excused, Filed, AllDue, Longer;
      ghost var l0, before := ledger.logs, trace;
      IsFiled();
      var read := Fetch(id);
      if read.Some? {
        ok := Prepare(id, read.value);
      } else {
        ok := false;
        NoLonger(trace);
      }
      DueSince(l0, before);
    }

    method Fetch(id: Id) returns (read: Option<Row>)
      requires Valid()
      modifies ledger`tick
      ensures Valid() && ledger.tick == old(ledger.tick) + 1
      ensures read == if id in ledger.rows && !ledger.fails(old(ledger.tick)) then Some(ledger.rows[id]) else None
      ensures read.None? ==> RunDone(false, ledger.rows, ledger.logs, ledger.rows, ledger.logs, id)
      ensures Reliable() ==> !ledger.fails(old(ledger.tick))
      ensures id in ledger.rows <==> id in ledger.logs
    {
      hide RunDone, Orderly, Accounted, Filed, L.TaskLedger.Valid;
      ledger.Facts();
      NotRead(ledger.rows, ledger.logs, id);
      read := ledger.Get(id);
    }

    /** No agent, or one that the active snapshot does not have. */
    predicate Unassigned(t: Row) {
      t.agent == "" || world.agents(t.agent).None?
    }

    /** Working, or about to be. */
    predicate Runnable(t: Row) {
      t.status.Working? || (t.status.Submitted? && !Unassigned(t))
    }

    /** An assigned and known agent, and a task that can be worked on. */
    method Prepare(id: Id, t: Row) returns (ok: bool)
      requires Valid() && id in ledger.rows && ledger.rows[id] == t
      modifies ledger, this`trace
      ensures Longer(old(trace), trace)
      ensures Valid() && RunDone(ok, old(ledger.rows), old(ledger.logs), ledger.rows, ledger.logs, id)
      ensures Reliable() ==> (ok <==> Runnable(t))
      ensures Unassigned(t) ==>
                && (ok <==> CanPark(t.status, old(ledger.tick)))
                && ledger.rows == if ok then old(ledger.rows)[id := t.(status := InputRequired)] else old(ledger.rows)
      ensures !Unassigned(t) && ok && id in ledger.rows && ledger.rows[id].status.InputRequired? && old(ledger.tick) > 0 ==>
                Excused(world, t, id, ledger.rows[id], old(ledger.tick) - 1, old(trace), trace)
      ensures !Unassigned(t) && !Runnable(t) ==> !ok && ledger.rows == old(ledger.rows) && ledger.logs == old(ledger.logs)
      decreases if t.budget.subagents > 0 then 1 else 0, 10
    {
      hide Valid, Quiet, AllowedNames, Concluded, Stopped, Rounds;
      ghost var r0, l0 := ledger.rows, ledger.logs;
      Facts(id);
      NotRead(r0, l0, id);
      if Unassigned(t) {
        ok := Stop(id, r0, l0);
        return;
      }
      ok := Start(id, t);
      if ok {
        ok := Equip(id, t, r0, l0);
      }
    }

    /** The model client, the tools, and the agent's daily allowance. */
    method Equip(id: Id, t: Row, ghost r0: map<Id, Row>, ghost l0: map<Id, L.Log>) returns (ok: bool)
      requires Valid() && Stirs(r0, l0, ledger.rows, ledger.logs, id) && ledger.rows[id].status == Working
      requires SameTask(ledger.rows[id], t) && !Unassigned(t)
      modifies ledger, this`trace
      ensures Longer(old(trace), trace)
      ensures Valid() && id in ledger.rows && id in l0 && Keeps(r0, l0, ledger.rows, ledger.logs, id)
      ensures Concluded(ok, ledger.rows[id].status, l0[id], ledger.logs[id])
      ensures Reliable() ==> ok
      ensures ok && ledger.rows[id].status.InputRequired? ==>
                || !world.says(old(ledger.tick)) || world.says(old(ledger.tick) + 1)
                || Stopped(world, t, id, ledger.rows[id], old(trace), trace)
                || Rounds(trace, id) >= Rounds(old(trace), id) + world.maxIterations
      decreases if t.budget.subagents > 0 then 1 else 0, 9
    {
      hide Keeps, Quiet, Orderly, Accounted, Filed, L.TaskLedger.Valid, Stopped, Rounds;
      var client := Ask();
      if !client {
        ok := Stop(id, r0, l0);
        return;
      }
      var agent := world.agents(t.agent).value;
      var allowed := T.AllowedTools(world.glob, world.pool, agent.patterns, agent.skills, world.memory, t.budget.subagents);
      var overspent := Ask();
      if overspent {
        ok := Stop(id, r0, l0);
        return;
      }
      ok := Investigate(id, t, allowed, r0, l0);
    }
  }

  lemma NoLonger(trace: seq<Act>)
    ensures Longer(trace, trace)
  {}

  lemma AppendStirs(r0: map<Id, Row>, l0: map<Id, L.Log>, id: Id, what: L.What)
    requires r0.Keys == l0.Keys && id in r0 && !what.Finding?
    ensures Stirs(r0, l0, r0, l0, id) && Stirs(r0, l0, r0, l0[id := L.Extend(l0[id], what)], id)
  {
    NothingKeeps(r0, l0, id);
    QuietExtend(l0[id], what);
    hide Quiet, L.Extend;
  }

  lemma MoveStirs(r0: map<Id, Row>, l0: map<Id, L.Log>, id: Id, to: Status, trace: seq<Act>)
    requires r0.Keys == l0.Keys && id in r0 && Accounted(r0, trace)
    ensures Stirs(r0, l0, r0, l0, id)
    ensures var row := r0[id].(status := to); var log := L.Extend(l0[id], L.Moved(r0[id].status, to));
            Stirs(r0, l0, r0[id := row], l0[id := log], id) && Accounted(r0[id := row], trace)
  {
    var what := L.Moved(r0[id].status, to);
    NothingKeeps(r0, l0, id);
    QuietExtend(l0[id], what);
    WriteKeeps(r0, l0, id, r0[id].(status := to), L.Extend(l0[id], what), trace);
    hide Keeps, Quiet, Accounted, L.Extend;
  }

  lemma StartAllowed()
    ensures Allowed(Submitted, Working)
  {}

  lemma StartKeeps(r0: map<Id, Row>, l0: map<Id, L.Log>, id: Id, trace: seq<Act>)
    requires r0.Keys == l0.Keys && id in r0 && Accounted(r0, trace)
    ensures Stirs(r0, l0, r0, l0, id)
    ensures var row := r0[id].(status := Working, agent := r0[id].agent);
            var log := L.Extend(l0[id], L.Moved(r0[id].status, Working));
            Stirs(r0, l0, r0[id := row], l0[id := log], id) && Accounted(r0[id := row], trace)
  {
    var row := r0[id].(status := Working, agent := r0[id].agent);
    var what := L.Moved(r0[id].status, Working);
    NothingKeeps(r0, l0, id);
    QuietExtend(l0[id], what);
    WriteKeeps(r0, l0, id, row, L.Extend(l0[id], what), trace);
    hide Keeps, Quiet, Accounted, L.Extend;
  }

  lemma FindingKeeps(r0: map<Id, Row>, l0: map<Id, L.Log>, r: map<Id, Row>, l: map<Id, L.Log>, id: Id, evidence: seq<int>)
    requires Keeps(r0, l0, r, l, id) && id in r0
    ensures Keeps(r0, l0, r, l[id := L.Extend(l[id], L.Finding(evidence))], id)
  {}

  lemma ChargeKeeps(r0: map<Id, Row>, l0: map<Id, Log>, id: Id, meter: L.Meter, amount: nat, trace: seq<Act>)
    requires r0.Keys == l0.Keys && id in r0 && Accounted(r0, trace) && r0[id].status == Working
    ensures Stirs(r0, l0, r0, l0, id)
    ensures var row := L.Spent(r0[id], meter, amount); var log := L.ParkedLog(Working, l0[id]);
            && Stirs(r0, l0, r0[id := row], l0, id) && Accounted(r0[id := row], trace)
            && L.Parked(row).status == InputRequired
            && Stirs(r0, l0, r0[id := L.Parked(row)], l0[id := log], id) && Accounted(r0[id := L.Parked(row)], trace)
  {
    var row := L.Spent(r0[id], meter, amount);
    NothingKeeps(r0, l0, id);
    WriteKeeps(r0, l0, id, row, l0[id], trace);
    ParkedQuiet(l0[id]);
    WriteKeeps(r0, l0, id, L.Parked(row), L.ParkedLog(Working, l0[id]), trace);
    hide Keeps, Quiet, Accounted, L.ParkedLog;
  }

  lemma ParkedQuiet(log: L.Log)
    ensures Quiet(log, L.ParkedLog(Working, log))
  {
    var once := L.Extend(log, L.BudgetExhausted);
    QuietExtend(log, L.BudgetExhausted);
    QuietExtend(once, L.Moved(Working, InputRequired));
    QuietNext(log, once, L.Extend(once, L.Moved(Working, InputRequired)));
  }
}
