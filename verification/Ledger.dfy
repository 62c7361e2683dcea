/** The event-sourced task ledger as the runtime uses it: rows, append-only logs with
    per-task sequence numbers, and budgets whose exhaustion parks the task. Any
    operation may fail, and one that fails changes nothing. */
module Ledger {
  import opened Text
  import opened Task

  type Id = nat

  /** A cap of zero (or less) is no cap. */
  datatype Budget = Budget(tokens: int, toolCalls: int, wallMS: int, subagents: int)

  datatype Row = Row(
    status: Status,
    agent: string,
    parent: Option<Id>,
    budget: Budget,
    spentTokens: nat,
    spentCalls: nat)

  datatype What =
    | Intake
    | Routed
    | Moved(from: Status, to: Status)
    | Note
    | ToolCall(tool: string)
    | Finding(evidence: seq<int>)
    | Proposal(tool: string)
    | BudgetExhausted
    | Handoff(child: Id)
    | Error

  datatype Entry = Entry(number: int, what: What)

  type Log = seq<Entry>

  function NextNumber(log: Log): int {
    if log == [] then 1 else log[|log| - 1].number + 1
  }

  function Extend(log: Log, what: What): Log {
    log + [Entry(NextNumber(log), what)]
  }

  /** Sequence numbers strictly increase, so none is used twice. */
  predicate Numbered(log: Log) {
    forall i, j | 0 <= i < j < |log| :: log[i].number < log[j].number
  }

  lemma ExtendNumbered(log: Log, what: What)
    requires Numbered(log)
    ensures Numbered(Extend(log, what))
  {}

  // ---- parents and children ---------------------------------------------

  function Children(rows: map<Id, Row>, p: Id): set<Id> {
    set c | c in rows && rows[c].parent == Some(p)
  }

  function AtLeastZero(n: int): nat {
    if n < 0 then 0 else n
  }

  /** Every child was granted at most half of its parent's tokens and no children of
      its own, and no task has more children than its budget allows. */
  ghost predicate Family(rows: map<Id, Row>) {
    && (forall c | c in rows && rows[c].parent.Some? ::
          var p := rows[c].parent.value;
          p in rows && rows[c].budget.subagents == 0 && rows[c].budget.tokens <= AtLeastZero(rows[p].budget.tokens) / 2)
    && (forall p | p in rows :: |Children(rows, p)| <= AtLeastZero(rows[p].budget.subagents))
  }

  /** What no operation of a run changes about a task. */
  predicate SameTerms(a: Row, b: Row) {
    a.parent == b.parent && a.budget == b.budget
  }

  lemma FamilyUpdated(rows: map<Id, Row>, id: Id, row: Row)
    requires Family(rows) && id in rows && SameTerms(rows[id], row)
    ensures Family(rows[id := row])
  {
    var after := rows[id := row];
    assert forall p :: Children(after, p) == Children(rows, p);
  }

  lemma FamilyGrows(rows: map<Id, Row>, c: Id, row: Row)
    requires Family(rows) && c !in rows && row.parent.Some? && row.parent.value in rows
    requires var p := rows[row.parent.value].budget;
             row.budget.subagents == 0 && row.budget.tokens <= AtLeastZero(p.tokens) / 2
    requires |Children(rows, row.parent.value)| < rows[row.parent.value].budget.subagents
    ensures Family(rows[c := row])
  {
    var after := rows[c := row];
    ChildrenGrow(rows, c, row);
    hide Children;
    forall x | x in after && after[x].parent.Some?
      ensures var p := after[x].parent.value;
              p in after && after[x].budget.subagents == 0 && after[x].budget.tokens <= AtLeastZero(after[p].budget.tokens) / 2
    {
      assert x != c ==> after[x] == rows[x];
    }
  }

  /** Only the parent has one child more. */
  lemma ChildrenGrow(rows: map<Id, Row>, c: Id, row: Row)
    requires Family(rows) && c !in rows && row.parent.Some? && row.parent.value in rows
    ensures var after, p := rows[c := row], row.parent.value;
            && |Children(after, p)| == |Children(rows, p)| + 1 && Children(after, c) == {}
            && forall x | x != p :: Children(after, x) == Children(rows, x)
  {
    var after, p := rows[c := row], row.parent.value;
    assert Children(after, p) == Children(rows, p) + {c};
    assert forall x | x in rows && rows[x].parent.Some? :: rows[x].parent.value in rows;
    hide AtLeastZero;
  }

  // ---- the ledger -------------------------------------------------------

  datatype Charge = Charged | Exhausted | ChargeFailed

  datatype Meter = Tokens | ToolCalls

  function Spent(row: Row, meter: Meter, amount: nat): Row {
    if meter.Tokens? then row.(spentTokens := row.spentTokens + amount) else row.(spentCalls := row.spentCalls + amount)
  }

  function Over(row: Row, meter: Meter): bool {
    if meter.Tokens? then 0 < row.budget.tokens < row.spentTokens else 0 < row.budget.toolCalls < row.spentCalls
  }

  lemma SpentTerms(row: Row, meter: Meter, amount: nat)
    ensures SameTerms(row, Spent(row, meter, amount)) && Spent(row, meter, amount).status == row.status
  {}

  lemma SameLog(logs: map<Id, Log>, id: Id)
    requires id in logs
    ensures logs[id := logs[id]] == logs
  {}

  /** Exhaustion parks a working task; any other keeps its status. */
  function Parked(row: Row): Row {
    if row.status.Working? then row.(status := InputRequired) else row
  }

  lemma ParkedOver(row: Row, meter: Meter)
    ensures Over(Parked(row), meter) == Over(row, meter)
  {}

  function ParkedLog(status: Status, log: Log): Log {
    var l := Extend(log, BudgetExhausted);
    if status.Working? then Extend(l, Moved(Working, InputRequired)) else l
  }

  class TaskLedger {
    var rows: map<Id, Row>
    var logs: map<Id, Log>
    var next: Id
    /** Which operations fail; every operation has its own tick. */
    const fails: nat -> bool
    var tick: nat

    ghost predicate Valid()
      reads this
    {
      && rows.Keys == logs.Keys && Family(rows)
      && (forall id | id in logs :: Numbered(logs[id]))
      && (forall id | id in rows :: id < next)
    }

    lemma Facts()
      requires Valid()
      ensures rows.Keys == logs.Keys && forall id | id in logs :: Numbered(logs[id])
    {
      hide Family, Numbered;
    }

    lemma Related()
      requires Valid()
      ensures Family(rows)
    {
      hide Family, Numbered;
    }

    constructor (fails: nat -> bool)
      ensures Valid() && rows == map[]
    {
      this.fails, rows, logs, next, tick := fails, map[], map[], 0, 0;
    }

    method Fault() returns (failed: bool)
      modifies this`tick
      ensures tick == old(tick) + 1 && failed == fails(old(tick))
      ensures old(Valid()) ==> Valid()
    {
      hide Family, Numbered;
      failed := fails(tick);
      tick := tick + 1;
    }

    method Get(id: Id) returns (r: Option<Row>)
      modifies this`tick
      ensures tick == old(tick) + 1
      ensures r == if id in rows && !fails(old(tick)) then Some(rows[id]) else None
      ensures old(Valid()) ==> Valid()
    {
      hide Valid;
      var failed := Fault();
      r := if failed || id !in rows then None else Some(rows[id]);
    }

    method Append(id: Id, what: What) returns (number: Option<int>)
      requires Valid()
      modifies this`tick, this`logs
      ensures Valid() && tick == old(tick) + 1
      ensures number.Some? <==> !fails(old(tick)) && id in rows
      ensures number.Some? ==> logs == old(logs)[id := Extend(old(logs[id]), what)] && number.value == NextNumber(old(logs[id]))
      ensures number.None? ==> logs == old(logs)
    {
      hide Family, Numbered, Extend, NextNumber;
      var failed := Fault();
      if failed || id !in rows {
        return None;
      }
      ExtendNumbered(logs[id], what);
      number := Some(NextNumber(logs[id]));
      logs := logs[id := Extend(logs[id], what)];
    }

    /** One transaction on one task: its row and its log. */
    method Write(id: Id, row: Row, log: Log)
      requires Valid() && id in rows && SameTerms(rows[id], row) && Numbered(log)
      modifies this`rows, this`logs
      ensures Valid() && rows == old(rows)[id := row] && logs == old(logs)[id := log]
    {
      hide Family, Numbered;
      FamilyUpdated(rows, id, row);
      rows, logs := rows[id := row], logs[id := log];
    }

    /** SetStatus: the only path for a status change, checked and logged. */
    method SetStatus(id: Id, to: Status) returns (ok: bool)
      requires Valid()
      modifies this`tick, this`rows, this`logs
      ensures Valid() && tick == old(tick) + 1
      ensures ok <==> !fails(old(tick)) && id in old(rows) && Allowed(old(rows[id]).status, to)
      ensures ok ==> rows == old(rows)[id := old(rows[id]).(status := to)]
      ensures ok ==> logs == old(logs)[id := Extend(old(logs[id]), Moved(old(rows[id]).status, to))]
      ensures !ok ==> rows == old(rows) && logs == old(logs)
    {
      hide Valid, Numbered, Extend, Allowed;
      var failed := Fault();
      if failed || id !in rows || !Allowed(rows[id].status, to) {
        return false;
      }
      Facts();
      ExtendNumbered(logs[id], Moved(rows[id].status, to));
      Write(id, rows[id].(status := to), Extend(logs[id], Moved(rows[id].status, to)));
      ok := true;
    }

    /** Claim: the same move to working, with the agent pinned. */
    method Claim(id: Id, agent: string) returns (ok: bool)
      requires Valid()
      modifies this`tick, this`rows, this`logs
      ensures Valid() && tick == old(tick) + 1
      ensures ok <==> !fails(old(tick)) && id in old(rows) && Allowed(old(rows[id]).status, Working)
      ensures ok ==> rows == old(rows)[id := old(rows[id]).(status := Working, agent := agent)]
      ensures ok ==> logs == old(logs)[id := Extend(old(logs[id]), Moved(old(rows[id]).status, Working))]
      ensures !ok ==> rows == old(rows) && logs == old(logs)
    {
      hide Valid, Numbered, Extend, Allowed;
      var failed := Fault();
      if failed || id !in rows || !Allowed(rows[id].status, Working) {
        return false;
      }
      Facts();
      ExtendNumbered(logs[id], Moved(rows[id].status, Working));
      Write(id, rows[id].(status := Working, agent := agent), Extend(logs[id], Moved(rows[id].status, Working)));
      ok := true;
    }

    /** spend: the amount is recorded, and a task over its cap is parked if it was
        working; the caller learns of it either way. */
    method Spend(id: Id, meter: Meter, amount: nat) returns (r: Charge)
      requires Valid()
      modifies this`tick, this`rows, this`logs
      ensures Valid() && tick == old(tick) + 1
      ensures r.ChargeFailed? <==> fails(old(tick)) || id !in old(rows)
      ensures r.ChargeFailed? ==> rows == old(rows) && logs == old(logs)
      ensures !r.ChargeFailed? ==> (r.Exhausted? <==> Over(Spent(old(rows[id]), meter, amount), meter))
      ensures r.Charged? ==> rows == old(rows)[id := Spent(old(rows[id]), meter, amount)] && logs == old(logs)
      ensures r.Exhausted? ==> rows == old(rows)[id := Parked(Spent(old(rows[id]), meter, amount))]
      ensures r.Exhausted? ==> logs == old(logs)[id := ParkedLog(old(rows[id]).status, old(logs[id]))]
    {
      hide Valid, Over, Spent, Parked, ParkedLog, SameTerms;
      var failed := Fault();
      if failed || id !in rows {
        return ChargeFailed;
      }
      var row := Spent(rows[id], meter, amount);
      SpentTerms(rows[id], meter, amount);
      if Over(row, meter) {
        Exhaust(id, row);
        r := Exhausted;
      } else {
        Book(id, row);
        r := Charged;
      }
    }

    /** Only the row is written. */
    method Book(id: Id, row: Row)
      requires Valid() && id in rows && SameTerms(rows[id], row)
      modifies this`rows, this`logs
      ensures Valid() && rows == old(rows)[id := row] && logs == old(logs)
    {
      hide Valid, Numbered, SameTerms;
      Facts();
      SameLog(logs, id);
      Write(id, row, logs[id]);
    }

    /** The cap is passed: logged, and the task parked if it was working. */
    method Exhaust(id: Id, row: Row)
      requires Valid() && id in rows && SameTerms(rows[id], row) && row.status == rows[id].status
      modifies this`rows, this`logs
      ensures Valid() && rows == old(rows)[id := Parked(row)]
      ensures logs == old(logs)[id := ParkedLog(old(rows[id]).status, old(logs[id]))]
    {
      hide Valid, Numbered, Extend;
      Facts();
      var log := Extend(logs[id], BudgetExhausted);
      ExtendNumbered(logs[id], BudgetExhausted);
      ExtendNumbered(log, Moved(Working, InputRequired));
      if row.status.Working? {
        Write(id, row.(status := InputRequired), Extend(log, Moved(Working, InputRequired)));
      } else {
        Write(id, row, log);
      }
    }

    method CountChildren(id: Id) returns (n: Option<nat>)
      modifies this`tick
      ensures tick == old(tick) + 1
      ensures n.Some? ==> n.value == |Children(rows, id)|
      ensures old(Valid()) ==> Valid()
    {
      hide Valid;
      var failed := Fault();
      n := if failed then None else Some(|Children(rows, id)|);
    }

    method Insert(row: Row) returns (id: Id)
      requires Valid() && row.parent.Some? && row.parent.value in rows
      requires |Children(rows, row.parent.value)| < rows[row.parent.value].budget.subagents
      requires row.budget.subagents == 0 && row.budget.tokens <= AtLeastZero(rows[row.parent.value].budget.tokens) / 2
      modifies this`rows, this`logs, this`next
      ensures Valid() && id !in old(rows)
      ensures rows == old(rows)[id := row] && logs == old(logs)[id := Extend([], Intake)]
    {
      id := next;
      FamilyGrows(rows, id, row);
      ExtendNumbered([], Intake);
      hide Family, Numbered, Extend, Children, AtLeastZero;
      rows, logs, next := rows[id := row], logs[id := Extend([], Intake)], id + 1;
    }

    /** Submit, for a child task. */
    method SubmitChild(parent: Id, budget: Budget) returns (c: Option<Id>)
      requires Valid() && parent in rows && |Children(rows, parent)| < rows[parent].budget.subagents
      requires budget.subagents == 0 && budget.tokens <= AtLeastZero(rows[parent].budget.tokens) / 2
      modifies this`tick, this`rows, this`logs, this`next
      ensures Valid() && tick == old(tick) + 1
      ensures c.None? ==> rows == old(rows) && logs == old(logs)
      ensures c.Some? ==> c.value !in old(rows)
      ensures c.Some? ==> rows == old(rows)[c.value := Row(Submitted, "", Some(parent), budget, 0, 0)]
      ensures c.Some? ==> logs == old(logs)[c.value := Extend([], Intake)]
    {
      hide Valid, Extend, Children, AtLeastZero;
      var failed := Fault();
      if failed {
        return None;
      }
      var id := Insert(Row(Submitted, "", Some(parent), budget, 0, 0));
      c := Some(id);
    }

    method AssignAgent(id: Id, agent: string) returns (ok: bool)
      requires Valid() && id in rows
      modifies this`tick, this`rows, this`logs
      ensures Valid() && tick == old(tick) + 1
      ensures ok ==> rows == old(rows)[id := old(rows[id]).(agent := agent)] && logs == old(logs)[id := Extend(old(logs[id]), Routed)]
      ensures !ok ==> rows == old(rows) && logs == old(logs)
    {
      hide Valid, Numbered, Extend;
      var failed := Fault();
      if failed {
        return false;
      }
      Facts();
      ExtendNumbered(logs[id], Routed);
      Write(id, rows[id].(agent := agent), Extend(logs[id], Routed));
      ok := true;
    }
  }

  // ---- what is granted in a family --------------------------------------

  ghost function Pick(s: set<Id>): Id
    requires s != {}
    ensures Pick(s) in s
  {
    var x :| x in s;
    x
  }

  /** The token budgets granted to a set of tasks. */
  ghost function Granted(rows: map<Id, Row>, s: set<Id>): int
    requires s <= rows.Keys
  {
    if s == {} then 0 else AtLeastZero(rows[Pick(s)].budget.tokens) + Granted(rows, s - {Pick(s)})
  }

  lemma {:induction false} GrantedBound(rows: map<Id, Row>, s: set<Id>, each: nat)
    requires s <= rows.Keys && forall c | c in s :: rows[c].budget.tokens <= each
    ensures Granted(rows, s) <= |s| * each
    decreases s
  {
    if s != {} {
      GrantedBound(rows, s - {Pick(s)}, each);
      assert |s| * each == (|s| - 1) * each + each;
    }
  }

  /** A family is two generations deep, no larger than the subagent budget allows, and
      is granted at most B + k * floor(B / 2) tokens. */
  lemma FamilyIsBounded(rows: map<Id, Row>, p: Id)
    requires Family(rows) && p in rows
    ensures var b, k := AtLeastZero(rows[p].budget.tokens), AtLeastZero(rows[p].budget.subagents);
            && |Children(rows, p)| <= k
            && (forall c | c in Children(rows, p) :: Children(rows, c) == {})
            && b + Granted(rows, Children(rows, p)) <= b + k * (b / 2)
  {
    var b, k := AtLeastZero(rows[p].budget.tokens), AtLeastZero(rows[p].budget.subagents);
    var kids := Children(rows, p);
    forall c | c in kids ensures Children(rows, c) == {} {
      assert |Children(rows, c)| <= AtLeastZero(rows[c].budget.subagents);
    }
    GrantedBound(rows, kids, b / 2);
    Scale(|kids|, k, b / 2);
  }

  lemma Scale(m: nat, n: nat, x: nat)
    requires m <= n
    ensures m * x <= n * x
  {}

  function Cap(budget: Budget, meter: Meter): int {
    if meter.Tokens? then budget.tokens else budget.toolCalls
  }

  /** A grant is a cap only if something was left to halve: a child whose parent has
      at most one token, or tool call, left is granted zero, and no spending of that
      kind ever exhausts it. */
  lemma GrantIsACap(row: Row, meter: Meter, remaining: nat)
    requires Cap(row.budget, meter) == remaining / 2
    ensures (exists amount: nat :: Over(Spent(row, meter, amount), meter)) <==> remaining >= 2
  {
    if remaining >= 2 {
      assert Over(Spent(row, meter, remaining), meter);
    }
  }
}
