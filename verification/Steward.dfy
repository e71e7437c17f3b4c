/** One sweep of the steward: default routing, lease recovery and rerouting in a single transaction. */
module Steward {
  import opened Tasks
  import opened LeaseProtocol
  import opened Ordering
  import opened Balancing
  import opened Rebalancing
  import opened Queries
  import TaskStore

  datatype Reason = SourceUnhealthy | CapacityBalance | ClaimStarvation

  datatype Move = Move(id: nat, source: MachineId, target: MachineId, fromAgent: AgentId, toAgent: AgentId,
                       reason: Reason, generation: nat)

  /** `tasks.agent_id references agents(id)`. */
  ghost predicate KnownAgents(agents: Agents, ts: Table) { forall i | 0 <= i < |ts| :: ts[i].agent in agents }

  ghost predicate Routed(ts: Table) { forall i | 0 <= i < |ts| :: ts[i].executionMachine.Some? }

  /** Queued past the grace period, not in back-off, and joined with an agent. */
  predicate IsDue(agents: Agents, t: Task, observed: Time) {
    t.status.Queued? && t.agent in agents && t.updatedAt <= observed - QUEUE_GRACE && RetryElapsed(t, observed)
  }

  function DueRows(agents: Agents, ts: Table, observed: Time): set<nat> {
    set i: nat | i < |ts| && IsDue(agents, ts[i], observed)
  }

  /** The `order by` of the expired-lease query. */
  predicate RecoveryOrder(ts: Table, a: nat, b: nat) {
    || RecoveryKey(ts, a) < RecoveryKey(ts, b)
    || (RecoveryKey(ts, a) == RecoveryKey(ts, b) && PriorityOf(ts, a) >= PriorityOf(ts, b))
  }

  function RecoveryKey(ts: Table, i: nat): Time {
    if i < |ts| then (if ts[i].lease.Some? then ts[i].lease.value else ts[i].updatedAt) else 0
  }

  function PriorityOf(ts: Table, i: nat): int { if i < |ts| then ts[i].priority else 0 }

  // ---------------------------------------------------------------- ghost traces

  lemma ExtendRun(agents: Agents, ts: Table, ops: seq<Op>, op: Op)
    ensures TableRun(agents, ts, ops + [op]) == TableStep(agents, TableRun(agents, ts, ops), op)
    ensures Moves(ops + [op]) == Moves(ops) + One(op.On? && op.event.Route?)
  {
    var all := ops + [op];
    assert all[..|all| - 1] == ops;
  }

  /** Extending the trace of a transaction by one step. */
  lemma Extend(agents: Agents, nodes: seq<Node>, ts: Table, ops: seq<Op>, op: Op)
    requires StewardRun(agents, nodes, ts, ops)
    requires op.On? && !op.event.Failover?
    requires op.event.Route? ==> MoveAllowed(agents, nodes, TableRun(agents, ts, ops), op.id, op.event)
    ensures StewardRun(agents, nodes, ts, ops + [op])
    ensures TableRun(agents, ts, ops + [op]) == TableStep(agents, TableRun(agents, ts, ops), op)
    ensures Moves(ops + [op]) == Moves(ops) + One(op.event.Route?)
  {
    ExtendRun(agents, ts, ops, op);
    var all := ops + [op];
    assert all[..|all| - 1] == ops;
  }

  lemma {:induction false} MovesConcat(ops: seq<Op>, more: seq<Op>)
    ensures Moves(ops + more) == Moves(ops) + Moves(more)
    decreases |more|
  {
    if more == [] {
      assert ops + more == ops;
    } else {
      MovesConcat(ops, more[..|more| - 1]);
      assert (ops + more)[..|ops + more| - 1] == ops + more[..|more| - 1];
    }
  }

  lemma Compose(agents: Agents, nodes: seq<Node>, ts: Table, ops: seq<Op>, more: seq<Op>)
    requires StewardRun(agents, nodes, ts, ops)
    requires StewardRun(agents, nodes, TableRun(agents, ts, ops), more)
    ensures StewardRun(agents, nodes, ts, ops + more)
    ensures TableRun(agents, ts, ops + more) == TableRun(agents, TableRun(agents, ts, ops), more)
    ensures Moves(ops + more) == Moves(ops) + Moves(more)
  {
    RunByConcat(OnFullRecounts(agents, nodes), agents, ts, ops, more);
    TableRunConcat(agents, ts, ops, more);
    MovesConcat(ops, more);
  }

  // --------------------------------------------------------------- the three phases

  /** The table after default assignment of the first n rows. */
  function Defaulted(agents: Agents, ts: Table, observed: Time, n: nat): (r: Table)
    ensures |r| == |ts|
  {
    if n == 0 then ts else TableStep(agents, Defaulted(agents, ts, observed, n - 1), On(n - 1, AssignDefault(observed)))
  }

  lemma {:induction false} DefaultedAt(agents: Agents, ts: Table, observed: Time, n: nat, i: nat)
    requires i < |ts| && n <= |ts|
    ensures Defaulted(agents, ts, observed, n)[i] == if i < n then Step(agents, ts[i], AssignDefault(observed)) else ts[i]
  {
    if n > 0 {
      DefaultedAt(agents, ts, observed, n - 1, i);
    }
  }

  lemma {:induction false} DefaultsTrace(agents: Agents, ts: Table, observed: Time, n: nat, nodes: seq<Node>) returns (ops: seq<Op>)
    ensures Defaulted(agents, ts, observed, n) == TableRun(agents, ts, ops)
    ensures StewardRun(agents, nodes, ts, ops) && Moves(ops) == 0
  {
    ops := [];
    if n > 0 {
      ops := DefaultsTrace(agents, ts, observed, n - 1, nodes);
      Extend(agents, nodes, ts, ops, On(n - 1, AssignDefault(observed)));
      ops := ops + [On(n - 1, AssignDefault(observed))];
    }
  }

  lemma DefaultOutcome(agents: Agents, t: Task, observed: Time)
    ensures Step(agents, t, AssignDefault(observed))
         == if t.executionMachine.None? && t.agent in agents then t.(executionMachine := Some(agents[t.agent].machine)) else t
  {
  }

  /** `update tasks set execution_machine_id = a.machine_id ... where execution_machine_id is null`. */
  method AssignDefaults(agents: Agents, ts: Table, observed: Time) returns (r: Table)
    ensures r == Defaulted(agents, ts, observed, |ts|)
  {
    r := ts;
    var i := 0;
    while i < |ts|
      invariant i <= |ts| && r == Defaulted(agents, ts, observed, i)
    {
      DefaultedAt(agents, ts, observed, i, i);
      DefaultOutcome(agents, ts[i], observed);
      var t := r[i];
      if t.executionMachine.None? && t.agent in agents {
        r := r[i := t.(executionMachine := Some(agents[t.agent].machine))];
      }
      i := i + 1;
    }
  }

  function Exhausted(ts: Table, rows: seq<nat>): nat {
    if rows == [] then 0
    else
      var n := |rows| - 1;
      Exhausted(ts, rows[..n]) + One(rows[n] < |ts| && ts[rows[n]].attempts >= RecoveryLimit(ts[rows[n]].maxAttempts))
  }

  function RecoveryOrdering(ts: Table): (nat, nat) -> bool { (a: nat, b: nat) => RecoveryOrder(ts, a, b) }

  function IsExpiredRow(ts: Table, observed: Time, locked: set<nat>): nat -> bool {
    (i: nat) => i < |ts| && i !in locked && LeaseExpired(ts[i], observed)
  }

  function ExpiredRows(ts: Table, observed: Time, locked: set<nat>): set<nat> {
    set i: nat | i < |ts| && i !in locked && LeaseExpired(ts[i], observed)
  }

  method SelectExpired(ts: Table, observed: Time, locked: set<nat>, limit: nat) returns (rows: seq<nat>, ghost all: seq<nat>)
    ensures IsSelection(rows, all, ExpiredRows(ts, observed, locked), RecoveryOrdering(ts), limit)
    ensures Distinct(rows) && |rows| <= limit
    ensures forall i | i in rows :: i < |ts| && i !in locked && LeaseExpired(ts[i], observed)
  {
    rows, all := Query(|ts|, IsExpiredRow(ts, observed, locked), RecoveryOrdering(ts), limit);
    assert Matches(|ts|, IsExpiredRow(ts, observed, locked)) == ExpiredRows(ts, observed, locked);
    forall i | i in rows ensures i in ExpiredRows(ts, observed, locked) { assert i in all; }
  }

  /** The table after recovering rows one by one. */
  function Recovered(agents: Agents, ts: Table, rows: seq<nat>, observed: Time): (r: Table)
    ensures |r| == |ts|
  {
    if rows == [] then ts
    else TableStep(agents, Recovered(agents, ts, rows[..|rows| - 1], observed), On(rows[|rows| - 1], Recover(observed)))
  }

  lemma {:induction false} RecoveredAt(agents: Agents, ts: Table, rows: seq<nat>, observed: Time, i: nat)
    requires Distinct(rows) && i < |ts|
    ensures Recovered(agents, ts, rows, observed)[i] == if i in rows then Step(agents, ts[i], Recover(observed)) else ts[i]
  {
    if rows != [] {
      var init, id := rows[..|rows| - 1], rows[|rows| - 1];
      RecoveredAt(agents, ts, init, observed, i);
      assert id !in init && (i in rows <==> i in init || i == id);
      RecoveredStep(agents, Recovered(agents, ts, init, observed), id, observed, i);
    }
  }

  lemma RecoveredStep(agents: Agents, ts: Table, id: nat, observed: Time, i: nat)
    requires i < |ts|
    ensures TableStep(agents, ts, On(id, Recover(observed)))[i] == if i == id then Step(agents, ts[i], Recover(observed)) else ts[i]
  {
  }

  lemma {:induction false} RecoveryTrace(agents: Agents, ts: Table, rows: seq<nat>, observed: Time, nodes: seq<Node>)
    returns (ops: seq<Op>)
    ensures Recovered(agents, ts, rows, observed) == TableRun(agents, ts, ops)
    ensures StewardRun(agents, nodes, ts, ops) && Moves(ops) == 0
  {
    ops := [];
    if rows != [] {
      var n := |rows| - 1;
      ops := RecoveryTrace(agents, ts, rows[..n], observed, nodes);
      Extend(agents, nodes, ts, ops, On(rows[n], Recover(observed)));
      ops := ops + [On(rows[n], Recover(observed))];
    }
  }

  /** One recovery: out of attempts the row is dead-lettered, else it is requeued behind its back-off. */
  lemma RecoveryOutcome(agents: Agents, t: Task, observed: Time)
    requires LeaseExpired(t, observed)
    ensures var r := Step(agents, t, Recover(observed));
      r == if t.attempts >= RecoveryLimit(t.maxAttempts)
           then t.(status := Failed, claimedBy := None, token := None, lease := None, updatedAt := observed)
           else t.(status := Queued, claimedBy := None, token := None, lease := None, updatedAt := observed,
                   nextAttempt := Some(observed + RetryDelaySeconds(t.attempts) * SECOND))
  {
  }

  lemma RecoveredNext(agents: Agents, ts: Table, rows: seq<nat>, observed: Time, k: nat)
    requires Distinct(rows) && k < |rows| && rows[k] < |ts|
    ensures Recovered(agents, ts, rows[..k], observed)[rows[k]] == ts[rows[k]]
    ensures Recovered(agents, ts, rows[..k + 1], observed)
         == Recovered(agents, ts, rows[..k], observed)[rows[k] := Step(agents, ts[rows[k]], Recover(observed))]
    ensures Exhausted(ts, rows[..k + 1])
         == Exhausted(ts, rows[..k]) + One(ts[rows[k]].attempts >= RecoveryLimit(ts[rows[k]].maxAttempts))
  {
    assert rows[..k + 1][..k] == rows[..k] && rows[k] !in rows[..k];
    RecoveredAt(agents, ts, rows[..k], observed, rows[k]);
  }

  /** The selected rows that have used up their attempts, of which a stored zero stands for three. */
  function OutOfAttempts(ts: Table, rows: seq<nat>): set<nat> {
    set i | i in rows && i < |ts| && ts[i].attempts >= (if ts[i].maxAttempts == 0 then 3 else ts[i].maxAttempts)
  }

  lemma {:induction false} ExhaustedCounts(ts: Table, rows: seq<nat>)
    requires Distinct(rows)
    ensures Exhausted(ts, rows) == |OutOfAttempts(ts, rows)|
  {
    if rows == [] {
      assert OutOfAttempts(ts, rows) == {};
    } else {
      var init, id := rows[..|rows| - 1], rows[|rows| - 1];
      ExhaustedCounts(ts, init);
      assert forall i :: i in rows <==> i in init || i == id;
      assert OutOfAttempts(ts, rows) == OutOfAttempts(ts, init) + if id < |ts| && ts[id].attempts >= RecoveryLimit(ts[id].maxAttempts) then {id} else {};
      assert id !in init;
    }
  }

  /** Each selected row is dead-lettered if its attempts are used up, else requeued behind its back-off; others stay. */
  lemma RecoveredMeans(agents: Agents, ts: Table, rows: seq<nat>, observed: Time)
    requires Distinct(rows) && forall i | i in rows :: i < |ts| && LeaseExpired(ts[i], observed)
    ensures var r := Recovered(agents, ts, rows, observed);
      && (forall i | 0 <= i < |ts| && i !in rows :: r[i] == ts[i])
      && (forall i | i in OutOfAttempts(ts, rows) ::
            r[i] == ts[i].(status := Failed, claimedBy := None, token := None, lease := None, updatedAt := observed))
      && (forall i | i in rows && i !in OutOfAttempts(ts, rows) ::
            r[i] == ts[i].(status := Queued, claimedBy := None, token := None, lease := None, updatedAt := observed,
                           nextAttempt := Some(observed + RetryDelaySeconds(ts[i].attempts) * 1_000_000)))
  {
    forall i | 0 <= i < |ts| ensures Recovered(agents, ts, rows, observed)[i]
                                     == if i in rows then Step(agents, ts[i], Recover(observed)) else ts[i] {
      RecoveredAt(agents, ts, rows, observed, i);
    }
    forall i | i in rows ensures Step(agents, ts[i], Recover(observed)) ==
        if i in OutOfAttempts(ts, rows)
        then ts[i].(status := Failed, claimedBy := None, token := None, lease := None, updatedAt := observed)
        else ts[i].(status := Queued, claimedBy := None, token := None, lease := None, updatedAt := observed,
                    nextAttempt := Some(observed + RetryDelaySeconds(ts[i].attempts) * 1_000_000))
    {
      RecoveryOutcome(agents, ts[i], observed);
    }
  }

  lemma RecoveryIsExact(agents: Agents, ts: Table, rows: seq<nat>, observed: Time)
    requires Distinct(rows) && forall i | i in rows :: i < |ts| && LeaseExpired(ts[i], observed)
    ensures Exhausted(ts, rows) == |OutOfAttempts(ts, rows)|
    ensures var r := Recovered(agents, ts, rows, observed);
      && (forall i | i in rows && ts[i].maxAttempts >= 1 ::
            if ts[i].attempts >= ts[i].maxAttempts
            then r[i] == ts[i].(status := Failed, claimedBy := None, token := None, lease := None, updatedAt := observed)
            else r[i] == ts[i].(status := Queued, claimedBy := None, token := None, lease := None, updatedAt := observed,
                                nextAttempt := Some(observed + RetryDelaySeconds(ts[i].attempts) * 1_000_000)))
      && (forall i | 0 <= i < |ts| && i !in rows :: r[i] == ts[i])
  {
    ExhaustedCounts(ts, rows);
    RecoveredMeans(agents, ts, rows, observed);
    forall i | i in rows && ts[i].maxAttempts >= 1 ensures i in OutOfAttempts(ts, rows) <==> ts[i].attempts >= ts[i].maxAttempts {}
  }

  /** Recovers exactly the selected rows: each is dead-lettered when out of attempts, else requeued with back-off. */
  method RecoverExpired(agents: Agents, ts: Table, rows: seq<nat>, observed: Time)
    returns (r: Table, recovered: nat, deadLettered: nat)
    requires Distinct(rows) && forall i | i in rows :: i < |ts| && LeaseExpired(ts[i], observed)
    ensures r == Recovered(agents, ts, rows, observed)
    ensures deadLettered == Exhausted(ts, rows) && recovered + deadLettered == |rows|
    ensures deadLettered == |OutOfAttempts(ts, rows)|
    ensures forall i | i in rows && ts[i].maxAttempts >= 1 ::
      if ts[i].attempts >= ts[i].maxAttempts
      then r[i] == ts[i].(status := Failed, claimedBy := None, token := None, lease := None, updatedAt := observed)
      else r[i] == ts[i].(status := Queued, claimedBy := None, token := None, lease := None, updatedAt := observed,
                          nextAttempt := Some(observed + RetryDelaySeconds(ts[i].attempts) * 1_000_000))
    ensures forall i | 0 <= i < |ts| && i !in rows :: r[i] == ts[i]
  {
    r, recovered, deadLettered := ts, 0, 0;
    var k := 0;
    while k < |rows|
      invariant k <= |rows| && r == Recovered(agents, ts, rows[..k], observed)
      invariant deadLettered == Exhausted(ts, rows[..k]) && recovered + deadLettered == k
    {
      var id := rows[k];
      assert rows[k] in rows;
      RecoveredNext(agents, ts, rows, observed, k);
      RecoveryOutcome(agents, ts[id], observed);
      var t := r[id];
      if t.attempts >= (if t.maxAttempts == 0 then 3 else t.maxAttempts) {
        t := t.(status := Failed, claimedBy := None, token := None, lease := None, updatedAt := observed);
        deadLettered := deadLettered + 1;
      } else {
        t := t.(status := Queued, claimedBy := None, token := None, lease := None, updatedAt := observed,
                nextAttempt := Some(observed + RetryDelaySeconds(t.attempts) * SECOND));
        recovered := recovered + 1;
      }
      r := r[id := t];
      k := k + 1;
    }
    assert rows[..|rows|] == rows;
    RecoveryIsExact(agents, ts, rows, observed);
  }

  /** What the steward recovers: the first expired rows, by the end of their lease and then by priority. */
  lemma ExpiredSelectionMeans(ts: Table, rows: seq<nat>, all: seq<nat>, observed: Time, locked: set<nat>, limit: nat)
    requires IsSelection(rows, all, ExpiredRows(ts, observed, locked), RecoveryOrdering(ts), limit)
    ensures Distinct(rows) && |rows| <= limit
    ensures forall i | i in rows ::
      && i < |ts| && i !in locked && ts[i].status == Running
      && (if ts[i].token.Some? then ts[i].lease.Some? && ts[i].lease.value < observed else ts[i].updatedAt < observed - 600_000_000)
    ensures forall j | 0 <= j < |ts| && j !in rows && j !in locked && ts[j].status == Running
        && (if ts[j].token.Some? then ts[j].lease.Some? && ts[j].lease.value < observed else ts[j].updatedAt < observed - 600_000_000) ::
      && |rows| == limit
      && forall i | i in rows ::
           var a := if ts[i].lease.Some? then ts[i].lease.value else ts[i].updatedAt;
           var b := if ts[j].lease.Some? then ts[j].lease.value else ts[j].updatedAt;
           a < b || (a == b && ts[i].priority >= ts[j].priority)
  {
    SelectionMeans(rows, all, ExpiredRows(ts, observed, locked), RecoveryOrdering(ts), limit);
    forall j | 0 <= j < |ts| && j !in locked && LeaseExpired(ts[j], observed) ensures j in ExpiredRows(ts, observed, locked) {}
    forall i, j | i in rows && j in ExpiredRows(ts, observed, locked) && j !in rows ensures RecoveryOrder(ts, i, j) {
      assert RecoveryOrdering(ts)(i, j);
    }
  }

  ghost predicate StaffedEverywhere(agents: Agents, nodes: seq<Node>) {
    forall k | 0 <= k < |nodes| :: exists a :: ActiveOn(agents, a, nodes[k].machine)
  }

  lemma EvacuationHasATarget(agents: Agents, nodes: seq<Node>, ts: Table, t: Task, source: MachineId, observed: Time)
    requires nodes != [] && !HasNode(nodes, source)
    ensures Decide(Recount(agents, ts, nodes), t, source, observed).Some?
  {
    var loads := Recount(agents, ts, nodes);
    RecountKeys(agents, ts, nodes, source);
    SelectsBestCandidate(loads, source, true);
    assert loads[0] in loads && loads[0].machine == nodes[0].machine;
    assert Candidate(loads, source, true, loads[0]);
  }

  function HeldCount(ts: Table, rows: seq<nat>): nat {
    if rows == [] then 0
    else
      var n := |rows| - 1;
      HeldCount(ts, rows[..n]) + One(rows[n] < |ts| && !TaskIsAutomaticEligible(ts[rows[n]].metadata))
  }

  /** A moved row differs from before only in its routing, and its move record says how. */
  predicate RecordsMove(agents: Agents, before: Task, after: Task, m: Move, observed: Time) {
    && TaskIsAutomaticEligible(before.metadata)
    && Assigned(agents, before) == Some(m.source) && m.source != m.target
    && m.fromAgent == before.agent && ActiveOn(agents, m.toAgent, m.target)
    && m.generation == before.generation + 1
    && after == before.(agent := m.toAgent, executionMachine := Some(m.target), generation := m.generation, updatedAt := observed)
  }

  /** What the loop knows about a row it has dealt with. */
  ghost predicate Settled(agents: Agents, nodes: seq<Node>, before: Task, after: Task) {
    nodes != [] && StaffedEverywhere(agents, nodes) && TaskIsAutomaticEligible(before.metadata) ==>
      after.executionMachine.Some? && HasNode(nodes, after.executionMachine.value)
  }

  datatype Outcome = Held | Stays | Moved(move: Move)

  function RouteOf(m: Move, observed: Time): Event { Route(m.toAgent, m.target, observed) }

  /** The loads decide that row `id` should go to `target`, and `agent` is active there. */
  ghost predicate DecidedFor(agents: Agents, nodes: seq<Node>, ts: Table, id: nat, agent: AgentId, target: MachineId, observed: Time) {
    && id < |ts| && ts[id].status.Queued? && ts[id].executionMachine.Some? && TaskIsAutomaticEligible(ts[id].metadata)
    && ActiveOn(agents, agent, target)
    && var d := Decide(Recount(agents, ts, nodes), ts[id], ts[id].executionMachine.value, observed);
       d.Some? && d.value.machine == target
  }

  /** A decision plus an active agent on its target is an allowed move, and the adjusted loads recount the result. */
  lemma DecisionIsAllowed(agents: Agents, nodes: seq<Node>, ts: Table, id: nat, agent: AgentId, target: MachineId, observed: Time)
    requires DistinctNodes(nodes) && DecidedFor(agents, nodes, ts, id, agent, target, observed)
    ensures MoveAllowed(agents, nodes, ts, id, Route(agent, target, observed))
    ensures target != ts[id].executionMachine.value && HasNode(nodes, target)
    ensures MoveLoad(Recount(agents, ts, nodes), ts[id].executionMachine.value, target)
         == Recount(agents, ts[id := Effect(agents, ts[id], Route(agent, target, observed))], nodes)
  {
    var e := Route(agent, target, observed);
    var s, g := DecisionFacts(agents, nodes, ts, id, e);
    assert nodes[g].machine == target;
    WorkingLoadsAreARecount(agents, nodes, ts, id, e);
  }

  function ReasonFor(loads: seq<Load>, source: MachineId, target: Load): Reason {
    if !HasMachine(loads, source) then SourceUnhealthy
    else if SourceTotal(loads, source) > target.Total() + 1 then CapacityBalance
    else ClaimStarvation
  }

  /** The rule wants the row to go to g, on the loads of this very table. */
  ghost predicate GoesTo(agents: Agents, nodes: seq<Node>, ts: Table, id: nat, g: Load, observed: Time) {
    && id < |ts| && ts[id].executionMachine.Some? && TaskIsAutomaticEligible(ts[id].metadata)
    && var loads, source := Recount(agents, ts, nodes), ts[id].executionMachine.value;
       FirstChoice(loads, source, g) && MovesTo(loads, source, g, ts[id].generation, observed - ts[id].updatedAt)
  }

  /** The rule wants the row to move, and somebody is there to take it. */
  ghost predicate WantsMove(agents: Agents, nodes: seq<Node>, ts: Table, id: nat, observed: Time) {
    exists g, a :: GoesTo(agents, nodes, ts, id, g, observed) && ActiveOn(agents, a, g.machine)
  }

  /** The code's decision is the rule's. */
  lemma DecisionIsTheRule(agents: Agents, nodes: seq<Node>, ts: Table, id: nat, observed: Time)
    requires DistinctNodes(nodes) && id < |ts| && ts[id].executionMachine.Some? && TaskIsAutomaticEligible(ts[id].metadata)
    ensures var d := Decide(Recount(agents, ts, nodes), ts[id], ts[id].executionMachine.value, observed);
      && (forall g :: GoesTo(agents, nodes, ts, id, g, observed) <==> d == Some(g))
      && (WantsMove(agents, nodes, ts, id, observed) <==> d.Some? && exists a :: ActiveOn(agents, a, d.value.machine))
  {
    var loads, source := Recount(agents, ts, nodes), ts[id].executionMachine.value;
    RecountKeys(agents, ts, nodes, source);
    var d := Decide(loads, ts[id], source, observed);
    forall g ensures GoesTo(agents, nodes, ts, id, g, observed) <==> d == Some(g) {
      DecideMeans(loads, ts[id], source, observed, g);
    }
    if d.Some? && exists a :: ActiveOn(agents, a, d.value.machine) {
      var a :| ActiveOn(agents, a, d.value.machine);
      assert GoesTo(agents, nodes, ts, id, d.value, observed);
    }
  }

  /** Why a row goes to g. */
  ghost predicate IsReason(loads: seq<Load>, source: MachineId, g: Load, reason: Reason) {
    && (reason.SourceUnhealthy? <==> forall s | s in loads :: s.machine != source)
    && (reason.CapacityBalance? <==> exists s :: s in loads && s.machine == source && s.running + s.queued >= g.running + g.queued + 2)
  }

  lemma ReasonMeans(agents: Agents, nodes: seq<Node>, ts: Table, source: MachineId, g: Load)
    requires DistinctNodes(nodes)
    ensures IsReason(Recount(agents, ts, nodes), source, g, ReasonFor(Recount(agents, ts, nodes), source, g))
  {
    var loads := Recount(agents, ts, nodes);
    RecountKeys(agents, ts, nodes, source);
    InFleet(loads, source);
    if HasMachine(loads, source) { assert loads[Find(loads, source)] in loads; }
  }

  /** The move that the rule makes: its target, its reason and the best agent there, by category and then id. */
  ghost predicate IsTheMove(agents: Agents, nodes: seq<Node>, ts: Table, id: nat, m: Move, observed: Time)
    requires id < |ts|
  {
    var loads, t := Recount(agents, ts, nodes), ts[id];
    && m.id == id && t.executionMachine == Some(m.source) && m.fromAgent == t.agent && m.generation == t.generation + 1
    && ActiveOn(agents, m.toAgent, m.target)
    && (forall a | ActiveOn(agents, a, m.target) :: AgentOrdering(agents, t.category)(m.toAgent, a))
    && exists g :: GoesTo(agents, nodes, ts, id, g, observed) && g.machine == m.target && IsReason(loads, m.source, g, m.reason)
  }

  /**
    Held rows stay; a row stays exactly if the rule does not want it to move; a moved row was moved as the rule
    says, as allowed, to a healthy machine, and as its record says.
   */
  ghost predicate Outcomes(agents: Agents, nodes: seq<Node>, ts: Table, id: nat, r: Table, outcome: Outcome, observed: Time)
    requires id < |ts| == |r|
  {
    && (outcome.Held? <==> !TaskIsAutomaticEligible(ts[id].metadata))
    && (outcome.Moved? <==> WantsMove(agents, nodes, ts, id, observed))
    && (!outcome.Moved? ==> r == ts && Settled(agents, nodes, ts[id], ts[id]))
    && (outcome.Moved? ==>
          var m := outcome.move;
          && IsTheMove(agents, nodes, ts, id, m, observed) && HasNode(nodes, m.target)
          && MoveAllowed(agents, nodes, ts, id, RouteOf(m, observed))
          && r == TableStep(agents, ts, On(id, RouteOf(m, observed)))
          && RecordsMove(agents, ts[id], r[id], m, observed))
  }

  /**
    When a portable row is moved, in numbers of rows: with its first choice g staffed, exactly if its machine is not in
    the fleet, or has at least two tasks more than g, or runs nothing while the row, moved less than twice, has waited
    for a minute.
   */
  lemma MovedExactlyWhen(agents: Agents, nodes: seq<Node>, ts: Table, id: nat, r: Table, outcome: Outcome, observed: Time, g: Load,
                         a: AgentId)
    requires DistinctNodes(nodes) && id < |ts| == |r| && Outcomes(agents, nodes, ts, id, r, outcome, observed)
    requires TaskIsAutomaticEligible(ts[id].metadata) && ts[id].executionMachine.Some?
    requires FirstChoice(Recount(agents, ts, nodes), ts[id].executionMachine.value, g) && ActiveOn(agents, a, g.machine)
    ensures var source := ts[id].executionMachine.value;
      var running, queued := |RowsOn(agents, ts, source, Running)|, |RowsOn(agents, ts, source, Queued)|;
      var target := |RowsOn(agents, ts, g.machine, Running)| + |RowsOn(agents, ts, g.machine, Queued)|;
      outcome.Moved? <==>
        || (forall k | 0 <= k < |nodes| :: nodes[k].machine != source)
        || running + queued > target + 1
        || (running == 0 && ts[id].generation < 2 && observed - ts[id].updatedAt >= 60_000_000)
    ensures outcome.Moved? ==> outcome.move.target == g.machine
  {
    var loads, source := Recount(agents, ts, nodes), ts[id].executionMachine.value;
    RecountKeys(agents, ts, nodes, source);
    var h :| 0 <= h < |loads| && loads[h] == g;
    LoadsAreCounts(agents, ts, nodes, h);
    if k :| 0 <= k < |nodes| && nodes[k].machine == source {
      LoadsAreCounts(agents, ts, nodes, k);
      assert loads[k] in loads;
      InFleet(loads, source);
    }
    if outcome.Moved? {
      var d :| GoesTo(agents, nodes, ts, id, d, observed) && d.machine == outcome.move.target;
      FirstChoiceIsUnique(loads, source, g, d);
    } else {
      assert !GoesTo(agents, nodes, ts, id, g, observed);
    }
  }

  function MovesOf(outcome: Outcome): seq<Move> { if outcome.Moved? then [outcome.move] else [] }

  function OpsOf(outcome: Outcome, observed: Time): seq<Op> {
    if outcome.Moved? then [On(outcome.move.id, RouteOf(outcome.move, observed))] else []
  }

  /** The body of the rerouting loop for one queued row. */
  method RerouteOne(agents: Agents, ts: Table, nodes: seq<Node>, loads: seq<Load>, id: nat, observed: Time)
    returns (r: Table, adjusted: seq<Load>, outcome: Outcome)
    requires DistinctNodes(nodes) && loads == Recount(agents, ts, nodes)
    requires id < |ts| && ts[id].status.Queued? && ts[id].executionMachine.Some?
    ensures |r| == |ts| && adjusted == Recount(agents, r, nodes)
    ensures Outcomes(agents, nodes, ts, id, r, outcome, observed)
    ensures outcome.Held? <==>
      var m := ts[id].metadata;
      || m.queueState == PendingApproval || m.queueState == ApprovalRequired || m.queueState == Blocked
      || (m.requiresApproval && m.approval != Approved && m.approval != Deployed)
      || m.noFailover || m.pinnedMachine || m.requiresLocalResources
  {
    var t := ts[id];
    if !TaskIsAutomaticEligible(t.metadata) { return ts, loads, Held; }
    DecisionIsTheRule(agents, nodes, ts, id, observed);
    var source := t.executionMachine.value;
    var target := Decide(loads, t, source, observed);
    if target.None? {
      StayingIsSettled(agents, nodes, ts, t, observed);
      return ts, loads, Stays;
    }
    var agent := PickAgent(agents, target.value.machine, t.category);
    if agent.None? {
      StayingIsSettled(agents, nodes, ts, t, observed);
      return ts, loads, Stays;
    }
    var m := Move(id, source, target.value.machine, t.agent, agent.value, ReasonFor(loads, source, target.value), t.generation + 1);
    assert ActiveOn(agents, m.toAgent, m.target);
    ReasonMeans(agents, nodes, ts, source, target.value);
    MovingIsAllowed(agents, nodes, ts, m, observed);
    r := ts[id := t.(executionMachine := Some(target.value.machine), agent := agent.value,
                     generation := t.generation + 1, updatedAt := observed)];
    adjusted := MoveLoad(loads, source, target.value.machine);
    outcome := Moved(m);
  }

  /** The row that `m` describes, after its update. */
  function Rerouted(t: Task, m: Move, observed: Time): Task {
    t.(executionMachine := Some(m.target), agent := m.toAgent, generation := t.generation + 1, updatedAt := observed)
  }

  lemma MovingIsAllowed(agents: Agents, nodes: seq<Node>, ts: Table, m: Move, observed: Time)
    requires DistinctNodes(nodes) && DecidedFor(agents, nodes, ts, m.id, m.toAgent, m.target, observed)
    requires IsTheMove(agents, nodes, ts, m.id, m, observed)
    ensures Outcomes(agents, nodes, ts, m.id, ts[m.id := Rerouted(ts[m.id], m, observed)], Moved(m), observed)
    ensures MoveLoad(Recount(agents, ts, nodes), m.source, m.target)
         == Recount(agents, ts[m.id := Rerouted(ts[m.id], m, observed)], nodes)
  {
    DecisionIsAllowed(agents, nodes, ts, m.id, m.toAgent, m.target, observed);
    RerouteIsTheEffect(agents, ts[m.id], m, observed);
  }

  lemma RerouteIsTheEffect(agents: Agents, t: Task, m: Move, observed: Time)
    requires t.status.Queued? && ActiveOn(agents, m.toAgent, m.target)
    ensures Accepts(agents, t, RouteOf(m, observed)) && Effect(agents, t, RouteOf(m, observed)) == Rerouted(t, m, observed)
  {
  }

  /** A row that stays put, for want of a decision or of an active agent, is settled. */
  lemma StayingIsSettled(agents: Agents, nodes: seq<Node>, ts: Table, t: Task, observed: Time)
    requires t.executionMachine.Some?
    requires var d := Decide(Recount(agents, ts, nodes), t, t.executionMachine.value, observed);
      d.None? || forall a :: !ActiveOn(agents, a, d.value.machine)
    ensures Settled(agents, nodes, t, t)
  {
    var source := t.executionMachine.value;
    if Decide(Recount(agents, ts, nodes), t, source, observed).None? {
      if nodes != [] && !HasNode(nodes, source) { EvacuationHasATarget(agents, nodes, ts, t, source, observed); }
    } else {
      TargetIsHealthy(agents, nodes, ts, t, source, observed);
    }
  }

  lemma TargetIsHealthy(agents: Agents, nodes: seq<Node>, ts: Table, t: Task, source: MachineId, observed: Time)
    requires Decide(Recount(agents, ts, nodes), t, source, observed).Some?
    ensures HasNode(nodes, Decide(Recount(agents, ts, nodes), t, source, observed).value.machine)
  {
    var loads := Recount(agents, ts, nodes);
    var d := Decide(loads, t, source, observed).value;
    SelectsBestCandidate(loads, source, !HasMachine(loads, source));
    var g :| 0 <= g < |loads| && loads[g] == d;
    assert nodes[g].machine == d.machine;
  }

  ghost predicate IsMoved(moves: seq<Move>, id: nat) { exists n | 0 <= n < |moves| :: moves[n].id == id }

  /** Every move record describes its row's change, and rows without a record are unchanged. */
  ghost predicate MovesExplain(agents: Agents, ts: Table, r: Table, moves: seq<Move>, observed: Time) {
    && |r| == |ts|
    && (forall n | 0 <= n < |moves| ::
          moves[n].id < |ts| && RecordsMove(agents, ts[moves[n].id], r[moves[n].id], moves[n], observed))
    && (forall i | 0 <= i < |ts| && !IsMoved(moves, i) :: r[i] == ts[i])
  }

  /** The loop has dealt with the first k rows and has not touched the others. */
  ghost predicate Progress(agents: Agents, nodes: seq<Node>, ts: Table, rows: seq<nat>, k: nat, r: Table,
                           moves: seq<Move>, observed: Time) {
    && k <= |rows| && (forall j | 0 <= j < |rows| :: rows[j] < |ts|)
    && MovesExplain(agents, ts, r, moves, observed)
    && (forall j | k <= j < |rows| :: !IsMoved(moves, rows[j]))
    && (forall j | 0 <= j < k :: Settled(agents, nodes, ts[rows[j]], r[rows[j]]))
  }

  lemma ProgressByStaying(agents: Agents, nodes: seq<Node>, ts: Table, rows: seq<nat>, k: nat, r: Table,
                          moves: seq<Move>, observed: Time)
    requires Progress(agents, nodes, ts, rows, k, r, moves, observed) && k < |rows|
    requires Settled(agents, nodes, ts[rows[k]], ts[rows[k]])
    ensures Progress(agents, nodes, ts, rows, k + 1, r, moves, observed)
  {
    assert !IsMoved(moves, rows[k]);
  }

  lemma ProgressByMoving(agents: Agents, nodes: seq<Node>, ts: Table, rows: seq<nat>, k: nat, r: Table,
                         moves: seq<Move>, observed: Time, m: Move, t: Task)
    requires Progress(agents, nodes, ts, rows, k, r, moves, observed) && k < |rows| && Distinct(rows)
    requires m.id == rows[k] && RecordsMove(agents, ts[m.id], t, m, observed) && HasNode(nodes, m.target)
    ensures Progress(agents, nodes, ts, rows, k + 1, r[m.id := t], moves + [m], observed)
  {
    var r', moves' := r[m.id := t], moves + [m];
    assert !IsMoved(moves, m.id);
    forall i | IsMoved(moves, i) || i == m.id ensures IsMoved(moves', i) {
      if i == m.id { assert moves'[|moves|].id == i; }
      else { var n :| 0 <= n < |moves| && moves[n].id == i; assert moves'[n].id == i; }
    }
    forall i | IsMoved(moves', i) && i != m.id ensures IsMoved(moves, i) {
      var n :| 0 <= n < |moves'| && moves'[n].id == i;
      assert moves[n].id == i;
    }
    forall n | 0 <= n < |moves'|
      ensures moves'[n].id < |ts| && RecordsMove(agents, ts[moves'[n].id], r'[moves'[n].id], moves'[n], observed)
    {
      if n < |moves| { assert IsMoved(moves, moves[n].id); }
    }
    forall j | k + 1 <= j < |rows| ensures !IsMoved(moves', rows[j]) {
      assert rows[j] != rows[k];
    }
    forall j | 0 <= j < k + 1 ensures Settled(agents, nodes, ts[rows[j]], r'[rows[j]]) {
      if j < k { assert rows[j] != rows[k]; }
    }
  }

  ghost predicate IsTrace(agents: Agents, nodes: seq<Node>, ts: Table, r: Table, ops: seq<Op>, moves: nat) {
    r == TableRun(agents, ts, ops) && StewardRun(agents, nodes, ts, ops) && Moves(ops) == moves
  }

  lemma AfterOne(agents: Agents, nodes: seq<Node>, ts: Table, rows: seq<nat>, k: nat, before: Table, r: Table,
                 moves: seq<Move>, ops: seq<Op>, outcome: Outcome, observed: Time)
    requires k < |rows| && Distinct(rows) && Progress(agents, nodes, ts, rows, k, before, moves, observed)
    requires IsTrace(agents, nodes, ts, before, ops, |moves|)
    requires |r| == |before| && Outcomes(agents, nodes, before, rows[k], r, outcome, observed)
    ensures Progress(agents, nodes, ts, rows, k + 1, r, moves + MovesOf(outcome), observed)
    ensures IsTrace(agents, nodes, ts, r, ops + OpsOf(outcome, observed), |moves + MovesOf(outcome)|)
    ensures outcome.Held? <==> !TaskIsAutomaticEligible(ts[rows[k]].metadata)
  {
    var id := rows[k];
    assert !IsMoved(moves, id) && before[id] == ts[id];
    if outcome.Moved? {
      var m := outcome.move;
      Extend(agents, nodes, ts, ops, On(id, RouteOf(m, observed)));
      ProgressByMoving(agents, nodes, ts, rows, k, before, moves, observed, m, r[id]);
      assert r == before[id := r[id]];
    } else {
      ProgressByStaying(agents, nodes, ts, rows, k, r, moves, observed);
      assert moves + [] == moves && ops + [] == ops;
    }
  }

  // ------------------------------------------------------------------ the whole loop

  function MovesIn(outcomes: seq<Outcome>): seq<Move> {
    if outcomes == [] then [] else MovesIn(outcomes[..|outcomes| - 1]) + MovesOf(outcomes[|outcomes| - 1])
  }

  function OpsIn(outcomes: seq<Outcome>, observed: Time): seq<Op> {
    if outcomes == [] then [] else OpsIn(outcomes[..|outcomes| - 1], observed) + OpsOf(outcomes[|outcomes| - 1], observed)
  }

  /** The table after these outcomes. */
  function After(agents: Agents, ts: Table, outcomes: seq<Outcome>, observed: Time): Table {
    TableRun(agents, ts, OpsIn(outcomes, observed))
  }

  /** A rule says which outcomes and tables may follow when it deals with one row of a table. */
  type Rule = (Table, nat, Table, Outcome) -> bool

  ghost function RuleOf(agents: Agents, nodes: seq<Node>, observed: Time): Rule {
    (before: Table, id: nat, after: Table, outcome: Outcome) =>
      id < |before| == |after| && Outcomes(agents, nodes, before, id, after, outcome, observed)
  }

  /** The outcomes are those of the rule, row after row, each on the table that the earlier ones left behind. */
  ghost predicate DecidedBy(rule: Rule, agents: Agents, ts: Table, rows: seq<nat>, outcomes: seq<Outcome>, observed: Time)
    decreases |outcomes|
  {
    && |outcomes| <= |rows|
    && (outcomes == [] ||
        (var k := |outcomes| - 1;
         && DecidedBy(rule, agents, ts, rows, outcomes[..k], observed)
         && rule(After(agents, ts, outcomes[..k], observed), rows[k], After(agents, ts, outcomes, observed), outcomes[k])))
  }

  ghost predicate Decided(agents: Agents, nodes: seq<Node>, ts: Table, rows: seq<nat>, outcomes: seq<Outcome>, observed: Time) {
    DecidedBy(RuleOf(agents, nodes, observed), agents, ts, rows, outcomes, observed)
  }

  /** The loop ends at the first move that reaches the limit, or when there are no more rows. */
  predicate StopsAt(rows: seq<nat>, outcomes: seq<Outcome>, limit: nat) {
    && |outcomes| <= |rows| && |MovesIn(outcomes)| <= limit
    && (|MovesIn(outcomes)| < limit ==> |outcomes| == |rows|)
    && (|MovesIn(outcomes)| == limit && outcomes != [] ==> outcomes[|outcomes| - 1].Moved?)
  }

  /** One more row, from the state before to the state after. */
  lemma DecidedStep(agents: Agents, nodes: seq<Node>, ts: Table, rows: seq<nat>, outcomes: seq<Outcome>, r: Table, outcome: Outcome,
                    observed: Time)
    requires Decided(agents, nodes, ts, rows, outcomes, observed) && |outcomes| < |rows|
    requires var before := After(agents, ts, outcomes, observed);
      rows[|outcomes|] < |before| == |r| && Outcomes(agents, nodes, before, rows[|outcomes|], r, outcome, observed)
    ensures var more := outcomes + [outcome];
      && r == After(agents, ts, more, observed) && Decided(agents, nodes, ts, rows, more, observed)
      && MovesIn(more) == MovesIn(outcomes) + MovesOf(outcome)
  {
    var more, ops := outcomes + [outcome], OpsIn(outcomes, observed);
    assert more[..|outcomes|] == outcomes;
    if outcome.Moved? {
      ExtendRun(agents, ts, ops, On(outcome.move.id, RouteOf(outcome.move, observed)));
    } else {
      assert ops + [] == ops;
    }
  }

  /** What the outcomes add up to: a trace of allowed steps that deals with the rows so far and touches no others. */
  lemma {:induction false} DecidedMeans(agents: Agents, nodes: seq<Node>, ts: Table, rows: seq<nat>, outcomes: seq<Outcome>, observed: Time)
    requires Decided(agents, nodes, ts, rows, outcomes, observed) && Distinct(rows)
    requires forall j | 0 <= j < |rows| :: rows[j] < |ts|
    ensures var r, moves := After(agents, ts, outcomes, observed), MovesIn(outcomes);
      && IsTrace(agents, nodes, ts, r, OpsIn(outcomes, observed), |moves|)
      && Progress(agents, nodes, ts, rows, |outcomes|, r, moves, observed)
    decreases |outcomes|
  {
    if outcomes == [] {
      NothingDone(agents, nodes, ts, rows, observed);
    } else {
      var k := |outcomes| - 1;
      var init := outcomes[..k];
      DecidedMeans(agents, nodes, ts, rows, init, observed);
      AfterOne(agents, nodes, ts, rows, k, After(agents, ts, init, observed), After(agents, ts, outcomes, observed),
               MovesIn(init), OpsIn(init, observed), outcomes[k], observed);
    }
  }

  lemma NothingDone(agents: Agents, nodes: seq<Node>, ts: Table, rows: seq<nat>, observed: Time)
    requires forall j | 0 <= j < |rows| :: rows[j] < |ts|
    ensures IsTrace(agents, nodes, ts, ts, [], 0) && Progress(agents, nodes, ts, rows, 0, ts, [], observed)
  {
  }

  /** A row that is still to come is as it was. */
  lemma NextRowIsUntouched(agents: Agents, nodes: seq<Node>, ts: Table, rows: seq<nat>, outcomes: seq<Outcome>, observed: Time)
    requires Decided(agents, nodes, ts, rows, outcomes, observed) && Distinct(rows) && |outcomes| < |rows|
    requires forall j | 0 <= j < |rows| :: rows[j] < |ts|
    ensures var r := After(agents, ts, outcomes, observed);
      |r| == |ts| && r[rows[|outcomes|]] == ts[rows[|outcomes|]]
  {
    DecidedMeans(agents, nodes, ts, rows, outcomes, observed);
    assert !IsMoved(MovesIn(outcomes), rows[|outcomes|]);
  }

  lemma HeldCountStep(ts: Table, rows: seq<nat>, k: nat)
    requires k < |rows| && rows[k] < |ts|
    ensures HeldCount(ts, rows[..k + 1]) == HeldCount(ts, rows[..k]) + One(!TaskIsAutomaticEligible(ts[rows[k]].metadata))
  {
    assert rows[..k + 1][..k] == rows[..k];
  }

  /** One iteration of the loop, from the state after some outcomes to the state after one more. */
  method RerouteNext(agents: Agents, ts: Table, nodes: seq<Node>, rows: seq<nat>, ghost outcomes: seq<Outcome>, r: Table,
                     loads: seq<Load>, k: nat, observed: Time)
    returns (after: Table, adjusted: seq<Load>, outcome: Outcome)
    requires DistinctNodes(nodes) && Routed(ts) && Distinct(rows) && k == |outcomes| < |rows|
    requires forall j | 0 <= j < |rows| :: rows[j] < |ts| && ts[rows[j]].status.Queued?
    requires Decided(agents, nodes, ts, rows, outcomes, observed) && r == After(agents, ts, outcomes, observed)
    requires loads == Recount(agents, r, nodes)
    ensures Decided(agents, nodes, ts, rows, outcomes + [outcome], observed) && after == After(agents, ts, outcomes + [outcome], observed)
    ensures MovesIn(outcomes + [outcome]) == MovesIn(outcomes) + MovesOf(outcome)
    ensures adjusted == Recount(agents, after, nodes)
    ensures HeldCount(ts, rows[..k + 1]) == HeldCount(ts, rows[..k]) + One(outcome.Held?)
  {
    NextRowIsUntouched(agents, nodes, ts, rows, outcomes, observed);
    after, adjusted, outcome := RerouteOne(agents, r, nodes, loads, rows[k], observed);
    DecidedStep(agents, nodes, ts, rows, outcomes, after, outcome, observed);
    HeldCountStep(ts, rows, k);
  }

  /**
    The rerouting loop over the rows that the due query returned: it decides them one after the other as the rule says,
    and the loads that it adjusts while it works are a full recount of the table it leaves behind.
   */
  method RerouteQueued(agents: Agents, ts: Table, nodes: seq<Node>, rows: seq<nat>, observed: Time, maxMoves: nat)
    returns (r: Table, loads: seq<Load>, held: nat, moves: seq<Move>, ghost outcomes: seq<Outcome>)
    requires DistinctNodes(nodes) && Routed(ts) && Distinct(rows) && maxMoves >= 1
    requires forall j | 0 <= j < |rows| :: rows[j] < |ts| && ts[rows[j]].status.Queued?
    ensures Decided(agents, nodes, ts, rows, outcomes, observed) && StopsAt(rows, outcomes, maxMoves)
    ensures r == After(agents, ts, outcomes, observed) && moves == MovesIn(outcomes)
    ensures loads == Recount(agents, r, nodes) && held == HeldCount(ts, rows[..|outcomes|])
  {
    r, loads, held, moves, outcomes := ts, Recount(agents, ts, nodes), 0, [], [];
    ghost var last := Stays;
    var k := 0;
    while k < |rows| && |moves| < maxMoves
      invariant |outcomes| == k <= |rows| && Decided(agents, nodes, ts, rows, outcomes, observed)
      invariant r == After(agents, ts, outcomes, observed) && moves == MovesIn(outcomes)
      invariant |moves| <= maxMoves && (|moves| == maxMoves ==> k > 0 && last.Moved?)
      invariant k > 0 ==> outcomes[k - 1] == last
      invariant loads == Recount(agents, r, nodes) && held == HeldCount(ts, rows[..k])
    {
      var outcome;
      r, loads, outcome := RerouteNext(agents, ts, nodes, rows, outcomes, r, loads, k, observed);
      outcomes, last := outcomes + [outcome], outcome;
      held, moves := held + (if outcome.Held? then 1 else 0), moves + MovesOf(outcome);
      k := k + 1;
    }
  }

  lemma NoMovesBefore(outcomes: seq<Outcome>)
    requires MovesIn(outcomes) == [] && outcomes != []
    ensures MovesIn(outcomes[..|outcomes| - 1]) == [] && !outcomes[|outcomes| - 1].Moved?
  {
    assert MovesIn(outcomes) == MovesIn(outcomes[..|outcomes| - 1]) + MovesOf(outcomes[|outcomes| - 1]);
  }

  lemma {:induction false} NoMovesNoSteps(outcomes: seq<Outcome>, observed: Time)
    requires MovesIn(outcomes) == []
    ensures OpsIn(outcomes, observed) == []
  {
    if outcomes != [] {
      NoMovesBefore(outcomes);
      NoMovesNoSteps(outcomes[..|outcomes| - 1], observed);
    }
  }

  lemma NoMovesChangeNothing(agents: Agents, ts: Table, outcomes: seq<Outcome>, observed: Time)
    requires MovesIn(outcomes) == []
    ensures After(agents, ts, outcomes, observed) == ts
  {
    NoMovesNoSteps(outcomes, observed);
  }

  /** If no row moved, every row was decided on the table as it is. */
  lemma {:induction false} NoMovesDecideInPlace(rule: Rule, agents: Agents, ts: Table, rows: seq<nat>, outcomes: seq<Outcome>,
                                                observed: Time, j: nat)
    requires DecidedBy(rule, agents, ts, rows, outcomes, observed) && MovesIn(outcomes) == [] && j < |outcomes|
    ensures !outcomes[j].Moved? && rule(ts, rows[j], ts, outcomes[j])
    decreases |outcomes|
  {
    var init := outcomes[..|outcomes| - 1];
    NoMovesBefore(outcomes);
    if j < |init| {
      NoMovesDecideInPlace(rule, agents, ts, rows, init, observed, j);
    } else {
      NoMovesChangeNothing(agents, ts, init, observed);
      NoMovesChangeNothing(agents, ts, outcomes, observed);
    }
  }

  /** Quiescence: if the rule moved none of the rows, it wants to move none of them. */
  lemma NoMovesMeansNothingToMove(agents: Agents, nodes: seq<Node>, ts: Table, rows: seq<nat>, outcomes: seq<Outcome>,
                                  observed: Time, j: nat)
    requires Decided(agents, nodes, ts, rows, outcomes, observed) && MovesIn(outcomes) == [] && j < |outcomes|
    ensures !WantsMove(agents, nodes, ts, rows[j], observed)
  {
    NoMovesDecideInPlace(RuleOf(agents, nodes, observed), agents, ts, rows, outcomes, observed, j);
  }

  function IsDueRow(agents: Agents, ts: Table, observed: Time, locked: set<nat>): nat -> bool {
    (i: nat) => i < |ts| && i !in locked && IsDue(agents, ts[i], observed)
  }

  method SelectDue(agents: Agents, ts: Table, observed: Time, locked: set<nat>, limit: nat)
    returns (rows: seq<nat>, ghost all: seq<nat>)
    ensures IsSelection(rows, all, DueRows(agents, ts, observed) - locked, ClaimOrdering(ts, observed), limit)
    ensures Distinct(rows) && forall j | 0 <= j < |rows| :: rows[j] in DueRows(agents, ts, observed)
    ensures |DueRows(agents, ts, observed) - locked| <= limit ==>
      forall i | i in DueRows(agents, ts, observed) - locked :: i in rows
  {
    ClaimOrderingIsTotal(ts, observed);
    rows, all := Query(|ts|, IsDueRow(agents, ts, observed, locked), ClaimOrdering(ts, observed), limit);
    var due := DueRows(agents, ts, observed) - locked;
    assert Matches(|ts|, IsDueRow(agents, ts, observed, locked)) == due;
    SelectionSize(all, due);
    forall j | 0 <= j < |rows| ensures rows[j] in due { assert rows[j] in all; }
    if |due| <= limit { assert rows == all; }
  }

  // ---------------------------------------------------------------- the whole sweep

  datatype SweepResult =
    | BadMaxMoves
    | SkippedLocked
    | Swept(recovered: nat, deadLettered: nat, rerouted: nat, held: nat, moves: seq<Move>)

  /** A row before the rerouting loop: routed by default, and recovered if its lease had expired. */
  function Prepared(agents: Agents, t: Task, recovered: bool, observed: Time): Task {
    var routed := Step(agents, t, AssignDefault(observed));
    if recovered then Step(agents, routed, Recover(observed)) else routed
  }

  lemma PreparingKeepsDueRows(agents: Agents, t: Task, recovered: bool, observed: Time)
    requires t.agent in agents
    ensures var p := Prepared(agents, t, recovered, observed);
      && (IsDue(agents, p, observed) <==> IsDue(agents, t, observed))
      && p.metadata == t.metadata && p.executionMachine.Some? && Assigned(agents, p) == Assigned(agents, t)
      && p.generation == t.generation
  {
  }

  ghost predicate PreparedTable(agents: Agents, ts: Table, r: Table, rows: seq<nat>, observed: Time) {
    |r| == |ts| && forall i | 0 <= i < |ts| :: r[i] == Prepared(agents, ts[i], i in rows, observed)
  }

  lemma PreparedFacts(agents: Agents, ts: Table, r: Table, rows: seq<nat>, observed: Time)
    requires KnownAgents(agents, ts) && PreparedTable(agents, ts, r, rows, observed)
    ensures Routed(r) && DueRows(agents, r, observed) == DueRows(agents, ts, observed)
    ensures forall i | 0 <= i < |ts| ::
      r[i].metadata == ts[i].metadata && Assigned(agents, r[i]) == Assigned(agents, ts[i]) && r[i].generation == ts[i].generation
  {
    forall i | 0 <= i < |ts| ensures
      && (IsDue(agents, r[i], observed) <==> IsDue(agents, ts[i], observed))
      && r[i].metadata == ts[i].metadata && r[i].executionMachine.Some?
      && Assigned(agents, r[i]) == Assigned(agents, ts[i]) && r[i].generation == ts[i].generation
    {
      PreparingKeepsDueRows(agents, ts[i], i in rows, observed);
    }
  }

  ghost predicate OnHealthyMachine(nodes: seq<Node>, t: Task) {
    t.executionMachine.Some? && HasNode(nodes, t.executionMachine.value)
  }

  /** Portable work that was due is on a healthy machine, and so is all portable work that is still due. */
  ghost predicate Evacuated(agents: Agents, nodes: seq<Node>, before: Table, after: Table, observed: Time) {
    && |before| == |after|
    && (forall i | i in DueRows(agents, before, observed) && TaskIsAutomaticEligible(before[i].metadata) ::
          OnHealthyMachine(nodes, after[i]))
    && (forall i | i in DueRows(agents, after, observed) && TaskIsAutomaticEligible(after[i].metadata) ::
          OnHealthyMachine(nodes, after[i]))
  }

  /** Held and pinned rows keep their machine and their generation. */
  ghost predicate HeldRowsStay(agents: Agents, before: Table, after: Table) {
    |before| == |after| && forall i | 0 <= i < |before| && !TaskIsAutomaticEligible(before[i].metadata) ::
      Assigned(agents, after[i]) == Assigned(agents, before[i]) && after[i].generation == before[i].generation
  }

  lemma LoopKeepsHeldRows(agents: Agents, before: Table, mid: Table, after: Table, moves: seq<Move>, observed: Time)
    requires |before| == |mid| && MovesExplain(agents, mid, after, moves, observed)
    requires forall i | 0 <= i < |before| ::
      mid[i].metadata == before[i].metadata && Assigned(agents, mid[i]) == Assigned(agents, before[i])
      && mid[i].generation == before[i].generation
    ensures HeldRowsStay(agents, before, after)
  {
    forall i | 0 <= i < |before| && !TaskIsAutomaticEligible(before[i].metadata) ensures !IsMoved(moves, i) {
    }
  }

  lemma LoopEvacuates(agents: Agents, nodes: seq<Node>, before: Table, after: Table, rows: seq<nat>, moves: seq<Move>, observed: Time)
    requires Progress(agents, nodes, before, rows, |rows|, after, moves, observed)
    requires nodes != [] && StaffedEverywhere(agents, nodes)
    requires forall i | i in DueRows(agents, before, observed) :: i in rows
    ensures Evacuated(agents, nodes, before, after, observed)
  {
    forall i | i in DueRows(agents, before, observed) && TaskIsAutomaticEligible(before[i].metadata)
      ensures OnHealthyMachine(nodes, after[i])
    {
      var j :| 0 <= j < |rows| && rows[j] == i;
      assert Settled(agents, nodes, before[rows[j]], after[rows[j]]);
    }
    forall i | i in DueRows(agents, after, observed)
      ensures i in DueRows(agents, before, observed) && after[i].metadata == before[i].metadata
    {
      assert !IsMoved(moves, i);
    }
  }

  /** The query for due rows is cut off neither by its limit nor by other sessions' locks. */
  ghost predicate AllDueRowsFit(agents: Agents, ts: Table, observed: Time, maxMoves: nat, locked: set<nat>) {
    |DueRows(agents, ts, observed)| <= 4 * maxMoves && DueRows(agents, ts, observed) !! locked
  }

  /** Default assignment and recovery leave the due rows, and where each row's work is assigned, as they were. */
  ghost predicate SameWork(agents: Agents, before: Table, after: Table, observed: Time) {
    && |before| == |after| && Routed(after)
    && DueRows(agents, after, observed) == DueRows(agents, before, observed)
    && forall i | 0 <= i < |before| ::
         after[i].metadata == before[i].metadata && Assigned(agents, after[i]) == Assigned(agents, before[i])
         && after[i].generation == before[i].generation
  }

  /** The recoverable rows: the first `limit` expired unlocked ones in query order. */
  ghost predicate RecoversSelection(agents: Agents, routed: Table, ready: Table, rows: seq<nat>, observed: Time,
                                    locked: set<nat>, limit: nat) {
    && (exists all :: IsSelection(rows, all, ExpiredRows(routed, observed, locked), RecoveryOrdering(routed), limit))
    && ready == Recovered(agents, routed, rows, observed)
  }

  /** The first half of a sweep: default assignment of every row, then recovery of expired leases. */
  method Prepare(agents: Agents, ts: Table, observed: Time, ghost nodes: seq<Node>, locked: set<nat>, limit: nat)
    returns (ready: Table, recovered: nat, deadLettered: nat, ghost routed: Table, ghost rows: seq<nat>, ghost ops: seq<Op>)
    requires KnownAgents(agents, ts)
    ensures IsTrace(agents, nodes, ts, ready, ops, 0)
    ensures |routed| == |ts| && forall i | 0 <= i < |ts| :: routed[i] == Step(agents, ts[i], AssignDefault(observed))
    ensures RecoversSelection(agents, routed, ready, rows, observed, locked, limit)
    ensures deadLettered == Exhausted(routed, rows) && recovered + deadLettered == |rows| <= limit
    ensures SameWork(agents, ts, ready, observed)
  {
    var after := AssignDefaults(agents, ts, observed);
    ghost var more1 := DefaultsTrace(agents, ts, observed, |ts|, nodes);
    forall i | 0 <= i < |ts| ensures after[i] == Step(agents, ts[i], AssignDefault(observed)) {
      DefaultedAt(agents, ts, observed, |ts|, i);
    }
    var expired, all := SelectExpired(after, observed, locked, limit);
    ready, recovered, deadLettered := RecoverExpired(agents, after, expired, observed);
    ghost var more2 := RecoveryTrace(agents, after, expired, observed, nodes);
    Compose(agents, nodes, ts, more1, more2);
    routed, rows, ops := after, expired, more1 + more2;
    forall i | 0 <= i < |ts| ensures ready[i] == Prepared(agents, ts[i], i in expired, observed) {
      RecoveredAt(agents, after, expired, observed, i);
    }
    PreparedFacts(agents, ts, ready, expired, observed);
  }

  /** The due rows that the second half works on: the first unlocked ones in claim order, if any machine is healthy. */
  ghost predicate DueSelection(agents: Agents, nodes: seq<Node>, ts: Table, due: seq<nat>, observed: Time, locked: set<nat>, limit: nat) {
    if nodes == [] then due == []
    else exists all :: IsSelection(due, all, DueRows(agents, ts, observed) - locked, ClaimOrdering(ts, observed), limit)
  }

  /**
    No due row is left that the rule wants to move and somebody could take: a portable one in the fleet has, on its own
    machine, at most one task more than there are on its staffed first choice.
   */
  ghost predicate NothingToMove(agents: Agents, nodes: seq<Node>, ts: Table, observed: Time) {
    forall i | i in DueRows(agents, ts, observed) :: !WantsMove(agents, nodes, ts, i, observed)
  }

  /** What the steward looks at: the first queued rows, in claim order, that nobody has touched for 15 seconds. */
  lemma DueSelectionMeans(agents: Agents, nodes: seq<Node>, ts: Table, due: seq<nat>, observed: Time, locked: set<nat>, limit: nat)
    requires nodes != [] && DueSelection(agents, nodes, ts, due, observed, locked, limit)
    ensures Distinct(due) && |due| <= limit
    ensures forall i | i in due ::
      && i < |ts| && i !in locked && ts[i].status == Queued && ts[i].agent in agents
      && observed - ts[i].updatedAt >= 15_000_000 && (ts[i].nextAttempt.Some? ==> ts[i].nextAttempt.value <= observed)
    ensures forall j | 0 <= j < |ts| && j !in locked && j !in due && ts[j].status == Queued && ts[j].agent in agents
        && observed - ts[j].updatedAt >= 15_000_000 && (ts[j].nextAttempt.Some? ==> ts[j].nextAttempt.value <= observed) ::
      |due| == limit && forall i | i in due :: ClaimOrder(ts, observed, i, j)
  {
    var rows := DueRows(agents, ts, observed) - locked;
    var all :| IsSelection(due, all, rows, ClaimOrdering(ts, observed), limit);
    SelectionMeans(due, all, rows, ClaimOrdering(ts, observed), limit);
    forall j | 0 <= j < |ts| && j !in locked && IsDue(agents, ts[j], observed) ensures j in rows {}
    forall i, j | i in due && j in rows && j !in due ensures ClaimOrder(ts, observed, i, j) {
      assert ClaimOrdering(ts, observed)(i, j);
    }
  }

  /**
    What it means that there is nothing to move: a portable due row whose first choice is staffed is on a machine of the
    fleet that has at most one task more; and that machine runs something, or the row was moved twice, or it is fresh.
   */
  lemma NothingToMoveMeans(agents: Agents, nodes: seq<Node>, ts: Table, observed: Time, i: nat, g: Load, a: AgentId)
    requires NothingToMove(agents, nodes, ts, observed) && DistinctNodes(nodes)
    requires i in DueRows(agents, ts, observed) && TaskIsAutomaticEligible(ts[i].metadata) && ts[i].executionMachine.Some?
    requires FirstChoice(Recount(agents, ts, nodes), ts[i].executionMachine.value, g) && ActiveOn(agents, a, g.machine)
    ensures var source := ts[i].executionMachine.value;
      exists k :: 0 <= k < |nodes| && nodes[k].machine == source &&
        var running, queued := |RowsOn(agents, ts, source, Running)|, |RowsOn(agents, ts, source, Queued)|;
        && running + queued <= |RowsOn(agents, ts, g.machine, Running)| + |RowsOn(agents, ts, g.machine, Queued)| + 1
        && (running > 0 || ts[i].generation >= 2 || observed - ts[i].updatedAt < 60_000_000)
  {
    var loads, source := Recount(agents, ts, nodes), ts[i].executionMachine.value;
    assert !GoesTo(agents, nodes, ts, i, g, observed);
    var s :| s in loads && s.machine == source && s.running + s.queued < g.running + g.queued + 2
      && (s.running > 0 || ts[i].generation > 1 || observed - ts[i].updatedAt < 60_000_000);
    var k :| 0 <= k < |loads| && loads[k] == s;
    var h :| 0 <= h < |loads| && loads[h] == g;
    LoadsAreCounts(agents, ts, nodes, k);
    LoadsAreCounts(agents, ts, nodes, h);
  }

  lemma NoneIsLocked(rows: set<nat>, locked: set<nat>)
    requires rows !! locked
    ensures rows - locked == rows
  {
  }

  /** The second half: reroute due rows, in claim order, while moves are left. */
  method Balance(agents: Agents, ts: Table, nodes: seq<Node>, observed: Time, locked: set<nat>, maxMoves: nat)
    returns (r: Table, held: nat, moves: seq<Move>, ghost due: seq<nat>, ghost outcomes: seq<Outcome>)
    requires DistinctNodes(nodes) && Routed(ts) && maxMoves >= 1
    ensures DueSelection(agents, nodes, ts, due, observed, locked, 4 * maxMoves)
    ensures Decided(agents, nodes, ts, due, outcomes, observed) && StopsAt(due, outcomes, maxMoves)
    ensures r == After(agents, ts, outcomes, observed) && moves == MovesIn(outcomes) && held == HeldCount(ts, due[..|outcomes|])
    ensures Distinct(due) && forall j | 0 <= j < |due| :: due[j] < |ts|
    ensures nodes != [] && AllDueRowsFit(agents, ts, observed, maxMoves, locked) ==> forall i | i in DueRows(agents, ts, observed) :: i in due
  {
    r, held, moves, due, outcomes := ts, 0, [], [], [];
    if nodes == [] { return; }
    var rows, all := SelectDue(agents, ts, observed, locked, 4 * maxMoves);
    var loads;
    r, loads, held, moves, outcomes := RerouteQueued(agents, ts, nodes, rows, observed, maxMoves);
    due := rows;
    if AllDueRowsFit(agents, ts, observed, maxMoves, locked) { NoneIsLocked(DueRows(agents, ts, observed), locked); }
  }

  lemma EvacuatedThroughout(agents: Agents, nodes: seq<Node>, before: Table, mid: Table, after: Table, observed: Time)
    requires SameWork(agents, before, mid, observed) && Evacuated(agents, nodes, mid, after, observed)
    ensures Evacuated(agents, nodes, before, after, observed)
  {
  }

  /** What the second half achieves, when it has dealt with all due rows. */
  lemma BalanceAchieves(agents: Agents, nodes: seq<Node>, ts: Table, due: seq<nat>, outcomes: seq<Outcome>, observed: Time, maxMoves: nat)
    requires Decided(agents, nodes, ts, due, outcomes, observed) && StopsAt(due, outcomes, maxMoves) && maxMoves >= 1
    requires Distinct(due) && (forall j | 0 <= j < |due| :: due[j] < |ts|)
    requires nodes != [] && forall i | i in DueRows(agents, ts, observed) :: i in due
    ensures var r, moves := After(agents, ts, outcomes, observed), MovesIn(outcomes);
      && (|moves| < maxMoves && StaffedEverywhere(agents, nodes) ==> Evacuated(agents, nodes, ts, r, observed))
      && (moves == [] ==> NothingToMove(agents, nodes, r, observed))
  {
    var r, moves := After(agents, ts, outcomes, observed), MovesIn(outcomes);
    DecidedMeans(agents, nodes, ts, due, outcomes, observed);
    if |moves| < maxMoves && StaffedEverywhere(agents, nodes) {
      LoopEvacuates(agents, nodes, ts, r, due, moves, observed);
    }
    if moves == [] {
      NoMovesChangeNothing(agents, ts, outcomes, observed);
      forall i | i in DueRows(agents, ts, observed) ensures !WantsMove(agents, nodes, ts, i, observed) {
        var j :| 0 <= j < |due| && due[j] == i;
        NoMovesMeansNothingToMove(agents, nodes, ts, due, outcomes, observed, j);
      }
    }
  }

  /** The tables between the phases of a sweep, the rows it recovered, and the due rows with their outcomes. */
  datatype Stages = Stages(routed: Table, expired: seq<nat>, ready: Table, due: seq<nat>, outcomes: seq<Outcome>)

  /** Default assignment, then recovery of the selected rows, then the rule's outcomes on the due rows, and nothing else. */
  ghost predicate Staged(agents: Agents, nodes: seq<Node>, before: Table, s: Stages, after: Table, r: SweepResult, observed: Time,
                         locked: set<nat>, limit: nat)
    requires r.Swept?
  {
    && |s.routed| == |before| && (forall i | 0 <= i < |before| :: s.routed[i] == Step(agents, before[i], AssignDefault(observed)))
    && RecoversSelection(agents, s.routed, s.ready, s.expired, observed, locked, limit)
    && r.deadLettered == Exhausted(s.routed, s.expired) && r.recovered + r.deadLettered == |s.expired| <= limit
    && DueSelection(agents, nodes, s.ready, s.due, observed, locked, 4 * limit)
    && Decided(agents, nodes, s.ready, s.due, s.outcomes, observed) && StopsAt(s.due, s.outcomes, limit)
    && after == After(agents, s.ready, s.outcomes, observed)
    && r.moves == MovesIn(s.outcomes) && r.rerouted == |r.moves| && r.held == HeldCount(s.ready, s.due[..|s.outcomes|])
  }

  /**
    What a sweep promises about the rows: its three phases as specified; a trace of allowed steps; held rows left alone;
    and, unless the due query was cut short, all portable due rows on healthy machines if it has moves and agents
    left, and nothing left to move if it made no move.
   */
  ghost predicate SweepPromise(agents: Agents, nodes: seq<Node>, before: Table, after: Table, r: SweepResult, ops: seq<Op>,
                               stages: Stages, observed: Time, locked: set<nat>, maxMoves: nat)
    requires r.Swept?
  {
    && Staged(agents, nodes, before, stages, after, r, observed, locked, maxMoves)
    && IsTrace(agents, nodes, before, after, ops, |r.moves|)
    && MovesExplain(agents, stages.ready, after, r.moves, observed)
    && HeldRowsStay(agents, before, after)
    && (nodes != [] && AllDueRowsFit(agents, before, observed, maxMoves, locked) ==>
          && (r.rerouted < maxMoves && StaffedEverywhere(agents, nodes) ==> Evacuated(agents, nodes, before, after, observed))
          && (r.rerouted == 0 ==> NothingToMove(agents, nodes, after, observed)))
  }

  lemma AchievedThroughout(agents: Agents, nodes: seq<Node>, before: Table, s: Stages, after: Table, observed: Time, maxMoves: nat)
    requires Decided(agents, nodes, s.ready, s.due, s.outcomes, observed) && StopsAt(s.due, s.outcomes, maxMoves) && maxMoves >= 1
    requires Distinct(s.due) && (forall j | 0 <= j < |s.due| :: s.due[j] < |s.ready|)
    requires nodes != [] && forall i | i in DueRows(agents, s.ready, observed) :: i in s.due
    requires after == After(agents, s.ready, s.outcomes, observed) && SameWork(agents, before, s.ready, observed)
    ensures |MovesIn(s.outcomes)| < maxMoves && StaffedEverywhere(agents, nodes) ==> Evacuated(agents, nodes, before, after, observed)
    ensures MovesIn(s.outcomes) == [] ==> NothingToMove(agents, nodes, after, observed)
  {
    BalanceAchieves(agents, nodes, s.ready, s.due, s.outcomes, observed, maxMoves);
    if Evacuated(agents, nodes, s.ready, after, observed) {
      EvacuatedThroughout(agents, nodes, before, s.ready, after, observed);
    }
  }

  lemma PhasesAreATrace(agents: Agents, nodes: seq<Node>, before: Table, after: Table, ops: seq<Op>, s: Stages, observed: Time)
    requires IsTrace(agents, nodes, before, s.ready, ops, 0) && SameWork(agents, before, s.ready, observed)
    requires Decided(agents, nodes, s.ready, s.due, s.outcomes, observed) && after == After(agents, s.ready, s.outcomes, observed)
    requires Distinct(s.due) && forall j | 0 <= j < |s.due| :: s.due[j] < |s.ready|
    ensures IsTrace(agents, nodes, before, after, ops + OpsIn(s.outcomes, observed), |MovesIn(s.outcomes)|)
    ensures MovesExplain(agents, s.ready, after, MovesIn(s.outcomes), observed) && HeldRowsStay(agents, before, after)
  {
    DecidedMeans(agents, nodes, s.ready, s.due, s.outcomes, observed);
    Compose(agents, nodes, before, ops, OpsIn(s.outcomes, observed));
    LoopKeepsHeldRows(agents, before, s.ready, after, MovesIn(s.outcomes), observed);
  }

  /** The phases, as they were carried out, make up a sweep that keeps its promise. */
  lemma PhasesKeepThePromise(agents: Agents, nodes: seq<Node>, before: Table, after: Table, r: SweepResult, ops: seq<Op>,
                             s: Stages, observed: Time, locked: set<nat>, maxMoves: nat)
    requires r.Swept? && maxMoves >= 1 && Staged(agents, nodes, before, s, after, r, observed, locked, maxMoves)
    requires IsTrace(agents, nodes, before, s.ready, ops, 0) && SameWork(agents, before, s.ready, observed)
    requires Distinct(s.due) && forall j | 0 <= j < |s.due| :: s.due[j] < |s.ready|
    requires nodes != [] && AllDueRowsFit(agents, s.ready, observed, maxMoves, locked) ==>
      forall i | i in DueRows(agents, s.ready, observed) :: i in s.due
    ensures SweepPromise(agents, nodes, before, after, r, ops + OpsIn(s.outcomes, observed), s, observed, locked, maxMoves)
  {
    PhasesAreATrace(agents, nodes, before, after, ops, s, observed);
    if nodes != [] && AllDueRowsFit(agents, before, observed, maxMoves, locked) {
      AchievedThroughout(agents, nodes, before, s, after, observed, maxMoves);
    }
  }

  method SweepRows(agents: Agents, ts: Table, nodes: seq<Node>, observed: Time, locked: set<nat>, maxMoves: nat)
    returns (after: Table, r: SweepResult, ghost ops: seq<Op>, ghost stages: Stages)
    requires DistinctNodes(nodes) && KnownAgents(agents, ts) && maxMoves >= 1
    ensures r.Swept? && SweepPromise(agents, nodes, ts, after, r, ops, stages, observed, locked, maxMoves)
  {
    var ready, recovered, deadLettered;
    ghost var routed, expired, due, outcomes;
    ready, recovered, deadLettered, routed, expired, ops := Prepare(agents, ts, observed, nodes, locked, maxMoves);
    var held, moves;
    after, held, moves, due, outcomes := Balance(agents, ready, nodes, observed, locked, maxMoves);
    stages := Stages(routed, expired, ready, due, outcomes);
    r := Swept(recovered, deadLettered, |moves|, held, moves);
    PhasesKeepThePromise(agents, nodes, ts, after, r, ops, stages, observed, locked, maxMoves);
    ops := ops + OpsIn(outcomes, observed);
  }

  /**
    One sweep. `acquired` is the advisory lock's answer and `locked` the rows other sessions hold; the ledger
    reconciliation that opens the transaction is in ControlPlane.
   */
  method Sweep(store: TaskStore.Store, observed: Time, maxMoves: int, acquired: bool, machines: seq<Machine>,
               employed: set<MachineId>, locked: set<nat>)
    returns (r: SweepResult, ghost ops: seq<Op>, ghost stages: Stages)
    requires DistinctMachines(machines) && KnownAgents(store.agents, store.tasks)
    modifies store
    ensures r.BadMaxMoves? <==> !(1 <= maxMoves <= 500)
    ensures r.SkippedLocked? <==> 1 <= maxMoves <= 500 && !acquired
    ensures !r.Swept? ==> store.tasks == old(store.tasks)
    ensures r.Swept? ==> SweepPromise(store.agents, HealthyNodes(machines, employed, observed), old(store.tasks), store.tasks,
                                      r, ops, stages, observed, locked, maxMoves)
  {
    ops, stages := [], Stages(store.tasks, [], store.tasks, [], []);
    if maxMoves < 1 || maxMoves > 500 { return BadMaxMoves, ops, stages; }
    if !acquired { return SkippedLocked, ops, stages; }
    var nodes := HealthyNodes(machines, employed, observed);
    var after;
    after, r, ops, stages := SweepRows(store.agents, store.tasks, nodes, observed, locked, maxMoves);
    store.tasks := after;
  }
}
