/**
  What each database transaction of the queue does to one task row, and what a whole run of
  such steps does to a row and to the table.
 */
module LeaseProtocol {
  import opened Tasks

  /** One `update tasks ... where id = ...`, with the clock readings and arguments it uses. */
  datatype Event =
    | Claim(machine: MachineId, token: Token, now: Time, leaseSeconds: int)
    | Renew(machine: MachineId, token: Token, now: Time, leaseSeconds: int)
    | Complete(machine: MachineId, token: Token, now: Time, result: string)
    | Fail(machine: MachineId, token: Token, now: Time, clock: Time)
    | Recover(now: Time)
    | AssignDefault(now: Time)
    | Route(agent: AgentId, target: MachineId, now: Time)
    | Failover(agent: AgentId, now: Time)
    | Link(now: Time)

  predicate HoldsClaim(t: Task, machine: MachineId, token: Token) {
    t.status.Running? && t.token == Some(token) && t.claimedBy == Some(machine)
  }

  predicate LeaseLive(t: Task, now: Time) { t.lease.Some? && t.lease.value > now }

  /** The steward's `where`: an expired lease, or a running row without a token that went quiet. */
  predicate LeaseExpired(t: Task, observed: Time) {
    && t.status.Running?
    && (if t.token.Some? then t.lease.Some? && t.lease.value < observed
        else t.updatedAt < observed - LEGACY_STALL)
  }

  predicate Claimable(agents: Agents, t: Task, machine: MachineId, now: Time) {
    && t.status.Queued?
    && t.agent in agents
    && Assigned(agents, t) == Some(machine)
    && RetryElapsed(t, now)
    && TaskIsClaimEligible(t.metadata)
  }

  predicate LeaseSecondsAllowed(s: int) { 30 <= s <= 3600 }

  /** Whether the statement finds its row (and, for a completion, passes the row trigger). */
  predicate Accepts(agents: Agents, t: Task, e: Event) {
    match e
    case Claim(m, _, now, secs) => LeaseSecondsAllowed(secs) && Claimable(agents, t, m, now)
    case Renew(m, k, now, secs) => LeaseSecondsAllowed(secs) && HoldsClaim(t, m, k) && LeaseLive(t, now)
    case Complete(m, k, now, result) => HoldsClaim(t, m, k) && LeaseLive(t, now) && !Blank(result)
    case Fail(m, k, _, _) => HoldsClaim(t, m, k)
    case Recover(now) => LeaseExpired(t, now)
    case AssignDefault(_) => t.executionMachine.None? && t.agent in agents
    case Route(a, target, _) => t.status.Queued? && a in agents && agents[a].machine == target
    case Failover(a, _) => t.status.Queued? && a in agents
    case Link(_) => true
  }

  /** `int(task.get("max_attempts") or 3)`: only lease recovery reads a stored zero as three. */
  function RecoveryLimit(maxAttempts: int): int { if maxAttempts == 0 then 3 else maxAttempts }

  function Released(t: Task): Task { t.(claimedBy := None, token := None, lease := None) }

  function Requeued(t: Task, retryFrom: Time): Task {
    Released(t).(status := Queued, nextAttempt := Some(retryFrom + RetryDelaySeconds(t.attempts) * SECOND))
  }

  function Effect(agents: Agents, t: Task, e: Event): Task
    requires Accepts(agents, t, e)
  {
    match e
    case Claim(m, k, now, secs) =>
      t.(status := Running, updatedAt := now, executionMachine := Some(m), claimedBy := Some(m), token := Some(k),
         lease := Some(now + secs * SECOND), attempts := t.attempts + 1, nextAttempt := None)
    case Renew(_, _, now, secs) => t.(lease := Some(now + secs * SECOND), updatedAt := now)
    case Complete(_, _, now, result) =>
      t.(status := Completed, result := Some(result), completedAt := Some(now), token := None, lease := None, updatedAt := now)
    case Fail(_, _, now, clock) =>
      if t.attempts >= t.maxAttempts
      then Released(t).(status := Failed, nextAttempt := None, updatedAt := now)
      else Requeued(t, clock).(updatedAt := now)
    case Recover(now) =>
      if t.attempts >= RecoveryLimit(t.maxAttempts)
      then Released(t).(status := Failed, updatedAt := now)
      else Requeued(t, now).(updatedAt := now)
    case AssignDefault(_) => t.(executionMachine := Some(agents[t.agent].machine))
    case Route(a, target, now) =>
      t.(executionMachine := Some(target), agent := a, generation := t.generation + 1, updatedAt := now)
    case Failover(a, now) => t.(executionMachine := Some(agents[a].machine), agent := a, updatedAt := now)
    case Link(now) => t.(updatedAt := now)
  }

  function Step(agents: Agents, t: Task, e: Event): Task {
    if Accepts(agents, t, e) then Effect(agents, t, e) else t
  }

  /** A row after a run. */
  function Run(agents: Agents, t: Task, es: seq<Event>): Task {
    if es == [] then t else Step(agents, Run(agents, t, es[..|es| - 1]), es[|es| - 1])
  }

  /** The row that the i-th event of the run meets. */
  function At(agents: Agents, t: Task, es: seq<Event>, i: nat): Task
    requires i <= |es|
  {
    Run(agents, t, es[..i])
  }

  predicate Accepted(agents: Agents, t: Task, es: seq<Event>, i: nat)
    requires i < |es|
  {
    Accepts(agents, At(agents, t, es, i), es[i])
  }

  lemma AtSucc(agents: Agents, t: Task, es: seq<Event>, i: nat)
    requires i < |es|
    ensures At(agents, t, es, i + 1) == Step(agents, At(agents, t, es, i), es[i])
  {
    assert es[..i + 1][..i] == es[..i];
  }

  lemma AtEnd(agents: Agents, t: Task, es: seq<Event>)
    ensures At(agents, t, es, |es|) == Run(agents, t, es)
    ensures At(agents, t, es, 0) == t
  {
    assert es[..|es|] == es;
  }

  // ---------------------------------------------------------------- the table

  datatype Op = Create(task: Task) | On(id: nat, event: Event)

  function TableStep(agents: Agents, tasks: Table, op: Op): (r: Table)
    ensures |r| == |tasks| + if op.Create? then 1 else 0
  {
    match op
    case Create(t) => tasks + [t]
    case On(id, e) => if id < |tasks| then tasks[id := Step(agents, tasks[id], e)] else tasks
  }

  function TableRun(agents: Agents, tasks: Table, ops: seq<Op>): (r: Table)
    ensures |r| >= |tasks|
  {
    if ops == [] then tasks else TableStep(agents, TableRun(agents, tasks, ops[..|ops| - 1]), ops[|ops| - 1])
  }

  /** How many rows a table of n rows has after a run. */
  function Size(n: nat, ops: seq<Op>): nat {
    if ops == [] then n else Size(n, ops[..|ops| - 1]) + if ops[|ops| - 1].Create? then 1 else 0
  }

  lemma {:induction false} SizeIsTheLength(agents: Agents, tasks: Table, ops: seq<Op>)
    ensures Size(|tasks|, ops) == |TableRun(agents, tasks, ops)|
  {
    if ops != [] {
      SizeIsTheLength(agents, tasks, ops[..|ops| - 1]);
    }
  }

  /** The row with this id as it was at the beginning, or as it was created during the run. */
  function FirstRow(tasks: Table, ops: seq<Op>, id: nat): Task
    requires id < Size(|tasks|, ops)
  {
    if id < |tasks| then tasks[id]
    else if id < Size(|tasks|, ops[..|ops| - 1]) then FirstRow(tasks, ops[..|ops| - 1], id)
    else ops[|ops| - 1].task
  }

  /** The events of a run that touch one row of a table that had n rows. */
  function Life(n: nat, ops: seq<Op>, id: nat): seq<Event> {
    if ops == [] then []
    else
      var init, op := ops[..|ops| - 1], ops[|ops| - 1];
      if op.On? && op.id == id && id < Size(n, init) then Life(n, init, id) + [op.event] else Life(n, init, id)
  }

  /** Rows do not interfere: in any run of the table, a row, old or created on the way, does what its own events do to it. */
  lemma {:induction false} RowsAreIndependent(agents: Agents, tasks: Table, ops: seq<Op>, id: nat)
    requires id < Size(|tasks|, ops)
    ensures Size(|tasks|, ops) == |TableRun(agents, tasks, ops)|
    ensures TableRun(agents, tasks, ops)[id] == Run(agents, FirstRow(tasks, ops, id), Life(|tasks|, ops, id))
  {
    SizeIsTheLength(agents, tasks, ops);
    if ops != [] {
      var init, op := ops[..|ops| - 1], ops[|ops| - 1];
      SizeIsTheLength(agents, tasks, init);
      if id < Size(|tasks|, init) {
        RowsAreIndependent(agents, tasks, init, id);
        var earlier := Life(|tasks|, init, id);
        if op.On? && op.id == id { assert (earlier + [op.event])[..|earlier|] == earlier; }
      } else {
        NothingBeforeTheRow(|tasks|, ops, id);
      }
    }
  }

  lemma {:induction false} NothingBeforeTheRow(n: nat, ops: seq<Op>, id: nat)
    requires ops != [] && Size(n, ops[..|ops| - 1]) <= id
    ensures Life(n, ops, id) == []
  {
    var init := ops[..|ops| - 1];
    if init != [] {
      assert Size(n, init[..|init| - 1]) <= Size(n, init);
      NothingBeforeTheRow(n, init, id);
    }
  }

  lemma {:induction false} TableRunConcat(agents: Agents, tasks: Table, ops: seq<Op>, more: seq<Op>)
    ensures TableRun(agents, tasks, ops + more) == TableRun(agents, TableRun(agents, tasks, ops), more)
  {
    if more == [] {
      assert ops + more == ops;
    } else {
      var n := |more| - 1;
      TableRunConcat(agents, tasks, ops, more[..n]);
      assert (ops + more)[..|ops + more| - 1] == ops + more[..n];
    }
  }

  // ------------------------------------------------------- claim-state invariant

  /** A running row is exactly a row with a token and a lease, and it runs where it was routed. */
  predicate ClaimState(t: Task) {
    && (t.status.Running? <==> t.token.Some?)
    && (t.status.Running? <==> t.lease.Some?)
    && (t.status.Running? ==> t.claimedBy.Some? && t.claimedBy == t.executionMachine)
  }

  predicate WithinAttempts(t: Task) {
    && t.attempts <= t.maxAttempts
    && (t.status.Queued? ==> t.attempts < t.maxAttempts)
  }

  lemma StepKeepsClaimState(agents: Agents, t: Task, e: Event)
    requires ClaimState(t)
    ensures ClaimState(Step(agents, t, e))
    ensures Coherent(agents, t) ==> Coherent(agents, Step(agents, t, e))
    ensures t.maxAttempts >= 1 && WithinAttempts(t) ==> WithinAttempts(Step(agents, t, e))
    ensures Step(agents, t, e).maxAttempts == t.maxAttempts
  {
  }

  /** Every row of every reachable table: claim state, routing coherence and the attempt bound. */
  lemma {:induction false} RunKeepsClaimState(agents: Agents, t: Task, es: seq<Event>)
    requires ClaimState(t)
    ensures ClaimState(Run(agents, t, es))
    ensures Coherent(agents, t) ==> Coherent(agents, Run(agents, t, es))
    ensures t.maxAttempts >= 1 && WithinAttempts(t) ==> WithinAttempts(Run(agents, t, es))
    ensures Run(agents, t, es).maxAttempts == t.maxAttempts
  {
    if es != [] {
      RunKeepsClaimState(agents, t, es[..|es| - 1]);
      StepKeepsClaimState(agents, Run(agents, t, es[..|es| - 1]), es[|es| - 1]);
    }
  }

  /** Completed, failed and cancelled rows never change status, result, attempts or token again. */
  lemma {:induction false} TerminalIsAbsorbing(agents: Agents, t: Task, es: seq<Event>)
    requires Terminal(t.status)
    ensures var r := Run(agents, t, es);
      && r.status == t.status && r.result == t.result && r.completedAt == t.completedAt
      && r.attempts == t.attempts && r.token == t.token && r.lease == t.lease
  {
    if es != [] {
      TerminalIsAbsorbing(agents, t, es[..|es| - 1]);
    }
  }

  /** A row that is routed and waiting is only ever moved to its new agent's machine. */
  lemma MoversOnlyTouchRouting(agents: Agents, t: Task, e: Event)
    requires Accepts(agents, t, e) && (e.Route? || e.Failover?)
    ensures var r := Effect(agents, t, e);
      && t.status.Queued? && r.status.Queued?
      && Coherent(agents, r) && r.executionMachine == Some(agents[e.agent].machine)
      && r == t.(agent := r.agent, executionMachine := r.executionMachine, generation := r.generation, updatedAt := e.now)
  {
  }
}
