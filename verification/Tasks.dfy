/** Rows of the `tasks` and `agents` tables, and the pure rules every part of the queue shares. */
module Tasks {

  datatype Option<+T> = None | Some(value: T)

  /** Microseconds, the resolution of `timestamptz` and of Python's `datetime`. */
  type Time = int

  const SECOND: Time := 1_000_000
  const HOUR: Time := 3600 * SECOND
  const LEGACY_STALL: Time := 600 * SECOND
  const QUEUE_GRACE: Time := 15 * SECOND
  const QUEUE_STARVATION: Time := 60 * SECOND

  datatype MachineId = MachineId(name: string)
  datatype AgentId = AgentId(name: string)

  /** A `uuid4` claim token: only its identity matters. */
  type Token = nat

  datatype Status = Queued | Running | Completed | Failed | Cancelled

  predicate Terminal(s: Status) { s.Completed? || s.Failed? || s.Cancelled? }

  predicate Active(s: Status) { s.Queued? || s.Running? }

  datatype QueueState = PendingApproval | ApprovalRequired | Blocked | OpenState(text: string)
  datatype Approval = Approved | Deployed | NotApproved(text: string)

  /** The metadata keys the queue reads, after their text has been trimmed and lower-cased. */
  datatype Metadata = Metadata(
    queueState: QueueState,
    requiresApproval: bool,
    approval: Approval,
    noFailover: bool,
    pinnedMachine: bool,
    requiresLocalResources: bool,
    holdReason: Option<string>)

  datatype Task = Task(
    agent: AgentId,
    category: string,
    priority: int,
    metadata: Metadata,
    createdAt: Time,
    updatedAt: Time,
    status: Status,
    executionMachine: Option<MachineId>,
    claimedBy: Option<MachineId>,
    token: Option<Token>,
    lease: Option<Time>,
    attempts: nat,
    maxAttempts: int,
    nextAttempt: Option<Time>,
    generation: nat,
    result: Option<string>,
    completedAt: Option<Time>)

  datatype Agent = Agent(machine: MachineId, category: string, active: bool)

  type Agents = map<AgentId, Agent>

  /** `tasks.id` is a serial that is never reused and no row is ever deleted, so the id is the position. */
  type Table = seq<Task>

  predicate TaskIsClaimEligible(m: Metadata) {
    && m.queueState.OpenState?
    && (!m.requiresApproval || m.approval.Approved? || m.approval.Deployed?)
  }

  predicate TaskIsAutomaticEligible(m: Metadata) {
    && TaskIsClaimEligible(m)
    && !m.noFailover && !m.pinnedMachine && !m.requiresLocalResources
  }

  function Pow2(n: nat): (r: nat)
    ensures r >= 1
  {
    if n == 0 then 1 else 2 * Pow2(n - 1)
  }

  function One(b: bool): nat { if b then 1 else 0 }

  function Max(a: int, b: int): int { if a < b then b else a }

  function Min(a: int, b: int): int { if a < b then a else b }

  /** In seconds. */
  function RetryDelaySeconds(attempts: int): nat {
    Min(300, Max(5, 5 * Pow2(Max(0, attempts - 1))))
  }

  /** `coalesce(t.execution_machine_id, a.machine_id)` over the join with `agents`. */
  function Assigned(agents: Agents, t: Task): Option<MachineId> {
    if t.executionMachine.Some? then t.executionMachine
    else if t.agent in agents then Some(agents[t.agent].machine)
    else None
  }

  predicate Coherent(agents: Agents, t: Task) {
    t.executionMachine.None? || (t.agent in agents && t.executionMachine == Some(agents[t.agent].machine))
  }

  /** `next_attempt_at is null or next_attempt_at <= now`. */
  predicate RetryElapsed(t: Task, now: Time) {
    t.nextAttempt.None? || t.nextAttempt.value <= now
  }

  /** `btrim(result) = ''`. */
  predicate Blank(s: string) { forall i | 0 <= i < |s| :: s[i] == ' ' }
}
