/** The queue snapshot: every queued row is counted in exactly one class, and every waiting row has a reason. */
module QueueHealth {
  import opened Tasks
  import opened LeaseProtocol
  import Balancing
  import Steward

  /** The columns that the snapshot selects from one queued row. */
  datatype Row = Row(createdAt: Time, nextAttempt: Option<Time>, machine: Option<MachineId>, metadata: Metadata)

  /** A hold reason before formatting: the text differs exactly when these differ, up to a caller's own `hold_reason`. */
  datatype Reason =
    | Given(text: string)
    | State(queueState: QueueState)
    | ApprovalMissing(approval: Approval)
    | RetryUntil(at: Time)
    | MachineUnavailable(machine: Option<MachineId>)

  function OrGiven(m: Metadata, r: Reason): Reason {
    if m.holdReason.Some? && m.holdReason.value != "" then Given(m.holdReason.value) else r
  }

  function QueuedHoldReason(m: Metadata, retryAt: Option<Time>, now: Time, source: Option<MachineId>, healthy: set<MachineId>):
    Option<Reason>
  {
    if !m.queueState.OpenState? then Some(OrGiven(m, State(m.queueState)))
    else if m.requiresApproval && m.approval.NotApproved? then Some(OrGiven(m, ApprovalMissing(m.approval)))
    else if retryAt.Some? && retryAt.value > now then Some(RetryUntil(retryAt.value))
    else if source.Some? && source.value !in healthy && !TaskIsAutomaticEligible(m) then Some(OrGiven(m, MachineUnavailable(source)))
    else None
  }

  // ------------------------------------------------- independent definitions of the classes

  predicate WaitsForRetry(r: Row, now: Time) { r.nextAttempt.Some? && r.nextAttempt.value > now }

  predicate WaitsForApproval(r: Row, now: Time) { !WaitsForRetry(r, now) && !TaskIsClaimEligible(r.metadata) }

  predicate OnHealthy(r: Row, healthy: set<MachineId>) { r.machine.Some? && r.machine.value in healthy }

  /** Some worker may take it now: on its own healthy machine, or elsewhere after a reroute. */
  predicate Eligible(r: Row, healthy: set<MachineId>, now: Time) {
    && !WaitsForRetry(r, now) && TaskIsClaimEligible(r.metadata)
    && (OnHealthy(r, healthy) || (TaskIsAutomaticEligible(r.metadata) && healthy != {}))
  }

  predicate Stranded(r: Row, healthy: set<MachineId>, now: Time) {
    !WaitsForRetry(r, now) && TaskIsClaimEligible(r.metadata) && !Eligible(r, healthy, now)
  }

  predicate Reroutable(r: Row, healthy: set<MachineId>, now: Time) {
    && !WaitsForRetry(r, now) && TaskIsAutomaticEligible(r.metadata)
    && (if OnHealthy(r, healthy) then |healthy| > 1 else healthy != {})
  }

  /** The row test of the second counting pass. */
  predicate OffHealthyEligible(r: Row, healthy: set<MachineId>, now: Time) {
    && (r.nextAttempt.None? || r.nextAttempt.value <= now)
    && TaskIsClaimEligible(r.metadata) && !OnHealthy(r, healthy) && TaskIsAutomaticEligible(r.metadata) && healthy != {}
  }

  function Count(rows: seq<Row>, p: Row -> bool): nat {
    if rows == [] then 0 else Count(rows[..|rows| - 1], p) + if p(rows[|rows| - 1]) then 1 else 0
  }

  // ----------------------------------------------------------------------- dictionaries

  ghost function Total<K>(m: map<K, nat>): nat
    decreases m.Keys
  {
    if m == map[] then 0 else var k :| k in m; m[k] + Total(m - {k})
  }

  /** The total does not depend on the order in which the keys are added up. */
  lemma {:induction false} TotalSplits<K>(m: map<K, nat>, k: K)
    requires k in m
    ensures Total(m) == m[k] + Total(m - {k})
    decreases m.Keys
  {
    var j :| j in m && Total(m) == m[j] + Total(m - {j});
    if j != k {
      TotalSplits(m - {j}, k);
      TotalSplits(m - {k}, j);
      assert m - {j} - {k} == m - {k} - {j};
    }
  }

  /** `d[k] = d.get(k, 0) + 1`. */
  function Bump<K>(m: map<K, nat>, k: K): map<K, nat> { m[k := (if k in m then m[k] else 0) + 1] }

  lemma BumpAddsOne<K>(m: map<K, nat>, k: K)
    ensures Total(Bump(m, k)) == Total(m) + 1
  {
    var b := Bump(m, k);
    TotalSplits(b, k);
    if k in m {
      TotalSplits(m, k);
      assert b - {k} == m - {k};
    } else {
      assert b - {k} == m;
    }
  }

  lemma {:induction false} TotalOfZeros<K>(m: map<K, nat>)
    requires forall k | k in m :: m[k] == 0
    ensures Total(m) == 0
    decreases m.Keys
  {
    if m != map[] {
      var k :| k in m && Total(m) == m[k] + Total(m - {k});
      TotalOfZeros(m - {k});
    }
  }

  // ------------------------------------------------------------------------- the snapshot

  datatype Health = Health(
    queued: nat, eligible: nat, approvalHeld: nat, machineBound: nat, reroutable: nat, retryWaiting: nat,
    holdReasons: map<Reason, nat>, unexplained: nat, oldestAge: Time, eligibleByMachine: map<MachineId, nat>)

  function IsRetry(now: Time): Row -> bool { (r: Row) => WaitsForRetry(r, now) }
  function IsApproval(now: Time): Row -> bool { (r: Row) => WaitsForApproval(r, now) }
  function IsEligible(healthy: set<MachineId>, now: Time): Row -> bool { (r: Row) => Eligible(r, healthy, now) }
  function IsStranded(healthy: set<MachineId>, now: Time): Row -> bool { (r: Row) => Stranded(r, healthy, now) }
  function IsReroutable(healthy: set<MachineId>, now: Time): Row -> bool { (r: Row) => Reroutable(r, healthy, now) }
  function IsOffHealthy(healthy: set<MachineId>, now: Time): Row -> bool { (r: Row) => OffHealthyEligible(r, healthy, now) }
  function IsOnHealthy(healthy: set<MachineId>, now: Time): Row -> bool {
    (r: Row) => Eligible(r, healthy, now) && OnHealthy(r, healthy)
  }

  /** The four classes partition the queue, and only eligible rows can be rerouted. */
  lemma {:induction false} ClassesPartition(rows: seq<Row>, healthy: set<MachineId>, now: Time)
    ensures |rows| == Count(rows, IsEligible(healthy, now)) + Count(rows, IsApproval(now)) + Count(rows, IsRetry(now))
                    + Count(rows, IsStranded(healthy, now))
    ensures Count(rows, IsReroutable(healthy, now)) <= Count(rows, IsEligible(healthy, now))
    ensures Count(rows, IsEligible(healthy, now)) == Count(rows, IsOnHealthy(healthy, now)) + Count(rows, IsOffHealthy(healthy, now))
  {
    if rows != [] { ClassesPartition(rows[..|rows| - 1], healthy, now); }
  }

  /** The rows that are waiting have a reason whenever the loop asks for one. */
  lemma WaitingRowsHaveReasons(r: Row, healthy: set<MachineId>, now: Time)
    ensures WaitsForRetry(r, now) ==> QueuedHoldReason(r.metadata, r.nextAttempt, now, None, {}).Some?
    ensures WaitsForApproval(r, now) ==> QueuedHoldReason(r.metadata, None, now, None, {}).Some?
    ensures Stranded(r, healthy, now) && QueuedHoldReason(r.metadata, None, now, r.machine, healthy).None? ==>
      r.machine.None? || healthy == {}
  {
  }

  /** A reason is missing exactly when a worker may claim the row now, or could after a reroute. */
  lemma HoldReasonMeans(m: Metadata, retryAt: Option<Time>, now: Time, source: Option<MachineId>, healthy: set<MachineId>)
    ensures var r := QueuedHoldReason(m, retryAt, now, source, healthy);
      && (r.None? <==> TaskIsClaimEligible(m) && (retryAt.None? || retryAt.value <= now)
                       && (source.None? || source.value in healthy || TaskIsAutomaticEligible(m)))
      && (r.Some? && r.value.RetryUntil? <==> TaskIsClaimEligible(m) && retryAt.Some? && retryAt.value > now)
      && (r.Some? && m.holdReason.Some? && m.holdReason.value != "" ==> r.value == Given(m.holdReason.value) || r.value.RetryUntil?)
  {
  }

  /**
    What each reason stands for: a hold by the queue state, then a missing approval, then a back-off, then a machine that
    the task is bound to; the caller's own text replaces all of them but the back-off.
   */
  lemma ReasonsMean(m: Metadata, retryAt: Option<Time>, now: Time, source: Option<MachineId>, healthy: set<MachineId>)
    ensures var r := QueuedHoldReason(m, retryAt, now, source, healthy);
      var stated := m.queueState == PendingApproval || m.queueState == ApprovalRequired || m.queueState == Blocked;
      var missing := !stated && m.requiresApproval && m.approval != Approved && m.approval != Deployed;
      var waits := !stated && !missing && retryAt.Some? && now < retryAt.value;
      var bound := !stated && !missing && !waits && source.Some? && source.value !in healthy
        && (m.noFailover || m.pinnedMachine || m.requiresLocalResources);
      && (waits <==> r == Some(RetryUntil(if retryAt.Some? then retryAt.value else 0)))
      && (r.None? <==> !stated && !missing && !waits && !bound)
      && ((stated || missing || bound) && (m.holdReason == None || m.holdReason == Some("")) ==>
            r == Some(if stated then State(m.queueState) else if missing then ApprovalMissing(m.approval) else MachineUnavailable(source)))
      && ((stated || missing || bound) && m.holdReason.Some? && m.holdReason.value != "" ==> r == Some(Given(m.holdReason.value)))
  {
  }

  /**
    The eligible rows of a machine are exactly what its worker could claim now; the approval-held and the waiting rows
    are exactly the queued ones that no worker anywhere could.
   */
  lemma ClassesAgreeWithClaims(agents: Agents, t: Task, healthy: set<MachineId>, now: Time)
    requires t.status.Queued? && t.agent in agents && t.executionMachine.Some?
    ensures forall m :: MachineOf(RowOf(t), healthy, now) == Some(m) <==> m in healthy && Claimable(agents, t, m, now)
    ensures WaitsForRetry(RowOf(t), now) || WaitsForApproval(RowOf(t), now) <==> forall m :: !Claimable(agents, t, m, now)
    ensures WaitsForRetry(RowOf(t), now) <==> t.nextAttempt.Some? && now < t.nextAttempt.value
  {
    assert Claimable(agents, t, t.executionMachine.value, now) <==> TaskIsClaimEligible(t.metadata) && RetryElapsed(t, now);
  }

  /** Off the healthy machines a claimable row is eligible if it may move to one, else it is stranded. */
  lemma OffTheFleetMeans(r: Row, healthy: set<MachineId>, now: Time)
    requires !WaitsForRetry(r, now) && TaskIsClaimEligible(r.metadata) && forall m | m in healthy :: r.machine != Some(m)
    ensures var pinned := r.metadata.noFailover || r.metadata.pinnedMachine || r.metadata.requiresLocalResources;
      && (Eligible(r, healthy, now) <==> !pinned && exists m :: m in healthy)
      && (Stranded(r, healthy, now) <==> pinned || healthy == {})
  {
    if healthy != {} { var m :| m in healthy; }
  }

  /** A row is reroutable exactly if it is portable, not waiting, and some healthy machine is not its own. */
  lemma ReroutableMeans(r: Row, healthy: set<MachineId>, now: Time)
    ensures Reroutable(r, healthy, now) <==>
      && (r.nextAttempt.Some? ==> r.nextAttempt.value <= now)
      && TaskIsAutomaticEligible(r.metadata) && exists m :: m in healthy && r.machine != Some(m)
  {
    if OnHealthy(r, healthy) {
      var others := healthy - {r.machine.value};
      assert |others| == |healthy| - 1;
      if others != {} { var m :| m in others; } else { assert healthy == {r.machine.value}; }
    } else if healthy != {} {
      var m :| m in healthy;
    }
  }

  function RowOf(t: Task): Row { Row(t.createdAt, t.nextAttempt, t.executionMachine, t.metadata) }

  predicate Step(rows: seq<Row>, i: nat, p: Row -> bool)
    requires i < |rows|
  {
    Count(rows[..i + 1], p) == Count(rows[..i], p) + if p(rows[i]) then 1 else 0
  }

  lemma CountsStep(rows: seq<Row>, i: nat, healthy: set<MachineId>, now: Time)
    requires i < |rows|
    ensures Step(rows, i, IsOnHealthy(healthy, now)) && Step(rows, i, IsApproval(now)) && Step(rows, i, IsRetry(now))
    ensures Step(rows, i, IsStranded(healthy, now)) && Step(rows, i, IsReroutable(healthy, now))
    ensures Step(rows, i, IsOffHealthy(healthy, now))
  {
    assert rows[..i + 1][..i] == rows[..i];
  }

  /** Why a waiting row waits; None for an eligible one. */
  function ReasonOf(r: Row, healthy: set<MachineId>, now: Time): Option<Reason> {
    if WaitsForRetry(r, now) then QueuedHoldReason(r.metadata, r.nextAttempt, now, None, {})
    else if WaitsForApproval(r, now) then QueuedHoldReason(r.metadata, None, now, None, {})
    else if Stranded(r, healthy, now) then
      var asked := QueuedHoldReason(r.metadata, None, now, r.machine, healthy);
      if asked.Some? then asked else Some(MachineUnavailable(r.machine))
    else None
  }

  function MachineOf(r: Row, healthy: set<MachineId>, now: Time): Option<MachineId> {
    if Eligible(r, healthy, now) && OnHealthy(r, healthy) then r.machine else None
  }

  function ReasonIs(healthy: set<MachineId>, now: Time, k: Reason): Row -> bool { (r: Row) => ReasonOf(r, healthy, now) == Some(k) }
  function MachineIs(healthy: set<MachineId>, now: Time, k: MachineId): Row -> bool { (r: Row) => MachineOf(r, healthy, now) == Some(k) }

  function Get<K>(m: map<K, nat>, k: K): nat { if k in m then m[k] else 0 }

  ghost predicate CountsReasons(m: map<Reason, nat>, rows: seq<Row>, healthy: set<MachineId>, now: Time) {
    forall k :: Get(m, k) == Count(rows, ReasonIs(healthy, now, k))
  }

  ghost predicate CountsMachines(m: map<MachineId, nat>, rows: seq<Row>, healthy: set<MachineId>, now: Time) {
    forall k :: Get(m, k) == Count(rows, MachineIs(healthy, now, k))
  }

  function Bumped<K>(m: map<K, nat>, k: Option<K>): map<K, nat> { if k.Some? then Bump(m, k.value) else m }

  /** Both dictionaries stay exact when the next row is counted under its own key. */
  lemma DictionariesStep(reasons: map<Reason, nat>, machines: map<MachineId, nat>, rows: seq<Row>, i: nat,
                         healthy: set<MachineId>, now: Time)
    requires i < |rows|
    requires CountsReasons(reasons, rows[..i], healthy, now) && CountsMachines(machines, rows[..i], healthy, now)
    ensures CountsReasons(Bumped(reasons, ReasonOf(rows[i], healthy, now)), rows[..i + 1], healthy, now)
    ensures CountsMachines(Bumped(machines, MachineOf(rows[i], healthy, now)), rows[..i + 1], healthy, now)
  {
    assert rows[..i + 1][..i] == rows[..i];
  }

  /** The age of the oldest eligible row, or zero. */
  ghost predicate IsOldest(age: Time, rows: seq<Row>, healthy: set<MachineId>, now: Time) {
    && age >= 0
    && (forall j | 0 <= j < |rows| && Eligible(rows[j], healthy, now) :: now - rows[j].createdAt <= age)
    && (age > 0 ==> exists j :: 0 <= j < |rows| && Eligible(rows[j], healthy, now) && now - rows[j].createdAt == age)
  }

  lemma OldestStep(age: Time, rows: seq<Row>, i: nat, healthy: set<MachineId>, now: Time)
    requires i < |rows| && IsOldest(age, rows[..i], healthy, now)
    ensures IsOldest(if Eligible(rows[i], healthy, now) then Max(age, Max(0, now - rows[i].createdAt)) else age, rows[..i + 1], healthy, now)
  {
    var next := if Eligible(rows[i], healthy, now) then Max(age, Max(0, now - rows[i].createdAt)) else age;
    if next > age {
      assert rows[..i + 1][i] == rows[i];
    } else if age > 0 {
      var j :| 0 <= j < i && Eligible(rows[..i][j], healthy, now) && now - rows[..i][j].createdAt == age;
      assert rows[..i + 1][j] == rows[..i][j];
    }
    assert rows[..i + 1] == rows[..i] + [rows[i]];
  }

  /** The counters and dictionaries of the loop. */
  datatype Tally = Tally(held: nat, retry: nat, bound: nat, reroutable: nat, oldest: Time,
                         reasons: map<Reason, nat>, byMachine: map<MachineId, nat>)

  ghost predicate Counted(t: Tally, rows: seq<Row>, healthy: set<MachineId>, now: Time) {
    && t.held == Count(rows, IsApproval(now)) && t.retry == Count(rows, IsRetry(now))
    && t.bound == Count(rows, IsStranded(healthy, now)) && t.reroutable == Count(rows, IsReroutable(healthy, now))
    && t.byMachine.Keys == healthy
    && Total(t.byMachine) == Count(rows, IsOnHealthy(healthy, now)) && Total(t.reasons) == t.held + t.retry + t.bound
    && CountsReasons(t.reasons, rows, healthy, now) && CountsMachines(t.byMachine, rows, healthy, now)
    && IsOldest(t.oldest, rows, healthy, now)
  }

  lemma NothingCounted(healthy: set<MachineId>, now: Time)
    ensures Counted(Tally(0, 0, 0, 0, 0, map[], map m | m in healthy :: 0), [], healthy, now)
  {
    var zeros: map<MachineId, nat> := map m | m in healthy :: 0;
    TotalOfZeros(zeros);
  }

  /** One more row, counted by what it is. */
  function Advance(t: Tally, r: Row, healthy: set<MachineId>, now: Time): Tally {
    Tally(t.held + One(WaitsForApproval(r, now)), t.retry + One(WaitsForRetry(r, now)), t.bound + One(Stranded(r, healthy, now)),
          t.reroutable + One(Reroutable(r, healthy, now)),
          if Eligible(r, healthy, now) then Max(t.oldest, Max(0, now - r.createdAt)) else t.oldest,
          Bumped(t.reasons, ReasonOf(r, healthy, now)), Bumped(t.byMachine, MachineOf(r, healthy, now)))
  }

  lemma BumpedAdds<K>(m: map<K, nat>, k: Option<K>)
    ensures Total(Bumped(m, k)) == Total(m) + One(k.Some?)
  {
    if k.Some? { BumpAddsOne(m, k.value); }
  }

  lemma AdvanceCounts(t: Tally, rows: seq<Row>, i: nat, healthy: set<MachineId>, now: Time)
    requires i < |rows| && Counted(t, rows[..i], healthy, now)
    ensures Counted(Advance(t, rows[i], healthy, now), rows[..i + 1], healthy, now)
  {
    CountsStep(rows, i, healthy, now);
    DictionariesStep(t.reasons, t.byMachine, rows, i, healthy, now);
    OldestStep(t.oldest, rows, i, healthy, now);
    BumpedAdds(t.reasons, ReasonOf(rows[i], healthy, now));
    BumpedAdds(t.byMachine, MachineOf(rows[i], healthy, now));
    WaitingRowsHaveReasons(rows[i], healthy, now);
  }

  /** The second counting pass, over the same rows. */
  method CountOffHealthy(rows: seq<Row>, healthy: set<MachineId>, now: Time) returns (n: nat)
    ensures n == Count(rows, IsOffHealthy(healthy, now))
  {
    n := 0;
    for i := 0 to |rows|
      invariant n == Count(rows[..i], IsOffHealthy(healthy, now))
    {
      CountsStep(rows, i, healthy, now);
      if OffHealthyEligible(rows[i], healthy, now) { n := n + 1; }
    }
    assert rows[..|rows|] == rows;
  }

  /** The body of the loop: each row is counted once, under the class it belongs to. */
  method CountRow(t: Tally, row: Row, healthy: set<MachineId>, now: Time) returns (r: Tally)
    ensures r == Advance(t, row, healthy, now)
  {
    WaitingRowsHaveReasons(row, healthy, now);
    r := t;
    var m := row.metadata;
    if row.nextAttempt.Some? && row.nextAttempt.value > now {
      var reason := QueuedHoldReason(m, row.nextAttempt, now, None, {}).value;
      return r.(retry := r.retry + 1, reasons := Bump(r.reasons, reason));
    }
    if !TaskIsClaimEligible(m) {
      var reason := QueuedHoldReason(m, None, now, None, {}).value;
      return r.(held := r.held + 1, reasons := Bump(r.reasons, reason));
    }
    if row.machine.Some? && row.machine.value in healthy {
      r := r.(byMachine := Bump(r.byMachine, row.machine.value));
      if TaskIsAutomaticEligible(m) && |healthy| > 1 { r := r.(reroutable := r.reroutable + 1); }
    } else if TaskIsAutomaticEligible(m) && healthy != {} {
      r := r.(reroutable := r.reroutable + 1);
    } else {
      var asked := QueuedHoldReason(m, None, now, row.machine, healthy);
      var reason := if asked.Some? then asked.value else MachineUnavailable(row.machine);
      return r.(bound := r.bound + 1, reasons := Bump(r.reasons, reason));
    }
    r := r.(oldest := Max(r.oldest, Max(0, now - row.createdAt)));
  }

  /**
    The snapshot over one consistent set of queued rows: each counter is the size of its class, the three waiting
    classes have one reason per row, and nothing is left unexplained.
   */
  method Snapshot(rows: seq<Row>, healthy: set<MachineId>, now: Time) returns (h: Health)
    ensures h.queued == |rows| == h.eligible + h.approvalHeld + h.retryWaiting + h.machineBound
    ensures h.unexplained == 0
    ensures h.eligible == Count(rows, IsEligible(healthy, now)) && h.machineBound == Count(rows, IsStranded(healthy, now))
    ensures h.approvalHeld == Count(rows, IsApproval(now)) && h.retryWaiting == Count(rows, IsRetry(now))
    ensures h.reroutable == Count(rows, IsReroutable(healthy, now)) <= h.eligible
    ensures Total(h.holdReasons) == h.approvalHeld + h.retryWaiting + h.machineBound
    ensures Total(h.eligibleByMachine) + Count(rows, IsOffHealthy(healthy, now)) == h.eligible
    ensures CountsReasons(h.holdReasons, rows, healthy, now) && CountsMachines(h.eligibleByMachine, rows, healthy, now)
    ensures IsOldest(h.oldestAge, rows, healthy, now)
  {
    var t := Tally(0, 0, 0, 0, 0, map[], map m | m in healthy :: 0);
    NothingCounted(healthy, now);
    var i := 0;
    while i < |rows|
      invariant i <= |rows| && Counted(t, rows[..i], healthy, now)
    {
      AdvanceCounts(t, rows, i, healthy, now);
      t := CountRow(t, rows[i], healthy, now);
      i := i + 1;
    }
    assert rows[..|rows|] == rows;
    ClassesPartition(rows, healthy, now);
    var eligible := SumValues(t.byMachine);
    var pass := CountOffHealthy(rows, healthy, now);
    eligible := eligible + pass;
    h := Health(|rows|, eligible, t.held, t.bound, t.reroutable, t.retry, t.reasons,
                Max(0, |rows| - eligible - t.held - t.retry - t.bound), t.oldest, t.byMachine);
  }

  /** `sum(d.values())`. */
  method SumValues<K(==)>(m: map<K, nat>) returns (s: nat)
    ensures s == Total(m)
  {
    s := 0;
    var rest := m;
    while rest != map[]
      invariant s + Total(rest) == Total(m)
      decreases rest.Keys
    {
      var k :| k in rest;
      TotalSplits(rest, k);
      s := s + rest[k];
      rest := rest - {k};
    }
  }

  // --------------------------------------------------------------------- the whole report

  /** `select ... from tasks where status = 'queued'`. */
  function QueuedRows(ts: Table): seq<Row> {
    if ts == [] then []
    else QueuedRows(ts[..|ts| - 1]) + if ts[|ts| - 1].status.Queued? then [RowOf(ts[|ts| - 1])] else []
  }

  /** `count(*)` of the running rows whose lease is over, or that went quiet without a token. */
  function StalledRows(ts: Table, now: Time): nat {
    if ts == [] then 0 else StalledRows(ts[..|ts| - 1], now) + One(LeaseExpired(ts[|ts| - 1], now))
  }

  /** What the report calls stalled is exactly what the steward would recover, were nothing locked. */
  lemma {:induction false} StalledIsRecoverable(ts: Table, now: Time)
    ensures StalledRows(ts, now) == |Steward.ExpiredRows(ts, now, {})|
  {
    if ts == [] {
      assert Steward.ExpiredRows(ts, now, {}) == {};
    } else {
      var n := |ts| - 1;
      StalledIsRecoverable(ts[..n], now);
      assert Steward.ExpiredRows(ts, now, {})
          == Steward.ExpiredRows(ts[..n], now, {}) + if LeaseExpired(ts[n], now) then {n} else {};
      assert n !in Steward.ExpiredRows(ts[..n], now, {});
    }
  }

  lemma {:induction false} StalledAreRunning(ts: Table, now: Time)
    ensures StalledRows(ts, now) <= Balancing.Sum(IsRunning(), ts)
  {
    if ts != [] { StalledAreRunning(ts[..|ts| - 1], now); }
  }

  function RowsIn(ts: Table, s: Status): set<nat> { set i: nat | i < |ts| && ts[i].status == s }

  lemma RunningAreCounted(ts: Table)
    ensures Balancing.Sum(IsRunning(), ts) == |RowsIn(ts, Running)|
  {
    Balancing.SumOfMarks(IsRunning(), ts);
    assert Balancing.Marked(IsRunning(), ts) == RowsIn(ts, Running);
  }

  function LoadMachines(loads: seq<Balancing.Load>): set<MachineId> { set l | l in loads :: l.machine }

  predicate IsIdle(h: Health, l: Balancing.Load) { l.running == 0 && Get(h.eligibleByMachine, l.machine) == 0 }

  /** The ids of the idle machines, in the order of the load rows. */
  function IdleMachines(h: Health, loads: seq<Balancing.Load>): (r: seq<MachineId>)
    ensures forall m :: m in r <==> exists l :: l in loads && l.machine == m && IsIdle(h, l)
  {
    if loads == [] then []
    else
      var n := |loads| - 1;
      assert loads == loads[..n] + [loads[n]];
      IdleMachines(h, loads[..n]) + if IsIdle(h, loads[n]) then [loads[n].machine] else []
  }

  // --------------------------------------------------------------------------- throughput

  function IsRunning(): Task -> nat { (t: Task) => One(t.status.Running?) }

  /** `status = 'completed' and completed_at >= ...`. */
  function CompletedSince(cutoff: Time): Task -> nat {
    (t: Task) => One(t.status.Completed? && t.completedAt.Some? && t.completedAt.value >= cutoff)
  }

  /** An accepted completion at or after the cutoff. */
  predicate CompletesSince(agents: Agents, ts: Table, op: Op, cutoff: Time) {
    && op.On? && op.id < |ts| && op.event.Complete? && op.event.now >= cutoff
    && Accepts(agents, ts[op.id], op.event)
  }

  function CompletionsSince(agents: Agents, ts: Table, ops: seq<Op>, cutoff: Time): nat {
    if ops == [] then 0
    else
      var n := |ops| - 1;
      CompletionsSince(agents, ts, ops[..n], cutoff)
      + One(CompletesSince(agents, TableRun(agents, ts, ops[..n]), ops[n], cutoff))
  }

  lemma RowCompletes(agents: Agents, t: Task, e: Event, cutoff: Time)
    ensures CompletedSince(cutoff)(LeaseProtocol.Step(agents, t, e))
         == CompletedSince(cutoff)(t) + One(e.Complete? && e.now >= cutoff && Accepts(agents, t, e))
  {
  }

  lemma StepCompletes(agents: Agents, ts: Table, op: Op, cutoff: Time)
    requires op.Create? ==> !op.task.status.Completed?
    ensures Balancing.Sum(CompletedSince(cutoff), TableStep(agents, ts, op))
         == Balancing.Sum(CompletedSince(cutoff), ts) + One(CompletesSince(agents, ts, op, cutoff))
  {
    match op
    case Create(t) => assert (ts + [t])[..|ts|] == ts;
    case On(id, e) =>
      if id < |ts| {
        RowCompletes(agents, ts[id], e, cutoff);
        Balancing.SumUpdate(CompletedSince(cutoff), ts, id, LeaseProtocol.Step(agents, ts[id], e));
      }
  }

  /** The reported throughput is the number of completions accepted since the cutoff, on every run. */
  lemma {:induction false} ThroughputCountsCompletions(agents: Agents, ts: Table, ops: seq<Op>, cutoff: Time)
    requires forall n | 0 <= n < |ops| && ops[n].Create? :: !ops[n].task.status.Completed?
    ensures Balancing.Sum(CompletedSince(cutoff), TableRun(agents, ts, ops))
         == Balancing.Sum(CompletedSince(cutoff), ts) + CompletionsSince(agents, ts, ops, cutoff)
  {
    if ops != [] {
      var n := |ops| - 1;
      ThroughputCountsCompletions(agents, ts, ops[..n], cutoff);
      StepCompletes(agents, TableRun(agents, ts, ops[..n]), ops[n], cutoff);
    }
  }

  /** In minutes, before rounding: none if there is work but nothing was completed. */
  function DrainMinutes(eligible: nat, completed: nat): Option<real> {
    var rate := completed as real / 5.0;
    if eligible > 0 && rate > 0.0 then Some(eligible as real / rate) else if eligible == 0 then Some(0.0) else None
  }

  lemma DrainMeans(eligible: nat, completed: nat)
    ensures DrainMinutes(eligible, completed).None? <==> eligible > 0 && completed == 0
    ensures completed > 0 ==> DrainMinutes(eligible, completed).value * completed as real == 5.0 * eligible as real
  {
  }

  const THROUGHPUT_WINDOW: Time := 300 * SECOND

  datatype HealthReport = HealthReport(health: Health, running: nat, stalled: nat, completed: nat, drain: Option<real>,
                                       idle: seq<MachineId>, noStalled: bool, noneIdleWhileBacklogged: bool, noUnexplained: bool)

  /**
    The report over one consistent table and the load rows of the healthy machines: the snapshot of its queued rows, the
    running, stalled and recently completed rows, the idle machines, and the three invariants that it publishes; the
    last of these always holds.
   */
  method ReportHealth(ts: Table, loads: seq<Balancing.Load>, now: Time) returns (r: HealthReport)
    ensures r.health.queued == |QueuedRows(ts)| == r.health.eligible + r.health.approvalHeld + r.health.retryWaiting + r.health.machineBound
    ensures CountsReasons(r.health.holdReasons, QueuedRows(ts), LoadMachines(loads), now)
    ensures r.health.reroutable == Count(QueuedRows(ts), IsReroutable(LoadMachines(loads), now))
    ensures r.running == Balancing.Sum(IsRunning(), ts) && r.stalled == |Steward.ExpiredRows(ts, now, {})| <= r.running
    ensures r.running == |RowsIn(ts, Running)|
    ensures r.completed == Balancing.Sum(CompletedSince(now - 300_000_000), ts)
    ensures r.drain == DrainMinutes(r.health.eligible, r.completed)
    ensures forall m :: m in r.idle <==>
      exists l :: l in loads && l.machine == m && l.running == 0 && Get(r.health.eligibleByMachine, m) == 0
    ensures r.noStalled <==> Steward.ExpiredRows(ts, now, {}) == {}
    ensures r.noneIdleWhileBacklogged <==> r.health.reroutable == 0 || forall l | l in loads :: !IsIdle(r.health, l)
    ensures r.noUnexplained
  {
    var h := Snapshot(QueuedRows(ts), LoadMachines(loads), now);
    var stalled, idle := StalledRows(ts, now), IdleMachines(h, loads);
    var running, completed := Balancing.Sum(IsRunning(), ts), Balancing.Sum(CompletedSince(now - THROUGHPUT_WINDOW), ts);
    StalledIsRecoverable(ts, now);
    StalledAreRunning(ts, now);
    RunningAreCounted(ts);
    NoIdleMeans(h, loads);
    r := HealthReport(h, running, stalled, completed, DrainMinutes(h.eligible, completed), idle, stalled == 0, h.reroutable == 0 || idle == [],
                      h.queued == h.eligible + h.approvalHeld + h.retryWaiting + h.machineBound);
  }

  lemma NoIdleMeans(h: Health, loads: seq<Balancing.Load>)
    ensures IdleMachines(h, loads) == [] <==> forall l | l in loads :: !IsIdle(h, l)
  {
    var idle := IdleMachines(h, loads);
    if idle != [] { assert idle[0] in idle; }
    if exists l :: l in loads && IsIdle(h, l) {
      var l :| l in loads && IsIdle(h, l);
      assert l.machine in idle;
    }
  }
}
