/** The steward's whole transaction: reconcile the ledgers, then sweep the queue. */
module StewardQueue {
  import opened Tasks
  import opened LeaseProtocol
  import opened Queries
  import opened Steward
  import opened TableRuns
  import opened ControlPlane
  import TaskStore

  lemma KnownAfterReconciling(agents: Agents, w: World, actions: seq<Action>)
    requires KnownAgents(agents, w.tasks) && Runs(agents, w, actions) && forall a | a in actions :: a.SyncRequest? || a.SyncPeer?
    ensures KnownAgents(agents, Final(agents, w, actions).tasks)
    decreases |actions|
  {
    if actions != [] {
      assert actions[0] in actions;
      KnownAfterReconciling(agents, Next(agents, w, actions[0]), actions[1..]);
    }
  }

  lemma {:induction false} OnlyRequestActions(rows: seq<nat>)
    ensures forall a | a in RequestActions(rows) :: a.SyncRequest?
  {
    if rows != [] { OnlyRequestActions(rows[..|rows| - 1]); }
  }

  lemma ReconciliationActions(agents: Agents, rs: seq<Request>, ps: seq<Peer>, now: Time, limit: nat, lockedRequests: set<nat>,
                              lockedPeers: set<nat>, actions: seq<Action>)
    requires IsReconciliation(agents, rs, ps, now, limit, lockedRequests, lockedPeers, actions)
    ensures forall a | a in actions :: a.SyncRequest? || a.SyncPeer?
  {
    var rows, peerRows, peerActions :|
      && RequestSelection(rs, lockedRequests, limit, rows) && PeerSelection(ps, lockedPeers, limit, peerRows)
      && IsPeerActions(agents, ps, peerRows, now, peerActions) && actions == RequestActions(rows) + peerActions;
    OnlyRequestActions(rows);
    forall a | a in actions ensures a.SyncRequest? || a.SyncPeer? {
      if a in peerActions {
        var j :| 0 <= j < |peerActions| && peerActions[j] == a;
        assert IsBestFor(agents, ps[peerRows[j]], peerRows[j], now, peerActions[j]);
      }
    }
  }

  /** A steward's steps create no rows. */
  lemma {:induction false} StewardRunsCreateNothing(agents: Agents, nodes: seq<Balancing.Node>, ts: Table, ops: seq<Op>)
    requires Rebalancing.StewardRun(agents, nodes, ts, ops)
    ensures forall n | 0 <= n < |ops| :: ops[n].On?
  {
    if ops != [] {
      StewardRunsCreateNothing(agents, nodes, ts, ops[..|ops| - 1]);
    }
  }

  lemma SweepsKeepGoodTables(agents: Agents, nodes: seq<Balancing.Node>, before: Table, after: Table, r: SweepResult, ops: seq<Op>,
                             stages: Stages, observed: Time, locked: set<nat>, maxMoves: nat)
    requires GoodTable(agents, before) && r.Swept?
    requires SweepPromise(agents, nodes, before, after, r, ops, stages, observed, locked, maxMoves)
    ensures GoodTable(agents, after)
  {
    StewardRunsCreateNothing(agents, nodes, before, ops);
    EveryReachableRowIsGood(agents, before, ops);
  }

  /** What a steward call keeps: if every row was good before it, every row is good after it. */
  lemma StewardKeepsGoodTables(agents: Agents, w: World, actions: seq<Action>, nodes: seq<Balancing.Node>, after: Table, r: SweepResult,
                               ops: seq<Op>, stages: Stages, observed: Time, locked: set<nat>, maxMoves: nat)
    requires GoodTable(agents, w.tasks) && Runs(agents, w, actions) && forall a | a in actions :: a.SyncRequest? || a.SyncPeer?
    requires r.Swept? && SweepPromise(agents, nodes, Final(agents, w, actions).tasks, after, r, ops, stages, observed, locked, maxMoves)
    ensures GoodTable(agents, after)
  {
    LedgerRunsKeepGoodTables(agents, w, actions);
    SweepsKeepGoodTables(agents, nodes, Final(agents, w, actions).tasks, after, r, ops, stages, observed, locked, maxMoves);
  }

  /**
    One call of the steward. Without the lock, or with a bad limit, nothing changes. Otherwise the ledgers run their
    reconciliation first, and the sweep keeps its promise from the table which that leaves behind.
   */
  method StewardQueue(store: TaskStore.Store, ledgers: Ledgers, now: Time, maxMoves: int, acquired: bool, machines: seq<Machine>,
                      employed: set<MachineId>, locked: set<nat>, lockedRequests: set<nat>, lockedPeers: set<nat>)
    returns (r: SweepResult, synced: nat, created: nat, mirrored: nat,
             ghost actions: seq<Action>, ghost rows: seq<nat>, ghost peerRows: seq<nat>, ghost ops: seq<Op>, ghost stages: Stages)
    requires DistinctMachines(machines) && KnownAgents(store.agents, store.tasks)
    modifies store, ledgers
    ensures r.BadMaxMoves? <==> !(1 <= maxMoves <= 500)
    ensures r.SkippedLocked? <==> 1 <= maxMoves <= 500 && !acquired
    ensures !r.Swept? ==> synced == created == mirrored == 0
    ensures !r.Swept? ==> store.tasks == old(store.tasks) && ledgers.requests == old(ledgers.requests) && ledgers.peers == old(ledgers.peers)
    ensures r.Swept? ==>
      && Runs(store.agents, old(ledgers.Snapshot(store)), actions)
      && IsReconciliation(store.agents, old(ledgers.requests), old(ledgers.peers), now, 4 * maxMoves, lockedRequests, lockedPeers, actions)
      && var mid := Final(store.agents, old(ledgers.Snapshot(store)), actions);
      && ledgers.Snapshot(store) == mid.(tasks := store.tasks)
      && |mid.requests| == |old(ledgers.requests)| && synced == |Changed(old(ledgers.requests), mid.requests)|
      && |mid.peers| == |old(ledgers.peers)| && mirrored == |Changed(StatusesOf(old(ledgers.peers)), StatusesOf(mid.peers))|
      && |mid.tasks| == |old(store.tasks)| + created
      && RequestSelection(old(ledgers.requests), lockedRequests, 4 * maxMoves, rows)
      && Followed(old(ledgers.requests), mid.requests, rows, old(store.tasks))
      && PeerSelection(old(ledgers.peers), lockedPeers, 4 * maxMoves, peerRows)
      && DealtWith(old(ledgers.peers), mid.peers, peerRows, |old(store.tasks)|, mid.tasks, now)
      && SweepPromise(store.agents, HealthyNodes(machines, employed, now), mid.tasks, store.tasks, r, ops, stages, now, locked, maxMoves)
  {
    synced, created, mirrored, actions, rows, peerRows, ops, stages :=
      0, 0, 0, [], [], [], [], Stages(store.tasks, [], store.tasks, [], []);
    r := BadMaxMoves;
    if maxMoves < 1 || maxMoves > 500 { return; }
    r := SkippedLocked;
    if !acquired { return; }
    ghost var start := ledgers.Snapshot(store);
    synced, created, mirrored, actions, rows, peerRows := ledgers.Reconcile(store, now, 4 * maxMoves, lockedRequests, lockedPeers);
    ReconciliationActions(store.agents, start.requests, start.peers, now, 4 * maxMoves, lockedRequests, lockedPeers, actions);
    KnownAfterReconciling(store.agents, start, actions);
    r, ops, stages := Sweep(store, now, maxMoves, true, machines, employed, locked);
  }
}
