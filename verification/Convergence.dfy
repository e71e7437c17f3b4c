/** Sweeping settles: all but a bounded number of complete sweeps find nothing that they could move. */
module Convergence {
  import opened Tasks
  import opened LeaseProtocol
  import opened Balancing
  import opened Rebalancing
  import opened Steward

  /** What the other processes did since the last sweep, the arguments of one sweep, and what it did. */
  datatype Round = Round(quiet: seq<Op>, observed: Time, locked: set<nat>, maxMoves: nat, result: SweepResult, ops: seq<Op>,
                         stages: Stages, after: Table)

  /** Claims, renewals, completions, failures, recoveries and default assignments: nothing is created or moved. */
  ghost predicate QuietOps(ops: seq<Op>) { forall op | op in ops :: op.On? && !op.event.Route? && !op.event.Failover? }

  function Reached(ts: Table, rounds: seq<Round>): Table { if rounds == [] then ts else rounds[|rounds| - 1].after }

  /** The table that the last sweep of these rounds meets. */
  function MetByLast(agents: Agents, ts: Table, rounds: seq<Round>): Table
    requires rounds != []
  {
    TableRun(agents, Reached(ts, rounds[..|rounds| - 1]), rounds[|rounds| - 1].quiet)
  }

  /** Sweeps, each of which keeps its promise, with quiet steps between them. */
  ghost predicate Rounds(agents: Agents, nodes: seq<Node>, ts: Table, rounds: seq<Round>) {
    rounds == [] ||
    (var n := |rounds| - 1;
     && Rounds(agents, nodes, ts, rounds[..n])
     && QuietOps(rounds[n].quiet) && rounds[n].result.Swept? && rounds[n].maxMoves >= 1
     && SweepPromise(agents, nodes, MetByLast(agents, ts, rounds), rounds[n].after, rounds[n].result, rounds[n].ops,
                     rounds[n].stages, rounds[n].observed, rounds[n].locked, rounds[n].maxMoves))
  }

  /** The query of the last sweep is not cut short, and there are machines to move work to. */
  ghost predicate LastIsUncut(agents: Agents, nodes: seq<Node>, ts: Table, rounds: seq<Round>)
    requires rounds != []
  {
    var r := rounds[|rounds| - 1];
    nodes != [] && AllDueRowsFit(agents, MetByLast(agents, ts, rounds), r.observed, r.maxMoves, r.locked)
  }

  /**
    The last sweep makes no move; no due row is left that the rule wants to move and, if every healthy machine has an
    agent, all portable due work is on healthy machines.
   */
  ghost predicate LastIsSettled(agents: Agents, nodes: seq<Node>, ts: Table, rounds: seq<Round>)
    requires rounds != []
  {
    var r := rounds[|rounds| - 1];
    && r.result.Swept? && r.result.rerouted == 0 && NothingToMove(agents, nodes, r.after, r.observed)
    && (StaffedEverywhere(agents, nodes) ==> Evacuated(agents, nodes, MetByLast(agents, ts, rounds), r.after, r.observed))
  }

  ghost function UncutSweeps(agents: Agents, nodes: seq<Node>, ts: Table, rounds: seq<Round>): nat {
    if rounds == [] then 0
    else UncutSweeps(agents, nodes, ts, rounds[..|rounds| - 1]) + One(LastIsUncut(agents, nodes, ts, rounds))
  }

  ghost function SettledSweeps(agents: Agents, nodes: seq<Node>, ts: Table, rounds: seq<Round>): nat {
    if rounds == [] then 0
    else SettledSweeps(agents, nodes, ts, rounds[..|rounds| - 1]) + One(LastIsSettled(agents, nodes, ts, rounds))
  }

  function MovesMade(rounds: seq<Round>): nat {
    if rounds == [] then 0
    else MovesMade(rounds[..|rounds| - 1]) + if rounds[|rounds| - 1].result.Swept? then rounds[|rounds| - 1].result.rerouted else 0
  }

  function AllOps(rounds: seq<Round>): seq<Op> {
    if rounds == [] then [] else AllOps(rounds[..|rounds| - 1]) + (rounds[|rounds| - 1].quiet + rounds[|rounds| - 1].ops)
  }

  lemma {:induction false} QuietOpsAreATrace(agents: Agents, nodes: seq<Node>, ts: Table, ops: seq<Op>)
    requires QuietOps(ops)
    ensures IsTrace(agents, nodes, ts, TableRun(agents, ts, ops), ops, 0)
  {
    if ops != [] { QuietOpsAreATrace(agents, nodes, ts, ops[..|ops| - 1]); }
  }

  /** All rounds together are one run of allowed steps, and make the moves that their reports add up to. */
  lemma {:induction false} RoundsAreATrace(agents: Agents, nodes: seq<Node>, ts: Table, rounds: seq<Round>)
    requires Rounds(agents, nodes, ts, rounds)
    ensures IsTrace(agents, nodes, ts, Reached(ts, rounds), AllOps(rounds), MovesMade(rounds))
  {
    if rounds != [] {
      var n := |rounds| - 1;
      var before, r := Reached(ts, rounds[..n]), rounds[n];
      RoundsAreATrace(agents, nodes, ts, rounds[..n]);
      QuietOpsAreATrace(agents, nodes, before, r.quiet);
      Compose(agents, nodes, before, r.quiet, r.ops);
      Compose(agents, nodes, ts, AllOps(rounds[..n]), r.quiet + r.ops);
    }
  }

  /** A complete sweep moves something or is settled. */
  lemma LastMovesOrIsSettled(agents: Agents, nodes: seq<Node>, ts: Table, rounds: seq<Round>)
    requires rounds != [] && Rounds(agents, nodes, ts, rounds) && LastIsUncut(agents, nodes, ts, rounds)
    ensures rounds[|rounds| - 1].result.rerouted >= 1 || LastIsSettled(agents, nodes, ts, rounds)
  {
  }

  lemma {:induction false} UncutSweepsMoveOrSettle(agents: Agents, nodes: seq<Node>, ts: Table, rounds: seq<Round>)
    requires Rounds(agents, nodes, ts, rounds)
    ensures UncutSweeps(agents, nodes, ts, rounds) <= MovesMade(rounds) + SettledSweeps(agents, nodes, ts, rounds)
  {
    if rounds != [] {
      UncutSweepsMoveOrSettle(agents, nodes, ts, rounds[..|rounds| - 1]);
      if LastIsUncut(agents, nodes, ts, rounds) { LastMovesOrIsSettled(agents, nodes, ts, rounds); }
    }
  }

  /**
    Sweeping settles. With n queued or running tasks, fixed healthy machines and any steps of workers in between, all
    but 7n² + 6n of the complete sweeps make no move, leave nothing that the rule wants to move, and leave all portable
    due work on healthy machines if these are staffed.
   */
  lemma SweepingSettles(agents: Agents, nodes: seq<Node>, ts: Table, rounds: seq<Round>)
    requires DistinctNodes(nodes) && Rounds(agents, nodes, ts, rounds)
    ensures var n := ActiveTasks(ts);
      UncutSweeps(agents, nodes, ts, rounds) <= 7 * n * n + 6 * n + SettledSweeps(agents, nodes, ts, rounds)
  {
    RoundsAreATrace(agents, nodes, ts, rounds);
    UncutSweepsMoveOrSettle(agents, nodes, ts, rounds);
    RebalancingTerminates(agents, nodes, ts, AllOps(rounds));
  }

  lemma {:induction false} SettledSweepExists(agents: Agents, nodes: seq<Node>, ts: Table, rounds: seq<Round>) returns (k: nat)
    requires SettledSweeps(agents, nodes, ts, rounds) > 0
    ensures 0 < k <= |rounds| && LastIsSettled(agents, nodes, ts, rounds[..k])
  {
    k := |rounds|;
    if LastIsSettled(agents, nodes, ts, rounds) {
      assert rounds[..k] == rounds;
    } else {
      var init := rounds[..k - 1];
      k := SettledSweepExists(agents, nodes, ts, init);
      assert init[..k] == rounds[..k];
    }
  }

  /** So among any 7n² + 6n + 1 complete sweeps there is one that finds nothing to move. */
  lemma SomeSweepIsSettled(agents: Agents, nodes: seq<Node>, ts: Table, rounds: seq<Round>) returns (k: nat)
    requires DistinctNodes(nodes) && Rounds(agents, nodes, ts, rounds)
    requires var n := ActiveTasks(ts); UncutSweeps(agents, nodes, ts, rounds) > 7 * n * n + 6 * n
    ensures 0 < k <= |rounds| && LastIsSettled(agents, nodes, ts, rounds[..k])
  {
    SweepingSettles(agents, nodes, ts, rounds);
    k := SettledSweepExists(agents, nodes, ts, rounds);
  }
}
