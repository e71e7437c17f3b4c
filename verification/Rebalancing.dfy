/** Rebalancing terminates: a quadratic bound on the number of steward moves over any number of sweeps. */
module Rebalancing {
  import opened Tasks
  import opened LeaseProtocol
  import opened Balancing

  function Live(): Task -> nat { (t: Task) => One(Active(t.status)) }

  /** Non-terminal work assigned outside the healthy machines. */
  function Outside(agents: Agents, nodes: seq<Node>): Task -> nat {
    (t: Task) => One(Active(t.status) && !(Assigned(agents, t).Some? && HasNode(nodes, Assigned(agents, t).value)))
  }

  /** Starvation moves that non-terminal work may still make. */
  function Headroom(): Task -> nat { (t: Task) => if Active(t.status) then Max(0, 2 - t.generation) else 0 }

  function OnMachine(agents: Agents, m: MachineId): Task -> nat {
    (t: Task) => One(Active(t.status) && Assigned(agents, t) == Some(m))
  }

  function SumSquares(loads: seq<Load>): nat {
    if loads == [] then 0
    else SumSquares(loads[..|loads| - 1]) + loads[|loads| - 1].Total() * loads[|loads| - 1].Total()
  }

  function SumTotals(loads: seq<Load>): nat {
    if loads == [] then 0 else SumTotals(loads[..|loads| - 1]) + loads[|loads| - 1].Total()
  }

  function ActiveTasks(ts: Table): nat { Sum(Live(), ts) }

  function Evacuations(agents: Agents, nodes: seq<Node>, ts: Table): nat { Sum(Outside(agents, nodes), ts) }

  function StarvationMoves(ts: Table): nat { Sum(Headroom(), ts) }

  function Imbalance(agents: Agents, nodes: seq<Node>, ts: Table): nat { SumSquares(Recount(agents, ts, nodes)) }

  /** The measure (evacuations, starvation moves, imbalance), compared lexicographically. */
  predicate MeasureDrops(agents: Agents, nodes: seq<Node>, before: Table, after: Table) {
    var a, b, c := Evacuations(agents, nodes, before), StarvationMoves(before), Imbalance(agents, nodes, before);
    var a', b', c' := Evacuations(agents, nodes, after), StarvationMoves(after), Imbalance(agents, nodes, after);
    a' < a || (a' == a && (b' < b || (b' == b && c' < c)))
  }

  // ---------------------------------------------------------------------- sums

  lemma TotalsCountTasks(agents: Agents, nodes: seq<Node>, ts: Table, k: nat)
    requires k < |nodes|
    ensures Recount(agents, ts, nodes)[k].Total() == Sum(OnMachine(agents, nodes[k].machine), ts)
    ensures Sum(OnMachine(agents, nodes[k].machine), ts) <= ActiveTasks(ts)
  {
    var m := nodes[k].machine;
    SumAdds(OnMachine(agents, m), InState(agents, m, Running), InState(agents, m, Queued), ts);
    SumMonotone(OnMachine(agents, m), Live(), ts);
  }

  lemma {:induction false} SumSquaresMonotone(a: seq<Load>, b: seq<Load>)
    requires |a| == |b|
    requires forall k | 0 <= k < |a| :: a[k].Total() <= b[k].Total()
    ensures SumSquares(a) <= SumSquares(b)
  {
    if a != [] {
      var n := |a| - 1;
      SumSquaresMonotone(a[..n], b[..n]);
      SquareMonotone(a[n].Total(), b[n].Total());
    }
  }

  lemma SquareMonotone(x: nat, y: nat)
    requires x <= y
    ensures x * x <= y * y
  {
    assert y * y - x * x == (y - x) * (y + x);
  }

  /** Changing one entry changes the sum of squares by the change of its square. */
  lemma {:induction false} SumSquaresUpdate(loads: seq<Load>, k: nat, l: Load)
    requires k < |loads|
    ensures SumSquares(loads[k := l]) + loads[k].Total() * loads[k].Total() == SumSquares(loads) + l.Total() * l.Total()
  {
    var n := |loads| - 1;
    if k == n {
      assert loads[k := l][..n] == loads[..n];
    } else {
      SumSquaresUpdate(loads[..n], k, l);
      assert loads[k := l][..n] == loads[..n][k := l];
    }
  }

  lemma {:induction false} SquareOfSumBounds(loads: seq<Load>)
    ensures SumSquares(loads) <= SumTotals(loads) * SumTotals(loads)
  {
    if loads != [] {
      var n := |loads| - 1;
      SquareOfSumBounds(loads[..n]);
      var s, x := SumTotals(loads[..n]), loads[n].Total();
      assert (s + x) * (s + x) == s * s + 2 * (s * x) + x * x;
    }
  }

  function Inside(agents: Agents, nodes: seq<Node>, k: nat): Task -> nat
    requires k <= |nodes|
  {
    (t: Task) => One(Active(t.status) && Assigned(agents, t).Some? && HasNode(nodes[..k], Assigned(agents, t).value))
  }

  lemma {:induction false} TotalsFitTheTable(agents: Agents, nodes: seq<Node>, ts: Table, k: nat)
    requires DistinctNodes(nodes) && k <= |nodes|
    ensures SumTotals(Recount(agents, ts, nodes)[..k]) == Sum(Inside(agents, nodes, k), ts)
  {
    var loads := Recount(agents, ts, nodes);
    if k == 0 {
      SumIsZero(Inside(agents, nodes, 0), ts);
    } else {
      TotalsFitTheTable(agents, nodes, ts, k - 1);
      TotalsCountTasks(agents, nodes, ts, k - 1);
      assert loads[..k][..k - 1] == loads[..k - 1];
      forall t ensures Inside(agents, nodes, k)(t)
          == Inside(agents, nodes, k - 1)(t) + OnMachine(agents, nodes[k - 1].machine)(t)
      {
        if Assigned(agents, t).Some? { NodeSplit(nodes, k, Assigned(agents, t).value); }
      }
      SumAdds(Inside(agents, nodes, k), Inside(agents, nodes, k - 1), OnMachine(agents, nodes[k - 1].machine), ts);
    }
  }

  lemma NodeSplit(nodes: seq<Node>, k: nat, m: MachineId)
    requires DistinctNodes(nodes) && 1 <= k <= |nodes|
    ensures HasNode(nodes[..k], m) <==> HasNode(nodes[..k - 1], m) || nodes[k - 1].machine == m
    ensures !(HasNode(nodes[..k - 1], m) && nodes[k - 1].machine == m)
  {
    if HasNode(nodes[..k], m) {
      var i :| 0 <= i < k && nodes[..k][i].machine == m;
      assert i < k - 1 ==> nodes[..k - 1][i].machine == m;
    }
    if HasNode(nodes[..k - 1], m) {
      var i :| 0 <= i < k - 1 && nodes[..k - 1][i].machine == m;
      assert nodes[..k][i].machine == m;
    }
    assert nodes[..k][k - 1] == nodes[k - 1];
  }

  lemma {:induction false} SumIsZero(f: Task -> nat, ts: Table)
    requires forall t :: f(t) == 0
    ensures Sum(f, ts) == 0
  {
    if ts != [] { SumIsZero(f, ts[..|ts| - 1]); }
  }

  lemma {:induction false} HeadroomIsTwicePerTask(ts: Table)
    ensures StarvationMoves(ts) <= 2 * ActiveTasks(ts)
  {
    if ts != [] { HeadroomIsTwicePerTask(ts[..|ts| - 1]); }
  }

  // ----------------------------------------------------------------- single steps

  /** Claim, renew, complete, fail, recover and default assignment never change where work is assigned. */
  lemma QuietStep(agents: Agents, t: Task, e: Event)
    requires !e.Route? && !e.Failover?
    ensures var r := Step(agents, t, e);
      && Assigned(agents, r) == Assigned(agents, t) && r.generation == t.generation
      && (Active(r.status) ==> Active(t.status))
  {
  }

  /** A row that stays where it is and is not activated makes no machine busier. */
  lemma StayingPutAddsNoLoad(agents: Agents, nodes: seq<Node>, ts: Table, id: nat, t: Task)
    requires id < |ts| && Assigned(agents, t) == Assigned(agents, ts[id]) && (Active(t.status) ==> Active(ts[id].status))
    ensures Imbalance(agents, nodes, ts[id := t]) <= Imbalance(agents, nodes, ts)
  {
    var after := ts[id := t];
    var a, b := Recount(agents, after, nodes), Recount(agents, ts, nodes);
    forall k | 0 <= k < |nodes| ensures a[k].Total() <= b[k].Total() {
      TotalsCountTasks(agents, nodes, ts, k);
      TotalsCountTasks(agents, nodes, after, k);
      SumUpdate(OnMachine(agents, nodes[k].machine), ts, id, t);
    }
    SumSquaresMonotone(a, b);
  }

  lemma StayingPutNeverGrows(agents: Agents, nodes: seq<Node>, ts: Table, id: nat, t: Task)
    requires id < |ts| && Assigned(agents, t) == Assigned(agents, ts[id]) && t.generation == ts[id].generation
    requires Active(t.status) ==> Active(ts[id].status)
    ensures var after := ts[id := t];
      && ActiveTasks(after) <= ActiveTasks(ts)
      && Evacuations(agents, nodes, after) <= Evacuations(agents, nodes, ts)
      && StarvationMoves(after) <= StarvationMoves(ts)
      && Imbalance(agents, nodes, after) <= Imbalance(agents, nodes, ts)
  {
    SumUpdate(Live(), ts, id, t);
    SumUpdate(Outside(agents, nodes), ts, id, t);
    SumUpdate(Headroom(), ts, id, t);
    StayingPutAddsNoLoad(agents, nodes, ts, id, t);
  }

  /** Between moves, no component of the measure grows. */
  lemma QuietStepsNeverGrow(agents: Agents, nodes: seq<Node>, ts: Table, id: nat, e: Event)
    requires id < |ts| && !e.Route? && !e.Failover?
    ensures var after := ts[id := Step(agents, ts[id], e)];
      && ActiveTasks(after) <= ActiveTasks(ts)
      && Evacuations(agents, nodes, after) <= Evacuations(agents, nodes, ts)
      && StarvationMoves(after) <= StarvationMoves(ts)
      && Imbalance(agents, nodes, after) <= Imbalance(agents, nodes, ts)
  {
    QuietStep(agents, ts[id], e);
    StayingPutNeverGrows(agents, nodes, ts, id, Step(agents, ts[id], e));
  }

  lemma SquareOfSuccessor(x: int)
    ensures (x + 1) * (x + 1) == x * x + 2 * x + 1
  {
  }

  /** The table of loads after a move, as one or two updates. */
  lemma MoveLoadIsUpdates(loads: seq<Load>, source: MachineId, target: MachineId, g: nat)
    requires Keyed(loads) && source != target
    requires g < |loads| && loads[g].machine == target
    requires HasMachine(loads, source) ==> loads[Find(loads, source)].queued >= 1
    ensures var one := loads[g := loads[g].(queued := loads[g].queued + 1)];
      MoveLoad(loads, source, target) ==
        if HasMachine(loads, source) then
          var s := Find(loads, source);
          one[s := loads[s].(queued := loads[s].queued - 1)]
        else one
  {
    var one := loads[g := loads[g].(queued := loads[g].queued + 1)];
    if HasMachine(loads, source) {
      var s := Find(loads, source);
      assert MoveLoad(loads, source, target) == one[s := loads[s].(queued := loads[s].queued - 1)];
    } else {
      forall k | 0 <= k < |loads| ensures MoveLoad(loads, source, target)[k] == one[k] {
        assert loads[k].machine != source;
      }
    }
  }

  lemma OneMoreQueued(loads: seq<Load>, g: nat)
    requires g < |loads|
    ensures SumSquares(loads[g := loads[g].(queued := loads[g].queued + 1)]) == SumSquares(loads) + 2 * loads[g].Total() + 1
  {
    SumSquaresUpdate(loads, g, loads[g].(queued := loads[g].queued + 1));
    SquareOfSuccessor(loads[g].Total());
  }

  lemma OneLessQueued(loads: seq<Load>, s: nat)
    requires s < |loads| && loads[s].queued >= 1
    ensures SumSquares(loads[s := loads[s].(queued := loads[s].queued - 1)]) == SumSquares(loads) + 1 - 2 * loads[s].Total()
  {
    SumSquaresUpdate(loads, s, loads[s].(queued := loads[s].queued - 1));
    SquareOfSuccessor(loads[s].Total() - 1);
  }

  /** How one move changes the sum of squares of the loads. */
  lemma MoveChangesSquares(loads: seq<Load>, source: MachineId, target: MachineId, g: nat)
    requires Keyed(loads) && source != target
    requires g < |loads| && loads[g].machine == target
    requires HasMachine(loads, source) ==> loads[Find(loads, source)].queued >= 1
    ensures var moved, t := MoveLoad(loads, source, target), loads[g].Total();
      SumSquares(moved) == SumSquares(loads) + 2 * t + 1
        + (if HasMachine(loads, source) then 1 - 2 * SourceTotal(loads, source) else 0)
  {
    MoveLoadIsUpdates(loads, source, target, g);
    OneMoreQueued(loads, g);
    if HasMachine(loads, source) {
      OneLessQueued(loads[g := loads[g].(queued := loads[g].queued + 1)], Find(loads, source));
    }
  }

  /** The row-by-row part of the effect of a move. */
  lemma MoveAndCounts(agents: Agents, nodes: seq<Node>, ts: Table, id: nat, e: Event)
    requires DistinctNodes(nodes) && MoveAllowed(agents, nodes, ts, id, e)
    ensures var after, evacuates := ts[id := Effect(agents, ts[id], e)], !HasNode(nodes, Assigned(agents, ts[id]).value);
      && ActiveTasks(after) == ActiveTasks(ts)
      && Evacuations(agents, nodes, after) == Evacuations(agents, nodes, ts) - One(evacuates)
      && StarvationMoves(after) == StarvationMoves(ts) - One(ts[id].generation < 2)
  {
    var t := Effect(agents, ts[id], e);
    var s, g := DecisionFacts(agents, nodes, ts, id, e);
    assert nodes[g].machine == e.target;
    SumUpdate(Live(), ts, id, t);
    SumUpdate(Outside(agents, nodes), ts, id, t);
    SumUpdate(Headroom(), ts, id, t);
  }

  lemma MoveAndImbalance(agents: Agents, nodes: seq<Node>, ts: Table, id: nat, e: Event)
    requires DistinctNodes(nodes) && MoveAllowed(agents, nodes, ts, id, e)
    ensures var before := Imbalance(agents, nodes, ts);
      var after := Imbalance(agents, nodes, ts[id := Effect(agents, ts[id], e)]);
      && after <= before + 2 * ActiveTasks(ts) + 1
      && (HasNode(nodes, Assigned(agents, ts[id]).value) ==>
            && after <= before + 2 * ActiveTasks(ts)
            && (ts[id].generation < 2 || after < before))
  {
    var source := Assigned(agents, ts[id]).value;
    var loads := Recount(agents, ts, nodes);
    var s, g := DecisionFacts(agents, nodes, ts, id, e);
    WorkingLoadsAreARecount(agents, nodes, ts, id, e);
    RecountKeys(agents, ts, nodes, source);
    MoveChangesSquares(loads, source, e.target, g);
    TotalsCountTasks(agents, nodes, ts, g);
    if HasMachine(loads, source) {
      assert Find(loads, source) == s;
    }
  }

  function Waiting(): Task -> nat { (t: Task) => One(t.status.Queued?) }

  function SumQueued(loads: seq<Load>): nat {
    if loads == [] then 0 else SumQueued(loads[..|loads| - 1]) + loads[|loads| - 1].queued
  }

  lemma {:induction false} SumQueuedUpdate(loads: seq<Load>, k: nat, l: Load)
    requires k < |loads|
    ensures SumQueued(loads[k := l]) + loads[k].queued == SumQueued(loads) + l.queued
  {
    var n := |loads| - 1;
    if k == n {
      assert loads[k := l][..n] == loads[..n];
    } else {
      SumQueuedUpdate(loads[..n], k, l);
      assert loads[k := l][..n] == loads[..n][k := l];
    }
  }

  /**
    Rerouting conserves the queue: the table has as many queued rows after a move as before, and the working loads hold
    as many, plus one if the row came from outside the healthy machines.
   */
  lemma RerouteConservesTheQueue(agents: Agents, nodes: seq<Node>, ts: Table, id: nat, e: Event)
    requires DistinctNodes(nodes) && MoveAllowed(agents, nodes, ts, id, e)
    ensures Sum(Waiting(), ts[id := Effect(agents, ts[id], e)]) == Sum(Waiting(), ts)
    ensures var loads, source := Recount(agents, ts, nodes), Assigned(agents, ts[id]).value;
      SumQueued(MoveLoad(loads, source, e.target)) == SumQueued(loads) + One(!HasNode(nodes, source))
  {
    var loads, source := Recount(agents, ts, nodes), Assigned(agents, ts[id]).value;
    SumUpdate(Waiting(), ts, id, Effect(agents, ts[id], e));
    var s, g := DecisionFacts(agents, nodes, ts, id, e);
    WorkingLoadsAreARecount(agents, nodes, ts, id, e);
    RecountKeys(agents, ts, nodes, source);
    MoveLoadIsUpdates(loads, source, e.target, g);
    var one := loads[g := loads[g].(queued := loads[g].queued + 1)];
    SumQueuedUpdate(loads, g, one[g]);
    if HasMachine(loads, source) {
      var s' := Find(loads, source);
      SumQueuedUpdate(one, s', loads[s'].(queued := loads[s'].queued - 1));
    }
  }

  /** Every steward move strictly lowers the lexicographic measure. */
  lemma EveryMoveLowersTheMeasure(agents: Agents, nodes: seq<Node>, ts: Table, id: nat, e: Event)
    requires DistinctNodes(nodes) && MoveAllowed(agents, nodes, ts, id, e)
    ensures MeasureDrops(agents, nodes, ts, ts[id := Effect(agents, ts[id], e)])
  {
    MoveAndCounts(agents, nodes, ts, id, e);
    MoveAndImbalance(agents, nodes, ts, id, e);
  }

  // -------------------------------------------------------------------- whole runs

  /** Says which moves are allowed on a table. */
  type Policy = (Table, nat, Event) -> bool

  ghost function OnFullRecounts(agents: Agents, nodes: seq<Node>): Policy {
    (ts: Table, id: nat, e: Event) => MoveAllowed(agents, nodes, ts, id, e)
  }

  ghost predicate RunBy(allowed: Policy, agents: Agents, ts: Table, ops: seq<Op>)
    decreases |ops|
  {
    ops == [] ||
    (var n := |ops| - 1;
     && RunBy(allowed, agents, ts, ops[..n])
     && ops[n].On? && !ops[n].event.Failover?
     && (ops[n].event.Route? ==> allowed(TableRun(agents, ts, ops[..n]), ops[n].id, ops[n].event)))
  }

  lemma {:induction false} RunByConcat(allowed: Policy, agents: Agents, ts: Table, ops: seq<Op>, more: seq<Op>)
    requires RunBy(allowed, agents, ts, ops) && RunBy(allowed, agents, TableRun(agents, ts, ops), more)
    ensures RunBy(allowed, agents, ts, ops + more)
    decreases |more|
  {
    if more == [] {
      assert ops + more == ops;
    } else {
      var n := |more| - 1;
      RunByConcat(allowed, agents, ts, ops, more[..n]);
      TableRunConcat(agents, ts, ops, more[..n]);
      assert (ops + more)[..|ops + more| - 1] == ops + more[..n];
    }
  }

  /**
    Any interleaving of claims, renewals, completions, failures, recoveries, default assignments and steward
    moves against a fixed set of healthy machines: no new tasks, no failover, and each move was allowed.
   */
  ghost predicate StewardRun(agents: Agents, nodes: seq<Node>, ts: Table, ops: seq<Op>) {
    RunBy(OnFullRecounts(agents, nodes), agents, ts, ops)
  }

  function Moves(ops: seq<Op>): nat {
    if ops == [] then 0
    else Moves(ops[..|ops| - 1]) + One(ops[|ops| - 1].On? && ops[|ops| - 1].event.Route?)
  }

  /** The lexicographic measure folded into one number, for at most `cap` active tasks. */
  function Potential(agents: Agents, nodes: seq<Node>, ts: Table, cap: nat): nat {
    (Evacuations(agents, nodes, ts) + StarvationMoves(ts)) * (2 * cap + 2) + Imbalance(agents, nodes, ts)
  }

  lemma MovePays(agents: Agents, nodes: seq<Node>, ts: Table, id: nat, e: Event, cap: nat)
    requires DistinctNodes(nodes) && MoveAllowed(agents, nodes, ts, id, e) && ActiveTasks(ts) <= cap
    ensures var after := ts[id := Effect(agents, ts[id], e)];
      && ActiveTasks(after) <= cap
      && Potential(agents, nodes, after, cap) + 1 <= Potential(agents, nodes, ts, cap)
  {
    var after := ts[id := Effect(agents, ts[id], e)];
    MoveAndCounts(agents, nodes, ts, id, e);
    MoveAndImbalance(agents, nodes, ts, id, e);
    Scale(Evacuations(agents, nodes, ts) + StarvationMoves(ts), Evacuations(agents, nodes, after) + StarvationMoves(after), 2 * cap + 2);
  }

  lemma QuietStepIsFree(agents: Agents, nodes: seq<Node>, ts: Table, id: nat, e: Event, cap: nat)
    requires DistinctNodes(nodes) && id < |ts| && !e.Route? && !e.Failover? && ActiveTasks(ts) <= cap
    ensures var after := ts[id := Step(agents, ts[id], e)];
      && ActiveTasks(after) <= cap
      && Potential(agents, nodes, after, cap) <= Potential(agents, nodes, ts, cap)
  {
    var after := ts[id := Step(agents, ts[id], e)];
    QuietStepsNeverGrow(agents, nodes, ts, id, e);
    Scale(Evacuations(agents, nodes, ts) + StarvationMoves(ts), Evacuations(agents, nodes, after) + StarvationMoves(after), 2 * cap + 2);
  }

  lemma StepPaysForMoves(agents: Agents, nodes: seq<Node>, ts: Table, op: Op, cap: nat)
    requires DistinctNodes(nodes) && op.On? && !op.event.Failover?
    requires op.event.Route? ==> MoveAllowed(agents, nodes, ts, op.id, op.event)
    requires ActiveTasks(ts) <= cap
    ensures var after := TableStep(agents, ts, op);
      && ActiveTasks(after) <= cap
      && Potential(agents, nodes, after, cap) + One(op.event.Route?) <= Potential(agents, nodes, ts, cap)
  {
    if op.id < |ts| {
      if op.event.Route? {
        MovePays(agents, nodes, ts, op.id, op.event, cap);
      } else {
        QuietStepIsFree(agents, nodes, ts, op.id, op.event, cap);
      }
    }
  }

  lemma Scale(x: nat, y: nat, k: nat)
    requires y <= x
    ensures y * k <= x * k && (y < x ==> y * k + k <= x * k)
  {
    assert x * k - y * k == (x - y) * k;
    if y < x { assert (x - y) * k == k + (x - y - 1) * k; }
  }

  lemma {:induction false} PotentialPaysForMoves(agents: Agents, nodes: seq<Node>, ts: Table, ops: seq<Op>, cap: nat)
    requires DistinctNodes(nodes) && StewardRun(agents, nodes, ts, ops) && ActiveTasks(ts) <= cap
    ensures ActiveTasks(TableRun(agents, ts, ops)) <= cap
    ensures Moves(ops) + Potential(agents, nodes, TableRun(agents, ts, ops), cap) <= Potential(agents, nodes, ts, cap)
  {
    if ops != [] {
      var n := |ops| - 1;
      PotentialPaysForMoves(agents, nodes, ts, ops[..n], cap);
      StepPaysForMoves(agents, nodes, TableRun(agents, ts, ops[..n]), ops[n], cap);
    }
  }

  lemma ComponentsAreBounded(agents: Agents, nodes: seq<Node>, ts: Table)
    requires DistinctNodes(nodes)
    ensures Evacuations(agents, nodes, ts) <= ActiveTasks(ts)
    ensures StarvationMoves(ts) <= 2 * ActiveTasks(ts)
    ensures Imbalance(agents, nodes, ts) <= ActiveTasks(ts) * ActiveTasks(ts)
  {
    var loads := Recount(agents, ts, nodes);
    SumMonotone(Outside(agents, nodes), Live(), ts);
    HeadroomIsTwicePerTask(ts);
    SquareOfSumBounds(loads);
    TotalsFitTheTable(agents, nodes, ts, |nodes|);
    assert loads[..|nodes|] == loads;
    SumMonotone(Inside(agents, nodes, |nodes|), Live(), ts);
    SquareMonotone(SumTotals(loads), ActiveTasks(ts));
  }

  lemma QuadraticBound(n: nat, x: nat, c: nat)
    requires x <= 3 * n && c <= n * n
    ensures x * (2 * n + 2) + c <= 7 * n * n + 6 * n
  {
    Scale(3 * n, x, 2 * n + 2);
    assert 3 * n * (2 * n + 2) == 6 * (n * n) + 6 * n;
    assert 7 * n * n == 7 * (n * n);
  }

  lemma PotentialIsQuadratic(agents: Agents, nodes: seq<Node>, ts: Table)
    requires DistinctNodes(nodes)
    ensures var n := ActiveTasks(ts); Potential(agents, nodes, ts, n) <= 7 * n * n + 6 * n
  {
    ComponentsAreBounded(agents, nodes, ts);
    QuadraticBound(ActiveTasks(ts), Evacuations(agents, nodes, ts) + StarvationMoves(ts), Imbalance(agents, nodes, ts));
  }

  /**
    Rebalancing terminates. With n queued or running tasks and fixed healthy machines, all sweeps together make
    at most 7n² + 6n moves, however workers claim, renew, finish, fail or lose tasks in between.
   */
  lemma RebalancingTerminates(agents: Agents, nodes: seq<Node>, ts: Table, ops: seq<Op>)
    requires DistinctNodes(nodes) && StewardRun(agents, nodes, ts, ops)
    ensures var n := ActiveTasks(ts); Moves(ops) <= 7 * n * n + 6 * n
  {
    PotentialPaysForMoves(agents, nodes, ts, ops, ActiveTasks(ts));
    PotentialIsQuadratic(agents, nodes, ts);
  }
}
