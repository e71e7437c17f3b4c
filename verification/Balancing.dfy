/** Machine loads, the ranking of fallback machines and the rule that moves queued work. */
module Balancing {
  import opened Tasks
  import opened LeaseProtocol
  import opened Ordering

  /** One entry of the insertion-ordered `loads` dictionary. */
  datatype Load = Load(machine: MachineId, capacity: int, running: nat, queued: nat) {
    function Total(): nat { running + queued }
    predicate HasRoom() { Total() < capacity }
  }

  /** A healthy machine: online, recently seen and employed. */
  datatype Node = Node(machine: MachineId, capacity: int)

  predicate Keyed(loads: seq<Load>) {
    forall i, j | 0 <= i < j < |loads| :: loads[i].machine != loads[j].machine
  }

  predicate HasMachine(loads: seq<Load>, m: MachineId) {
    exists i | 0 <= i < |loads| :: loads[i].machine == m
  }

  function Find(loads: seq<Load>, m: MachineId): (i: nat)
    requires HasMachine(loads, m)
    ensures i < |loads| && loads[i].machine == m
  {
    if loads[0].machine == m then 0 else 1 + Find(loads[1..], m)
  }

  // ------------------------------------------------------------------- ranking

  predicate NameLeq(a: string, b: string) {
    a == "" || (b != "" && (a[0] < b[0] || (a[0] == b[0] && NameLeq(a[1..], b[1..]))))
  }

  lemma {:induction false} NameLeqTotal(a: string, b: string)
    ensures NameLeq(a, b) || NameLeq(b, a)
    ensures NameLeq(a, b) && NameLeq(b, a) ==> a == b
  {
    if a != "" && b != "" {
      NameLeqTotal(a[1..], b[1..]);
      assert a == [a[0]] + a[1..] && b == [b[0]] + b[1..];
    }
  }

  lemma {:induction false} NameLeqTransitive(a: string, b: string, c: string)
    requires NameLeq(a, b) && NameLeq(b, c)
    ensures NameLeq(a, c)
  {
    if a != "" && a[0] == b[0] && b[0] == c[0] {
      NameLeqTransitive(a[1..], b[1..], c[1..]);
    }
  }

  /** Strings are ordered by their first difference, and a prefix comes first. */
  lemma {:induction false} NameLeqMeans(a: string, b: string, k: nat)
    requires k <= |a| && k <= |b| && a[..k] == b[..k]
    requires k < |a| && k < |b| ==> a[k] != b[k]
    ensures NameLeq(a, b) <==> k == |a| || (k < |b| && a[k] < b[k])
  {
    if k > 0 {
      assert a[0] == a[..k][0] && b[0] == b[..k][0];
      assert a[1..][..k - 1] == a[..k][1..] && b[1..][..k - 1] == b[..k][1..];
      NameLeqMeans(a[1..], b[1..], k - 1);
    }
  }

  function Pressure(l: Load): real { l.Total() as real / Max(1, l.capacity) as real }

  /** The sort key: idle before busy, then load per capacity, then the machine id. */
  predicate RankLeq(a: Load, b: Load) {
    if (a.running > 0) != (b.running > 0) then b.running > 0
    else if Pressure(a) != Pressure(b) then Pressure(a) < Pressure(b)
    else NameLeq(a.machine.name, b.machine.name)
  }

  lemma DivisionComparesCrosswise(a: nat, b: int, c: nat, d: int)
    requires b >= 1 && d >= 1
    ensures a as real / b as real < c as real / d as real <==> a * d < c * b
    ensures a as real / b as real == c as real / d as real <==> a * d == c * b
  {
    var x, y := a as real / b as real, c as real / d as real;
    var scale := b as real * d as real;
    assert x * b as real == a as real && y * d as real == c as real;
    assert x * scale == a as real * d as real && y * scale == c as real * b as real;
    assert (a * d) as real == a as real * d as real && (c * b) as real == c as real * b as real;
    if x < y { assert (y - x) * scale > 0.0; }
    if y < x { assert (x - y) * scale > 0.0; }
  }

  /**
    What the ranking means: an idle machine comes before every busy one; between two idle or two busy machines the
    smaller load per capacity wins, compared without division; equal loads are ordered by machine id.
   */
  lemma RankingMeans(a: Load, b: Load)
    ensures var ca, cb := Max(1, a.capacity), Max(1, b.capacity);
      && (a.running == 0 && b.running > 0 ==> RankLeq(a, b) && !RankLeq(b, a))
      && ((a.running == 0) == (b.running == 0) && a.Total() * cb < b.Total() * ca ==> RankLeq(a, b) && !RankLeq(b, a))
      && ((a.running == 0) == (b.running == 0) && a.Total() * cb == b.Total() * ca ==>
            (RankLeq(a, b) <==> NameLeq(a.machine.name, b.machine.name)))
  {
    DivisionComparesCrosswise(a.Total(), Max(1, a.capacity), b.Total(), Max(1, b.capacity));
    DivisionComparesCrosswise(b.Total(), Max(1, b.capacity), a.Total(), Max(1, a.capacity));
  }

  lemma RankIsTotal()
    ensures TotalPreorder(RankLeq)
  {
    forall x, y ensures RankLeq(x, y) || RankLeq(y, x) {
      NameLeqTotal(x.machine.name, y.machine.name);
    }
    forall x, y, z | RankLeq(x, y) && RankLeq(y, z) ensures RankLeq(x, z) {
      if NameLeq(x.machine.name, y.machine.name) && NameLeq(y.machine.name, z.machine.name) {
        NameLeqTransitive(x.machine.name, y.machine.name, z.machine.name);
      }
    }
  }

  function Others(loads: seq<Load>, source: MachineId): (r: seq<Load>)
    ensures forall l :: l in r <==> l in loads && l.machine != source
  {
    if loads == [] then []
    else (if loads[0].machine == source then [] else [loads[0]]) + Others(loads[1..], source)
  }

  function RankFallbackTargets(loads: seq<Load>, source: MachineId): seq<Load> {
    SortBy(RankLeq, Others(loads, source))
  }

  function FirstWithRoom(ranked: seq<Load>): Option<Load> {
    if ranked == [] then None
    else if ranked[0].HasRoom() then Some(ranked[0])
    else FirstWithRoom(ranked[1..])
  }

  function SelectFallback(loads: seq<Load>, source: MachineId, sourceUnhealthy: bool): Option<Load> {
    var ranked := RankFallbackTargets(loads, source);
    if sourceUnhealthy then (if ranked == [] then None else Some(ranked[0]))
    else FirstWithRoom(ranked)
  }

  predicate Candidate(loads: seq<Load>, source: MachineId, sourceUnhealthy: bool, l: Load) {
    l in loads && l.machine != source && (sourceUnhealthy || l.HasRoom())
  }

  lemma {:induction false} FirstWithRoomIsFirst(ranked: seq<Load>)
    ensures FirstWithRoom(ranked).None? ==> forall l | l in ranked :: !l.HasRoom()
    ensures Sorted(RankLeq, ranked) && FirstWithRoom(ranked).Some? ==>
      (var r := FirstWithRoom(ranked).value;
       && r in ranked && r.HasRoom()
       && forall l | l in ranked && l.HasRoom() :: l == r || RankLeq(r, l))
  {
    if ranked != [] && !ranked[0].HasRoom() {
      FirstWithRoomIsFirst(ranked[1..]);
    }
  }

  /** The target is the best-ranked candidate; there is none only when there is no candidate. */
  lemma SelectsBestCandidate(loads: seq<Load>, source: MachineId, sourceUnhealthy: bool)
    ensures var r := SelectFallback(loads, source, sourceUnhealthy);
      && (r.None? <==> forall l :: !Candidate(loads, source, sourceUnhealthy, l))
      && (r.Some? ==>
            && Candidate(loads, source, sourceUnhealthy, r.value)
            && forall l | Candidate(loads, source, sourceUnhealthy, l) :: RankLeq(r.value, l))
  {
    RankIsTotal();
    var others := Others(loads, source);
    var ranked := RankFallbackTargets(loads, source);
    SortBySorts(RankLeq, others);
    SamePermutation(ranked, others);
    FirstWithRoomIsFirst(ranked);
    forall l | l in ranked ensures ranked != [] && RankLeq(ranked[0], l) {}
    forall l: Load ensures RankLeq(l, l) {}
    if ranked != [] { assert ranked[0] in ranked; }
    forall l ensures Candidate(loads, source, sourceUnhealthy, l) ==> l in ranked {}
    if sourceUnhealthy && ranked != [] {
      assert Candidate(loads, source, sourceUnhealthy, ranked[0]);
    }
    if !sourceUnhealthy && FirstWithRoom(ranked).Some? {
      assert Candidate(loads, source, sourceUnhealthy, FirstWithRoom(ranked).value);
    }
  }

  // ------------------------------------------------------------ the reroute rule

  predicate Starved(sourceRunning: nat, generation: nat, sinceAssignment: Time) {
    sourceRunning == 0 && generation < 2 && sinceAssignment >= QUEUE_STARVATION
  }

  predicate ShouldReroute(sourceUnhealthy: bool, sourceRunning: nat, generation: nat, targetHasRoom: bool,
                          balancesBacklog: bool, sinceAssignment: Time) {
    sourceUnhealthy || (targetHasRoom && (balancesBacklog || Starved(sourceRunning, generation, sinceAssignment)))
  }

  // ----------------------------------------------------------- counting the table

  function Sum(f: Task -> nat, ts: Table): nat {
    if ts == [] then 0 else Sum(f, ts[..|ts| - 1]) + f(ts[|ts| - 1])
  }

  lemma {:induction false} SumUpdate(f: Task -> nat, ts: Table, id: nat, t: Task)
    requires id < |ts|
    ensures Sum(f, ts[id := t]) + f(ts[id]) == Sum(f, ts) + f(t)
    ensures Sum(f, ts) >= f(ts[id])
  {
    var n := |ts| - 1;
    if id == n {
      assert ts[id := t][..n] == ts[..n];
    } else {
      SumUpdate(f, ts[..n], id, t);
      assert ts[id := t][..n] == ts[..n][id := t];
    }
  }

  lemma {:induction false} SumMonotone(f: Task -> nat, g: Task -> nat, ts: Table)
    requires forall t :: f(t) <= g(t)
    ensures Sum(f, ts) <= Sum(g, ts)
  {
    if ts != [] { SumMonotone(f, g, ts[..|ts| - 1]); }
  }

  lemma {:induction false} SumAdds(f: Task -> nat, g: Task -> nat, h: Task -> nat, ts: Table)
    requires forall t :: f(t) == g(t) + h(t)
    ensures Sum(f, ts) == Sum(g, ts) + Sum(h, ts)
  {
    if ts != [] { SumAdds(f, g, h, ts[..|ts| - 1]); }
  }

  function InState(agents: Agents, m: MachineId, s: Status): Task -> nat {
    (t: Task) => One(t.status == s && Assigned(agents, t) == Some(m))
  }

  /** `count(t.id) filter (where t.status = ...)` for one machine. */
  function Count(agents: Agents, ts: Table, m: MachineId, s: Status): nat { Sum(InState(agents, m, s), ts) }

  /** The load query: a full recount of the task table for every healthy machine. */
  function Recount(agents: Agents, ts: Table, nodes: seq<Node>): (r: seq<Load>)
    ensures |r| == |nodes|
    ensures forall k | 0 <= k < |nodes| ::
      r[k] == Load(nodes[k].machine, Max(1, nodes[k].capacity), Count(agents, ts, nodes[k].machine, Running),
                   Count(agents, ts, nodes[k].machine, Queued))
  {
    seq(|nodes|, k requires 0 <= k < |nodes| =>
      Load(nodes[k].machine, Max(1, nodes[k].capacity), Count(agents, ts, nodes[k].machine, Running),
           Count(agents, ts, nodes[k].machine, Queued)))
  }

  predicate DistinctNodes(nodes: seq<Node>) {
    forall i, j | 0 <= i < j < |nodes| :: nodes[i].machine != nodes[j].machine
  }

  predicate HasNode(nodes: seq<Node>, m: MachineId) {
    exists i | 0 <= i < |nodes| :: nodes[i].machine == m
  }

  lemma RecountKeys(agents: Agents, ts: Table, nodes: seq<Node>, m: MachineId)
    ensures HasMachine(Recount(agents, ts, nodes), m) <==> HasNode(nodes, m)
    ensures DistinctNodes(nodes) ==> Keyed(Recount(agents, ts, nodes))
  {
    var loads := Recount(agents, ts, nodes);
    if HasNode(nodes, m) {
      var i :| 0 <= i < |nodes| && nodes[i].machine == m;
      assert loads[i].machine == m;
    }
    if HasMachine(loads, m) {
      var i :| 0 <= i < |loads| && loads[i].machine == m;
      assert nodes[i].machine == m;
    }
  }

  // ------------------------------------------------------------- one steward move

  function SourceRunning(loads: seq<Load>, source: MachineId): nat {
    if HasMachine(loads, source) then loads[Find(loads, source)].running else 0
  }

  function SourceTotal(loads: seq<Load>, source: MachineId): nat {
    if HasMachine(loads, source) then loads[Find(loads, source)].Total() else 0
  }

  /** The steward's decision for one queued row, given loads: the target machine, if the row should move. */
  function Decide(loads: seq<Load>, t: Task, source: MachineId, observed: Time): Option<Load> {
    var unhealthy := !HasMachine(loads, source);
    var target := SelectFallback(loads, source, unhealthy);
    if target.Some? &&
       ShouldReroute(unhealthy, SourceRunning(loads, source), t.generation, target.value.HasRoom(),
                     SourceTotal(loads, source) > target.value.Total() + 1, Max(0, observed - t.updatedAt))
    then target else None
  }

  // ------------------------------------------------------- the rule, in counts and seconds

  /** The machine that the rule looks at: the best-ranked one but the source, with room if the source is in the fleet. */
  ghost predicate FirstChoice(loads: seq<Load>, source: MachineId, g: Load) {
    var inFleet := exists s :: s in loads && s.machine == source;
    && g in loads && g.machine != source && (inFleet ==> g.running + g.queued < g.capacity)
    && forall l | l in loads && l.machine != source && (inFleet ==> l.running + l.queued < l.capacity) :: RankLeq(g, l)
  }

  /**
    When a row goes from `source` to its first choice g: at once if the source is not in the fleet; else if the source
    has at least two tasks more than g, or if it runs nothing and the row, moved less than twice so far, has not been
    touched for a minute.
   */
  ghost predicate MovesTo(loads: seq<Load>, source: MachineId, g: Load, generation: nat, age: Time) {
    forall s | s in loads && s.machine == source ::
      || s.running + s.queued >= g.running + g.queued + 2
      || (s.running == 0 && generation <= 1 && age >= 60_000_000)
  }

  lemma FirstChoiceIsUnique(loads: seq<Load>, source: MachineId, g: Load, h: Load)
    requires Keyed(loads) && FirstChoice(loads, source, g) && FirstChoice(loads, source, h)
    ensures g == h
  {
    RankingMeans(g, h);
    RankingMeans(h, g);
    NameLeqTotal(g.machine.name, h.machine.name);
  }

  lemma InFleet(loads: seq<Load>, source: MachineId)
    requires Keyed(loads)
    ensures HasMachine(loads, source) <==> exists s :: s in loads && s.machine == source
    ensures forall s | s in loads && s.machine == source :: HasMachine(loads, source) && s == loads[Find(loads, source)]
  {
    if HasMachine(loads, source) { assert loads[Find(loads, source)] in loads; }
    forall s | s in loads && s.machine == source ensures HasMachine(loads, source) && s == loads[Find(loads, source)] {
      var i :| 0 <= i < |loads| && loads[i] == s;
      assert HasMachine(loads, source);
      var j := Find(loads, source);
      assert i == j;
    }
  }

  lemma SelectionIsFirstChoice(loads: seq<Load>, source: MachineId, g: Load)
    requires Keyed(loads)
    ensures SelectFallback(loads, source, !HasMachine(loads, source)) == Some(g) <==> FirstChoice(loads, source, g)
  {
    var r := SelectFallback(loads, source, !HasMachine(loads, source));
    InFleet(loads, source);
    SelectsBestCandidate(loads, source, !HasMachine(loads, source));
    if r.Some? { assert FirstChoice(loads, source, r.value); }
    if FirstChoice(loads, source, g) {
      assert Candidate(loads, source, !HasMachine(loads, source), g);
      FirstChoiceIsUnique(loads, source, g, r.value);
    }
  }

  /** The steward's decision is that rule: a row goes to g exactly if g is the first choice and the counts say so. */
  lemma DecideMeans(loads: seq<Load>, t: Task, source: MachineId, observed: Time, g: Load)
    requires Keyed(loads)
    ensures Decide(loads, t, source, observed) == Some(g) <==>
      FirstChoice(loads, source, g) && MovesTo(loads, source, g, t.generation, observed - t.updatedAt)
  {
    SelectionIsFirstChoice(loads, source, g);
    InFleet(loads, source);
    if HasMachine(loads, source) { assert loads[Find(loads, source)] in loads; }
  }

  /** The rows in this state whose work is assigned to this machine. */
  function RowsOn(agents: Agents, ts: Table, m: MachineId, s: Status): set<nat> {
    set i: nat | i < |ts| && ts[i].status == s && Assigned(agents, ts[i]) == Some(m)
  }

  function Marked(f: Task -> nat, ts: Table): set<nat> { set i: nat | i < |ts| && f(ts[i]) > 0 }

  lemma {:induction false} SumOfMarks(f: Task -> nat, ts: Table)
    requires forall t :: f(t) <= 1
    ensures Sum(f, ts) == |Marked(f, ts)|
  {
    if ts == [] {
      assert Marked(f, ts) == {};
    } else {
      var n := |ts| - 1;
      SumOfMarks(f, ts[..n]);
      assert Marked(f, ts) == Marked(f, ts[..n]) + if f(ts[n]) > 0 then {n} else {};
      assert n !in Marked(f, ts[..n]);
    }
  }

  lemma CountIsTheNumber(agents: Agents, ts: Table, m: MachineId, s: Status)
    ensures Count(agents, ts, m, s) == |RowsOn(agents, ts, m, s)|
  {
    SumOfMarks(InState(agents, m, s), ts);
    assert Marked(InState(agents, m, s), ts) == RowsOn(agents, ts, m, s);
  }

  /** What the load query returns for each machine of the fleet: the numbers of its running and queued rows. */
  lemma LoadsAreCounts(agents: Agents, ts: Table, nodes: seq<Node>, k: nat)
    requires k < |nodes|
    ensures var l, m := Recount(agents, ts, nodes)[k], nodes[k].machine;
      && l.machine == m && l.capacity == (if nodes[k].capacity < 1 then 1 else nodes[k].capacity)
      && l.running == |RowsOn(agents, ts, m, Running)| && l.queued == |RowsOn(agents, ts, m, Queued)|
  {
    CountIsTheNumber(agents, ts, nodes[k].machine, Running);
    CountIsTheNumber(agents, ts, nodes[k].machine, Queued);
  }

  /** A reroute the steward may perform on this table: decided on a full recount, for portable queued work only. */
  predicate MoveAllowed(agents: Agents, nodes: seq<Node>, ts: Table, id: nat, e: Event) {
    && id < |ts| && e.Route?
    && Accepts(agents, ts[id], e)
    && TaskIsAutomaticEligible(ts[id].metadata)
    && Assigned(agents, ts[id]).Some?
    && var d := Decide(Recount(agents, ts, nodes), ts[id], Assigned(agents, ts[id]).value, e.now);
       d.Some? && d.value.machine == e.target
  }

  /** `loads[source]["queued"] -= 1` (floored at 0, only if present) and `loads[target]["queued"] += 1`. */
  function MoveLoad(loads: seq<Load>, source: MachineId, target: MachineId): (r: seq<Load>)
    ensures |r| == |loads|
    ensures forall k | 0 <= k < |loads| ::
      r[k] == if loads[k].machine == target then loads[k].(queued := loads[k].queued + 1)
              else if loads[k].machine == source then loads[k].(queued := Max(0, loads[k].queued - 1))
              else loads[k]
  {
    seq(|loads|, k requires 0 <= k < |loads| =>
      if loads[k].machine == target then loads[k].(queued := loads[k].queued + 1)
      else if loads[k].machine == source then loads[k].(queued := Max(0, loads[k].queued - 1))
      else loads[k])
  }

  /** The facts about the machines that a decision uses. */
  lemma DecisionFacts(agents: Agents, nodes: seq<Node>, ts: Table, id: nat, e: Event) returns (s: nat, g: nat)
    requires DistinctNodes(nodes) && MoveAllowed(agents, nodes, ts, id, e)
    ensures var loads, source := Recount(agents, ts, nodes), Assigned(agents, ts[id]).value;
      && e.target != source
      && g < |loads| && loads[g].machine == e.target
      && if HasNode(nodes, source)
         then s < |loads| && loads[s].machine == source && loads[s].queued >= 1 && loads[g].HasRoom()
              && (loads[s].Total() > loads[g].Total() + 1 || ts[id].generation < 2)
         else true
  {
    var loads, source := Recount(agents, ts, nodes), Assigned(agents, ts[id]).value;
    RecountKeys(agents, ts, nodes, source);
    SelectsBestCandidate(loads, source, !HasMachine(loads, source));
    var d := Decide(loads, ts[id], source, e.now).value;
    assert d in loads;
    g :| 0 <= g < |loads| && loads[g] == d;
    s := 0;
    if HasMachine(loads, source) {
      s := Find(loads, source);
      SumUpdate(InState(agents, source, Queued), ts, id, ts[id]);
      assert Accepts(agents, ts[id], e);
    }
  }

  lemma MovedEntry(agents: Agents, nodes: seq<Node>, ts: Table, id: nat, e: Event, k: nat)
    requires DistinctNodes(nodes) && MoveAllowed(agents, nodes, ts, id, e) && k < |nodes|
    ensures MoveLoad(Recount(agents, ts, nodes), Assigned(agents, ts[id]).value, e.target)[k]
         == Recount(agents, ts[id := Effect(agents, ts[id], e)], nodes)[k]
  {
    var after := Effect(agents, ts[id], e);
    var s, g := DecisionFacts(agents, nodes, ts, id, e);
    SumUpdate(InState(agents, nodes[k].machine, Running), ts, id, after);
    SumUpdate(InState(agents, nodes[k].machine, Queued), ts, id, after);
  }

  /**
    The working loads stay a full recount: after a move of queued work, the two adjusted entries (and every
    other entry) are what the load query would return, and the floor at zero never cuts anything off.
   */
  lemma WorkingLoadsAreARecount(agents: Agents, nodes: seq<Node>, ts: Table, id: nat, e: Event)
    requires DistinctNodes(nodes) && MoveAllowed(agents, nodes, ts, id, e)
    ensures var loads, source := Recount(agents, ts, nodes), Assigned(agents, ts[id]).value;
      && MoveLoad(loads, source, e.target) == Recount(agents, ts[id := Effect(agents, ts[id], e)], nodes)
      && (HasMachine(loads, source) ==> loads[Find(loads, source)].queued >= 1)
  {
    var loads, source := Recount(agents, ts, nodes), Assigned(agents, ts[id]).value;
    var s, g := DecisionFacts(agents, nodes, ts, id, e);
    var after := Effect(agents, ts[id], e);
    RecountKeys(agents, ts, nodes, source);
    var moved, recounted := MoveLoad(loads, source, e.target), Recount(agents, ts[id := after], nodes);
    forall k | 0 <= k < |nodes| ensures moved[k] == recounted[k] {
      MovedEntry(agents, nodes, ts, id, e, k);
    }
    assert moved == recounted;
  }

  /** Balancing respects capacity: a move off a healthy machine leaves its target at or below capacity. */
  lemma BalancingRespectsCapacity(agents: Agents, nodes: seq<Node>, ts: Table, id: nat, e: Event, k: nat)
    requires DistinctNodes(nodes) && MoveAllowed(agents, nodes, ts, id, e)
    requires HasNode(nodes, Assigned(agents, ts[id]).value)
    requires k < |nodes| && nodes[k].machine == e.target
    ensures var r := Recount(agents, ts[id := Effect(agents, ts[id], e)], nodes);
      r[k].Total() <= r[k].capacity
  {
    var s, g := DecisionFacts(agents, nodes, ts, id, e);
    WorkingLoadsAreARecount(agents, nodes, ts, id, e);
    assert g == k;
  }
}
