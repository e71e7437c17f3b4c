/** Failover: the second mover of queued tasks, when a machine is down or its battery is nearly empty. */
module Failover {
  import opened Tasks
  import opened LeaseProtocol
  import opened Ordering
  import opened Balancing
  import opened Queries
  import TaskStore

  datatype MachineState = Online | Offline | WorkerStale | ReachableWorkerStale | BlockedState | OtherState(text: string)

  const BATTERY_CRITICAL_PERCENT := 5.0

  predicate ShouldFailover(battery: Option<real>, state: MachineState) {
    || (battery.Some? && battery.value <= BATTERY_CRITICAL_PERCENT)
    || state.Offline? || state.WorkerStale? || state.ReachableWorkerStale? || state.BlockedState?
  }

  function PreferredAgent(a: AgentId): Option<AgentId> {
    match a.name
    case "programmer" => Some(AgentId("code-reviewer"))
    case "code-reviewer" => Some(AgentId("programmer"))
    case "website-builder" => Some(AgentId("programmer"))
    case "research-lead" => Some(AgentId("grant-scout"))
    case "grant-scout" => Some(AgentId("research-lead"))
    case "resale-scout" => Some(AgentId("research-lead"))
    case "gaming-intel" => Some(AgentId("research-lead"))
    case "business-manager" => Some(AgentId("project-coordinator"))
    case "finance-manager" => Some(AgentId("project-coordinator"))
    case "social-media" => Some(AgentId("content-engine"))
    case "lead-generation" => Some(AgentId("research-lead"))
    case "marketing-agent" => Some(AgentId("content-engine"))
    case "digital-products" => Some(AgentId("content-engine"))
    case _ => None
  }

  function FallbackMachines(m: MachineId): seq<MachineId> {
    var brain, dev := MachineId("brain-gaming-pc"), MachineId("dev-laptop");
    var business, research := MachineId("business-laptop"), MachineId("research-laptop");
    match m.name
    case "dev-laptop" => [brain, business, research]
    case "research-laptop" => [brain, business, dev]
    case "business-laptop" => [brain, research, dev]
    case "brain-gaming-pc" => [dev, research, business]
    case _ => [brain]
  }

  /** `join machine_status_current ...`: a known agent that is active, elsewhere, online and recently seen. */
  predicate Usable(agents: Agents, status: map<MachineId, Machine>, a: AgentId, source: MachineId, now: Time) {
    && a in agents && agents[a].active && agents[a].machine != source
    && agents[a].machine in status && status[agents[a].machine].online
    && status[agents[a].machine].lastSeen >= now - HEARTBEAT_STALE
  }

  function RoleRank(a: AgentId): int {
    match a.name
    case "orchestrator" => 0
    case "project-coordinator" => 1
    case "programmer" => 2
    case "research-lead" => 3
    case _ => 4
  }

  /** The three tables that failover consults; what is proved about it holds for any tables. */
  datatype Tables = Tables(preferred: AgentId -> Option<AgentId>, machines: MachineId -> seq<MachineId>, rank: AgentId -> int)

  /** The tables of the repository. */
  const FALLBACKS := Tables(PreferredAgent, FallbackMachines, RoleRank)

  /** In the repository's tables nobody falls back to itself. */
  lemma FallbacksLeadElsewhere(a: AgentId, m: MachineId)
    ensures FALLBACKS.preferred(a) != Some(a)
    ensures m !in FALLBACKS.machines(m)
  {
  }

  /** Each of the four machines falls back to the other three, to the brain first. */
  lemma FallbacksCoverTheFleet(m: MachineId)
    requires m.name in {"brain-gaming-pc", "dev-laptop", "business-laptop", "research-laptop"}
    ensures var f := FALLBACKS.machines(m);
      && |f| == 3 && f[0] != f[1] && f[0] != f[2] && f[1] != f[2] && m !in f
      && (forall x | x in f :: x.name in {"brain-gaming-pc", "dev-laptop", "business-laptop", "research-laptop"})
      && (m.name != "brain-gaming-pc" ==> f[0].name == "brain-gaming-pc")
  {
  }

  /** Roles come in this order, and all other agents after them. */
  lemma RolesInOrder(other: AgentId)
    requires other.name !in {"orchestrator", "project-coordinator", "programmer", "research-lead"}
    ensures FALLBACKS.rank(AgentId("orchestrator")) < FALLBACKS.rank(AgentId("project-coordinator"))
    ensures FALLBACKS.rank(AgentId("project-coordinator")) < FALLBACKS.rank(AgentId("programmer"))
    ensures FALLBACKS.rank(AgentId("programmer")) < FALLBACKS.rank(AgentId("research-lead")) < FALLBACKS.rank(other)
  {
    assert |"orchestrator"| == 12 && |"project-coordinator"| == 19 && |"programmer"| == 10 && |"research-lead"| == 13;
  }

  /** Programmers and reviewers, and leads and grant scouts, stand in for each other; the others have one substitute each. */
  lemma SubstitutesAreThese(a: AgentId)
    ensures var p := FALLBACKS.preferred(a);
      && (p == Some(AgentId("code-reviewer")) <==> a.name == "programmer")
      && (p == Some(AgentId("grant-scout")) <==> a.name == "research-lead")
      && (p == Some(AgentId("programmer")) <==> a.name in {"code-reviewer", "website-builder"})
      && (p == Some(AgentId("research-lead")) <==> a.name in {"grant-scout", "resale-scout", "gaming-intel", "lead-generation"})
      && (p == Some(AgentId("project-coordinator")) <==> a.name in {"business-manager", "finance-manager"})
      && (p == Some(AgentId("content-engine")) <==> a.name in {"social-media", "marketing-agent", "digital-products"})
  {
  }

  function RoleOrdering(tables: Tables): (AgentId, AgentId) -> bool {
    (a: AgentId, b: AgentId) => tables.rank(a) < tables.rank(b) || (tables.rank(a) == tables.rank(b) && NameLeq(a.name, b.name))
  }

  // ------------------------------------------------------------ the best of a finite set

  ghost predicate Antisymmetric(leq: (AgentId, AgentId) -> bool) { forall a, b | leq(a, b) && leq(b, a) :: a == b }

  ghost predicate IsLeast(candidates: set<AgentId>, leq: (AgentId, AgentId) -> bool, b: AgentId) {
    b in candidates && forall a | a in candidates :: leq(b, a)
  }

  lemma {:induction false} LeastExists(candidates: set<AgentId>, leq: (AgentId, AgentId) -> bool)
    requires TotalPreorder(leq) && candidates != {}
    ensures exists b :: IsLeast(candidates, leq, b)
    decreases candidates
  {
    var a :| a in candidates;
    if candidates == {a} {
      assert IsLeast(candidates, leq, a);
    } else {
      LeastExists(candidates - {a}, leq);
      var b :| IsLeast(candidates - {a}, leq, b);
      if leq(a, b) {
        forall x | x in candidates ensures leq(a, x) {
          assert leq(a, a) && (x != a ==> leq(b, x));
        }
        assert IsLeast(candidates, leq, a);
      } else {
        assert leq(b, a);
        assert IsLeast(candidates, leq, b);
      }
    }
  }

  ghost function Least(candidates: set<AgentId>, leq: (AgentId, AgentId) -> bool): (b: AgentId)
    requires TotalPreorder(leq) && candidates != {}
    ensures IsLeast(candidates, leq, b)
  {
    LeastExists(candidates, leq);
    var b :| IsLeast(candidates, leq, b);
    b
  }

  /** The first `limit` of a finite set, in order. */
  ghost function BestOf(candidates: set<AgentId>, leq: (AgentId, AgentId) -> bool, limit: nat): seq<AgentId>
    requires TotalPreorder(leq)
    decreases limit
  {
    if limit == 0 || candidates == {} then []
    else
      var b := Least(candidates, leq);
      [b] + BestOf(candidates - {b}, leq, limit - 1)
  }

  /** What that means: sorted, no repetition, cut short only by the set, and nothing left out comes before it. */
  ghost predicate IsBest(candidates: set<AgentId>, leq: (AgentId, AgentId) -> bool, limit: nat, r: seq<AgentId>) {
    && |r| <= limit && Distinct(r) && Sorted(leq, r)
    && (forall a | a in r :: a in candidates)
    && (|r| < limit ==> forall a | a in candidates :: a in r)
    && (forall a, b | a in r && b in candidates && b !in r :: leq(a, b))
  }

  lemma {:induction false} BestOfMeans(candidates: set<AgentId>, leq: (AgentId, AgentId) -> bool, limit: nat)
    requires TotalPreorder(leq)
    ensures IsBest(candidates, leq, limit, BestOf(candidates, leq, limit))
    decreases limit
  {
    if limit > 0 && candidates != {} {
      var b := Least(candidates, leq);
      var rest := BestOf(candidates - {b}, leq, limit - 1);
      BestOfMeans(candidates - {b}, leq, limit - 1);
      assert forall k | 0 <= k < |rest| :: rest[k] in rest;
    }
  }

  lemma BestOfStep(r: seq<AgentId>, rest: set<AgentId>, leq: (AgentId, AgentId) -> bool, limit: nat, b: AgentId)
    requires TotalPreorder(leq) && Antisymmetric(leq) && IsLeast(rest, leq, b) && limit > 0
    ensures r + BestOf(rest, leq, limit) == (r + [b]) + BestOf(rest - {b}, leq, limit - 1)
  {
    assert b == Least(rest, leq);
    assert r + ([b] + BestOf(rest - {b}, leq, limit - 1)) == (r + [b]) + BestOf(rest - {b}, leq, limit - 1);
  }

  method TakeBest(candidates: set<AgentId>, leq: (AgentId, AgentId) -> bool, limit: nat) returns (r: seq<AgentId>)
    requires TotalPreorder(leq) && Antisymmetric(leq)
    ensures r == BestOf(candidates, leq, limit)
  {
    var rest := candidates;
    r := [];
    while |r| < limit && rest != {}
      invariant |r| <= limit
      invariant BestOf(candidates, leq, limit) == r + BestOf(rest, leq, limit - |r|)
    {
      var best := PickBest(rest, leq);
      BestOfStep(r, rest, leq, limit - |r|, best.value);
      r, rest := r + [best.value], rest - {best.value};
    }
  }

  lemma RoleOrderingIsTotal(tables: Tables)
    ensures TotalPreorder(RoleOrdering(tables)) && Antisymmetric(RoleOrdering(tables))
  {
    NamesAreOrdered();
    forall a, b | RoleOrdering(tables)(a, b) && RoleOrdering(tables)(b, a) ensures a == b {
      NameLeqTotal(a.name, b.name);
    }
  }

  // ------------------------------------------------------------------ the fallback agent

  /** What `where machine_id = m and status = 'active' order by role limit 3` returns. */
  ghost function TopOf(tables: Tables, agents: Agents, m: MachineId): seq<AgentId> {
    RoleOrderingIsTotal(tables);
    BestOf(ActiveAgents(agents, m), RoleOrdering(tables), 3)
  }

  lemma TopMeans(tables: Tables, agents: Agents, m: MachineId, r: seq<AgentId>)
    requires IsBest(ActiveAgents(agents, m), RoleOrdering(tables), 3, r)
    ensures forall a | a in r :: a in agents && agents[a].active && agents[a].machine == m
    ensures forall b | b in agents && agents[b].active && agents[b].machine == m && b !in r ::
      |r| == 3 && forall a | a in r :: tables.rank(a) < tables.rank(b) || (tables.rank(a) == tables.rank(b) && NameLeq(a.name, b.name))
  {
    forall b | b in agents && agents[b].active && agents[b].machine == m ensures b in ActiveAgents(agents, m) {}
    forall a, b | a in r && b in ActiveAgents(agents, m) && b !in r ensures RoleOrdering(tables)(a, b) {}
  }

  /** The first three active agents of a machine, in role order. */
  method TopAgents(tables: Tables, agents: Agents, m: MachineId) returns (r: seq<AgentId>)
    ensures r == TopOf(tables, agents, m) && IsBest(ActiveAgents(agents, m), RoleOrdering(tables), 3, r)
    ensures Distinct(r) && |r| <= 3 && forall a | a in r :: a in agents && agents[a].active && agents[a].machine == m
    ensures forall b | b in agents && agents[b].active && agents[b].machine == m && b !in r ::
      |r| == 3 && forall a | a in r :: tables.rank(a) < tables.rank(b) || (tables.rank(a) == tables.rank(b) && NameLeq(a.name, b.name))
  {
    RoleOrderingIsTotal(tables);
    r := TakeBest(ActiveAgents(agents, m), RoleOrdering(tables), 3);
    BestOfMeans(ActiveAgents(agents, m), RoleOrdering(tables), 3);
    TopMeans(tables, agents, m, r);
  }

  function PreferredFirst(tables: Tables, agent: AgentId): seq<AgentId> {
    if tables.preferred(agent).Some? then [tables.preferred(agent).value] else []
  }

  /** The preferred agent, then the top agents of each machine in turn. */
  ghost function Candidates(tables: Tables, agents: Agents, agent: AgentId, machines: seq<MachineId>): seq<AgentId> {
    if machines == [] then PreferredFirst(tables, agent)
    else Candidates(tables, agents, agent, machines[..|machines| - 1]) + TopOf(tables, agents, machines[|machines| - 1])
  }

  function FirstUsable(agents: Agents, status: map<MachineId, Machine>, candidates: seq<AgentId>, source: MachineId, now: Time):
    (r: Option<AgentId>)
    ensures r.Some? ==> r.value in candidates && Usable(agents, status, r.value, source, now)
    ensures r.None? ==> forall a | a in candidates :: !Usable(agents, status, a, source, now)
  {
    if candidates == [] then None
    else if Usable(agents, status, candidates[0], source, now) then Some(candidates[0])
    else FirstUsable(agents, status, candidates[1..], source, now)
  }

  /** The first usable candidate for a task of `agent` that leaves `source`. */
  ghost function Fallback(tables: Tables, agents: Agents, status: map<MachineId, Machine>, source: MachineId, agent: AgentId, now: Time):
    (r: Option<AgentId>)
    ensures r.Some? ==> Usable(agents, status, r.value, source, now)
  {
    FirstUsable(agents, status, Candidates(tables, agents, agent, tables.machines(source)), source, now)
  }

  method CollectCandidates(tables: Tables, agents: Agents, agent: AgentId, machines: seq<MachineId>) returns (candidates: seq<AgentId>)
    ensures candidates == Candidates(tables, agents, agent, machines)
  {
    candidates := PreferredFirst(tables, agent);
    var i := 0;
    while i < |machines|
      invariant i <= |machines| && candidates == Candidates(tables, agents, agent, machines[..i])
    {
      var top := TopAgents(tables, agents, machines[i]);
      assert machines[..i + 1][..i] == machines[..i];
      candidates := candidates + top;
      i := i + 1;
    }
    assert machines[..i] == machines;
  }

  method ChooseFallbackAgent(tables: Tables, agents: Agents, status: map<MachineId, Machine>, source: MachineId, agent: AgentId, now: Time)
    returns (r: Option<AgentId>)
    ensures r == Fallback(tables, agents, status, source, agent, now)
  {
    var candidates := CollectCandidates(tables, agents, agent, tables.machines(source));
    var k := 0;
    while k < |candidates|
      invariant k <= |candidates|
      invariant FirstUsable(agents, status, candidates, source, now) == FirstUsable(agents, status, candidates[k..], source, now)
    {
      if Usable(agents, status, candidates[k], source, now) { return Some(candidates[k]); }
      k := k + 1;
    }
    return None;
  }

  ghost predicate NoneUsable(agents: Agents, status: map<MachineId, Machine>, candidates: seq<AgentId>, source: MachineId, now: Time) {
    forall a | a in candidates :: !Usable(agents, status, a, source, now)
  }

  lemma {:induction false} FirstUsableConcat(agents: Agents, status: map<MachineId, Machine>, early: seq<AgentId>, late: seq<AgentId>,
                                             source: MachineId, now: Time)
    ensures var r := FirstUsable(agents, status, early, source, now);
      FirstUsable(agents, status, early + late, source, now) == if r.Some? then r else FirstUsable(agents, status, late, source, now)
  {
    if early == [] {
      assert early + late == late;
    } else {
      assert (early + late)[1..] == early[1..] + late;
      FirstUsableConcat(agents, status, early[1..], late, source, now);
    }
  }

  function Flat(first: seq<AgentId>, tops: seq<seq<AgentId>>): seq<AgentId> {
    if tops == [] then first else Flat(first, tops[..|tops| - 1]) + tops[|tops| - 1]
  }

  lemma {:induction false} NoneUsableInParts(agents: Agents, status: map<MachineId, Machine>, first: seq<AgentId>,
                                            tops: seq<seq<AgentId>>, source: MachineId, now: Time)
    requires NoneUsable(agents, status, Flat(first, tops), source, now)
    ensures NoneUsable(agents, status, first, source, now)
    ensures forall j | 0 <= j < |tops| :: NoneUsable(agents, status, tops[j], source, now)
  {
    if tops != [] {
      var n := |tops| - 1;
      assert forall b | b in Flat(first, tops[..n]) || b in tops[n] :: b in Flat(first, tops);
      NoneUsableInParts(agents, status, first, tops[..n], source, now);
      assert forall j | 0 <= j < n :: tops[..n][j] == tops[j];
    }
  }

  lemma {:induction false} FirstInOrder(agents: Agents, status: map<MachineId, Machine>, first: seq<AgentId>, tops: seq<seq<AgentId>>,
                                       source: MachineId, now: Time)
    returns (k: nat)
    requires FirstUsable(agents, status, Flat(first, tops), source, now).Some? && NoneUsable(agents, status, first, source, now)
    ensures k < |tops| && FirstUsable(agents, status, Flat(first, tops), source, now) == FirstUsable(agents, status, tops[k], source, now)
    ensures forall j | 0 <= j < k :: NoneUsable(agents, status, tops[j], source, now)
  {
    var n := |tops| - 1;
    var early := Flat(first, tops[..n]);
    FirstUsableConcat(agents, status, early, tops[n], source, now);
    k := n;
    if FirstUsable(agents, status, early, source, now).Some? {
      k := FirstInOrder(agents, status, first, tops[..n], source, now);
    } else {
      NoneUsableInParts(agents, status, first, tops[..n], source, now);
    }
    forall j | 0 <= j < k ensures NoneUsable(agents, status, tops[j], source, now) { assert tops[j] == tops[..n][j]; }
  }

  lemma {:induction false} FlatStarts(agents: Agents, status: map<MachineId, Machine>, first: seq<AgentId>, tops: seq<seq<AgentId>>,
                                     source: MachineId, now: Time)
    requires FirstUsable(agents, status, first, source, now).Some?
    ensures FirstUsable(agents, status, Flat(first, tops), source, now) == FirstUsable(agents, status, first, source, now)
  {
    if tops != [] {
      var n := |tops| - 1;
      FlatStarts(agents, status, first, tops[..n], source, now);
      FirstUsableConcat(agents, status, Flat(first, tops[..n]), tops[n], source, now);
    }
  }

  /** The chosen one is the first in the list that can be used. */
  lemma {:induction false} FirstUsableIsFirst(agents: Agents, status: map<MachineId, Machine>, candidates: seq<AgentId>, source: MachineId,
                                             now: Time)
    returns (k: nat)
    requires FirstUsable(agents, status, candidates, source, now).Some?
    ensures k < |candidates| && FirstUsable(agents, status, candidates, source, now) == Some(candidates[k])
    ensures Usable(agents, status, candidates[k], source, now) && NoneUsable(agents, status, candidates[..k], source, now)
  {
    k := 0;
    if !Usable(agents, status, candidates[0], source, now) {
      k := FirstUsableIsFirst(agents, status, candidates[1..], source, now);
      assert candidates[..k + 1] == [candidates[0]] + candidates[1..][..k];
      k := k + 1;
    }
  }

  ghost function Tops(tables: Tables, agents: Agents, machines: seq<MachineId>): (r: seq<seq<AgentId>>)
    ensures |r| == |machines| && forall i | 0 <= i < |r| :: r[i] == TopOf(tables, agents, machines[i])
  {
    seq(|machines|, i requires 0 <= i < |machines| => TopOf(tables, agents, machines[i]))
  }

  lemma TopsSplit(tables: Tables, agents: Agents, machines: seq<MachineId>)
    requires machines != []
    ensures var n := |machines| - 1;
      Tops(tables, agents, machines) == Tops(tables, agents, machines[..n]) + [TopOf(tables, agents, machines[n])]
  {
  }

  lemma FlatExtend(first: seq<AgentId>, tops: seq<seq<AgentId>>, last: seq<AgentId>)
    ensures Flat(first, tops + [last]) == Flat(first, tops) + last
  {
    assert (tops + [last])[..|tops|] == tops;
  }

  lemma {:induction false} CandidatesAreFlat(tables: Tables, agents: Agents, agent: AgentId, machines: seq<MachineId>)
    ensures Candidates(tables, agents, agent, machines) == Flat(PreferredFirst(tables, agent), Tops(tables, agents, machines))
  {
    if machines != [] {
      var n := |machines| - 1;
      CandidatesAreFlat(tables, agents, agent, machines[..n]);
      TopsSplit(tables, agents, machines);
      FlatExtend(PreferredFirst(tables, agent), Tops(tables, agents, machines[..n]), TopOf(tables, agents, machines[n]));
    }
  }

  /**
    The order of the candidates: the chosen agent is the preferred one if it is usable, else the first usable one among
    the top agents of the first fallback machine that has any.
   */
  lemma MachinesInOrder(tables: Tables, agents: Agents, status: map<MachineId, Machine>, source: MachineId, agent: AgentId, now: Time)
    returns (k: nat)
    requires Fallback(tables, agents, status, source, agent, now).Some?
    ensures var r, machines := Fallback(tables, agents, status, source, agent, now), tables.machines(source);
      if tables.preferred(agent).Some? && Usable(agents, status, tables.preferred(agent).value, source, now)
      then r == tables.preferred(agent)
      else && k < |machines| && r == FirstUsable(agents, status, TopOf(tables, agents, machines[k]), source, now)
           && forall j | 0 <= j < k :: NoneUsable(agents, status, TopOf(tables, agents, machines[j]), source, now)
  {
    var machines := tables.machines(source);
    CandidatesAreFlat(tables, agents, agent, machines);
    k := 0;
    var first, tops := PreferredFirst(tables, agent), Tops(tables, agents, machines);
    if NoneUsable(agents, status, first, source, now) {
      k := FirstInOrder(agents, status, first, tops, source, now);
    } else {
      FlatStarts(agents, status, first, tops, source, now);
    }
  }

  /** A usable preferred agent is always chosen, and nobody is chosen only if no candidate can be used. */
  lemma FallbackMeans(tables: Tables, agents: Agents, status: map<MachineId, Machine>, source: MachineId, agent: AgentId, now: Time)
    ensures var r, preferred := Fallback(tables, agents, status, source, agent, now), tables.preferred(agent);
      && (preferred.Some? && Usable(agents, status, preferred.value, source, now) ==> r == preferred)
      && (r.None? <==> forall a | a in Candidates(tables, agents, agent, tables.machines(source)) :: !Usable(agents, status, a, source, now))
  {
    CandidatesStart(tables, agents, agent, tables.machines(source));
  }

  lemma {:induction false} CandidatesStart(tables: Tables, agents: Agents, agent: AgentId, machines: seq<MachineId>)
    ensures PreferredFirst(tables, agent) <= Candidates(tables, agents, agent, machines)
  {
    if machines != [] {
      CandidatesStart(tables, agents, agent, machines[..|machines| - 1]);
    }
  }

  // ---------------------------------------------------------------------- the reassignment

  datatype Reassignment = Reassignment(id: nat, fromAgent: AgentId, toAgent: AgentId)

  function IsCandidateRow(agents: Agents, ts: Table, machine: MachineId, locked: set<nat>): nat -> bool {
    (i: nat) => i < |ts| && i !in locked && ts[i].status.Queued? && ts[i].agent in agents && Assigned(agents, ts[i]) == Some(machine)
  }

  predicate RowOrder(ts: Table, a: nat, b: nat) {
    if a < |ts| && b < |ts| then
      ts[a].priority > ts[b].priority || (ts[a].priority == ts[b].priority && ts[a].updatedAt <= ts[b].updatedAt)
    else b >= |ts|
  }

  function RowOrdering(ts: Table): (nat, nat) -> bool { (a: nat, b: nat) => RowOrder(ts, a, b) }

  /** One evaluation: whose tasks move, when, and which agent is to take over from which. */
  datatype Evaluation = Evaluation(agents: Agents, machine: MachineId, now: Time, choose: AgentId -> Option<AgentId>)

  function Target(e: Evaluation, t: Task): (r: Option<AgentId>)
    ensures r.Some? ==> r.value in e.agents
  {
    var a := e.choose(t.agent);
    if a.Some? && a.value in e.agents then a else None
  }

  /** The Failover steps for the selected rows, one for each row that has a fallback. */
  function FailoverOps(e: Evaluation, ts: Table, rows: seq<nat>): seq<Op> {
    if rows == [] then []
    else
      var init, id := rows[..|rows| - 1], rows[|rows| - 1];
      FailoverOps(e, ts, init)
      + if id < |ts| && Target(e, ts[id]).Some? then [On(id, Event.Failover(Target(e, ts[id]).value, e.now))] else []
  }

  function EntryFor(e: Evaluation, ts: Table, id: nat): seq<Reassignment> {
    if id < |ts| && Target(e, ts[id]).Some? then [Reassignment(id, ts[id].agent, Target(e, ts[id]).value)] else []
  }

  function Report(e: Evaluation, ts: Table, rows: seq<nat>): seq<Reassignment> {
    if rows == [] then []
    else
      var init, id := rows[..|rows| - 1], rows[|rows| - 1];
      Report(e, ts, init) + EntryFor(e, ts, id)
  }

  /** A selected row afterwards: with its first usable candidate, or as it was if there is none. */
  function Handled(e: Evaluation, t: Task): Task {
    var a := Target(e, t);
    if a.None? then t
    else t.(agent := a.value, executionMachine := Some(e.agents[a.value].machine), updatedAt := e.now)
  }

  predicate IsQueuedOn(e: Evaluation, ts: Table, id: nat) {
    id < |ts| && ts[id].status.Queued? && Assigned(e.agents, ts[id]) == Some(e.machine)
  }

  /** Queued rows of the machine, each at most once. */
  predicate Selected(e: Evaluation, ts: Table, rows: seq<nat>) {
    rows == [] ||
    (var init, id := rows[..|rows| - 1], rows[|rows| - 1];
     Selected(e, ts, init) && id !in init && IsQueuedOn(e, ts, id))
  }

  lemma {:induction false} DistinctRowsAreSelected(e: Evaluation, ts: Table, rows: seq<nat>)
    requires Distinct(rows) && forall j | 0 <= j < |rows| :: IsQueuedOn(e, ts, rows[j])
    ensures Selected(e, ts, rows)
  {
    if rows != [] {
      DistinctRowsAreSelected(e, ts, rows[..|rows| - 1]);
    }
  }

  lemma {:induction false} PrefixIsSelected(e: Evaluation, ts: Table, rows: seq<nat>, k: nat)
    requires Selected(e, ts, rows) && k <= |rows|
    ensures Selected(e, ts, rows[..k])
    ensures k < |rows| ==> rows[k] !in rows[..k] && IsQueuedOn(e, ts, rows[k])
  {
    if k < |rows| {
      var init := rows[..|rows| - 1];
      if k < |init| {
        PrefixIsSelected(e, ts, init, k);
      }
      if k <= |init| { assert init[..k] == rows[..k]; }
    } else {
      assert rows[..k] == rows;
    }
  }

  /** One Failover step is what handling a row does to it. */
  lemma HandlingIsAStep(e: Evaluation, t: Task)
    requires t.status.Queued? && Target(e, t).Some?
    ensures Step(e.agents, t, Event.Failover(Target(e, t).value, e.now)) == Handled(e, t)
  {
  }

  lemma {:induction false} HandledRows(e: Evaluation, ts: Table, rows: seq<nat>, i: nat)
    requires Selected(e, ts, rows) && i < |ts|
    ensures var r := TableRun(e.agents, ts, FailoverOps(e, ts, rows));
      |r| == |ts| && r[i] == if i in rows then Handled(e, ts[i]) else ts[i]
  {
    if rows != [] {
      var n := |rows| - 1;
      HandledRows(e, ts, rows[..n], i);
      HandledRows(e, ts, rows[..n], rows[n]);
      NextFailover(e, ts, rows, n);
      assert rows[..n + 1] == rows && rows == rows[..n] + [rows[n]];
      if Target(e, ts[rows[n]]).Some? { HandlingIsAStep(e, ts[rows[n]]); }
    }
  }

  /** Taking one more row into account: one more step, or none. */
  lemma NextFailover(e: Evaluation, ts: Table, rows: seq<nat>, k: nat)
    requires k < |rows| && rows[k] < |ts|
    ensures var a, before := Target(e, ts[rows[k]]), TableRun(e.agents, ts, FailoverOps(e, ts, rows[..k]));
      && TableRun(e.agents, ts, FailoverOps(e, ts, rows[..k + 1]))
         == (if a.None? then before else TableStep(e.agents, before, On(rows[k], Event.Failover(a.value, e.now))))
      && Report(e, ts, rows[..k + 1]) == Report(e, ts, rows[..k]) + EntryFor(e, ts, rows[k])
  {
    assert rows[..k + 1][..k] == rows[..k];
    var ops := FailoverOps(e, ts, rows[..k]);
    if Target(e, ts[rows[k]]).Some? {
      var op := On(rows[k], Event.Failover(Target(e, ts[rows[k]]).value, e.now));
      assert (ops + [op])[..|ops|] == ops;
    } else {
      assert ops + [] == ops;
    }
  }

  ghost function Chooser(tables: Tables, agents: Agents, status: map<MachineId, Machine>, machine: MachineId, now: Time):
    AgentId -> Option<AgentId>
  {
    (a: AgentId) => Fallback(tables, agents, status, machine, a, now)
  }

  /** The evaluation whose choice is the first usable candidate. */
  ghost predicate Chooses(e: Evaluation, tables: Tables, status: map<MachineId, Machine>) {
    forall a :: e.choose(a) == Fallback(tables, e.agents, status, e.machine, a, e.now)
  }

  /** One iteration of the loop: from the table and report of k rows to those of k + 1. */
  lemma OneReassignment(e: Evaluation, tables: Tables, status: map<MachineId, Machine>, ts: Table, rows: seq<nat>, k: nat)
    requires Chooses(e, tables, status) && Selected(e, ts, rows) && k < |rows|
    ensures rows[k] < |ts|
    ensures var id := rows[k];
      var a, before := Fallback(tables, e.agents, status, e.machine, ts[id].agent, e.now), TableRun(e.agents, ts, FailoverOps(e, ts, rows[..k]));
      && |before| == |ts| && before[id] == ts[id]
      && TableRun(e.agents, ts, FailoverOps(e, ts, rows[..k + 1]))
         == (if a.None? then before
             else before[id := ts[id].(agent := a.value, executionMachine := Some(e.agents[a.value].machine), updatedAt := e.now)])
      && Report(e, ts, rows[..k + 1])
         == Report(e, ts, rows[..k]) + (if a.None? then [] else [Reassignment(id, ts[id].agent, a.value)])
  {
    PrefixIsSelected(e, ts, rows, k);
    var t := ts[rows[k]];
    assert e.choose(t.agent) == Fallback(tables, e.agents, status, e.machine, t.agent, e.now);
    HandledRows(e, ts, rows[..k], rows[k]);
    NextFailover(e, ts, rows, k);
    if Target(e, t).Some? { HandlingIsAStep(e, t); }
  }

  /** The loop over the selected rows. */
  method ReassignRows(tables: Tables, agents: Agents, status: map<MachineId, Machine>, machine: MachineId, now: Time, ts: Table,
                      rows: seq<nat>, ghost e: Evaluation)
    returns (r: Table, reassigned: seq<Reassignment>)
    requires e.agents == agents && e.machine == machine && e.now == now && Chooses(e, tables, status) && Selected(e, ts, rows)
    ensures r == TableRun(agents, ts, FailoverOps(e, ts, rows)) && reassigned == Report(e, ts, rows)
  {
    r, reassigned := ts, [];
    var k := 0;
    while k < |rows|
      invariant k <= |rows|
      invariant r == TableRun(agents, ts, FailoverOps(e, ts, rows[..k])) && reassigned == Report(e, ts, rows[..k])
    {
      var id := rows[k];
      OneReassignment(e, tables, status, ts, rows, k);
      var t := r[id];
      var agent := ChooseFallbackAgent(tables, agents, status, machine, t.agent, now);
      if agent.Some? {
        reassigned := reassigned + [Reassignment(id, t.agent, agent.value)];
        r := r[id := t.(agent := agent.value, executionMachine := Some(agents[agent.value].machine), updatedAt := now)];
      }
      k := k + 1;
    }
    assert rows[..k] == rows;
  }

  /** Up to fifty unlocked queued rows of the machine, by priority and then longest untouched. */
  ghost predicate IsFailoverSelection(e: Evaluation, ts: Table, locked: set<nat>, rows: seq<nat>) {
    exists all :: IsSelection(rows, all, Matches(|ts|, IsCandidateRow(e.agents, ts, e.machine, locked)), RowOrdering(ts), 50)
  }

  /** Which rows these are. */
  lemma FailoverSelectionMeans(e: Evaluation, ts: Table, locked: set<nat>, rows: seq<nat>)
    requires IsFailoverSelection(e, ts, locked, rows)
    ensures Distinct(rows) && |rows| <= 50
    ensures forall i | i in rows ::
      && i < |ts| && i !in locked && ts[i].status == Queued && ts[i].agent in e.agents
      && (if ts[i].executionMachine.Some? then ts[i].executionMachine.value else e.agents[ts[i].agent].machine) == e.machine
    ensures forall j | 0 <= j < |ts| && j !in locked && j !in rows && ts[j].status == Queued && ts[j].agent in e.agents
        && (if ts[j].executionMachine.Some? then ts[j].executionMachine.value else e.agents[ts[j].agent].machine) == e.machine ::
      && |rows| == 50
      && forall i | i in rows :: ts[i].priority > ts[j].priority
                                 || (ts[i].priority == ts[j].priority && ts[i].updatedAt <= ts[j].updatedAt)
  {
    var matches := Matches(|ts|, IsCandidateRow(e.agents, ts, e.machine, locked));
    var all :| IsSelection(rows, all, matches, RowOrdering(ts), 50);
    SelectionMeans(rows, all, matches, RowOrdering(ts), 50);
    forall j: nat ensures j in matches <==> IsCandidateRow(e.agents, ts, e.machine, locked)(j) {}
    forall i, j | i in rows && j in matches && j !in rows ensures RowOrder(ts, i, j) { assert RowOrdering(ts)(i, j); }
  }

  method SelectRows(agents: Agents, machine: MachineId, ts: Table, locked: set<nat>, ghost e: Evaluation) returns (rows: seq<nat>)
    requires e.agents == agents && e.machine == machine
    ensures IsFailoverSelection(e, ts, locked, rows)
    ensures Selected(e, ts, rows) && |rows| <= 50 && forall i | i in rows :: i !in locked
  {
    ghost var all;
    rows, all := Query(|ts|, IsCandidateRow(agents, ts, machine, locked), RowOrdering(ts), 50);
    forall j | 0 <= j < |rows| ensures IsCandidateRow(e.agents, ts, e.machine, locked)(rows[j]) {
      assert rows[j] in all;
      assert rows[j] in Matches(|ts|, IsCandidateRow(e.agents, ts, e.machine, locked));
    }
    DistinctRowsAreSelected(e, ts, rows);
  }

  /**
    Evaluates one machine: nothing unless it should fail over, else a run of Failover steps, one for each selected row
    that has a fallback; the report lists these rows.
   */
  method EvaluateFailover(store: TaskStore.Store, tables: Tables, status: map<MachineId, Machine>, machine: MachineId,
                          battery: Option<real>, state: MachineState, now: Time, locked: set<nat>)
    returns (triggered: bool, reassigned: seq<Reassignment>, ghost rows: seq<nat>, ghost e: Evaluation)
    modifies store
    ensures triggered <==>
      || (battery.Some? && battery.value <= 5.0)
      || state == Offline || state == WorkerStale || state == ReachableWorkerStale || state == BlockedState
    ensures !triggered ==> store.tasks == old(store.tasks) && reassigned == [] && rows == []
    ensures e.agents == store.agents && e.machine == machine && e.now == now && Chooses(e, tables, status)
    ensures triggered ==> IsFailoverSelection(e, old(store.tasks), locked, rows)
    ensures Selected(e, old(store.tasks), rows) && |rows| <= 50
    ensures store.tasks == TableRun(store.agents, old(store.tasks), FailoverOps(e, old(store.tasks), rows))
    ensures reassigned == Report(e, old(store.tasks), rows)
  {
    e, rows := Evaluation(store.agents, machine, now, Chooser(tables, store.agents, status, machine, now)), [];
    if !ShouldFailover(battery, state) { return false, [], [], e; }
    var selected := SelectRows(store.agents, machine, store.tasks, locked, e);
    var after;
    after, reassigned := ReassignRows(tables, store.agents, status, machine, now, store.tasks, selected, e);
    store.tasks, rows, triggered := after, selected, true;
  }

  /**
    What such a run does: a selected row with a fallback goes to a usable agent on another online machine, coherent
    and with attempts, back-off and status untouched; a selected row without one and every other row stay as they are.
   */
  lemma FailoverMeans(e: Evaluation, tables: Tables, status: map<MachineId, Machine>, ts: Table, rows: seq<nat>, i: nat)
    requires Chooses(e, tables, status) && Selected(e, ts, rows) && i < |ts|
    ensures var r, a := TableRun(e.agents, ts, FailoverOps(e, ts, rows)), Fallback(tables, e.agents, status, e.machine, ts[i].agent, e.now);
      && |r| == |ts| && Target(e, ts[i]) == a
      && (i !in rows || a.None? ==> r[i] == ts[i])
      && (i in rows && a.Some? ==>
            && r[i].agent == a.value && a.value in e.agents && e.agents[a.value].active
            && var target := e.agents[a.value].machine;
            && target != e.machine && target in status && status[target].online && e.now - status[target].lastSeen <= 60_000_000
            && Coherent(e.agents, r[i]) && r[i].executionMachine.Some? && r[i].executionMachine != Some(e.machine)
            && r[i] == ts[i].(agent := a.value, executionMachine := r[i].executionMachine, updatedAt := e.now))
  {
    assert e.choose(ts[i].agent) == Fallback(tables, e.agents, status, e.machine, ts[i].agent, e.now);
    HandledRows(e, ts, rows, i);
  }

  lemma {:induction false} SelectedRowsAreQueued(e: Evaluation, ts: Table, rows: seq<nat>, id: nat)
    requires Selected(e, ts, rows) && id in rows
    ensures IsQueuedOn(e, ts, id)
  {
    var n := |rows| - 1;
    if id != rows[n] {
      assert rows == rows[..n] + [rows[n]];
      SelectedRowsAreQueued(e, ts, rows[..n], id);
    }
  }

  lemma {:induction false} ReportLists(e: Evaluation, ts: Table, rows: seq<nat>, m: Reassignment)
    ensures |Report(e, ts, rows)| <= |rows|
    ensures m in Report(e, ts, rows) <==> m.id in rows && [m] == EntryFor(e, ts, m.id)
  {
    if rows != [] {
      var init, id := rows[..|rows| - 1], rows[|rows| - 1];
      ReportLists(e, ts, init, m);
      assert m.id in rows <==> m.id in init || m.id == id;
      assert m in EntryFor(e, ts, id) <==> [m] == EntryFor(e, ts, id);
    }
  }

  /** A row changes exactly if the report lists it, with its agents before and after. */
  lemma ReportIsExact(e: Evaluation, tables: Tables, status: map<MachineId, Machine>, ts: Table, rows: seq<nat>, i: nat)
    requires Chooses(e, tables, status) && Selected(e, ts, rows) && i < |ts|
    ensures var r, report := TableRun(e.agents, ts, FailoverOps(e, ts, rows)), Report(e, ts, rows);
      && |r| == |ts| && |report| <= |rows|
      && (forall m | m in report && m.id == i :: m == Reassignment(i, ts[i].agent, r[i].agent))
      && (r[i] != ts[i] <==> Reassignment(i, ts[i].agent, r[i].agent) in report)
  {
    FailoverMeans(e, tables, status, ts, rows, i);
    var r, report := TableRun(e.agents, ts, FailoverOps(e, ts, rows)), Report(e, ts, rows);
    if i in rows { SelectedRowsAreQueued(e, ts, rows, i); }
    ReportLists(e, ts, rows, Reassignment(i, ts[i].agent, r[i].agent));
    forall m | m in report && m.id == i ensures m == Reassignment(i, ts[i].agent, r[i].agent) {
      ReportLists(e, ts, rows, m);
    }
  }
}
