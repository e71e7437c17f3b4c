/** The queries of the queue: which rows, machines and agents they return, and in which order. */
module Queries {
  import opened Tasks
  import opened Ordering
  import opened Balancing

  // ------------------------------------------------------------------- queries

  /**
    What `where p order by k limit n for update skip locked` returns: the unlocked matches in order, cut at the
    limit. `all` is the uncut answer; rows that compare equal may come in any order.
   */
  ghost predicate IsSelection(rows: seq<nat>, all: seq<nat>, matches: set<nat>, leq: (nat, nat) -> bool, limit: nat) {
    && Distinct(all) && Sorted(leq, all)
    && (forall i: nat :: i in all <==> i in matches)
    && rows == all[..Min(limit, |all|)]
  }

  /** What a selection means, row by row. */
  lemma SelectionMeans(rows: seq<nat>, all: seq<nat>, matches: set<nat>, leq: (nat, nat) -> bool, limit: nat)
    requires IsSelection(rows, all, matches, leq, limit)
    ensures Distinct(rows) && Sorted(leq, rows) && |rows| <= limit && forall i | i in rows :: i in matches
    ensures |rows| < limit ==> forall i | i in matches :: i in rows
    ensures forall i, j | i in rows && j in matches && j !in rows :: leq(i, j)
  {
    forall i | i in rows ensures i in matches { assert i in all; }
    forall i, j | i in rows && j in matches && j !in rows ensures leq(i, j) {
      var a :| 0 <= a < |rows| && rows[a] == i;
      var b :| 0 <= b < |all| && all[b] == j;
      assert forall c | 0 <= c < |rows| :: all[c] == rows[c] && rows[c] in rows;
      assert leq(all[a], all[b]);
    }
  }

  function Matches(n: nat, p: nat -> bool): set<nat> { set i: nat | i < n && p(i) }

  function Positions(n: nat, p: nat -> bool): (r: seq<nat>)
    ensures forall i: nat :: i in r <==> i < n && p(i)
    ensures Distinct(r)
  {
    if n == 0 then [] else Positions(n - 1, p) + if p(n - 1) then [n - 1] else []
  }

  method Query(n: nat, p: nat -> bool, leq: (nat, nat) -> bool, limit: nat) returns (rows: seq<nat>, ghost all: seq<nat>)
    requires TotalPreorder(leq)
    ensures IsSelection(rows, all, Matches(n, p), leq, limit)
  {
    var matching := Positions(n, p);
    var sorted := SortBy(leq, matching);
    SortBySorts(leq, matching);
    SamePermutation(sorted, matching);
    DistinctCounts(matching);
    DistinctCounts(sorted);
    rows, all := sorted[..Min(limit, |sorted|)], sorted;
  }

  lemma {:induction false} SelectionSize(all: seq<nat>, matches: set<nat>)
    requires Distinct(all) && forall i: nat :: i in all <==> i in matches
    ensures |all| == |matches|
  {
    if all == [] {
      forall i: nat ensures i !in matches { assert i !in all; }
      assert matches == {};
    } else {
      var n := |all| - 1;
      assert all == all[..n] + [all[n]];
      assert all[n] in all && all[n] in matches;
      forall i: nat ensures i in all[..n] <==> i in matches - {all[n]} {
        assert i in all <==> i in all[..n] || i == all[n];
      }
      SelectionSize(all[..n], matches - {all[n]});
    }
  }

  /** Priority aged by one point an hour, at most twenty; a missing row never matters. */
  function AgedPriority(ts: Table, now: Time, i: nat): int {
    if i < |ts| then ts[i].priority + Min(20, (now - ts[i].createdAt) / HOUR) else 0
  }

  function CreatedAt(ts: Table, i: nat): Time { if i < |ts| then ts[i].createdAt else 0 }

  /** `order by (priority + least(20, floor(age in hours))) desc, created_at asc`. */
  predicate ClaimOrder(ts: Table, now: Time, a: nat, b: nat) {
    || AgedPriority(ts, now, a) > AgedPriority(ts, now, b)
    || (AgedPriority(ts, now, a) == AgedPriority(ts, now, b) && CreatedAt(ts, a) <= CreatedAt(ts, b))
  }

  function ClaimOrdering(ts: Table, now: Time): (nat, nat) -> bool { (a: nat, b: nat) => ClaimOrder(ts, now, a, b) }

  lemma ClaimOrderingIsTotal(ts: Table, now: Time)
    ensures TotalPreorder(ClaimOrdering(ts, now))
  {
  }

  /**
    The claim order in numbers: with ages of ha and hb full hours, a comes before b if its priority plus its hours, of
    which at most twenty count, is higher, or equal and a is not younger.
   */
  lemma ClaimOrderMeans(ts: Table, now: Time, a: nat, b: nat, ha: int, hb: int)
    requires a < |ts| && b < |ts|
    requires ha * 3_600_000_000 <= now - ts[a].createdAt < (ha + 1) * 3_600_000_000
    requires hb * 3_600_000_000 <= now - ts[b].createdAt < (hb + 1) * 3_600_000_000
    ensures var pa, pb := ts[a].priority + (if ha < 20 then ha else 20), ts[b].priority + (if hb < 20 then hb else 20);
      ClaimOrder(ts, now, a, b) <==> pa > pb || (pa == pb && ts[a].createdAt <= ts[b].createdAt)
  {
    FullHours(now - ts[a].createdAt, ha);
    FullHours(now - ts[b].createdAt, hb);
  }

  lemma FullHours(age: int, h: int)
    requires h * 3_600_000_000 <= age < (h + 1) * 3_600_000_000
    ensures age / HOUR == h
  {
    var q, r := age / 3_600_000_000, age % 3_600_000_000;
    assert age == q * 3_600_000_000 + r;
  }

  /** Aging is fair: an older row of at least equal priority is strictly ahead of a younger one. */
  lemma OlderComesFirst(ts: Table, now: Time, elder: nat, young: nat)
    requires elder < |ts| && young < |ts|
    requires ts[elder].createdAt < ts[young].createdAt && ts[elder].priority >= ts[young].priority
    ensures !ClaimOrder(ts, now, young, elder)
  {
    assert (now - ts[elder].createdAt) / HOUR >= (now - ts[young].createdAt) / HOUR;
  }

  /** Aging is bounded: work under an hour old passes work of 20 hours or more only with over 20 points more. */
  lemma OvertakingNeedsTwentyPoints(ts: Table, now: Time, elder: nat, young: nat)
    requires elder < |ts| && young < |ts|
    requires now - ts[young].createdAt < HOUR && now - ts[elder].createdAt >= 20 * HOUR
    requires ClaimOrder(ts, now, young, elder)
    ensures ts[young].priority > ts[elder].priority + 20
  {
    assert (now - ts[young].createdAt) / HOUR <= 0;
    assert (now - ts[elder].createdAt) / HOUR >= 20;
  }

  // ------------------------------------------------------------- machine status

  datatype Machine = Machine(id: MachineId, capacityWeight: int, online: bool, lastSeen: Time)

  const HEARTBEAT_STALE: Time := 60 * SECOND

  predicate IsHealthy(m: Machine, employed: set<MachineId>, observed: Time) {
    m.online && m.lastSeen >= observed - HEARTBEAT_STALE && m.id in employed
  }

  /** `machines.id` is the primary key. */
  predicate DistinctMachines(ms: seq<Machine>) {
    forall i, j | 0 <= i < j < |ms| :: ms[i].id != ms[j].id
  }

  function HealthyNodes(ms: seq<Machine>, employed: set<MachineId>, observed: Time): (r: seq<Node>)
    requires DistinctMachines(ms)
    ensures DistinctNodes(r)
    ensures forall id :: HasNode(r, id) <==>
      id in employed && exists i | 0 <= i < |ms| :: ms[i].id == id && ms[i].online && observed - ms[i].lastSeen <= 60_000_000
    ensures forall k | 0 <= k < |r| :: exists i | 0 <= i < |ms| :: ms[i].id == r[k].machine && r[k].capacity == Max(1, ms[i].capacityWeight)
  {
    if ms == [] then []
    else
      var n := |ms| - 1;
      var rest := HealthyNodes(ms[..n], employed, observed);
      if IsHealthy(ms[n], employed, observed) then
        var r := rest + [Node(ms[n].id, Max(1, ms[n].capacityWeight))];
        assert forall id :: HasNode(r, id) <==> HasNode(rest, id) || id == ms[n].id by {
          forall id ensures HasNode(r, id) <==> HasNode(rest, id) || id == ms[n].id {
            assert r[|rest|].machine == ms[n].id;
            if HasNode(rest, id) { var k :| 0 <= k < |rest| && rest[k].machine == id; assert r[k].machine == id; }
            if HasNode(r, id) { var k :| 0 <= k < |r| && r[k].machine == id; assert k < |rest| ==> rest[k].machine == id; }
          }
        }
        r
      else rest
  }

  // -------------------------------------------------------------- picking an agent

  predicate ActiveOn(agents: Agents, a: AgentId, m: MachineId) {
    a in agents && agents[a].active && agents[a].machine == m
  }

  /** A best element of a finite set, as `order by ... limit 1` picks it. */
  method PickBest(candidates: set<AgentId>, leq: (AgentId, AgentId) -> bool) returns (r: Option<AgentId>)
    requires TotalPreorder(leq)
    ensures r.None? <==> candidates == {}
    ensures r.Some? ==> r.value in candidates && forall a | a in candidates :: leq(r.value, a)
  {
    r := None;
    var rest := candidates;
    while rest != {}
      invariant rest <= candidates
      invariant r.None? <==> candidates - rest == {}
      invariant r.Some? ==> r.value in candidates - rest && forall a | a in candidates - rest :: leq(r.value, a)
      decreases rest
    {
      var a :| a in rest;
      assert leq(a, a);
      if r.None? || !leq(r.value, a) { r := Some(a); }
      rest := rest - {a};
    }
  }

  function CategoryRank(agents: Agents, category: string, a: AgentId): int {
    if a in agents && agents[a].category == category then 0 else 1
  }

  /** `order by case when category = ... then 0 else 1 end, id`. */
  function AgentOrdering(agents: Agents, category: string): (AgentId, AgentId) -> bool {
    (a: AgentId, b: AgentId) =>
      CategoryRank(agents, category, a) < CategoryRank(agents, category, b)
      || (CategoryRank(agents, category, a) == CategoryRank(agents, category, b) && NameLeq(a.name, b.name))
  }

  lemma NamesAreOrdered()
    ensures forall a, b :: NameLeq(a, b) || NameLeq(b, a)
    ensures forall a, b, c :: NameLeq(a, b) && NameLeq(b, c) ==> NameLeq(a, c)
  {
    forall a, b ensures NameLeq(a, b) || NameLeq(b, a) { NameLeqTotal(a, b); }
    forall a, b, c | NameLeq(a, b) && NameLeq(b, c) ensures NameLeq(a, c) { NameLeqTransitive(a, b, c); }
  }

  lemma AgentOrderingIsTotal(agents: Agents, category: string)
    ensures TotalPreorder(AgentOrdering(agents, category))
  {
    NamesAreOrdered();
  }

  function ActiveAgents(agents: Agents, m: MachineId): set<AgentId> { set a | a in agents && ActiveOn(agents, a, m) }

  method PickAgent(agents: Agents, m: MachineId, category: string) returns (r: Option<AgentId>)
    ensures r.None? <==> forall a :: !ActiveOn(agents, a, m)
    ensures r.Some? ==> r.value in agents && agents[r.value].active && agents[r.value].machine == m
    ensures r.Some? ==> forall a | a in agents && agents[a].active && agents[a].machine == m ::
      && (agents[a].category == category ==> agents[r.value].category == category)
      && (agents[a].category == category || agents[r.value].category != category ==> NameLeq(r.value.name, a.name))
    ensures r.None? <==> forall a | a in agents && agents[a].active :: agents[a].machine != m
    ensures r.Some? ==> forall a | ActiveOn(agents, a, m) :: AgentOrdering(agents, category)(r.value, a)
  {
    AgentOrderingIsTotal(agents, category);
    var candidates := ActiveAgents(agents, m);
    forall a ensures a in candidates <==> a in agents && agents[a].active && agents[a].machine == m {}
    r := PickBest(candidates, AgentOrdering(agents, category));
    forall a | a in agents && agents[a].active && agents[a].machine == m
      ensures r.Some?
      ensures agents[a].category == category ==> agents[r.value].category == category
      ensures agents[a].category == category || agents[r.value].category != category ==> NameLeq(r.value.name, a.name)
    {
      assert a in candidates;
      assert CategoryRank(agents, category, r.value) <= CategoryRank(agents, category, a);
    }
  }
}
