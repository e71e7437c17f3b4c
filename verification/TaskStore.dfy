/** The task table as an object: what a worker's calls do to it. */
module TaskStore {
  import opened Tasks
  import opened LeaseProtocol
  import opened Ordering
  import opened Queries

  datatype ClaimResult = BadLease | NothingToClaim | Claimed(id: nat, task: Task)

  /** The row trigger raises on a blank result; everything else is True or False. */
  datatype CompleteResult = Completed | NotOwner | BlankResult

  datatype RenewResult = RenewBadLease | Renewed(ok: bool)

  datatype FailResult = RejectedStaleClaim | Requeued | DeadLettered

  /** The rows the claim query may return: claimable on this machine and not locked by another session. */
  function Claimables(agents: Agents, ts: Table, machine: MachineId, now: Time, locked: set<nat>): set<nat> {
    set i: nat | i < |ts| && i !in locked && Claimable(agents, ts[i], machine, now)
  }

  function IsClaimable(agents: Agents, ts: Table, machine: MachineId, now: Time, locked: set<nat>): nat -> bool {
    (i: nat) => i < |ts| && i !in locked && Claimable(agents, ts[i], machine, now)
  }

  /** `limit 1`: nothing if nothing is claimable, else a row that no claimable row is ahead of. */
  lemma FirstIsBest(agents: Agents, ts: Table, machine: MachineId, now: Time, locked: set<nat>, rows: seq<nat>, all: seq<nat>)
    requires IsSelection(rows, all, Matches(|ts|, IsClaimable(agents, ts, machine, now, locked)), ClaimOrdering(ts, now), 1)
    ensures var open := Claimables(agents, ts, machine, now, locked);
      if rows == [] then open == {} else rows[0] in open && forall i | i in open :: ClaimOrder(ts, now, rows[0], i)
  {
    var open := Claimables(agents, ts, machine, now, locked);
    assert Matches(|ts|, IsClaimable(agents, ts, machine, now, locked)) == open;
    if rows == [] {
      assert all == [];
      SelectionSize(all, open);
    } else {
      assert all[0] in all;
      forall i | i in open ensures ClaimOrder(ts, now, rows[0], i) {
        var j :| 0 <= j < |all| && all[j] == i;
        assert ClaimOrdering(ts, now)(all[0], all[j]);
      }
    }
  }

  class Store {
    const agents: Agents
    var tasks: Table

    constructor (agents: Agents)
      ensures this.agents == agents && tasks == []
    {
      this.agents := agents;
      tasks := [];
    }

    /** The insert reads the agent's machine; an unknown agent violates the foreign key. */
    method CreateTask(agent: AgentId, category: string, priority: int, metadata: Metadata, now: Time)
      returns (id: Option<nat>)
      modifies this
      ensures agent !in agents ==> id.None? && tasks == old(tasks)
      ensures agent in agents ==> id == Some(|old(tasks)|) && |tasks| == |old(tasks)| + 1 && tasks[..|old(tasks)|] == old(tasks)
      ensures agent in agents ==>
        var t := tasks[|old(tasks)|];
        && ClaimState(t) && WithinAttempts(t)
        && t == Task(agent, category, priority, metadata, now, now, Queued, Some(agents[agent].machine), None, None, None, 0, 3, None, 0, None, None)
    {
      if agent !in agents { return None; }
      var t := Task(agent, category, priority, metadata, now, now, Queued, Some(agents[agent].machine), None, None, None,
                    0, 3, None, 0, None, None);
      tasks := tasks + [t];
      return Some(|tasks| - 1);
    }

    /**
      Claims the first unlocked claimable row of the machine in claim order, and only that row. `token` is the
      fresh uuid of this call.
     */
    method ClaimNext(machine: MachineId, token: Token, now: Time, leaseSeconds: int, locked: set<nat>)
      returns (r: ClaimResult)
      modifies this
      ensures r.BadLease? <==> leaseSeconds < 30 || leaseSeconds > 3600
      ensures !r.Claimed? ==> tasks == old(tasks)
      ensures r.NothingToClaim? ==> forall i | 0 <= i < |tasks| && i !in locked ::
        var t := tasks[i];
        || t.status != Queued || t.agent !in agents
        || (t.executionMachine != Some(machine) && !(t.executionMachine == None && agents[t.agent].machine == machine))
        || (t.nextAttempt.Some? && t.nextAttempt.value > now)
        || !t.metadata.queueState.OpenState?
        || (t.metadata.requiresApproval && t.metadata.approval != Approved && t.metadata.approval != Deployed)
      ensures r.Claimed? ==>
        && r.id < |old(tasks)| && r.id !in locked
        && var t := old(tasks)[r.id];
        && t.status == Queued && t.agent in agents
        && (t.executionMachine == Some(machine) || (t.executionMachine == None && agents[t.agent].machine == machine))
        && (t.nextAttempt.Some? ==> t.nextAttempt.value <= now)
        && t.metadata.queueState.OpenState?
        && (t.metadata.requiresApproval ==> t.metadata.approval == Approved || t.metadata.approval == Deployed)
        && r.task == t.(status := Running, updatedAt := now, executionMachine := Some(machine), claimedBy := Some(machine),
                        token := Some(token), lease := Some(now + leaseSeconds * 1_000_000), attempts := t.attempts + 1,
                        nextAttempt := None)
      ensures r.NothingToClaim? ==> Claimables(agents, old(tasks), machine, now, locked) == {}
      ensures r.Claimed? ==>
        var open := Claimables(agents, old(tasks), machine, now, locked);
        && r.id in open && (forall i | i in open :: ClaimOrder(old(tasks), now, r.id, i))
        && tasks == TableStep(agents, old(tasks), On(r.id, Claim(machine, token, now, leaseSeconds)))
        && r.task == tasks[r.id] && HoldsClaim(r.task, machine, token) && LeaseLive(r.task, now)
        && r.task.attempts == old(tasks)[r.id].attempts + 1
    {
      if leaseSeconds < 30 || leaseSeconds > 3600 { return BadLease; }
      ClaimOrderingIsTotal(tasks, now);
      var rows, all := Query(|tasks|, IsClaimable(agents, tasks, machine, now, locked), ClaimOrdering(tasks, now), 1);
      FirstIsBest(agents, tasks, machine, now, locked, rows, all);
      if rows == [] {
        forall i | 0 <= i < |tasks| && i !in locked ensures !Claimable(agents, tasks[i], machine, now) {
          assert i !in Claimables(agents, tasks, machine, now, locked);
        }
        return NothingToClaim;
      }
      var id := rows[0];
      var e := Claim(machine, token, now, leaseSeconds);
      tasks := tasks[id := Effect(agents, tasks[id], e)];
      return Claimed(id, tasks[id]);
    }

    /** True exactly for the live claim; nothing changes otherwise. */
    method CompleteTask(id: nat, result: string, token: Token, machine: MachineId, now: Time) returns (r: CompleteResult)
      modifies this
      ensures tasks == TableStep(agents, old(tasks), On(id, Complete(machine, token, now, result)))
      ensures r.Completed? <==>
        && id < |tasks| && (exists i :: 0 <= i < |result| && result[i] != ' ')
        && var t := old(tasks)[id];
           t.status == Running && t.token == Some(token) && t.claimedBy == Some(machine) && t.lease.Some? && now < t.lease.value
      ensures r.Completed? ==>
        tasks[id] == old(tasks)[id].(status := Status.Completed, result := Some(result), completedAt := Some(now), token := None,
                                     lease := None, updatedAt := now)
      ensures r == if id < |tasks| && HoldsClaim(old(tasks)[id], machine, token) && LeaseLive(old(tasks)[id], now)
                   then (if Blank(result) then BlankResult else CompleteResult.Completed) else NotOwner
    {
      if id >= |tasks| { return NotOwner; }
      var t := tasks[id];
      if !(t.status.Running? && t.token == Some(token) && t.claimedBy == Some(machine)
           && t.lease.Some? && t.lease.value > now) {
        return NotOwner;
      }
      if Blank(result) { return BlankResult; }
      tasks := tasks[id := t.(status := Status.Completed, result := Some(result), completedAt := Some(now),
                              token := None, lease := None, updatedAt := now)];
      return CompleteResult.Completed;
    }

    method RenewLease(id: nat, token: Token, machine: MachineId, now: Time, leaseSeconds: int) returns (r: RenewResult)
      modifies this
      ensures tasks == TableStep(agents, old(tasks), On(id, Renew(machine, token, now, leaseSeconds)))
      ensures r.RenewBadLease? <==> leaseSeconds < 30 || leaseSeconds > 3600
      ensures r == Renewed(true) ==>
        && id < |tasks| && tasks[id] == old(tasks)[id].(lease := Some(now + leaseSeconds * 1_000_000), updatedAt := now)
        && var t := old(tasks)[id];
           t.status == Running && t.token == Some(token) && t.claimedBy == Some(machine) && t.lease.Some? && now < t.lease.value
      ensures r.Renewed? ==>
        (r.ok <==> id < |tasks| && HoldsClaim(old(tasks)[id], machine, token) && LeaseLive(old(tasks)[id], now))
    {
      if leaseSeconds < 30 || leaseSeconds > 3600 { return RenewBadLease; }
      if id < |tasks| {
        var t := tasks[id];
        if t.status.Running? && t.token == Some(token) && t.claimedBy == Some(machine) && t.lease.Some? && t.lease.value > now {
          tasks := tasks[id := t.(lease := Some(now + leaseSeconds * SECOND), updatedAt := now)];
          return Renewed(true);
        }
      }
      return Renewed(false);
    }

    /** A failure needs the claim but not a live lease; attempts decide between a retry and the dead letter. */
    method FailTask(id: nat, token: Token, machine: MachineId, now: Time, clock: Time) returns (r: FailResult)
      modifies this
      ensures tasks == TableStep(agents, old(tasks), On(id, Fail(machine, token, now, clock)))
      ensures r.RejectedStaleClaim? <==> !(id < |tasks| && HoldsClaim(old(tasks)[id], machine, token))
      ensures r.DeadLettered? <==> id < |tasks| && HoldsClaim(old(tasks)[id], machine, token)
                                   && old(tasks)[id].attempts >= old(tasks)[id].maxAttempts
      ensures r.DeadLettered? ==>
        && old(tasks)[id].attempts >= old(tasks)[id].maxAttempts
        && tasks[id] == old(tasks)[id].(status := Status.Failed, claimedBy := None, token := None, lease := None, nextAttempt := None,
                                        updatedAt := now)
      ensures r.Requeued? ==>
        && old(tasks)[id].attempts < old(tasks)[id].maxAttempts
        && tasks[id] == old(tasks)[id].(status := Queued, claimedBy := None, token := None, lease := None, updatedAt := now,
                                        nextAttempt := Some(clock + RetryDelaySeconds(old(tasks)[id].attempts) * 1_000_000))
      ensures !r.RejectedStaleClaim? <==>
        && id < |tasks| && var t := old(tasks)[id]; t.status == Running && t.token == Some(token) && t.claimedBy == Some(machine)
    {
      if id >= |tasks| { return RejectedStaleClaim; }
      var t := tasks[id];
      if !(t.status.Running? && t.token == Some(token) && t.claimedBy == Some(machine)) { return RejectedStaleClaim; }
      if t.attempts >= t.maxAttempts {
        tasks := tasks[id := t.(status := Status.Failed, claimedBy := None, token := None, lease := None,
                                nextAttempt := None, updatedAt := now)];
        return DeadLettered;
      } else {
        tasks := tasks[id := t.(status := Queued, claimedBy := None, token := None, lease := None,
                                nextAttempt := Some(clock + RetryDelaySeconds(t.attempts) * SECOND), updatedAt := now)];
        return FailResult.Requeued;
      }
    }
  }
}
