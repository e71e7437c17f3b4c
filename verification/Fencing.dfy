/** Fencing: whatever the clocks say and however steps interleave, only the latest claimant finishes a task. */
module Fencing {
  import opened Tasks
  import opened LeaseProtocol

  /** `str(uuid.uuid4())`: a claim never carries a token that the row or an earlier claim has carried. */
  ghost predicate FreshTokens(t: Task, es: seq<Event>) {
    && (forall i | 0 <= i < |es| && es[i].Claim? :: t.token != Some(es[i].token))
    && (forall i, j | 0 <= i < j < |es| && es[i].Claim? && es[j].Claim? :: es[i].token != es[j].token)
  }

  predicate UsesToken(e: Event, k: Token) { (e.Renew? || e.Complete? || e.Fail?) && e.token == k }

  /** The four ways in which a claim stops being the row's current claim. */
  predicate EndsClaim(e: Event) { e.Claim? || e.Complete? || e.Fail? || e.Recover? }

  lemma RunFrom(agents: Agents, t: Task, es: seq<Event>, i: nat, j: nat)
    requires i <= j <= |es|
    ensures At(agents, t, es, j) == Run(agents, At(agents, t, es, i), es[i..j])
    decreases j - i
  {
    if i < j {
      RunFrom(agents, t, es, i, j - 1);
      AtSucc(agents, t, es, j - 1);
      assert es[i..j][..j - i - 1] == es[i..j - 1];
    } else {
      assert es[i..j] == [];
    }
  }

  /** From an accepted completion on, the row is settled: the same result, and every claimant is refused. */
  lemma CompletionIsFinal(agents: Agents, t: Task, es: seq<Event>, i: nat, j: nat)
    requires i < j <= |es| && es[i].Complete? && Accepted(agents, t, es, i)
    ensures var r := At(agents, t, es, j);
      r.status.Completed? && r.result == Some(es[i].result) && r.token.None?
    ensures j < |es| && (EndsClaim(es[j]) || es[j].Renew?) ==> !Accepted(agents, t, es, j)
  {
    AtSucc(agents, t, es, i);
    RunFrom(agents, t, es, i + 1, j);
    TerminalIsAbsorbing(agents, At(agents, t, es, i + 1), es[i + 1..j]);
  }

  /** A task completes at most once, in every interleaving. */
  lemma CompletesAtMostOnce(agents: Agents, t: Task, es: seq<Event>)
    ensures forall i, j | 0 <= i < j < |es| && es[i].Complete? && es[j].Complete? ::
      !(Accepted(agents, t, es, i) && Accepted(agents, t, es, j))
  {
    forall i, j | 0 <= i < j < |es| && es[i].Complete? && es[j].Complete? && Accepted(agents, t, es, i)
      ensures !Accepted(agents, t, es, j)
    {
      CompletionIsFinal(agents, t, es, i, j);
    }
  }

  ghost predicate Quiet(agents: Agents, t: Task, es: seq<Event>, from: nat, to: nat)
    requires to <= |es|
  {
    forall n | from <= n < to && EndsClaim(es[n]) :: !Accepted(agents, t, es, n)
  }

  /** Step i is the latest accepted claim before step j, and nothing has ended it since. */
  ghost predicate IssuedAt(agents: Agents, t: Task, es: seq<Event>, j: nat, i: nat, m: MachineId, k: Token)
    requires j <= |es|
  {
    && i < j && es[i].Claim? && es[i].machine == m && es[i].token == k && Accepted(agents, t, es, i)
    && Quiet(agents, t, es, i + 1, j)
  }

  lemma StepAndToken(agents: Agents, t: Task, e: Event)
    ensures var r := Step(agents, t, e);
      if !Accepts(agents, t, e) || !EndsClaim(e) then r.token == t.token && r.claimedBy == t.claimedBy
      else if e.Claim? then r.token == Some(e.token) && r.claimedBy == Some(e.machine)
      else r.token.None?
  {
  }

  /** A token on a row is either the initial one, untouched, or was put there by the latest claim. */
  lemma {:induction false} TokenWasIssued(agents: Agents, t: Task, es: seq<Event>, j: nat) returns (i: nat)
    requires j <= |es| && At(agents, t, es, j).token.Some?
    ensures var r := At(agents, t, es, j);
      || (r.token == t.token && r.claimedBy == t.claimedBy && Quiet(agents, t, es, 0, j))
      || (r.claimedBy.Some? && IssuedAt(agents, t, es, j, i, r.claimedBy.value, r.token.value))
    decreases j
  {
    i := 0;
    if j > 0 {
      AtSucc(agents, t, es, j - 1);
      StepAndToken(agents, At(agents, t, es, j - 1), es[j - 1]);
      if es[j - 1].Claim? && Accepted(agents, t, es, j - 1) {
        i := j - 1;
      } else {
        i := TokenWasIssued(agents, t, es, j - 1);
      }
    }
  }

  /**
    The stored result is the one sent by the holder of the latest claim: some accepted claim of the same
    machine and token precedes the completion, and no other claim, failure or recovery came between.
   */
  lemma ResultComesFromLatestClaim(agents: Agents, t: Task, es: seq<Event>, j: nat) returns (i: nat)
    requires ClaimState(t) && !t.status.Running?
    requires j < |es| && es[j].Complete? && Accepted(agents, t, es, j)
    ensures IssuedAt(agents, t, es, j, i, es[j].machine, es[j].token)
    ensures forall n | j < n <= |es| :: At(agents, t, es, n).result == Some(es[j].result)
  {
    i := TokenWasIssued(agents, t, es, j);
    forall n | j < n <= |es| ensures At(agents, t, es, n).result == Some(es[j].result) {
      CompletionIsFinal(agents, t, es, j, n);
    }
  }

  lemma {:induction false} LostTokenStaysLost(agents: Agents, t: Task, es: seq<Event>, k: Token, from: nat, n: nat)
    requires from <= n <= |es| && At(agents, t, es, from).token != Some(k)
    requires forall i | from <= i < |es| && es[i].Claim? :: es[i].token != k
    ensures At(agents, t, es, n).token != Some(k)
    decreases n
  {
    if from < n {
      LostTokenStaysLost(agents, t, es, k, from, n - 1);
      AtSucc(agents, t, es, n - 1);
    }
  }

  /**
    A superseded claimant is refused for ever. Once anything has ended the claim made at step i, each later
    complete and renew with its token answers False and each later fail answers `rejected_stale_claim`.
   */
  lemma SupersededClaimIsFenced(agents: Agents, t: Task, es: seq<Event>, i: nat, j: nat, n: nat)
    requires ClaimState(t) && FreshTokens(t, es)
    requires i < j < n < |es| && es[i].Claim? && Accepted(agents, t, es, i)
    requires EndsClaim(es[j]) && Accepted(agents, t, es, j)
    requires UsesToken(es[n], es[i].token)
    ensures !Accepted(agents, t, es, n)
  {
    var k := es[i].token;
    AtSucc(agents, t, es, j);
    RunKeepsClaimState(agents, t, es[..j + 1]);
    assert At(agents, t, es, j + 1).token != Some(k);
    LostTokenStaysLost(agents, t, es, k, j + 1, n);
  }

  // ------------------------------------------------------------------- attempts

  /** When the accepted claims of a run happened. */
  function ClaimTimes(agents: Agents, t: Task, es: seq<Event>): seq<Time> {
    if es == [] then []
    else
      var n := |es| - 1;
      var earlier := ClaimTimes(agents, t, es[..n]);
      if es[n].Claim? && Accepts(agents, Run(agents, t, es[..n]), es[n]) then earlier + [es[n].now] else earlier
  }

  /** `attempt_count` counts the accepted claims, and nothing else ever changes it. */
  lemma {:induction false} AttemptsCountClaims(agents: Agents, t: Task, es: seq<Event>)
    ensures Run(agents, t, es).attempts == t.attempts + |ClaimTimes(agents, t, es)|
  {
    if es != [] {
      AttemptsCountClaims(agents, t, es[..|es| - 1]);
    }
  }

  // ------------------------------------------------------------- who may be claimed, and when a task fails

  lemma {:induction false} MetadataStays(agents: Agents, t: Task, es: seq<Event>)
    ensures Run(agents, t, es).metadata == t.metadata
  {
    if es != [] { MetadataStays(agents, t, es[..|es| - 1]); }
  }

  /**
    Approval holds are kept: no run ever claims a task that is pending approval, awaiting it or blocked, or that requires
    an approval it does not have; and a waiting task without such a hold is claimed by some run.
   */
  lemma {:induction false} ClaimedExactlyUnlessHeld(agents: Agents, t: Task, es: seq<Event>)
    requires t.status.Queued? && t.agent in agents
    ensures var m := t.metadata;
      var held := m.queueState == PendingApproval || m.queueState == ApprovalRequired || m.queueState == Blocked
        || (m.requiresApproval && m.approval != Approved && m.approval != Deployed);
      if held then ClaimTimes(agents, t, es) == [] else exists es :: ClaimTimes(agents, t, es) != []
  {
    var m := t.metadata;
    if m.queueState.OpenState? && (m.requiresApproval ==> m.approval == Approved || m.approval == Deployed) {
      var now := if t.nextAttempt.Some? then t.nextAttempt.value else 0;
      var claim := [Claim(Assigned(agents, t).value, 0, now, 120)];
      assert claim[..0] == [];
      assert ClaimTimes(agents, t, claim) == [now];
    } else if es != [] {
      var n := |es| - 1;
      ClaimedExactlyUnlessHeld(agents, t, es[..n]);
      MetadataStays(agents, t, es[..n]);
    }
  }

  /**
    Nothing is dead-lettered early: on every run a task with a positive max_attempts that did not start as a failed one
    is failed only when its attempts are used up.
   */
  lemma {:induction false} FailedTasksAreExhausted(agents: Agents, t: Task, es: seq<Event>)
    requires t.maxAttempts >= 1 && !t.status.Failed?
    ensures Run(agents, t, es).maxAttempts == t.maxAttempts
    ensures Run(agents, t, es).status.Failed? ==> Run(agents, t, es).attempts >= t.maxAttempts
  {
    if es != [] { FailedTasksAreExhausted(agents, t, es[..|es| - 1]); }
  }

  /** So a fresh task that has failed has been claimed exactly max_attempts times. */
  lemma FailedTasksWereClaimedInFull(agents: Agents, t: Task, es: seq<Event>)
    requires t.maxAttempts >= 1 && t.attempts == 0 && t.status.Queued? && Run(agents, t, es).status.Failed?
    ensures |ClaimTimes(agents, t, es)| == t.maxAttempts
  {
    FailedTasksAreExhausted(agents, t, es);
    AttemptsCountClaims(agents, t, es);
    WithinBudget(agents, t, es);
  }

  /** What `max_attempts` really allows: a stored zero is read as three by lease recovery. */
  function ClaimBudget(maxAttempts: int): nat {
    if maxAttempts == 0 then 3 else Max(1, maxAttempts)
  }

  lemma {:induction false} WithinBudget(agents: Agents, t: Task, es: seq<Event>)
    requires t.attempts == 0 && !t.status.Running?
    ensures var r := Run(agents, t, es);
      && r.maxAttempts == t.maxAttempts && r.attempts <= ClaimBudget(t.maxAttempts)
      && (r.status.Queued? ==> r.attempts < ClaimBudget(t.maxAttempts))
  {
    if es != [] {
      WithinBudget(agents, t, es[..|es| - 1]);
    }
  }

  /** No run claims a fresh task more often than its budget. */
  lemma ClaimsAreBounded(agents: Agents, t: Task, es: seq<Event>)
    requires t.attempts == 0 && !t.status.Running?
    ensures |ClaimTimes(agents, t, es)| <= ClaimBudget(t.maxAttempts)
  {
    AttemptsCountClaims(agents, t, es);
    WithinBudget(agents, t, es);
  }

  /** `max_attempts` bounds the claims of a claimable fresh task on every run exactly when it is positive. */
  lemma MaxAttemptsBoundsClaimsIffPositive(agents: Agents, t: Task, m: MachineId, now: Time)
    requires t.attempts == 0 && Claimable(agents, t, m, now)
    ensures (forall es :: |ClaimTimes(agents, t, es)| <= t.maxAttempts) <==> t.maxAttempts >= 1
  {
    if t.maxAttempts >= 1 {
      forall es ensures |ClaimTimes(agents, t, es)| <= t.maxAttempts {
        ClaimsAreBounded(agents, t, es);
      }
    } else {
      var es := [Claim(m, 0, now, 120)];
      assert es[..0] == [];
      assert ClaimTimes(agents, t, es) == [now];
    }
  }

  /** A stored zero: two claims although `max_attempts` is 0, because recovery requeues the first. */
  lemma ZeroMaxAttemptsIsClaimedTwice(agents: Agents, t: Task, m: MachineId, now: Time)
    requires t.attempts == 0 && t.maxAttempts == 0 && Claimable(agents, t, m, now)
    ensures var es := [Claim(m, 0, now, 120), Recover(now + 121 * SECOND), Claim(m, 1, now + 200 * SECOND, 120)];
      |ClaimTimes(agents, t, es)| == 2
  {
    var es := [Claim(m, 0, now, 120), Recover(now + 121 * SECOND), Claim(m, 1, now + 200 * SECOND, 120)];
    assert es[..2] == [es[0], es[1]] && es[..2][..1] == [es[0]] && es[..2][..1][..0] == [];
    assert Run(agents, t, es[..2][..1][..0]) == t;
    var claimed := Run(agents, t, es[..2][..1]);
    assert claimed.status.Running? && claimed.attempts == 1;
    var requeued := Run(agents, t, es[..2]);
    assert requeued == Step(agents, claimed, es[1]);
    assert RetryDelaySeconds(1) == 5;
    assert requeued.status.Queued? && requeued.nextAttempt == Some(now + 126 * SECOND);
    assert ClaimTimes(agents, t, es[..2][..1]) == [now];
  }
}
