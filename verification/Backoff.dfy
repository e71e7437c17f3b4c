/** Timing over whole runs: retries are spaced by the back-off, and a live worker is never preempted. */
module Backoff {
  import opened Tasks
  import opened LeaseProtocol
  import opened Fencing

  /** One clock that never goes back; a failing worker reads it after its transaction began. */
  ghost predicate OneClock(es: seq<Event>) {
    && (forall i, j | 0 <= i < j < |es| :: es[i].now <= es[j].now)
    && (forall i | 0 <= i < |es| && es[i].Fail? :: es[i].now <= es[i].clock)
  }

  function Last(ts: seq<Time>): Time requires ts != [] { ts[|ts| - 1] }

  function Delay(attempts: nat): Time { RetryDelaySeconds(attempts) * SECOND }

  /** Since its latest claim a waiting row may not be claimed before the delay for its attempt count is over. */
  lemma {:induction false} WaitingRowsKeepTheirDelay(agents: Agents, t: Task, es: seq<Event>)
    requires OneClock(es)
    ensures var r, ct := Run(agents, t, es), ClaimTimes(agents, t, es);
      ct != [] ==>
        && es != [] && Last(ct) <= es[|es| - 1].now
        && (r.status.Queued? ==> r.nextAttempt.Some? && r.nextAttempt.value >= Last(ct) + Delay(t.attempts + |ct|))
  {
    if es != [] {
      var n := |es| - 1;
      WaitingRowsKeepTheirDelay(agents, t, es[..n]);
      AttemptsCountClaims(agents, t, es[..n]);
      AttemptsCountClaims(agents, t, es);
    }
  }

  /** Consecutive claims i and i+1 of one task are at least `retry_delay_seconds(attempts)` apart. */
  lemma {:induction false} ClaimsAreSpaced(agents: Agents, t: Task, es: seq<Event>, i: nat)
    requires OneClock(es)
    requires i + 1 < |ClaimTimes(agents, t, es)|
    ensures var ct := ClaimTimes(agents, t, es); ct[i + 1] - ct[i] >= Delay(t.attempts + i + 1)
  {
    var n := |es| - 1;
    var earlier := ClaimTimes(agents, t, es[..n]);
    if i + 1 < |earlier| {
      ClaimsAreSpaced(agents, t, es[..n], i);
    } else {
      WaitingRowsKeepTheirDelay(agents, t, es[..n]);
    }
  }

  /** Seconds that must pass between the first and the n-th claim of a fresh task. */
  function MinElapsed(n: nat): nat
    requires n >= 1
  {
    if n <= 7 then 5 * (Pow2(n - 1) - 1) else 315 + 300 * (n - 7)
  }

  lemma {:induction false} Pow2Grows(a: nat, b: nat)
    requires a <= b
    ensures 1 <= Pow2(a) <= Pow2(b)
    decreases b
  {
    if a < b { Pow2Grows(a, b - 1); } else if a > 0 { Pow2Grows(a - 1, a - 1); }
  }

  /** The delays in seconds: 5, 10, 20, 40, 80, 160, and 300 from the seventh attempt on. */
  lemma DelaySchedule(attempts: int)
    ensures RetryDelaySeconds(attempts) ==
      if attempts <= 1 then 5 else if attempts == 2 then 10 else if attempts == 3 then 20 else if attempts == 4 then 40
      else if attempts == 5 then 80 else if attempts == 6 then 160 else 300
  {
    assert Pow2(1) == 2 && Pow2(2) == 4 && Pow2(3) == 8 && Pow2(4) == 16 && Pow2(5) == 32 && Pow2(6) == 64;
    if attempts >= 7 { Pow2Grows(6, attempts - 1); }
  }

  lemma DelayAddsUp(n: nat)
    requires n >= 1
    ensures MinElapsed(n + 1) == MinElapsed(n) + RetryDelaySeconds(n)
  {
    assert Pow2(5) == 32 && Pow2(6) == 64;
    if n <= 6 {
      Pow2Grows(n - 1, 5);
    } else {
      Pow2Grows(6, n - 1);
    }
  }

  /** The n-th claim comes at least 5, 15, 35, ... 315, 615, ... seconds after the first. */
  lemma {:induction false} BackoffIsExponential(agents: Agents, t: Task, es: seq<Event>, n: nat)
    requires OneClock(es) && t.attempts == 0
    requires 1 <= n <= |ClaimTimes(agents, t, es)|
    ensures var ct := ClaimTimes(agents, t, es); ct[n - 1] - ct[0] >= MinElapsed(n) * SECOND
    decreases n
  {
    if n == 1 {
      assert MinElapsed(1) == 0;
    } else {
      BackoffIsExponential(agents, t, es, n - 1);
      ClaimsAreSpaced(agents, t, es, n - 2);
      DelayAddsUp(n - 1);
    }
  }

  // ------------------------------------------------------------ the live worker

  /** The claim (m, k) is current and was last claimed or renewed for `secs` seconds at `last`. */
  predicate Held(t: Task, m: MachineId, k: Token, last: Time, secs: int) {
    HoldsClaim(t, m, k) && t.lease == Some(last + secs * SECOND)
  }

  /**
    A run during which the worker holding (m, k) keeps renewing in time: no step happens after the current
    deadline, its renewals come strictly before it, nobody else knows the token, and it has not finished yet.
   */
  ghost predicate KeptAlive(es: seq<Event>, m: MachineId, k: Token, last: Time, secs: int)
    decreases |es|
  {
    es == [] ||
    (var e := es[0];
     && e.now <= last + secs * SECOND
     && (e.Renew? && e.token == k ==> e.machine == m && e.leaseSeconds == secs && e.now < last + secs * SECOND)
     && !((e.Complete? || e.Fail?) && e.token == k)
     && KeptAlive(es[1..], m, k, if e.Renew? && e.token == k then e.now else last, secs))
  }

  ghost function LastRenewal(es: seq<Event>, k: Token, last: Time): Time {
    if es == [] then last
    else LastRenewal(es[1..], k, if es[0].Renew? && es[0].token == k then es[0].now else last)
  }

  lemma {:induction false} RunCons(agents: Agents, t: Task, es: seq<Event>)
    requires es != []
    ensures Run(agents, t, es) == Run(agents, Step(agents, t, es[0]), es[1..])
  {
    RunFrom(agents, t, es, 1, |es|);
    AtSucc(agents, t, es, 0);
    AtEnd(agents, t, es);
    assert es[1..|es|] == es[1..];
  }

  /**
    A live worker is never preempted: after any such run, with the steward and every other worker active,
    the worker still holds its claim, and completing before the current deadline is accepted.
   */
  lemma {:induction false} LiveWorkerIsNeverPreempted(agents: Agents, t: Task, es: seq<Event>, m: MachineId, k: Token,
                                                      last: Time, secs: int)
    requires LeaseSecondsAllowed(secs) && Held(t, m, k, last, secs) && KeptAlive(es, m, k, last, secs)
    ensures var r, renewed := Run(agents, t, es), LastRenewal(es, k, last);
      && Held(r, m, k, renewed, secs)
      && (forall now, result | now < renewed + secs * SECOND && !Blank(result) ::
            Accepts(agents, r, Complete(m, k, now, result)))
    decreases |es|
  {
    if es != [] {
      var e := es[0];
      RunCons(agents, t, es);
      assert Held(Step(agents, t, e), m, k, if e.Renew? && e.token == k then e.now else last, secs);
      LiveWorkerIsNeverPreempted(agents, Step(agents, t, e), es[1..], m, k,
                                 if e.Renew? && e.token == k then e.now else last, secs);
    }
  }

  /**
    At one instant a fenced row is open to its holder's completion or to the steward's recovery, never to both, and
    exactly at the deadline to neither; then it cannot be renewed either, and its holder can only fail it.
   */
  lemma RecoveryAndCompletionExclude(agents: Agents, t: Task, m: MachineId, k: Token, now: Time, result: string)
    requires ClaimState(t) && HoldsClaim(t, m, k) && !Blank(result)
    ensures !(Accepts(agents, t, Complete(m, k, now, result)) && Accepts(agents, t, Recover(now)))
    ensures !Accepts(agents, t, Complete(m, k, now, result)) && !Accepts(agents, t, Recover(now)) <==> t.lease == Some(now)
    ensures t.lease == Some(now) ==> forall secs :: !Accepts(agents, t, Renew(m, k, now, secs))
    ensures forall clock :: Accepts(agents, t, Fail(m, k, now, clock))
  {
  }
}
