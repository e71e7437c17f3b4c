/** One task in the hands of a worker: execute while renewing the lease, then complete or fail it. */
module Worker {
  import opened Tasks
  import opened LeaseProtocol
  import opened Fencing
  import opened Backoff
  import opened TableRuns
  import TaskStore

  const LEASE_SECONDS := 120

  /**
    What `future.result(timeout=30)` does: time out, return, or raise what the task raised. Since Python 3.11 the
    timeout is the builtin TimeoutError, so a task that raises that error itself looks like one that is still running.
   */
  datatype Answer = Pending | Returned(result: string) | Raised | RaisedTimeout

  predicate TimesOut(a: Answer) { a.Pending? || a.RaisedTimeout? }

  /** One poll: what other processes did to the table before it, when it ended, and how. */
  datatype Poll = Poll(others: seq<Op>, now: Time, answer: Answer)

  /** `Died`: the polls ran out, so the worker is gone and does nothing more. */
  datatype Execution = Finished(result: string) | ExecutionFailed | LeaseLost | Died

  // ----------------------------------------------------------------- the environment

  /** Other processes do not know the token and do nothing to the row after the deadline. */
  ghost predicate Fenced(others: seq<Op>, id: nat, token: Token, deadline: Time) {
    forall n | 0 <= n < |others| && others[n].On? && others[n].id == id ::
      others[n].event.now <= deadline && !UsesToken(others[n].event, token)
  }

  /** Every poll ends before the lease that was in force, up to the first that does not time out. */
  ghost predicate Timely(polls: seq<Poll>, id: nat, token: Token, last: Time)
    decreases |polls|
  {
    polls == [] ||
    (&& Fenced(polls[0].others, id, token, last + LEASE_SECONDS * SECOND)
     && polls[0].now < last + LEASE_SECONDS * SECOND
     && (TimesOut(polls[0].answer) ==> Timely(polls[1..], id, token, polls[0].now)))
  }

  /** When the lease was last renewed. */
  function LastPoll(polls: seq<Poll>, last: Time): Time {
    if polls == [] || !TimesOut(polls[0].answer) then last else LastPoll(polls[1..], polls[0].now)
  }

  lemma {:induction false} FencedEventsKeepTheClaim(es: seq<Event>, m: MachineId, k: Token, last: Time, deadline: Time)
    requires deadline == last + LEASE_SECONDS * SECOND
    requires forall e | e in es :: e.now <= deadline && !UsesToken(e, k)
    ensures KeptAlive(es, m, k, last, LEASE_SECONDS) && LastRenewal(es, k, last) == last
  {
    if es != [] {
      assert es[0] in es;
      FencedEventsKeepTheClaim(es[1..], m, k, last, deadline);
    }
  }

  /** Whatever fenced others do, the claim survives until its deadline. */
  lemma OthersCannotTakeTheClaim(agents: Agents, ts: Table, others: seq<Op>, id: nat, m: MachineId, k: Token, last: Time)
    requires id < |ts| && Held(ts[id], m, k, last, LEASE_SECONDS)
    requires Fenced(others, id, k, last + LEASE_SECONDS * SECOND)
    ensures Held(TableRun(agents, ts, others)[id], m, k, last, LEASE_SECONDS)
  {
    var es := Life(|ts|, others, id);
    LifeEventsOccur(|ts|, others, id);
    FencedEventsKeepTheClaim(es, m, k, last, last + LEASE_SECONDS * SECOND);
    LiveWorkerIsNeverPreempted(agents, ts[id], es, m, k, last, LEASE_SECONDS);
    SizeIsTheLength(agents, ts, others);
    RowsAreIndependent(agents, ts, others, id);
  }

  /** The part of the polls that is still to come, as the loop sees it. */
  ghost predicate OnTrack(ts: Table, polls: seq<Poll>, id: nat, m: MachineId, k: Token, last: Time) {
    id < |ts| && Held(ts[id], m, k, last, LEASE_SECONDS) && Timely(polls, id, k, last)
  }

  /** One timed-out poll in time: the renewal succeeds and the worker stays on track. */
  lemma PollKeepsTrack(agents: Agents, ts: Table, polls: seq<Poll>, id: nat, m: MachineId, k: Token, last: Time)
    requires polls != [] && OnTrack(ts, polls, id, m, k, last)
    ensures var mid := TableRun(agents, ts, polls[0].others);
      && id < |mid| && Held(mid[id], m, k, last, LEASE_SECONDS)
      && (TimesOut(polls[0].answer) ==>
            var e := Renew(m, k, polls[0].now, LEASE_SECONDS);
            Accepts(agents, mid[id], e) && OnTrack(TableStep(agents, mid, On(id, e)), polls[1..], id, m, k, polls[0].now))
  {
    OthersCannotTakeTheClaim(agents, ts, polls[0].others, id, m, k, last);
  }

  /** What the polls alone promise, if the lease holds. */
  function Promised(polls: seq<Poll>): Execution {
    if polls == [] then Died
    else match polls[0].answer
      case Pending => Promised(polls[1..])
      case RaisedTimeout => Promised(polls[1..])
      case Returned(result) => Finished(result)
      case Raised => ExecutionFailed
  }

  /** The transactions up to the end of these polls: what others did before each one, then the renewal after a timeout. */
  function TraceOf(polls: seq<Poll>, id: nat, token: Token, machine: MachineId): seq<Op> {
    if polls == [] then []
    else
      var last := polls[|polls| - 1];
      TraceOf(polls[..|polls| - 1], id, token, machine) + last.others
      + if TimesOut(last.answer) then [On(id, Renew(machine, token, last.now, LEASE_SECONDS))] else []
  }

  lemma OneStep(agents: Agents, ts: Table, op: Op)
    ensures TableRun(agents, ts, [op]) == TableStep(agents, ts, op)
  {
    assert [op][..0] == [];
    assert TableRun(agents, ts, []) == ts;
  }

  // --------------------------------------------------------- how the renewal loop can end

  /** A worker with a claim, the table it starts from, and the polls that are to come. */
  datatype Job = Job(agents: Agents, start: Table, polls: seq<Poll>, id: nat, machine: MachineId, token: Token)

  /** The table after n polls. */
  function TableAfter(job: Job, n: nat): Table
    requires n <= |job.polls|
  {
    TableRun(job.agents, job.start, TraceOf(job.polls[..n], job.id, job.token, job.machine))
  }

  /** The table that the worker meets when poll k ends. */
  function Met(job: Job, k: nat): Table
    requires k < |job.polls|
  {
    TableRun(job.agents, TableAfter(job, k), job.polls[k].others)
  }

  predicate Holds(job: Job, ts: Table) { job.id < |ts| && HoldsClaim(ts[job.id], job.machine, job.token) }

  predicate Owns(job: Job, ts: Table, now: Time) { Holds(job, ts) && LeaseLive(ts[job.id], now) }

  /** Poll k timed out and the renewal after it went through. */
  predicate RenewedAt(job: Job, k: nat) {
    k < |job.polls| && TimesOut(job.polls[k].answer) && Owns(job, Met(job, k), job.polls[k].now)
  }

  /** Poll k timed out and the row was not, or no longer, leased to this worker. */
  predicate RefusedAt(job: Job, k: nat) {
    k < |job.polls| && TimesOut(job.polls[k].answer) && !Owns(job, Met(job, k), job.polls[k].now)
  }

  predicate RaisedAt(job: Job, k: nat) { k < |job.polls| && job.polls[k].answer.Raised? }

  predicate RaisedTimeoutAt(job: Job, k: nat) { k < |job.polls| && job.polls[k].answer.RaisedTimeout? }

  ghost predicate KeptUp(job: Job, n: nat) { forall k | 0 <= k < n :: RenewedAt(job, k) }

  /** How the loop ends, and after how many polls. */
  ghost predicate Ends(job: Job, n: nat, r: Execution) {
    n <= |job.polls| &&
    match r
    case Died => n == |job.polls| && KeptUp(job, n)
    case Finished(result) => n > 0 && KeptUp(job, n - 1) && job.polls[n - 1].answer == Returned(result)
    case ExecutionFailed => n > 0 && KeptUp(job, n - 1) && RaisedAt(job, n - 1)
    case LeaseLost => n > 0 && KeptUp(job, n - 1) && RefusedAt(job, n - 1)
  }

  lemma LastPollIsNotRenewed(job: Job, n: nat, r: Execution)
    requires Ends(job, n, r)
    ensures r.Died? || (n > 0 && !RenewedAt(job, n - 1))
  {
  }

  /** It ends in one way only. */
  lemma EndsOnce(job: Job, n: nat, r: Execution, n': nat, r': Execution)
    requires Ends(job, n, r) && Ends(job, n', r')
    ensures n == n' && r == r'
  {
    LastPollIsNotRenewed(job, n, r);
    LastPollIsNotRenewed(job, n', r');
  }

  /** A finished future answers the same at every poll. */
  predicate AnswersStay(polls: seq<Poll>) {
    forall i, j | 0 <= i < j < |polls| && !polls[i].answer.Pending? :: polls[j].answer == polls[i].answer
  }

  /** Before a poll that times out, every poll timed out; so the first refused renewal ends the loop. */
  lemma {:induction false} FirstRefusal(job: Job, j: nat) returns (k: nat)
    requires AnswersStay(job.polls) && RefusedAt(job, j)
    ensures k <= j && RefusedAt(job, k) && KeptUp(job, k)
  {
    if KeptUp(job, j) {
      k := j;
    } else {
      var i :| 0 <= i < j && !RenewedAt(job, i);
      assert TimesOut(job.polls[i].answer);
      k := FirstRefusal(job, i);
    }
  }

  /** With no refused renewal, an answer that is not a timeout ends the loop. */
  lemma AnswerEnds(job: Job, n: nat, r: Execution, i: nat)
    requires AnswersStay(job.polls) && Ends(job, n, r) && (forall k :: !RefusedAt(job, k))
    requires i < |job.polls| && !TimesOut(job.polls[i].answer)
    ensures r == if job.polls[i].answer.Returned? then Finished(job.polls[i].answer.result) else ExecutionFailed
  {
    assert !RenewedAt(job, i);
  }

  /** A TimeoutError of the task is taken for a timeout of the poll, always. */
  lemma TimeoutsNeverEnd(job: Job, n: nat, r: Execution, i: nat)
    requires AnswersStay(job.polls) && Ends(job, n, r) && RaisedTimeoutAt(job, i)
    ensures r.LeaseLost? || r.Died?
  {
    forall k | 0 <= k < |job.polls| ensures TimesOut(job.polls[k].answer) {
      if i < k { assert job.polls[k].answer == job.polls[i].answer; }
    }
  }

  /**
    When the execution of a task ends in an exception, exactly, for a future that keeps its answer: the lease is
    reported lost if and only if the table refuses some renewal; otherwise the execution fails if and only if the task
    raised something other than a TimeoutError, and a TimeoutError is taken for one more timeout at every poll.
   */
  lemma RaisedTasksFailExactlyWhen(job: Job, n: nat, r: Execution)
    requires AnswersStay(job.polls) && Ends(job, n, r)
    ensures r.LeaseLost? <==> exists k :: RefusedAt(job, k)
    ensures r.ExecutionFailed? <==> (exists i :: RaisedAt(job, i)) && !exists k :: RefusedAt(job, k)
    ensures (exists i :: RaisedTimeoutAt(job, i)) ==> if exists k :: RefusedAt(job, k) then r.LeaseLost? else r.Died?
  {
    if exists k :: RefusedAt(job, k) {
      var j :| RefusedAt(job, j);
      var k := FirstRefusal(job, j);
      EndsOnce(job, n, r, k + 1, LeaseLost);
    } else {
      if exists i :: RaisedAt(job, i) {
        var i :| RaisedAt(job, i);
        AnswerEnds(job, n, r, i);
      }
      if exists i :: RaisedTimeoutAt(job, i) {
        var i :| RaisedTimeoutAt(job, i);
        TimeoutsNeverEnd(job, n, r, i);
      }
    }
  }

  // ------------------------------------------------------------------ the worker's code

  function RenewalOf(job: Job, k: nat): Event
    requires k < |job.polls|
  {
    Renew(job.machine, job.token, job.polls[k].now, LEASE_SECONDS)
  }

  lemma TraceStep(job: Job, k: nat)
    requires k < |job.polls|
    ensures TableAfter(job, k + 1) ==
      if TimesOut(job.polls[k].answer) then TableStep(job.agents, Met(job, k), On(job.id, RenewalOf(job, k))) else Met(job, k)
  {
    var before, poll := TraceOf(job.polls[..k], job.id, job.token, job.machine), job.polls[k];
    assert job.polls[..k + 1][..k] == job.polls[..k];
    TableRunConcat(job.agents, job.start, before, poll.others);
    if TimesOut(poll.answer) {
      var e := On(job.id, RenewalOf(job, k));
      TableRunConcat(job.agents, job.start, before + poll.others, [e]);
      OneStep(job.agents, TableRun(job.agents, job.start, before + poll.others), e);
    } else {
      assert before + poll.others + [] == before + poll.others;
    }
  }

  /** Each renewal extends the lease to two minutes after its poll, and changes nothing else of the row but its time stamp. */
  lemma RenewalsLastTwoMinutes(job: Job, k: nat)
    requires RenewedAt(job, k)
    ensures var before, after := Met(job, k), TableAfter(job, k + 1);
      job.id < |before| == |after|
      && after == before[job.id := before[job.id].(lease := Some(job.polls[k].now + 120_000_000), updatedAt := job.polls[k].now)]
  {
    TraceStep(job, k);
  }

  /** The state of the loop after k polls that all timed out and were followed by a renewal. */
  ghost predicate Looping(job: Job, k: nat, last: Time, ts: Table, since: Time) {
    && k <= |job.polls| && KeptUp(job, k) && ts == TableAfter(job, k)
    && Promised(job.polls) == Promised(job.polls[k..])
    && (OnTrack(job.start, job.polls, job.id, job.machine, job.token, last) ==>
          && OnTrack(ts, job.polls[k..], job.id, job.machine, job.token, since)
          && LastPoll(job.polls, last) == LastPoll(job.polls[k..], since))
  }

  /** One iteration of the loop. */
  lemma LoopStep(job: Job, k: nat, last: Time, ts: Table, since: Time)
    requires k < |job.polls| && Looping(job, k, last, ts, since)
    ensures var poll, mid, tracked := job.polls[k], Met(job, k), OnTrack(job.start, job.polls, job.id, job.machine, job.token, last);
      if TimesOut(poll.answer) then
        && (RenewedAt(job, k) ==> Looping(job, k + 1, last, TableStep(job.agents, mid, On(job.id, RenewalOf(job, k))), poll.now))
        && (tracked ==> RenewedAt(job, k))
        && TableAfter(job, k + 1) == TableStep(job.agents, mid, On(job.id, RenewalOf(job, k)))
      else
        && TableAfter(job, k + 1) == mid
        && Promised(job.polls) == (if poll.answer.Returned? then Finished(poll.answer.result) else ExecutionFailed)
        && (tracked ==> job.id < |mid| && Held(mid[job.id], job.machine, job.token, LastPoll(job.polls, last), LEASE_SECONDS))
  {
    TraceStep(job, k);
    assert job.polls[k..][0] == job.polls[k] && job.polls[k..][1..] == job.polls[k + 1..];
    if OnTrack(job.start, job.polls, job.id, job.machine, job.token, last) {
      PollKeepsTrack(job.agents, ts, job.polls[k..], job.id, job.machine, job.token, since);
    }
  }

  lemma {:induction false} TimelyPollsAreRenewed(job: Job, k: nat, last: Time) returns (since: Time)
    requires k <= |job.polls| && OnTrack(job.start, job.polls, job.id, job.machine, job.token, last)
    requires forall j | 0 <= j < k :: TimesOut(job.polls[j].answer)
    ensures Looping(job, k, last, TableAfter(job, k), since)
  {
    if k == 0 {
      assert job.polls[..0] == [] && job.polls[0..] == job.polls;
      since := last;
    } else {
      var before := TimelyPollsAreRenewed(job, k - 1, last);
      LoopStep(job, k - 1, last, TableAfter(job, k - 1), before);
      since := job.polls[k - 1].now;
    }
  }

  /** A task that raised a TimeoutError is polled and renewed for ever, as long as the polls come in time. */
  lemma TimeoutErrorsAreRenewedForEver(job: Job, last: Time)
    requires OnTrack(job.start, job.polls, job.id, job.machine, job.token, last)
    requires forall i | 0 <= i < |job.polls| :: RaisedTimeoutAt(job, i)
    ensures Ends(job, |job.polls|, Died) && Holds(job, TableAfter(job, |job.polls|))
  {
    forall i | 0 <= i < |job.polls| ensures TimesOut(job.polls[i].answer) { assert RaisedTimeoutAt(job, i); }
    var since := TimelyPollsAreRenewed(job, |job.polls|, last);
  }

  /**
    The renewal loop over the polls until one does not time out or a renewal is refused; `n` polls are used. It ends
    exactly as the answers and the tables that the renewals meet decide. The table has seen exactly the others' steps
    and this worker's renewals. If every poll comes in time no renewal is refused, and the claim is held since the last.
   */
  method ExecuteWithHeartbeats(store: TaskStore.Store, id: nat, token: Token, machine: MachineId, polls: seq<Poll>, ghost last: Time)
    returns (r: Execution, ghost n: nat)
    modifies store
    ensures Ends(Job(store.agents, old(store.tasks), polls, id, machine, token), n, r)
    ensures n <= |polls| && store.tasks == TableRun(store.agents, old(store.tasks), TraceOf(polls[..n], id, token, machine))
    ensures r.LeaseLost? || r == Promised(polls)
    ensures OnTrack(old(store.tasks), polls, id, machine, token, last) ==>
      && !r.LeaseLost? && id < |store.tasks|
      && Held(store.tasks[id], machine, token, LastPoll(polls, last), LEASE_SECONDS)
  {
    ghost var since, job := last, Job(store.agents, store.tasks, polls, id, machine, token);
    var k := 0;
    n := 0;
    assert polls[..0] == [] && polls[0..] == polls;
    while k < |polls|
      invariant Looping(job, k, last, store.tasks, since)
    {
      var poll := polls[k];
      LoopStep(job, k, last, store.tasks, since);
      store.tasks := TableRun(store.agents, store.tasks, poll.others);
      n := k + 1;
      if poll.answer.Returned? { return Finished(poll.answer.result), n; }
      if poll.answer.Raised? { return ExecutionFailed, n; }
      var renewed := store.RenewLease(id, token, machine, poll.now, LEASE_SECONDS);
      if !renewed.ok { return LeaseLost, n; }
      since := poll.now;
      k := k + 1;
    }
    assert polls[k..] == [] && polls[..k] == polls;
    return Died, |polls|;
  }

  // ------------------------------------------------------------------ the worker's report

  datatype Report = Completed | NotCompleted | Reported(result: TaskStore.FailResult) | Gone

  /** The task goes through `fail_task`, which asks for the claim but not for a live lease. */
  ghost predicate Fails(job: Job, ts: Table, now: Time, clock: Time, r: Report, after: Table) {
    && r.Reported? && after == TableStep(job.agents, ts, On(job.id, Fail(job.machine, job.token, now, clock)))
    && (r.result.RejectedStaleClaim? <==> !Holds(job, ts))
    && (r.result.DeadLettered? <==> Holds(job, ts) && ts[job.id].attempts >= ts[job.id].maxAttempts)
  }

  /**
    What surrounds the report: what others did up to the worker's first call and when that came; and, if it was a
    completion that the blank result made raise, what others did then. The failure is reported at `failAt`.
   */
  datatype Closing = Closing(before: seq<Op>, now: Time, between: seq<Op>, failAt: Time, clock: Time)

  /** The table that the worker's first call after the execution meets. */
  function MetByReport(job: Job, n: nat, c: Closing): Table
    requires n <= |job.polls|
  {
    TableRun(job.agents, TableAfter(job, n), c.before)
  }

  /** What the worker reports after an execution, and what that does to the table. */
  ghost predicate Reports(job: Job, n: nat, execution: Execution, c: Closing, r: Report, after: Table)
    requires n <= |job.polls|
  {
    var mid := MetByReport(job, n, c);
    match execution
    case Died => r.Gone? && after == TableAfter(job, n)
    case Finished(result) =>
      if !Owns(job, mid, c.now) then r.NotCompleted? && after == mid
      else if Blank(result) then Fails(job, TableRun(job.agents, mid, c.between), c.failAt, c.clock, r, after)
      else r.Completed? && after == TableStep(job.agents, mid, On(job.id, Complete(job.machine, job.token, c.now, result)))
    case ExecutionFailed => Fails(job, mid, c.failAt, c.clock, r, after)
    case LeaseLost => Fails(job, mid, c.failAt, c.clock, r, after)
  }

  /**
    Which tasks go through `fail_task`, exactly: those that raised something other than a TimeoutError, those one of
    whose renewals was refused, and those whose blank result would have completed them in time. In particular a task
    that raised a TimeoutError goes through it only if a renewal is refused.
   */
  lemma FailIsReportedExactlyWhen(job: Job, n: nat, execution: Execution, c: Closing, r: Report, after: Table)
    requires AnswersStay(job.polls) && Ends(job, n, execution) && Reports(job, n, execution, c, r, after)
    ensures r.Reported? <==>
      || (exists k :: RefusedAt(job, k))
      || (exists i :: RaisedAt(job, i))
      || (execution.Finished? && Blank(execution.result) && Owns(job, MetByReport(job, n, c), c.now))
    ensures (exists i :: RaisedTimeoutAt(job, i)) ==> (r.Reported? <==> exists k :: RefusedAt(job, k))
  {
    RaisedTasksFailExactlyWhen(job, n, execution);
  }

  /**
    A lost lease is not a lost claim: after a refused renewal the failure is accepted, and the task requeued or
    dead-lettered, if and only if the row still carries the claim when it arrives.
   */
  lemma LostLeaseStillFails(job: Job, n: nat, c: Closing, r: Report, after: Table)
    requires Ends(job, n, LeaseLost) && Reports(job, n, LeaseLost, c, r, after)
    ensures var mid := MetByReport(job, n, c);
      && (r == Reported(TaskStore.RejectedStaleClaim) <==> !Holds(job, mid))
      && (Holds(job, mid) ==> job.id < |after| && if mid[job.id].attempts >= mid[job.id].maxAttempts
                                                 then after[job.id].status.Failed? else after[job.id].status.Queued?)
    ensures c.before == [] && Holds(job, Met(job, n - 1)) ==> r != Reported(TaskStore.RejectedStaleClaim)
  {
    TraceStep(job, n - 1);
    var met := Met(job, n - 1);
    assert TableStep(job.agents, met, On(job.id, RenewalOf(job, n - 1))) == met;
  }

  /**
    The worker leaves its claim behind in two cases only: it died while it held it, or its result came when the lease
    was over but nobody had taken the claim; then the row waits for the steward.
   */
  lemma ClaimIsLeftBehindExactlyWhen(job: Job, n: nat, execution: Execution, c: Closing, r: Report, after: Table)
    requires Ends(job, n, execution) && Reports(job, n, execution, c, r, after)
    ensures Holds(job, after) <==>
      || (r.Gone? && Holds(job, TableAfter(job, n)))
      || (r.NotCompleted? && Holds(job, MetByReport(job, n, c)) && !LeaseLive(MetByReport(job, n, c)[job.id], c.now))
  {
  }

  /** The row is held with a lease from `last` on, and others leave it so up to the deadline. */
  ghost predicate Guarded(job: Job, ts: Table, others: seq<Op>, last: Time) {
    && job.id < |ts| && Held(ts[job.id], job.machine, job.token, last, LEASE_SECONDS)
    && Fenced(others, job.id, job.token, last + LEASE_SECONDS * SECOND)
  }

  /** A report in time: the claim is never called stale. */
  lemma TimelyReports(job: Job, n: nat, execution: Execution, c: Closing, r: Report, after: Table, last: Time)
    requires n <= |job.polls| && Reports(job, n, execution, c, r, after) && Guarded(job, TableAfter(job, n), c.before, last)
    ensures var deadline := last + LEASE_SECONDS * SECOND;
      execution.Finished? && c.now < deadline && Fenced(c.between, job.id, job.token, deadline) ==>
      if Blank(execution.result) then r.Reported? && !r.result.RejectedStaleClaim? else r.Completed?
    ensures execution.ExecutionFailed? ==>
      && r.Reported? && !r.result.RejectedStaleClaim? && job.id < |after|
      && (after[job.id].status.Queued? || after[job.id].status.Failed?)
  {
    var mid := MetByReport(job, n, c);
    OthersCannotTakeTheClaim(job.agents, TableAfter(job, n), c.before, job.id, job.machine, job.token, last);
    if Fenced(c.between, job.id, job.token, last + LEASE_SECONDS * SECOND) {
      OthersCannotTakeTheClaim(job.agents, mid, c.between, job.id, job.machine, job.token, last);
    }
  }

  lemma CompletedMeans(job: Job, n: nat, execution: Execution, c: Closing, r: Report, after: Table)
    requires n <= |job.polls| && Reports(job, n, execution, c, r, after) && r.Completed?
    ensures execution.Finished? && job.id < |after| && after[job.id].status.Completed? && after[job.id].result == Some(execution.result)
  {
  }

  /** The calls that follow an execution. */
  method ReportExecution(store: TaskStore.Store, ghost job: Job, id: nat, token: Token, machine: MachineId, execution: Execution,
                         ghost n: nat, c: Closing)
    returns (r: Report)
    requires n <= |job.polls| && store.tasks == TableAfter(job, n)
    requires job.agents == store.agents && job.id == id && job.token == token && job.machine == machine
    modifies store
    ensures Reports(job, n, execution, c, r, store.tasks)
  {
    if execution.Died? { return Gone; }
    store.tasks := TableRun(store.agents, store.tasks, c.before);
    if execution.Finished? {
      var completed := store.CompleteTask(id, execution.result, token, machine, c.now);
      if completed.Completed? { return Report.Completed; }
      if completed.NotOwner? { return NotCompleted; }
      assert store.tasks == MetByReport(job, n, c);
      store.tasks := TableRun(store.agents, store.tasks, c.between);
    }
    var failed := store.FailTask(id, token, machine, c.failAt, c.clock);
    return Reported(failed);
  }

  /**
    What `run_worker` does with a claimed task: execute, then complete; any exception, also the one of a blank result,
    fails the task instead.
   */
  method WorkOnTask(store: TaskStore.Store, id: nat, token: Token, machine: MachineId, polls: seq<Poll>, c: Closing, ghost last: Time)
    returns (r: Report, execution: Execution, ghost n: nat)
    modifies store
    ensures var job := Job(store.agents, old(store.tasks), polls, id, machine, token);
      Ends(job, n, execution) && Reports(job, n, execution, c, r, store.tasks)
    ensures r.Completed? ==>
      && Promised(polls).Finished? && id < |store.tasks|
      && store.tasks[id].status.Completed? && store.tasks[id].result == Some(Promised(polls).result)
    ensures var deadline := LastPoll(polls, last) + LEASE_SECONDS * SECOND;
      (OnTrack(old(store.tasks), polls, id, machine, token, last) && Fenced(c.before, id, token, deadline)
       && Fenced(c.between, id, token, deadline) && c.now < deadline && Promised(polls).Finished?) ==>
        if Blank(Promised(polls).result) then r.Reported? && !r.result.RejectedStaleClaim? else r.Completed?
    ensures var deadline := LastPoll(polls, last) + LEASE_SECONDS * SECOND;
      (OnTrack(old(store.tasks), polls, id, machine, token, last) && Fenced(c.before, id, token, deadline)
       && Promised(polls).ExecutionFailed?) ==>
        r.Reported? && !r.result.RejectedStaleClaim? && id < |store.tasks|
        && (store.tasks[id].status.Queued? || store.tasks[id].status.Failed?)
  {
    ghost var job, renewed := Job(store.agents, store.tasks, polls, id, machine, token), LastPoll(polls, last);
    execution, n := ExecuteWithHeartbeats(store, id, token, machine, polls, last);
    r := ReportExecution(store, job, id, token, machine, execution, n, c);
    if r.Completed? { CompletedMeans(job, n, execution, c, r, store.tasks); }
    if Guarded(job, TableAfter(job, n), c.before, renewed) { TimelyReports(job, n, execution, c, r, store.tasks, renewed); }
  }
}
