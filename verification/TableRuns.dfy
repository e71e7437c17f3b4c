/** From rows to the table: what holds of every row in every run of the whole queue. */
module TableRuns {
  import opened Tasks
  import opened LeaseProtocol
  import opened Fencing
  import opened Backoff

  /** Claim state, routing coherence and the attempt bound together. */
  predicate GoodRow(agents: Agents, t: Task) {
    ClaimState(t) && Coherent(agents, t) && t.maxAttempts >= 1 && WithinAttempts(t)
  }

  ghost predicate GoodTable(agents: Agents, ts: Table) { forall i | 0 <= i < |ts| :: GoodRow(agents, ts[i]) }

  /** The claim-state invariant: it holds of every row, old or created on the way, in every reachable table. */
  lemma {:induction false} EveryReachableRowIsGood(agents: Agents, tasks: Table, ops: seq<Op>)
    requires GoodTable(agents, tasks)
    requires forall n | 0 <= n < |ops| && ops[n].Create? :: GoodRow(agents, ops[n].task)
    ensures GoodTable(agents, TableRun(agents, tasks, ops))
  {
    if ops != [] {
      var n := |ops| - 1;
      EveryReachableRowIsGood(agents, tasks, ops[..n]);
      var before := TableRun(agents, tasks, ops[..n]);
      if ops[n].On? && ops[n].id < |before| {
        assert GoodRow(agents, before[ops[n].id]);
        StepKeepsClaimState(agents, before[ops[n].id], ops[n].event);
      }
    }
  }

  /** No two claim calls of the queue carry the same token, and no row starts or is created with one of them. */
  ghost predicate FreshAcrossTable(tasks: Table, ops: seq<Op>) {
    && (forall n, i | 0 <= n < |ops| && IsClaim(ops[n]) && 0 <= i < |tasks| :: tasks[i].token != Some(ops[n].event.token))
    && (forall n, m | 0 <= n < |ops| && IsClaim(ops[n]) && 0 <= m < |ops| && ops[m].Create? ::
          ops[m].task.token != Some(ops[n].event.token))
    && (forall n, m | 0 <= n < m < |ops| && IsClaim(ops[n]) && IsClaim(ops[m]) :: ops[n].event.token != ops[m].event.token)
  }

  predicate IsClaim(op: Op) { op.On? && op.event.Claim? }

  ghost predicate OneClockAcrossTable(ops: seq<Op>) {
    && (forall n, m | 0 <= n < m < |ops| && ops[n].On? && ops[m].On? :: ops[n].event.now <= ops[m].event.now)
    && (forall n | 0 <= n < |ops| && ops[n].On? && ops[n].event.Fail? :: ops[n].event.now <= ops[n].event.clock)
  }

  lemma {:induction false} LifeEventsOccur(n: nat, ops: seq<Op>, id: nat)
    ensures forall e | e in Life(n, ops, id) :: exists m | 0 <= m < |ops| :: ops[m] == On(id, e)
  {
    if ops != [] {
      var last := |ops| - 1;
      LifeEventsOccur(n, ops[..last], id);
      forall e | e in Life(n, ops, id) ensures exists m | 0 <= m < |ops| :: ops[m] == On(id, e) {
        if e in Life(n, ops[..last], id) {
          var m :| 0 <= m < last && ops[..last][m] == On(id, e);
          assert ops[m] == On(id, e);
        } else {
          assert ops[last] == On(id, e);
        }
      }
    }
  }

  /** A row starts as it was in the table, or as some step of the run created it. */
  lemma {:induction false} FirstRowIsGiven(tasks: Table, ops: seq<Op>, id: nat)
    requires id < Size(|tasks|, ops)
    ensures if id < |tasks| then FirstRow(tasks, ops, id) == tasks[id]
            else exists m | 0 <= m < |ops| :: ops[m] == Create(FirstRow(tasks, ops, id))
  {
    if id >= |tasks| {
      var last := |ops| - 1;
      if id < Size(|tasks|, ops[..last]) {
        FirstRowIsGiven(tasks, ops[..last], id);
        var m :| 0 <= m < last && ops[..last][m] == Create(FirstRow(tasks, ops[..last], id));
        assert ops[m] == Create(FirstRow(tasks, ops, id));
      } else {
        assert ops[last] == Create(FirstRow(tasks, ops, id));
      }
    }
  }

  /** An event that may come after another on the same row. */
  predicate Follows(e: Event, next: Event) {
    && (e.Claim? && next.Claim? ==> e.token != next.token)
    && e.now <= next.now
  }

  lemma EarlierEventsAreFollowed(tasks: Table, ops: seq<Op>, id: nat, i: nat)
    requires FreshAcrossTable(tasks, ops) && OneClockAcrossTable(ops)
    requires ops != [] && ops[|ops| - 1].On?
    requires i < |Life(|tasks|, ops[..|ops| - 1], id)|
    ensures Follows(Life(|tasks|, ops[..|ops| - 1], id)[i], ops[|ops| - 1].event)
  {
    var init := ops[..|ops| - 1];
    var e := Life(|tasks|, init, id)[i];
    LifeEventsOccur(|tasks|, init, id);
    assert e in Life(|tasks|, init, id);
    var n :| 0 <= n < |init| && init[n] == On(id, e);
    assert ops[n] == On(id, e);
  }

  lemma AppendFresh(t: Task, es: seq<Event>, e: Event)
    requires FreshTokens(t, es) && OneClock(es)
    requires forall i | 0 <= i < |es| :: Follows(es[i], e)
    requires (e.Claim? ==> t.token != Some(e.token)) && (e.Fail? ==> e.now <= e.clock)
    ensures FreshTokens(t, es + [e]) && OneClock(es + [e])
  {
  }

  lemma PrefixIsFresh(tasks: Table, ops: seq<Op>, n: nat)
    requires FreshAcrossTable(tasks, ops) && OneClockAcrossTable(ops) && n <= |ops|
    ensures FreshAcrossTable(tasks, ops[..n]) && OneClockAcrossTable(ops[..n])
  {
  }

  lemma ClaimsAreNewToTheRow(tasks: Table, ops: seq<Op>, id: nat, n: nat)
    requires FreshAcrossTable(tasks, ops) && id < Size(|tasks|, ops) && n < |ops| && IsClaim(ops[n])
    ensures FirstRow(tasks, ops, id).token != Some(ops[n].event.token)
  {
    FirstRowIsGiven(tasks, ops, id);
  }

  lemma {:induction false} LivesAreFresh(tasks: Table, ops: seq<Op>, id: nat)
    requires id < Size(|tasks|, ops) && FreshAcrossTable(tasks, ops) && OneClockAcrossTable(ops)
    ensures FreshTokens(FirstRow(tasks, ops, id), Life(|tasks|, ops, id)) && OneClock(Life(|tasks|, ops, id))
  {
    if ops != [] {
      var last := |ops| - 1;
      if id < Size(|tasks|, ops[..last]) {
        PrefixIsFresh(tasks, ops, last);
        LivesAreFresh(tasks, ops[..last], id);
        if ops[last].On? && ops[last].id == id {
          var rest := Life(|tasks|, ops[..last], id);
          forall i | 0 <= i < |rest| ensures Follows(rest[i], ops[last].event) {
            EarlierEventsAreFollowed(tasks, ops, id, i);
          }
          if IsClaim(ops[last]) { ClaimsAreNewToTheRow(tasks, ops, id, last); }
          AppendFresh(FirstRow(tasks, ops, id), rest, ops[last].event);
        }
      } else {
        NothingBeforeTheRow(|tasks|, ops, id);
      }
    }
  }

  /**
    Every row of a table run, old or created on the way, lives a row run with fresh tokens and one clock, so the row
    theorems apply to it.
   */
  lemma RowRunsInheritFreshnessAndClock(agents: Agents, tasks: Table, ops: seq<Op>, id: nat)
    requires id < |TableRun(agents, tasks, ops)| && FreshAcrossTable(tasks, ops) && OneClockAcrossTable(ops)
    ensures id < Size(|tasks|, ops)
    ensures var t, es := FirstRow(tasks, ops, id), Life(|tasks|, ops, id);
      TableRun(agents, tasks, ops)[id] == Run(agents, t, es) && FreshTokens(t, es) && OneClock(es)
  {
    SizeIsTheLength(agents, tasks, ops);
    RowsAreIndependent(agents, tasks, ops, id);
    LivesAreFresh(tasks, ops, id);
  }

  /** Over any run of the whole queue a fresh task, old or new, is claimed within its budget and with exponential spacing. */
  lemma ClaimsOfAnyTask(agents: Agents, tasks: Table, ops: seq<Op>, id: nat, n: nat)
    requires id < Size(|tasks|, ops) && FreshAcrossTable(tasks, ops) && OneClockAcrossTable(ops)
    requires FirstRow(tasks, ops, id).attempts == 0 && !FirstRow(tasks, ops, id).status.Running?
    requires 1 <= n <= |ClaimTimes(agents, FirstRow(tasks, ops, id), Life(|tasks|, ops, id))|
    ensures var t := FirstRow(tasks, ops, id);
      var ct := ClaimTimes(agents, t, Life(|tasks|, ops, id));
      n <= ClaimBudget(t.maxAttempts) && ct[n - 1] - ct[0] >= MinElapsed(n) * SECOND
  {
    var t, es := FirstRow(tasks, ops, id), Life(|tasks|, ops, id);
    LivesAreFresh(tasks, ops, id);
    ClaimsAreBounded(agents, t, es);
    BackoffIsExponential(agents, t, es, n);
  }
}
