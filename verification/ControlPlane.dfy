/** The ledgers that mirror tasks: operator requests with many tasks, peer requests with one task each. */
module ControlPlane {
  import opened Tasks
  import opened LeaseProtocol
  import opened Ordering
  import opened Queries
  import opened TableRuns
  import opened Text
  import TaskStore

  // ---------------------------------------------------------------- parent status

  datatype ParentStatus = ParentQueued | ParentRunning | ParentCompleted | ParentFailed

  function DeriveParentStatus(statuses: seq<Status>): ParentStatus {
    var states := set s | s in statuses;
    if states == {} then ParentQueued
    else if states == {Completed} then ParentCompleted
    else if states <= {Completed, Failed, Cancelled} then
      (if states * {Failed, Cancelled} != {} then ParentFailed else ParentCompleted)
    else if Running in states then ParentRunning
    else ParentQueued
  }

  /** What each parent status says about the tasks, in both directions. */
  lemma ParentStatusMeaning(ss: seq<Status>)
    ensures DeriveParentStatus(ss).ParentCompleted? <==> ss != [] && forall s | s in ss :: s.Completed?
    ensures DeriveParentStatus(ss).ParentFailed? <==>
      ss != [] && (forall s | s in ss :: Terminal(s)) && exists s :: s in ss && !s.Completed?
    ensures DeriveParentStatus(ss).ParentRunning? <==> Running in ss
  {
    var states := set s | s in ss;
    forall s ensures s in ss <==> s in states {}
    if ss != [] { assert ss[0] in states; }
    if ss != [] && forall s | s in ss :: s.Completed? { assert states == {Completed}; }
    if states <= {Completed, Failed, Cancelled} && states != {Completed} && states != {} {
      OtherThanCompleted(states);
    }
    if forall s | s in ss :: Terminal(s) {
      forall s | s in states ensures s in {Completed, Failed, Cancelled} {}
    }
  }

  lemma OtherThanCompleted(states: set<Status>)
    requires states <= {Completed, Failed, Cancelled} && states != {Completed} && states != {}
    ensures Failed in states || Cancelled in states
    ensures states * {Failed, Cancelled} != {}
  {
    assert {Completed} < states || Completed !in states;
    var s :| s in states - {Completed};
    assert s == Failed || s == Cancelled;
    assert Failed in states ==> Failed in states * {Failed, Cancelled};
    assert Cancelled in states ==> Cancelled in states * {Failed, Cancelled};
  }

  /** Only which statuses occur matters, not their order or number. */
  lemma ParentStatusIsOrderIndependent(ss: seq<Status>, rs: seq<Status>)
    requires forall s :: s in ss <==> s in rs
    ensures DeriveParentStatus(ss) == DeriveParentStatus(rs)
  {
    assert (set s | s in ss) == (set s | s in rs);
  }

  /** `select status from tasks where id = any(ids) order by id`. */
  function TaskStatuses(ts: Table, ids: seq<nat>): seq<Status> {
    if ts == [] then []
    else
      var n := |ts| - 1;
      TaskStatuses(ts[..n], ids) + if n in ids then [ts[n].status] else []
  }

  ghost predicate Occurs(ts: Table, ids: seq<nat>, s: Status) { exists i: nat :: i < |ts| && i in ids && ts[i].status == s }

  lemma OccursStep(ts: Table, ids: seq<nat>, s: Status)
    requires ts != []
    ensures var n := |ts| - 1;
      Occurs(ts, ids, s) <==> Occurs(ts[..n], ids, s) || (n in ids && ts[n].status == s)
  {
    var n := |ts| - 1;
    if Occurs(ts[..n], ids, s) {
      var i: nat :| i < n && i in ids && ts[..n][i].status == s;
      assert ts[i].status == s;
    }
    if Occurs(ts, ids, s) && !(n in ids && ts[n].status == s) {
      var i: nat :| i < |ts| && i in ids && ts[i].status == s;
      assert ts[..n][i].status == s;
    }
  }

  lemma {:induction false} StatusesAreOfTheTasks(ts: Table, ids: seq<nat>, s: Status)
    ensures s in TaskStatuses(ts, ids) <==> Occurs(ts, ids, s)
  {
    if ts != [] {
      StatusesAreOfTheTasks(ts[..|ts| - 1], ids, s);
      OccursStep(ts, ids, s);
    }
  }

  // -------------------------------------------------------------------- the summary

  /** The stripped results of these tasks that are not empty before that, in the order of their ids. */
  function ResultTexts(ts: Table, ids: seq<nat>): seq<string> {
    if ts == [] then []
    else
      var n := |ts| - 1;
      ResultTexts(ts[..n], ids)
      + if n in ids && ts[n].result.Some? && ts[n].result.value != "" then [Strip(ts[n].result.value)] else []
  }

  /** What an operator request answers: its tasks' results, up to 4000 characters. */
  function Summary(ts: Table, ids: seq<nat>): string {
    var texts := ResultTexts(ts, ids);
    var all := if texts == [] then "" else Join(texts, "\n\n");
    if |all| <= 4000 then all else all[..4000]
  }

  predicate HasResult(ts: Table, ids: seq<nat>, i: nat) {
    i < |ts| && i in ids && ts[i].result.Some? && ts[i].result.value != ""
  }

  ghost predicate ListsResults(ts: Table, ids: seq<nat>, rows: seq<nat>, texts: seq<string>) {
    && |rows| == |texts| && (forall m, n | 0 <= m < n < |rows| :: rows[m] < rows[n])
    && (forall n | 0 <= n < |rows| :: HasResult(ts, ids, rows[n]) && texts[n] == Strip(ts[rows[n]].result.value))
    && (forall i | HasResult(ts, ids, i) :: i in rows)
  }

  lemma ListsOneMore(ts: Table, t: Task, ids: seq<nat>, rows: seq<nat>, texts: seq<string>)
    requires ListsResults(ts, ids, rows, texts)
    ensures if HasResult(ts + [t], ids, |ts|) then ListsResults(ts + [t], ids, rows + [|ts|], texts + [Strip(t.result.value)])
            else ListsResults(ts + [t], ids, rows, texts)
  {
    var more := ts + [t];
    forall i: nat | HasResult(more, ids, i) ensures i in rows || i == |ts| {
      if i < |ts| { assert HasResult(ts, ids, i); }
    }
    forall n | 0 <= n < |rows| ensures HasResult(more, ids, rows[n]) && more[rows[n]] == ts[rows[n]] {
      assert HasResult(ts, ids, rows[n]);
    }
  }

  /** Which results these are: those of the request's tasks that have one, in the order of their ids. */
  lemma {:induction false} ResultTextsMean(ts: Table, ids: seq<nat>) returns (rows: seq<nat>)
    ensures ListsResults(ts, ids, rows, ResultTexts(ts, ids))
  {
    rows := [];
    if ts != [] {
      var k := |ts| - 1;
      rows := ResultTextsMean(ts[..k], ids);
      ListsOneMore(ts[..k], ts[k], ids, rows, ResultTexts(ts[..k], ids));
      assert ts[..k] + [ts[k]] == ts;
      if HasResult(ts, ids, k) { rows := rows + [k]; } else { assert ResultTexts(ts[..k], ids) + [] == ResultTexts(ts[..k], ids); }
    }
  }

  /** The summary is made of these texts as paragraphs, and ends after 4000 characters. */
  lemma SummaryMeans(ts: Table, ids: seq<nat>)
    ensures var texts, s := ResultTexts(ts, ids), Summary(ts, ids);
      && |s| <= 4000
      && (texts == [] ==> s == "")
      && (texts != [] ==> s <= Join(texts, "\n\n") && (|s| < 4000 ==> s == Join(texts, "\n\n")))
  {
  }

  /** Only the tasks' own results matter, whatever else happens to the table. */
  lemma {:induction false} ResultTextsStay(ts: Table, after: Table, ids: seq<nat>)
    requires |ts| <= |after| && forall i | i in ids && i < |after| :: i < |ts| && after[i].result == ts[i].result
    ensures ResultTexts(after, ids) == ResultTexts(ts, ids)
    decreases |after|
  {
    if after != [] {
      var n := |after| - 1;
      ResultTextsStay(if |ts| < |after| then ts else ts[..n], after[..n], ids);
    }
  }

  // ---------------------------------------------------------------------- ledgers

  datatype Request = Request(taskIds: seq<nat>, status: ParentStatus, priority: int, createdAt: Time, summary: string)

  datatype PeerStatus = Requested | InProgress | Fulfilled | Rejected | NeedsClarification

  datatype Peer = Peer(target: MachineId, requestType: string, priority: int, createdAt: Time, taskId: Option<nat>,
                       status: PeerStatus, held: bool, response: Option<string>, responder: Option<MachineId>,
                       respondedAt: Option<Time>)

  /** `log` records which task was inserted for which peer request. */
  datatype World = World(tasks: Table, requests: seq<Request>, peers: seq<Peer>, log: seq<(nat, nat)>)

  datatype Action =
    | TaskOp(op: Op)
    | NewRequest(request: Request)
    | RouteRequest(k: nat, taskIds: seq<nat>)
    | SyncRequest(k: nat)
    | NewPeer(peer: Peer)
    | SyncPeer(k: nat, agent: Option<AgentId>, now: Time)
    | Respond(k: nat, status: PeerStatus)

  predicate Open(r: Request) { r.status.ParentQueued? || r.status.ParentRunning? }

  predicate PeerOpen(p: Peer) { p.status.Requested? || p.status.InProgress? }

  /** `update operator_requests set status = ..., response_summary = ... where status is distinct from ...`. */
  function Synced(ts: Table, r: Request): Request {
    var status, summary := DeriveParentStatus(TaskStatuses(ts, r.taskIds)), Summary(ts, r.taskIds);
    if Open(r) && r.taskIds != [] && status != r.status
    then r.(status := status, summary := if summary != "" then summary else r.summary)
    else r
  }

  function PeerStatusOf(s: Status): PeerStatus {
    match s
    case Completed => Fulfilled
    case Failed => Rejected
    case Cancelled => Rejected
    case Running => InProgress
    case Queued => Requested
  }

  /** `update peer_requests set status = ... where status is distinct from ...`. */
  function Mirrored(p: Peer, t: Task, now: Time): Peer {
    var status := PeerStatusOf(t.status);
    var answered := status.Fulfilled? || status.Rejected?;
    if p.status == status then p
    else p.(status := status,
            response := if t.result.Some? then t.result else p.response,
            responder := if answered then Some(p.target) else p.responder,
            respondedAt := if answered && p.respondedAt.None? then Some(now) else p.respondedAt)
  }

  /**
    What dealing with a peer request leaves behind: one that was closed stays; one without a task, for want of an agent,
    is held; any other has the status of its task: fulfilled if it is completed, rejected if it failed or was cancelled,
    in progress while it runs, requested while it waits. When that changes, the task's result becomes the response, the
    target the responder of an answered request, and a response time that is already set is kept.
   */
  ghost predicate MirrorsItsTask(before: Peer, after: Peer, ts: Table, now: Time) {
    if before.status != Requested && before.status != InProgress then after == before
    else if after.taskId == None then before.taskId == None && after == before.(held := true)
    else
      && (before.taskId.Some? ==> after.taskId == before.taskId)
      && if after.taskId.value >= |ts| then after == before else
           var t := ts[after.taskId.value];
           && (after.status == Fulfilled <==> t.status == Completed)
           && (after.status == Rejected <==> t.status == Failed || t.status == Cancelled)
           && (after.status == InProgress <==> t.status == Running)
           && (after.status == Requested <==> t.status == Queued)
           && (after.status == before.status ==> after == before.(taskId := after.taskId))
           && (after.status != before.status ==>
                 var answered := t.status == Completed || t.status == Failed || t.status == Cancelled;
                 && after.response == (if t.result != None then t.result else before.response)
                 && after.responder == (if answered then Some(before.target) else before.responder)
                 && after.respondedAt == (if before.respondedAt.Some? || !answered then before.respondedAt else Some(now))
                 && after == before.(taskId := after.taskId, status := after.status, response := after.response,
                                     responder := after.responder, respondedAt := after.respondedAt))
  }

  const PLAIN := Metadata(OpenState(""), false, NotApproved(""), false, false, false, None)

  function PeerTask(p: Peer, agent: AgentId, now: Time): Task {
    Task(agent, "peer-request", p.priority, PLAIN, now, now, Queued, Some(p.target), None, None, None, 0, 3, None, 0, None, None)
  }

  /** What the callers and queries of each step guarantee. */
  predicate Enabled(agents: Agents, w: World, a: Action) {
    match a
    case RouteRequest(k, ids) =>
      k < |w.requests| && w.requests[k].taskIds == [] && Open(w.requests[k]) && forall i | i in ids :: i < |w.tasks|
    case SyncRequest(k) => k < |w.requests|
    case NewRequest(r) => r.taskIds == [] && Open(r)
    case NewPeer(p) => p.taskId.Some? ==> p.taskId.value < |w.tasks|
    case SyncPeer(k, agent, _) => k < |w.peers| && (agent.Some? ==> ActiveOn(agents, agent.value, w.peers[k].target))
    case Respond(k, _) => k < |w.peers|
    case _ => true
  }

  function PeerStep(agents: Agents, w: World, k: nat, agent: Option<AgentId>, now: Time): World
    requires k < |w.peers|
  {
    var p := w.peers[k];
    if !PeerOpen(p) then w
    else if p.taskId.None? then
      (if agent.None? then w.(peers := w.peers[k := p.(held := true)])
       else
         var t := PeerTask(p, agent.value, now);
         w.(tasks := TableStep(agents, w.tasks, Create(t)),
            peers := w.peers[k := Mirrored(p.(taskId := Some(|w.tasks|)), t, now)],
            log := w.log + [(k, |w.tasks|)]))
    else if p.taskId.value < |w.tasks| then
      w.(peers := w.peers[k := Mirrored(p, w.tasks[p.taskId.value], now)])
    else w
  }

  function Next(agents: Agents, w: World, a: Action): World
    requires Enabled(agents, w, a)
  {
    match a
    case TaskOp(op) => w.(tasks := TableStep(agents, w.tasks, op))
    case NewRequest(r) => w.(requests := w.requests + [r])
    case RouteRequest(k, ids) => w.(requests := w.requests[k := w.requests[k].(taskIds := ids)])
    case SyncRequest(k) => w.(requests := w.requests[k := Synced(w.tasks, w.requests[k])])
    case NewPeer(p) => w.(peers := w.peers + [p])
    case SyncPeer(k, agent, now) => PeerStep(agents, w, k, agent, now)
    case Respond(k, status) => w.(peers := w.peers[k := w.peers[k].(status := status)])
  }

  lemma PeerStepMirrors(agents: Agents, w: World, k: nat, agent: Option<AgentId>, now: Time)
    requires k < |w.peers|
    ensures var next := PeerStep(agents, w, k, agent, now);
      |next.peers| == |w.peers| && MirrorsItsTask(w.peers[k], next.peers[k], next.tasks, now)
  {
  }

  /**
    The task table before and after: one task more, exactly if the request is open, has none and somebody is there; it is
    a queued peer-request task of the request's priority for that agent on the target, linked from the request, and a
    good row.
   */
  ghost predicate Materialises(agents: Agents, w: World, next: World, k: nat, agent: Option<AgentId>, now: Time)
    requires k < |w.peers|
  {
    var p, n := w.peers[k], |w.tasks|;
    && k < |next.peers| && w.tasks <= next.tasks
    && if (p.status == Requested || p.status == InProgress) && p.taskId == None && agent.Some? then
         && |next.tasks| == n + 1 && next.peers[k].taskId == Some(n) && GoodRow(agents, next.tasks[n])
         && var t := next.tasks[n];
            && t.agent == agent.value && t.executionMachine == Some(p.target) && t.status == Queued && t.category == "peer-request"
            && t.priority == p.priority && t.createdAt == now && t.attempts == 0 && t.maxAttempts == 3 && TaskIsAutomaticEligible(t.metadata)
       else next.tasks == w.tasks && next.peers[k].taskId == p.taskId
  }

  lemma PeerStepMaterialises(agents: Agents, w: World, k: nat, agent: Option<AgentId>, now: Time)
    requires k < |w.peers| && (agent.Some? ==> ActiveOn(agents, agent.value, w.peers[k].target))
    ensures Materialises(agents, w, PeerStep(agents, w, k, agent, now), k, agent, now)
  {
    if agent.Some? { PeerTasksAreGood(agents, w.peers[k], agent.value, now); }
  }

  /** Tasks that are added later do not matter to a mirror. */
  lemma MirrorsStay(before: Peer, after: Peer, ts: Table, more: Table, now: Time)
    requires MirrorsItsTask(before, after, ts, now) && ts <= more && (after.taskId.Some? ==> after.taskId.value < |ts|)
    ensures MirrorsItsTask(before, after, more, now)
  {
    if after.taskId.Some? { assert more[after.taskId.value] == ts[after.taskId.value]; }
  }

  /**
    What dealing with an operator request leaves behind: one that was closed, or has no tasks, stays; any other is
    completed if all its tasks are and there are some, failed if all have ended otherwise, and running if some task runs;
    when that changes, the results of its tasks become its summary.
   */
  ghost predicate FollowsItsTasks(before: Request, after: Request, ts: Table) {
    if before.status == ParentCompleted || before.status == ParentFailed || before.taskIds == [] then after == before
    else
      && (after.status == ParentCompleted <==>
            (exists s :: Occurs(ts, before.taskIds, s)) && forall s | Occurs(ts, before.taskIds, s) :: s == Completed)
      && (after.status == ParentFailed <==>
            && (forall s | Occurs(ts, before.taskIds, s) :: s == Completed || s == Failed || s == Cancelled)
            && exists s :: Occurs(ts, before.taskIds, s) && s != Completed)
      && (after.status == ParentRunning <==> Occurs(ts, before.taskIds, Running))
      && var summary := Summary(ts, before.taskIds);
         after == if after.status == before.status then before
                  else before.(status := after.status, summary := if summary == "" then before.summary else summary)
  }

  lemma SyncedFollows(ts: Table, r: Request)
    ensures FollowsItsTasks(r, Synced(ts, r), ts)
  {
    var ss := TaskStatuses(ts, r.taskIds);
    ParentStatusMeaning(ss);
    forall s ensures s in ss <==> Occurs(ts, r.taskIds, s) { StatusesAreOfTheTasks(ts, r.taskIds, s); }
    if ss != [] { assert ss[0] in ss; }
  }

  // --------------------------------------------------------------------- invariants

  /** A closed request agrees with its tasks: all exist and are terminal, the status is theirs, and so is any summary. */
  ghost predicate Agrees(ts: Table, r: Request) {
    && (forall i | i in r.taskIds :: i < |ts|)
    && (!Open(r) ==>
          && r.taskIds != []
          && (forall i | i in r.taskIds :: Terminal(ts[i].status))
          && r.status == DeriveParentStatus(TaskStatuses(ts, r.taskIds))
          && (Summary(ts, r.taskIds) == "" || r.summary == Summary(ts, r.taskIds)))
  }

  /** Each materialised peer request points at its own task, and none was materialised twice. */
  ghost predicate MaterialisedOnce(w: World) {
    && (forall n | 0 <= n < |w.log| :: w.log[n].0 < |w.peers| && w.peers[w.log[n].0].taskId == Some(w.log[n].1))
    && (forall n, m | 0 <= n < m < |w.log| :: w.log[n].0 != w.log[m].0 && w.log[n].1 != w.log[m].1)
    && (forall n | 0 <= n < |w.log| :: w.log[n].1 < |w.tasks|)
  }

  ghost predicate Consistent(w: World) {
    (forall k | 0 <= k < |w.requests| :: Agrees(w.tasks, w.requests[k])) && MaterialisedOnce(w)
  }

  /** Agreement survives everything that happens to the tasks. */
  lemma AgreementIsStable(agents: Agents, ts: Table, after: Table, r: Request)
    requires Agrees(ts, r) && |ts| <= |after|
    requires forall i | 0 <= i < |ts| && Terminal(ts[i].status) ::
      after[i].status == ts[i].status && after[i].result == ts[i].result
    ensures Agrees(after, r)
  {
    if !Open(r) {
      var a, b := TaskStatuses(ts, r.taskIds), TaskStatuses(after, r.taskIds);
      forall s ensures s in a <==> s in b {
        StatusesAreOfTheTasks(ts, r.taskIds, s);
        StatusesAreOfTheTasks(after, r.taskIds, s);
        if exists i | 0 <= i < |ts| :: i in r.taskIds && ts[i].status == s {
          var i :| 0 <= i < |ts| && i in r.taskIds && ts[i].status == s;
          assert after[i].status == s;
        }
      }
      ParentStatusIsOrderIndependent(a, b);
      ResultTextsStay(ts, after, r.taskIds);
    }
  }

  lemma SyncEstablishesAgreement(ts: Table, r: Request)
    requires Agrees(ts, r)
    ensures Agrees(ts, Synced(ts, r))
  {
    if Open(r) && r.taskIds != [] {
      var ss := TaskStatuses(ts, r.taskIds);
      ParentStatusMeaning(ss);
      forall i | i in r.taskIds ensures ts[i].status in ss { StatusesAreOfTheTasks(ts, r.taskIds, ts[i].status); }
    }
  }

  lemma TasksOnlyAdvance(agents: Agents, w: World, a: Action)
    requires Enabled(agents, w, a)
    ensures var after := Next(agents, w, a).tasks;
      && |w.tasks| <= |after|
      && forall i | 0 <= i < |w.tasks| && Terminal(w.tasks[i].status) ::
           after[i].status == w.tasks[i].status && after[i].result == w.tasks[i].result
  {
  }

  lemma StepKeepsRequests(agents: Agents, w: World, a: Action, k: nat)
    requires Consistent(w) && Enabled(agents, w, a) && k < |w.requests|
    ensures k < |Next(agents, w, a).requests|
    ensures Agrees(Next(agents, w, a).tasks, Next(agents, w, a).requests[k])
    ensures !Open(w.requests[k]) ==> Next(agents, w, a).requests[k] == w.requests[k]
  {
    TasksOnlyAdvance(agents, w, a);
    AgreementIsStable(agents, w.tasks, Next(agents, w, a).tasks, w.requests[k]);
    SyncEstablishesAgreement(w.tasks, w.requests[k]);
  }

  lemma PeerStepKeepsLog(agents: Agents, w: World, k: nat, agent: Option<AgentId>, now: Time)
    requires MaterialisedOnce(w) && k < |w.peers|
    ensures MaterialisedOnce(PeerStep(agents, w, k, agent, now))
  {
    var next := PeerStep(agents, w, k, agent, now);
    forall n | 0 <= n < |next.log|
      ensures next.log[n].0 < |next.peers| && next.peers[next.log[n].0].taskId == Some(next.log[n].1) && next.log[n].1 < |next.tasks|
    {
      if n < |w.log| { assert next.log[n] == w.log[n]; }
    }
  }

  lemma StepKeepsLog(agents: Agents, w: World, a: Action)
    requires MaterialisedOnce(w) && Enabled(agents, w, a)
    ensures MaterialisedOnce(Next(agents, w, a))
  {
    if a.SyncPeer? {
      PeerStepKeepsLog(agents, w, a.k, a.agent, a.now);
    } else {
      TasksOnlyAdvance(agents, w, a);
    }
  }

  lemma StepKeepsConsistent(agents: Agents, w: World, a: Action)
    requires Consistent(w) && Enabled(agents, w, a)
    ensures Consistent(Next(agents, w, a))
  {
    StepKeepsLog(agents, w, a);
    forall k | 0 <= k < |w.requests| ensures Agrees(Next(agents, w, a).tasks, Next(agents, w, a).requests[k]) {
      StepKeepsRequests(agents, w, a, k);
    }
  }

  // -------------------------------------------------------------------------- runs

  ghost predicate Runs(agents: Agents, w: World, actions: seq<Action>)
    decreases |actions|
  {
    actions == [] || (Enabled(agents, w, actions[0]) && Runs(agents, Next(agents, w, actions[0]), actions[1..]))
  }

  ghost function Final(agents: Agents, w: World, actions: seq<Action>): World
    requires Runs(agents, w, actions)
    decreases |actions|
  {
    if actions == [] then w else Final(agents, Next(agents, w, actions[0]), actions[1..])
  }

  /**
    Parents agree with their tasks for ever: in every later state, a request that was marked completed or failed
    still has that status, all its tasks are terminal, and the status is the one derived from them; and every peer
    request has been turned into at most one task.
   */
  lemma {:induction false} LedgersStayAligned(agents: Agents, w: World, actions: seq<Action>)
    requires Consistent(w) && Runs(agents, w, actions)
    ensures Consistent(Final(agents, w, actions)) && |Final(agents, w, actions).requests| >= |w.requests|
    ensures forall k | 0 <= k < |w.requests| && !Open(w.requests[k]) :: Final(agents, w, actions).requests[k] == w.requests[k]
    decreases |actions|
  {
    if actions != [] {
      var next := Next(agents, w, actions[0]);
      StepKeepsConsistent(agents, w, actions[0]);
      forall k | 0 <= k < |w.requests|
        ensures k < |next.requests| && (!Open(w.requests[k]) ==> next.requests[k] == w.requests[k])
      {
        StepKeepsRequests(agents, w, actions[0], k);
      }
      LedgersStayAligned(agents, next, actions[1..]);
    }
  }

  // ------------------------------------------------- the ledgers only ever run the table

  /** What an action does to the task table, as steps of the table. */
  function ActionOps(w: World, a: Action): seq<Op> {
    match a
    case TaskOp(op) => [op]
    case SyncPeer(k, agent, now) =>
      if k < |w.peers| && PeerOpen(w.peers[k]) && w.peers[k].taskId.None? && agent.Some?
      then [Create(PeerTask(w.peers[k], agent.value, now))] else []
    case _ => []
  }

  ghost function OpsOf(agents: Agents, w: World, actions: seq<Action>): seq<Op>
    requires Runs(agents, w, actions)
    decreases |actions|
  {
    if actions == [] then [] else ActionOps(w, actions[0]) + OpsOf(agents, Next(agents, w, actions[0]), actions[1..])
  }

  lemma ActionRunsTheTable(agents: Agents, w: World, a: Action)
    requires Enabled(agents, w, a)
    ensures Next(agents, w, a).tasks == TableRun(agents, w.tasks, ActionOps(w, a))
  {
    var ops := ActionOps(w, a);
    if ops != [] { assert ops[..0] == []; }
  }

  /** A run of the whole control plane is, for the task table, a table run; so everything proved about table runs covers it. */
  lemma {:induction false} LedgerRunsAreTableRuns(agents: Agents, w: World, actions: seq<Action>)
    requires Runs(agents, w, actions)
    ensures Final(agents, w, actions).tasks == TableRun(agents, w.tasks, OpsOf(agents, w, actions))
    decreases |actions|
  {
    if actions != [] {
      var next := Next(agents, w, actions[0]);
      ActionRunsTheTable(agents, w, actions[0]);
      LedgerRunsAreTableRuns(agents, next, actions[1..]);
      TableRunConcat(agents, w.tasks, ActionOps(w, actions[0]), OpsOf(agents, next, actions[1..]));
    }
  }

  /** A materialised peer request is a good row: coherent, unclaimed, with attempts left. */
  lemma PeerTasksAreGood(agents: Agents, p: Peer, a: AgentId, now: Time)
    requires ActiveOn(agents, a, p.target)
    ensures GoodRow(agents, PeerTask(p, a, now))
  {
  }

  /** Tasks that other callers create are good rows. */
  predicate GoodCreation(agents: Agents, a: Action) {
    a.TaskOp? && a.op.Create? ==> GoodRow(agents, a.op.task)
  }

  lemma {:induction false} CreationsAreGood(agents: Agents, w: World, actions: seq<Action>)
    requires Runs(agents, w, actions) && forall a | a in actions :: GoodCreation(agents, a)
    ensures forall op | op in OpsOf(agents, w, actions) && op.Create? :: GoodRow(agents, op.task)
    decreases |actions|
  {
    if actions != [] {
      var a := actions[0];
      assert GoodCreation(agents, a);
      if a.SyncPeer? && ActionOps(w, a) != [] { PeerTasksAreGood(agents, w.peers[a.k], a.agent.value, a.now); }
      CreationsAreGood(agents, Next(agents, w, a), actions[1..]);
    }
  }

  /**
    Claim state, routing coherence and the attempt bound hold of every row in every state of the control plane, also of
    the tasks that it makes out of peer requests.
   */
  lemma LedgerRunsKeepGoodTables(agents: Agents, w: World, actions: seq<Action>)
    requires GoodTable(agents, w.tasks) && Runs(agents, w, actions) && forall a | a in actions :: GoodCreation(agents, a)
    ensures GoodTable(agents, Final(agents, w, actions).tasks)
  {
    var ops := OpsOf(agents, w, actions);
    LedgerRunsAreTableRuns(agents, w, actions);
    CreationsAreGood(agents, w, actions);
    forall n | 0 <= n < |ops| && ops[n].Create? ensures GoodRow(agents, ops[n].task) { assert ops[n] in ops; }
    EveryReachableRowIsGood(agents, w.tasks, ops);
  }

  lemma {:induction false} RunsAppend(agents: Agents, w: World, actions: seq<Action>, a: Action)
    requires Runs(agents, w, actions) && Enabled(agents, Final(agents, w, actions), a)
    ensures Runs(agents, w, actions + [a]) && Final(agents, w, actions + [a]) == Next(agents, Final(agents, w, actions), a)
    decreases |actions|
  {
    var more := actions + [a];
    if actions == [] {
      assert more[1..] == [];
    } else {
      RunsAppend(agents, Next(agents, w, actions[0]), actions[1..], a);
      assert more[1..] == actions[1..] + [a];
    }
  }

  lemma {:induction false} RunsConcat(agents: Agents, w: World, actions: seq<Action>, more: seq<Action>)
    requires Runs(agents, w, actions) && Runs(agents, Final(agents, w, actions), more)
    ensures Runs(agents, w, actions + more) && Final(agents, w, actions + more) == Final(agents, Final(agents, w, actions), more)
    decreases |actions|
  {
    if actions == [] {
      assert actions + more == more;
    } else {
      RunsConcat(agents, Next(agents, w, actions[0]), actions[1..], more);
      assert (actions + more)[1..] == actions[1..] + more;
    }
  }

  // ------------------------------------------------------------- the reconciliation loops

  function Changed<T(==)>(before: seq<T>, after: seq<T>): set<nat>
    requires |before| == |after|
  {
    set i: nat | i < |before| && after[i] != before[i]
  }

  lemma OneMoreChanged<T>(before: seq<T>, after: seq<T>, id: nat, r: T)
    requires |before| == |after| && id < |after| && after[id] == before[id] && r != before[id]
    ensures |Changed(before, after[id := r])| == |Changed(before, after)| + 1
  {
    assert Changed(before, after[id := r]) == Changed(before, after) + {id};
  }

  /** `order by priority desc, created_at`. */
  function RequestOrdering(rs: seq<Request>): (nat, nat) -> bool {
    (a: nat, b: nat) => if a < |rs| && b < |rs| then rs[a].priority > rs[b].priority
                          || (rs[a].priority == rs[b].priority && rs[a].createdAt <= rs[b].createdAt)
                        else b >= |rs|
  }

  function PeerOrdering(ps: seq<Peer>): (nat, nat) -> bool {
    (a: nat, b: nat) => if a < |ps| && b < |ps| then ps[a].priority > ps[b].priority
                          || (ps[a].priority == ps[b].priority && ps[a].createdAt <= ps[b].createdAt)
                        else b >= |ps|
  }

  function IsOpenRequest(rs: seq<Request>, locked: set<nat>): nat -> bool { (i: nat) => i < |rs| && i !in locked && Open(rs[i]) }

  function IsOpenPeer(ps: seq<Peer>, locked: set<nat>): nat -> bool { (i: nat) => i < |ps| && i !in locked && PeerOpen(ps[i]) }

  /** The rows that the two queries of the reconciliation return: the first `limit` open unlocked ones. */
  ghost predicate RequestSelection(rs: seq<Request>, locked: set<nat>, limit: nat, rows: seq<nat>) {
    exists all :: IsSelection(rows, all, Matches(|rs|, IsOpenRequest(rs, locked)), RequestOrdering(rs), limit)
  }

  ghost predicate PeerSelection(ps: seq<Peer>, locked: set<nat>, limit: nat, rows: seq<nat>) {
    exists all :: IsSelection(rows, all, Matches(|ps|, IsOpenPeer(ps, locked)), PeerOrdering(ps), limit)
  }

  method SelectRequests(rs: seq<Request>, locked: set<nat>, limit: nat) returns (rows: seq<nat>)
    ensures RequestSelection(rs, locked, limit, rows)
    ensures Distinct(rows) && |rows| <= limit && forall j | 0 <= j < |rows| :: rows[j] < |rs|
  {
    ghost var all;
    rows, all := Query(|rs|, IsOpenRequest(rs, locked), RequestOrdering(rs), limit);
    forall j | 0 <= j < |rows| ensures rows[j] < |rs| {
      assert rows[j] in all;
      assert rows[j] in Matches(|rs|, IsOpenRequest(rs, locked));
    }
  }

  method SelectPeers(ps: seq<Peer>, locked: set<nat>, limit: nat) returns (rows: seq<nat>)
    ensures PeerSelection(ps, locked, limit, rows)
    ensures Distinct(rows) && |rows| <= limit && forall j | 0 <= j < |rows| :: rows[j] < |ps|
  {
    ghost var all;
    rows, all := Query(|ps|, IsOpenPeer(ps, locked), PeerOrdering(ps), limit);
    forall j | 0 <= j < |rows| ensures rows[j] < |ps| {
      assert rows[j] in all;
      assert rows[j] in Matches(|ps|, IsOpenPeer(ps, locked));
    }
  }

  function StatusesOf(ps: seq<Peer>): (r: seq<PeerStatus>)
    ensures |r| == |ps| && forall i | 0 <= i < |ps| :: r[i] == ps[i].status
  {
    seq(|ps|, i requires 0 <= i < |ps| => ps[i].status)
  }

  /** One more peer request dealt with: it counts if its status changed. */
  lemma OneMoreMirrored(before: seq<Peer>, mid: seq<Peer>, after: seq<Peer>, k: nat)
    requires |before| == |mid| == |after| && k < |mid| && mid[k] == before[k]
    requires forall i | 0 <= i < |mid| && i != k :: after[i] == mid[i]
    ensures |Changed(StatusesOf(before), StatusesOf(after))|
         == |Changed(StatusesOf(before), StatusesOf(mid))| + if after[k].status != mid[k].status then 1 else 0
  {
    var a, b, c := StatusesOf(before), StatusesOf(mid), StatusesOf(after);
    assert c == b[k := after[k].status];
    if after[k].status != mid[k].status { OneMoreChanged(a, b, k, after[k].status); } else { assert c == b; }
  }

  /** The actions that deal with these requests in turn. */
  function RequestActions(rows: seq<nat>): seq<Action> {
    if rows == [] then [] else RequestActions(rows[..|rows| - 1]) + [SyncRequest(rows[|rows| - 1])]
  }

  /** The requests after dealing with these rows in turn. */
  function SyncedAll(ts: Table, rs: seq<Request>, rows: seq<nat>): (r: seq<Request>)
    ensures |r| == |rs|
  {
    if rows == [] then rs
    else
      var before, id := SyncedAll(ts, rs, rows[..|rows| - 1]), rows[|rows| - 1];
      if id < |rs| then before[id := Synced(ts, before[id])] else before
  }

  lemma {:induction false} SyncedAllAt(ts: Table, rs: seq<Request>, rows: seq<nat>, i: nat)
    requires Distinct(rows) && i < |rs|
    ensures SyncedAll(ts, rs, rows)[i] == if i in rows then Synced(ts, rs[i]) else rs[i]
  {
    if rows != [] {
      var n := |rows| - 1;
      SyncedAllAt(ts, rs, rows[..n], i);
      assert rows == rows[..n] + [rows[n]];
    }
  }

  lemma {:induction false} SyncedAllIsARun(agents: Agents, w: World, rows: seq<nat>)
    requires forall j | 0 <= j < |rows| :: rows[j] < |w.requests|
    ensures Runs(agents, w, RequestActions(rows))
    ensures Final(agents, w, RequestActions(rows)) == w.(requests := SyncedAll(w.tasks, w.requests, rows))
  {
    if rows != [] {
      var n := |rows| - 1;
      SyncedAllIsARun(agents, w, rows[..n]);
      RunsAppend(agents, w, RequestActions(rows[..n]), SyncRequest(rows[n]));
    }
  }

  /** The actions that deal with these peer requests in turn, each with the best active agent of its target. */
  ghost predicate IsPeerActions(agents: Agents, ps: seq<Peer>, rows: seq<nat>, now: Time, actions: seq<Action>) {
    |actions| == |rows| && forall j | 0 <= j < |rows| :: rows[j] < |ps| && IsBestFor(agents, ps[rows[j]], rows[j], now, actions[j])
  }

  ghost predicate IsBestFor(agents: Agents, p: Peer, k: nat, now: Time, a: Action) {
    && a.SyncPeer? && a.k == k && a.now == now
    && (a.agent.None? <==> forall x :: !ActiveOn(agents, x, p.target))
    && (a.agent.Some? ==> ActiveOn(agents, a.agent.value, p.target)
                          && forall x | ActiveOn(agents, x, p.target) :: AgentOrdering(agents, p.requestType)(a.agent.value, x))
  }

  /** The selected requests in turn, then the selected peer requests in turn. */
  ghost predicate IsReconciliation(agents: Agents, rs: seq<Request>, ps: seq<Peer>, now: Time, limit: nat, lockedRequests: set<nat>,
                                   lockedPeers: set<nat>, actions: seq<Action>) {
    exists rows, peerRows, peerActions ::
      && RequestSelection(rs, lockedRequests, limit, rows) && PeerSelection(ps, lockedPeers, limit, peerRows)
      && IsPeerActions(agents, ps, peerRows, now, peerActions) && actions == RequestActions(rows) + peerActions
  }

  /** One peer request before and after the second loop, with n tasks at its start. */
  ghost predicate Dealt(before: Peer, after: Peer, n: nat, ts: Table, now: Time) {
    (before.taskId.Some? ==> before.taskId.value < n) ==>
      MirrorsItsTask(before, after, ts, now) && (after.taskId.Some? ==> after.taskId.value < |ts|)
  }

  ghost predicate DealtWith(before: seq<Peer>, after: seq<Peer>, rows: seq<nat>, n: nat, ts: Table, now: Time) {
    && |after| == |before|
    && (forall j | 0 <= j < |rows| :: rows[j] < |before| && Dealt(before[rows[j]], after[rows[j]], n, ts, now))
    && (forall i | 0 <= i < |before| && i !in rows :: after[i] == before[i])
  }

  /** One action, and then whatever dealing with the other rows leaves behind. */
  lemma DealtFirst(before: seq<Peer>, mid: seq<Peer>, after: seq<Peer>, rows: seq<nat>, n: nat, more: nat, ts: Table, last: Table,
                   now: Time)
    requires Distinct(rows) && rows != [] && DealtWith(mid, after, rows[1..], more, last, now) && n <= more && ts <= last
    requires rows[0] < |before| == |mid| && forall i | 0 <= i < |mid| && i != rows[0] :: mid[i] == before[i]
    requires Dealt(before[rows[0]], mid[rows[0]], n, ts, now)
    ensures DealtWith(before, after, rows, n, last, now)
  {
    var rest := rows[1..];
    assert rows == [rows[0]] + rest;
    assert rows[0] !in rest;
    forall j | 0 <= j < |rows| ensures rows[j] < |before| && Dealt(before[rows[j]], after[rows[j]], n, last, now) {
      if j > 0 {
        assert rest[j - 1] == rows[j] && Dealt(mid[rows[j]], after[rows[j]], more, last, now);
      } else if before[rows[0]].taskId.Some? ==> before[rows[0]].taskId.value < n {
        MirrorsStay(before[rows[0]], mid[rows[0]], ts, last, now);
      }
    }
  }

  lemma FirstIsDealt(agents: Agents, w: World, k: nat, agent: Option<AgentId>, now: Time)
    requires k < |w.peers| && (agent.Some? ==> ActiveOn(agents, agent.value, w.peers[k].target))
    ensures var next := PeerStep(agents, w, k, agent, now);
      && |next.peers| == |w.peers| && w.tasks <= next.tasks && Dealt(w.peers[k], next.peers[k], |w.tasks|, next.tasks, now)
      && forall i | 0 <= i < |w.peers| && i != k :: next.peers[i] == w.peers[i]
  {
    PeerStepMirrors(agents, w, k, agent, now);
    PeerStepMaterialises(agents, w, k, agent, now);
  }

  lemma {:induction false} PeerActionsDeal(agents: Agents, w: World, rows: seq<nat>, now: Time, actions: seq<Action>)
    requires Distinct(rows) && IsPeerActions(agents, w.peers, rows, now, actions) && Runs(agents, w, actions)
    ensures var last := Final(agents, w, actions);
      DealtWith(w.peers, last.peers, rows, |w.tasks|, last.tasks, now) && w.tasks <= last.tasks
    decreases |actions|
  {
    if actions != [] {
      var a, rest := actions[0], rows[1..];
      assert IsBestFor(agents, w.peers[rows[0]], rows[0], now, a);
      var next := Next(agents, w, a);
      FirstIsDealt(agents, w, a.k, a.agent, now);
      forall j | 0 <= j < |rest| ensures rest[j] < |next.peers| && IsBestFor(agents, next.peers[rest[j]], rest[j], now, actions[1..][j]) {
        assert rest[j] == rows[j + 1] && rows[j + 1] != rows[0];
      }
      PeerActionsDeal(agents, next, rest, now, actions[1..]);
      var last := Final(agents, w, actions);
      DealtFirst(w.peers, next.peers, last.peers, rows, |w.tasks|, |next.tasks|, next.tasks, last.tasks, now);
    }
  }

  /** The requests after the first loop. */
  ghost predicate Followed(before: seq<Request>, after: seq<Request>, rows: seq<nat>, ts: Table) {
    && |after| == |before|
    && (forall i | 0 <= i < |before| ::
          if i in rows then FollowsItsTasks(before[i], after[i], ts) else after[i] == before[i])
  }

  lemma SyncedAllFollow(ts: Table, rs: seq<Request>, rows: seq<nat>)
    requires Distinct(rows)
    ensures Followed(rs, SyncedAll(ts, rs, rows), rows, ts)
  {
    forall i | 0 <= i < |rs|
      ensures if i in rows then FollowsItsTasks(rs[i], SyncedAll(ts, rs, rows)[i], ts) else SyncedAll(ts, rs, rows)[i] == rs[i]
    {
      SyncedAllAt(ts, rs, rows, i);
      SyncedFollows(ts, rs[i]);
    }
  }

  /** Both queries of the reconciliation return the first open unlocked rows, by priority and then by age. */
  lemma RequestSelectionMeans(rs: seq<Request>, locked: set<nat>, limit: nat, rows: seq<nat>)
    requires RequestSelection(rs, locked, limit, rows)
    ensures Distinct(rows) && |rows| <= limit
    ensures forall i | i in rows :: i < |rs| && i !in locked && (rs[i].status == ParentQueued || rs[i].status == ParentRunning)
    ensures forall j | 0 <= j < |rs| && j !in rows && j !in locked && (rs[j].status == ParentQueued || rs[j].status == ParentRunning) ::
      && |rows| == limit
      && forall i | i in rows :: rs[i].priority > rs[j].priority
                                 || (rs[i].priority == rs[j].priority && rs[i].createdAt <= rs[j].createdAt)
  {
    var matches := Matches(|rs|, IsOpenRequest(rs, locked));
    var all :| IsSelection(rows, all, matches, RequestOrdering(rs), limit);
    SelectionMeans(rows, all, matches, RequestOrdering(rs), limit);
    forall j: nat ensures j in matches <==> j < |rs| && j !in locked && Open(rs[j]) {}
  }

  lemma PeerSelectionMeans(ps: seq<Peer>, locked: set<nat>, limit: nat, rows: seq<nat>)
    requires PeerSelection(ps, locked, limit, rows)
    ensures Distinct(rows) && |rows| <= limit
    ensures forall i | i in rows :: i < |ps| && i !in locked && (ps[i].status == Requested || ps[i].status == InProgress)
    ensures forall j | 0 <= j < |ps| && j !in rows && j !in locked && (ps[j].status == Requested || ps[j].status == InProgress) ::
      && |rows| == limit
      && forall i | i in rows :: ps[i].priority > ps[j].priority
                                 || (ps[i].priority == ps[j].priority && ps[i].createdAt <= ps[j].createdAt)
  {
    var matches := Matches(|ps|, IsOpenPeer(ps, locked));
    var all :| IsSelection(rows, all, matches, PeerOrdering(ps), limit);
    SelectionMeans(rows, all, matches, PeerOrdering(ps), limit);
    forall j: nat ensures j in matches <==> j < |ps| && j !in locked && PeerOpen(ps[j]) {}
  }

  class Ledgers {
    var requests: seq<Request>
    var peers: seq<Peer>
    ghost var log: seq<(nat, nat)>

    constructor ()
      ensures requests == [] && peers == [] && log == []
    {
      requests, peers, log := [], [], [];
    }

    ghost function Snapshot(store: TaskStore.Store): World
      reads this, store
    {
      World(store.tasks, requests, peers, log)
    }

    /**
      The first loop over the selected requests: each in turn gets the status derived from its tasks, and the counter
      counts the rows that changed.
     */
    method SyncRequests(store: TaskStore.Store, rows: seq<nat>) returns (synced: nat)
      requires Distinct(rows) && forall j | 0 <= j < |rows| :: rows[j] < |requests|
      modifies this`requests
      ensures requests == SyncedAll(store.tasks, old(requests), rows) && synced == |Changed(old(requests), requests)|
      ensures Followed(old(requests), requests, rows, store.tasks)
    {
      synced := 0;
      assert Changed(requests, requests) == {};
      var k := 0;
      while k < |rows|
        invariant k <= |rows| && requests == SyncedAll(store.tasks, old(requests), rows[..k])
        invariant synced == |Changed(old(requests), requests)|
      {
        assert rows[..k + 1][..k] == rows[..k] && rows[k] !in rows[..k];
        SyncedAllAt(store.tasks, old(requests), rows[..k], rows[k]);
        synced := SyncOne(store.tasks, rows[k], old(requests), synced);
        k := k + 1;
      }
      assert rows[..k] == rows;
      SyncedAllFollow(store.tasks, old(requests), rows);
    }

    /** The body of the first loop for one request that is as it was. */
    method SyncOne(ts: Table, id: nat, ghost before: seq<Request>, synced: nat) returns (count: nat)
      requires id < |requests| == |before| && requests[id] == before[id] && synced == |Changed(before, requests)|
      modifies this`requests
      ensures requests == old(requests)[id := Synced(ts, before[id])] && count == |Changed(before, requests)|
    {
      var r := requests[id];
      count := synced;
      if Open(r) && r.taskIds != [] {
        var status, summary := DeriveParentStatus(TaskStatuses(ts, r.taskIds)), Summary(ts, r.taskIds);
        if status != r.status {
          r := r.(status := status, summary := if summary != "" then summary else r.summary);
          OneMoreChanged(before, requests, id, r);
          requests := requests[id := r];
          count := synced + 1;
        }
      }
    }

    /**
      The body of the second loop for one peer request: one step of the control plane with the best active agent. The
      request mirrors its task, and a task is inserted exactly if it is open, has none and an agent is there.
     */
    method SyncPeer(store: TaskStore.Store, k: nat, now: Time) returns (created: nat, mirrored: nat, ghost a: Action)
      requires k < |peers|
      modifies this`peers, this`log, store`tasks
      ensures IsBestFor(store.agents, old(peers)[k], k, now, a)
      ensures Enabled(store.agents, old(Snapshot(store)), a) && Snapshot(store) == Next(store.agents, old(Snapshot(store)), a)
      ensures |peers| == |old(peers)| && forall i | 0 <= i < |peers| && i != k :: peers[i] == old(peers)[i]
      ensures MirrorsItsTask(old(peers)[k], peers[k], store.tasks, now)
      ensures Materialises(store.agents, old(Snapshot(store)), Snapshot(store), k, a.agent, now)
      ensures created == |store.tasks| - |old(store.tasks)| <= 1
      ensures created == 1 ==> GoodRow(store.agents, store.tasks[|old(store.tasks)|])
      ensures mirrored == if peers[k].status != old(peers)[k].status then 1 else 0
    {
      ghost var before := Snapshot(store);
      created, mirrored, a := StepPeer(store, k, now);
      PeerStepMirrors(store.agents, before, k, a.agent, now);
      PeerStepMaterialises(store.agents, before, k, a.agent, now);
    }

    method StepPeer(store: TaskStore.Store, k: nat, now: Time) returns (created: nat, mirrored: nat, ghost a: Action)
      requires k < |peers|
      modifies this`peers, this`log, store`tasks
      ensures IsBestFor(store.agents, old(peers)[k], k, now, a)
      ensures Enabled(store.agents, old(Snapshot(store)), a) && Snapshot(store) == Next(store.agents, old(Snapshot(store)), a)
      ensures |peers| == |old(peers)| && forall i | 0 <= i < |peers| && i != k :: peers[i] == old(peers)[i]
      ensures created == |store.tasks| - |old(store.tasks)| <= 1
      ensures mirrored == if peers[k].status != old(peers)[k].status then 1 else 0
    {
      created := 0;
      var p := peers[k];
      var agent := PickAgent(store.agents, p.target, p.requestType);
      ghost var before := Snapshot(store);
      a := Action.SyncPeer(k, agent, now);
      assert Enabled(store.agents, before, a);
      if PeerOpen(p) {
        if p.taskId.None? {
          if agent.None? {
            peers := peers[k := p.(held := true)];
          } else {
            var t := PeerTask(p, agent.value, now);
            store.tasks := store.tasks + [t];
            log := log + [(k, |store.tasks| - 1)];
            peers := peers[k := Mirrored(p.(taskId := Some(|store.tasks| - 1)), t, now)];
            created := 1;
          }
        } else if p.taskId.value < |store.tasks| {
          peers := peers[k := Mirrored(p, store.tasks[p.taskId.value], now)];
        }
      }
      mirrored := if peers[k].status != p.status then 1 else 0;
      assert Snapshot(store) == Next(store.agents, before, a);
    }

    /** The second loop over the selected peer requests. */
    method SyncPeers(store: TaskStore.Store, rows: seq<nat>, now: Time) returns (created: nat, mirrored: nat, ghost actions: seq<Action>)
      requires Distinct(rows) && forall j | 0 <= j < |rows| :: rows[j] < |peers|
      modifies this`peers, this`log, store`tasks
      ensures IsPeerActions(store.agents, old(peers), rows, now, actions)
      ensures Runs(store.agents, old(Snapshot(store)), actions) && Snapshot(store) == Final(store.agents, old(Snapshot(store)), actions)
      ensures |store.tasks| == |old(store.tasks)| + created && created <= |rows|
      ensures |peers| == |old(peers)| && mirrored == |Changed(StatusesOf(old(peers)), StatusesOf(peers))|
      ensures DealtWith(old(peers), peers, rows, |old(store.tasks)|, store.tasks, now) && old(store.tasks) <= store.tasks
    {
      assert Changed(StatusesOf(peers), StatusesOf(peers)) == {};
      created, mirrored, actions := 0, 0, [];
      var k := 0;
      while k < |rows|
        invariant k <= |rows| && |peers| == |old(peers)| && created <= k
        invariant mirrored == |Changed(StatusesOf(old(peers)), StatusesOf(peers))|
        invariant forall j | k <= j < |rows| :: peers[rows[j]] == old(peers)[rows[j]]
        invariant IsPeerActions(store.agents, old(peers), rows[..k], now, actions)
        invariant Runs(store.agents, old(Snapshot(store)), actions) && Snapshot(store) == Final(store.agents, old(Snapshot(store)), actions)
        invariant |store.tasks| == |old(store.tasks)| + created
      {
        ghost var a, before := *, peers;
        var c, m;
        c, m, a := SyncPeer(store, rows[k], now);
        OneMoreMirrored(old(peers), before, peers, rows[k]);
        RunsAppend(store.agents, old(Snapshot(store)), actions, a);
        created, mirrored, actions := created + c, mirrored + m, actions + [a];
        k := k + 1;
      }
      assert rows[..k] == rows;
      PeerActionsDeal(store.agents, old(Snapshot(store)), rows, now, actions);
    }

    /** The whole reconciliation: the open requests, then the open peer requests, each in query order up to the limit. */
    method Reconcile(store: TaskStore.Store, now: Time, limit: nat, lockedRequests: set<nat>, lockedPeers: set<nat>)
      returns (synced: nat, created: nat, mirrored: nat, ghost actions: seq<Action>, ghost rows: seq<nat>, ghost peerRows: seq<nat>)
      modifies this, store`tasks
      ensures RequestSelection(old(requests), lockedRequests, limit, rows) && Followed(old(requests), requests, rows, old(store.tasks))
      ensures PeerSelection(old(peers), lockedPeers, limit, peerRows)
      ensures DealtWith(old(peers), peers, peerRows, |old(store.tasks)|, store.tasks, now) && old(store.tasks) <= store.tasks
      ensures Runs(store.agents, old(Snapshot(store)), actions) && Snapshot(store) == Final(store.agents, old(Snapshot(store)), actions)
      ensures IsReconciliation(store.agents, old(requests), old(peers), now, limit, lockedRequests, lockedPeers, actions)
      ensures |requests| == |old(requests)| && synced == |Changed(old(requests), requests)|
      ensures |peers| == |old(peers)| && mirrored == |Changed(StatusesOf(old(peers)), StatusesOf(peers))|
      ensures |store.tasks| == |old(store.tasks)| + created && created <= limit
    {
      ghost var start := Snapshot(store);
      var selected := SelectRequests(requests, lockedRequests, limit);
      rows := selected;
      SyncedAllIsARun(store.agents, start, rows);
      synced := SyncRequests(store, selected);
      var selectedPeers := SelectPeers(peers, lockedPeers, limit);
      peerRows := selectedPeers;
      ghost var peerActions;
      created, mirrored, peerActions := SyncPeers(store, selectedPeers, now);
      RunsConcat(store.agents, start, RequestActions(rows), peerActions);
      actions := RequestActions(rows) + peerActions;
    }
  }
}
