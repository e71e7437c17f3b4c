/**
  Executing a signed capability message at most once, although the worker may crash between any two database
  transactions and the same message may be delivered again, to any number of worker processes.
 */
module Execution {
  import opened Tasks

  datatype Capability = BrowserNavigation | MusicPlayback | MusicLibrary | DeviceModelChat | UnknownCapability(name: string)

  /** The fields of an execution envelope that decide anything; requests and nonces are uuids. */
  datatype Envelope = Envelope(
    request: nat, machine: MachineId, nonce: nat, capability: Capability, sha: string, issuedAt: Time, expiresAt: Time,
    executionAuthorized: bool, keyId: string, version: string, executor: Capability, approved: bool, payloadValid: bool)

  datatype Message = Message(id: nat, envelope: Envelope, signature: string)

  /** A machine's executor: its keys, flags and handlers. HMAC is a function it is given. */
  datatype Executor = Executor(machine: MachineId, keyId: string, keyActive: bool, mac: Envelope -> string, enabled: set<Capability>)

  /** Everything that makes `execute` raise a PermissionError. */
  predicate Permitted(x: Executor, m: Message, now: Time) {
    var e := m.envelope;
    && m.signature == x.mac(e)
    && e.machine == x.machine && e.executionAuthorized
    && e.keyId == x.keyId && x.keyActive
    && e.version == "pet-machine-execution-v1"
    && !e.capability.UnknownCapability? && e.executor == e.capability
    && (e.capability.BrowserNavigation? || e.capability.MusicPlayback? ==> e.approved)
    && e.issuedAt <= now + 30 * SECOND && now < e.expiresAt && e.expiresAt - e.issuedAt <= 600 * SECOND
  }

  datatype Status = Held | Completed | Failed

  datatype Receipt = Receipt(request: nat, machine: MachineId, nonce: nat, sha: string, status: Status)

  datatype Invocation = Invocation(machine: MachineId, request: nat, nonce: nat)

  /** Where a worker process is while it handles a message; a crash or an exception sends it back to Idle. */
  datatype Phase =
    | Idle
    | Checked(msg: Message)
    | Consumed(msg: Message)
    | Acting(msg: Message)
    | Ready(msg: Message, receipt: Receipt)
    | Recorded(msg: Message)

  datatype Process = Process(machine: MachineId, phase: Phase)

  /** The shared tables, the processes, and the history of handler invocations. */
  datatype World = World(
    intents: map<nat, Envelope>,
    nonces: set<(MachineId, nat)>,
    receipts: map<(nat, MachineId), Receipt>,
    acknowledged: set<(MachineId, Message)>,
    processes: seq<Process>,
    invocations: seq<Invocation>)

  datatype Step =
    | Dispatch(envelope: Envelope)
    | Start(machine: MachineId)
    | Crash(p: nat)
    | Deliver(p: nat, msg: Message)
    | Consume(p: nat, x: Executor, now: Time, clock: Time)
    | Invoke(p: nat, x: Executor)
    | Return(p: nat, status: Status)
    | Record(p: nat, bound: bool)
    | Acknowledge(p: nat)

  function ReceiptFor(machine: MachineId, m: Message, status: Status): Receipt {
    Receipt(m.envelope.request, machine, m.envelope.nonce, m.envelope.sha, status)
  }

  /** `consume_pet_machine_execution_nonce`: bound to the dispatched intent, and once per machine and nonce. */
  predicate NonceAccepted(w: World, machine: MachineId, e: Envelope, clock: Time) {
    && clock < e.expiresAt
    && e.request in w.intents && w.intents[e.request].machine == machine
    && w.intents[e.request].nonce == e.nonce && w.intents[e.request].sha == e.sha
    && (machine, e.nonce) !in w.nonces
  }

  function Set(w: World, p: nat, phase: Phase): World
    requires p < |w.processes|
  {
    w.(processes := w.processes[p := w.processes[p].(phase := phase)])
  }

  /** The receipt does not match the request row, already exists, or belongs to no dispatched intent. */
  predicate RecordRefused(w: World, r: Receipt, bound: bool) {
    !bound || (r.request, r.machine) in w.receipts || !(r.request in w.intents && w.intents[r.request].sha == r.sha)
  }

  /** A step that does not apply in the process's phase changes nothing. */
  function Next(w: World, s: Step): World {
    match s
    case Dispatch(e) => if e.request in w.intents then w else w.(intents := w.intents[e.request := e])
    case Start(m) => w.(processes := w.processes + [Process(m, Idle)])
    case Crash(p) => if p < |w.processes| then Set(w, p, Idle) else w
    case Deliver(p, msg) =>
      if p < |w.processes| && w.processes[p].phase.Idle? then
        if (msg.envelope.request, w.processes[p].machine) in w.receipts then Set(w, p, Recorded(msg))
        else Set(w, p, Checked(msg))
      else w
    case Consume(p, x, now, clock) =>
      if p < |w.processes| && w.processes[p].phase.Checked? && x.machine == w.processes[p].machine then
        var msg := w.processes[p].phase.msg;
        if !Permitted(x, msg, now) then Set(w, p, Idle)
        else if NonceAccepted(w, x.machine, msg.envelope, clock) then
          Set(w, p, Consumed(msg)).(nonces := w.nonces + {(x.machine, msg.envelope.nonce)})
        else Set(w, p, Ready(msg, ReceiptFor(x.machine, msg, Held)))
      else w
    case Invoke(p, x) =>
      if p < |w.processes| && w.processes[p].phase.Consumed? then
        var msg, machine := w.processes[p].phase.msg, w.processes[p].machine;
        if !msg.envelope.payloadValid || msg.envelope.capability !in x.enabled then
          Set(w, p, Ready(msg, ReceiptFor(machine, msg, Held)))
        else
          Set(w, p, Acting(msg)).(invocations := w.invocations + [Invocation(machine, msg.envelope.request, msg.envelope.nonce)])
      else w
    case Return(p, status) =>
      if p < |w.processes| && w.processes[p].phase.Acting? then
        var msg := w.processes[p].phase.msg;
        Set(w, p, Ready(msg, ReceiptFor(w.processes[p].machine, msg, status)))
      else w
    case Record(p, bound) =>
      if p < |w.processes| && w.processes[p].phase.Ready? then
        var msg, r := w.processes[p].phase.msg, w.processes[p].phase.receipt;
        if RecordRefused(w, r, bound) then Set(w, p, Idle)
        else Set(w, p, Recorded(msg)).(receipts := w.receipts[(r.request, r.machine) := r])
      else w
    case Acknowledge(p) =>
      if p < |w.processes| && w.processes[p].phase.Recorded? then
        Set(w, p, Idle).(acknowledged := w.acknowledged + {(w.processes[p].machine, w.processes[p].phase.msg)})
      else w
  }

  const EMPTY := World(map[], {}, map[], {}, [], [])

  function Run(w: World, steps: seq<Step>): World {
    if steps == [] then w else Next(Run(w, steps[..|steps| - 1]), steps[|steps| - 1])
  }

  // ------------------------------------------------------------------------- invariants

  function InvocationOf(machine: MachineId, m: Message): Invocation {
    Invocation(machine, m.envelope.request, m.envelope.nonce)
  }

  /** Each invocation used up its nonce, belongs to the dispatched intent, and no nonce ran twice. */
  ghost predicate HistoryOk(w: World) {
    && (forall i | 0 <= i < |w.invocations| ::
          var v := w.invocations[i];
          && (v.machine, v.nonce) in w.nonces
          && v.request in w.intents && w.intents[v.request].machine == v.machine && w.intents[v.request].nonce == v.nonce)
    && (forall i, j | 0 <= i < j < |w.invocations| ::
          !(w.invocations[i].machine == w.invocations[j].machine && w.invocations[i].nonce == w.invocations[j].nonce))
  }

  /** A process that has consumed a nonce and not yet run: nobody has run it, and no other process may still do so. */
  ghost predicate ConsumedOk(w: World) {
    forall p | 0 <= p < |w.processes| && w.processes[p].phase.Consumed? ::
      var m, e := w.processes[p].machine, w.processes[p].phase.msg.envelope;
      && (m, e.nonce) in w.nonces
      && e.request in w.intents && w.intents[e.request].machine == m && w.intents[e.request].nonce == e.nonce
      && (forall i | 0 <= i < |w.invocations| :: !(w.invocations[i].machine == m && w.invocations[i].nonce == e.nonce))
  }

  ghost predicate Apart(a: Process, b: Process) {
    a.phase.Consumed? && b.phase.Consumed? ==> !(a.machine == b.machine && a.phase.msg.envelope.nonce == b.phase.msg.envelope.nonce)
  }

  ghost predicate AloneOk(w: World) {
    forall p, q | 0 <= p < q < |w.processes| :: Apart(w.processes[p], w.processes[q])
  }

  /** Receipts under way: what they say happened did happen. */
  ghost predicate ReadyOk(w: World) {
    forall p | 0 <= p < |w.processes| :: Truthful(w.processes[p], w.invocations)
  }

  ghost predicate Truthful(p: Process, history: seq<Invocation>) {
    match p.phase
    case Acting(msg) => InvocationOf(p.machine, msg) in history
    case Ready(msg, r) =>
      && r.machine == p.machine && r.request == msg.envelope.request
      && (!r.status.Held? ==> Invocation(r.machine, r.request, r.nonce) in history)
    case _ => true
  }

  /** And so it is with the recorded ones. */
  ghost predicate ReceiptsOk(w: World) {
    forall k | k in w.receipts ::
      var r := w.receipts[k];
      && k == (r.request, r.machine)
      && (!r.status.Held? ==> Invocation(r.machine, r.request, r.nonce) in w.invocations)
  }

  /** Nothing is acknowledged without a receipt. */
  ghost predicate AcksOk(w: World) {
    && (forall p | 0 <= p < |w.processes| && w.processes[p].phase.Recorded? ::
          (w.processes[p].phase.msg.envelope.request, w.processes[p].machine) in w.receipts)
    && (forall a | a in w.acknowledged :: (a.1.envelope.request, a.0) in w.receipts)
  }

  ghost predicate Safe(w: World) { HistoryOk(w) && ConsumedOk(w) && AloneOk(w) && ReadyOk(w) && ReceiptsOk(w) && AcksOk(w) }

  lemma StepKeepsHistory(w: World, s: Step)
    requires HistoryOk(w) && ConsumedOk(w)
    ensures HistoryOk(Next(w, s))
  {
  }

  lemma StepKeepsConsumed(w: World, s: Step)
    requires HistoryOk(w) && ConsumedOk(w) && AloneOk(w)
    ensures ConsumedOk(Next(w, s))
  {
    if s.Invoke? && s.p < |w.processes| {
      forall q | 0 <= q < |w.processes| && q != s.p ensures Apart(w.processes[q], w.processes[s.p]) {
        assert if q < s.p then Apart(w.processes[q], w.processes[s.p]) else Apart(w.processes[s.p], w.processes[q]);
      }
    }
  }

  lemma StepKeepsAlone(w: World, s: Step)
    requires ConsumedOk(w) && AloneOk(w)
    ensures AloneOk(Next(w, s))
  {
  }

  lemma StepKeepsReady(w: World, s: Step)
    requires ReadyOk(w)
    ensures ReadyOk(Next(w, s))
  {
  }

  lemma StepKeepsReceipts(w: World, s: Step)
    requires ReadyOk(w) && ReceiptsOk(w)
    ensures ReceiptsOk(Next(w, s))
  {
  }

  lemma StepKeepsAcks(w: World, s: Step)
    requires AcksOk(w) && ReadyOk(w)
    ensures AcksOk(Next(w, s))
  {
  }

  lemma {:induction false} EveryRunIsSafe(steps: seq<Step>)
    ensures Safe(Run(EMPTY, steps))
  {
    if steps != [] {
      var n := |steps| - 1;
      var w := Run(EMPTY, steps[..n]);
      EveryRunIsSafe(steps[..n]);
      StepKeepsHistory(w, steps[n]);
      StepKeepsConsumed(w, steps[n]);
      StepKeepsAlone(w, steps[n]);
      StepKeepsReady(w, steps[n]);
      StepKeepsReceipts(w, steps[n]);
      StepKeepsAcks(w, steps[n]);
    }
  }

  // --------------------------------------------------------------------- main results

  /** How often the handler was invoked for a request on a machine. */
  function Invocations(history: seq<Invocation>, machine: MachineId, request: nat): nat {
    if history == [] then 0
    else
      var n := |history| - 1;
      Invocations(history[..n], machine, request) + if history[n].machine == machine && history[n].request == request then 1 else 0
  }

  lemma {:induction false} CountsMembers(history: seq<Invocation>, v: Invocation)
    requires v in history
    ensures Invocations(history, v.machine, v.request) >= 1
  {
    var n := |history| - 1;
    if v != history[n] {
      assert history == history[..n] + [history[n]];
      CountsMembers(history[..n], v);
    }
  }

  lemma {:induction false} DistinctCountsOnce(history: seq<Invocation>, machine: MachineId, request: nat)
    requires forall i, j | 0 <= i < j < |history| ::
      !(history[i].machine == history[j].machine && history[i].request == history[j].request)
    ensures Invocations(history, machine, request) <= 1
    ensures Invocations(history, machine, request) == 1 ==>
      exists i | 0 <= i < |history| :: history[i].machine == machine && history[i].request == request
  {
    if history != [] {
      var n := |history| - 1;
      DistinctCountsOnce(history[..n], machine, request);
    }
  }

  /** One handler run per nonce, in every run with any crashes, redeliveries and concurrent processes. */
  lemma NoNonceRunsTwice(steps: seq<Step>, i: nat, j: nat)
    requires i < j < |Run(EMPTY, steps).invocations|
    ensures var h := Run(EMPTY, steps).invocations; !(h[i].machine == h[j].machine && h[i].nonce == h[j].nonce)
  {
    EveryRunIsSafe(steps);
  }

  /**
    The handler runs at most once per request and machine, and exactly once if the recorded receipt says completed or
    failed; whatever was acknowledged has a recorded receipt.
   */
  lemma AtMostOnceExecution(steps: seq<Step>, machine: MachineId, request: nat)
    ensures var w := Run(EMPTY, steps);
      && Invocations(w.invocations, machine, request) <= 1
      && ((request, machine) in w.receipts && !w.receipts[(request, machine)].status.Held? ==>
            Invocations(w.invocations, machine, request) == 1)
      && (forall a | a in w.acknowledged :: (a.1.envelope.request, a.0) in w.receipts)
  {
    var w := Run(EMPTY, steps);
    EveryRunIsSafe(steps);
    DistinctCountsOnce(w.invocations, machine, request);
    if (request, machine) in w.receipts && !w.receipts[(request, machine)].status.Held? {
      var r := w.receipts[(request, machine)];
      CountsMembers(w.invocations, Invocation(r.machine, r.request, r.nonce));
    }
  }

  // -------------------------------------------------------- what was checked before a handler ran

  /** The step takes a delivered message past the checks of `execute` and its nonce. */
  predicate Clears(w: World, s: Step, machine: MachineId, msg: Message) {
    && s.Consume? && s.p < |w.processes| && w.processes[s.p] == Process(machine, Checked(msg)) && s.x.machine == machine
    && Next(w, s).processes[s.p].phase.Consumed?
  }

  /** Some step of the run did that. */
  predicate Cleared(steps: seq<Step>, machine: MachineId, msg: Message) {
    steps != [] &&
    (var n := |steps| - 1;
     Cleared(steps[..n], machine, msg) || Clears(Run(EMPTY, steps[..n]), steps[n], machine, msg))
  }

  predicate ClearedAt(steps: seq<Step>, j: nat, machine: MachineId, msg: Message) {
    j < |steps| && Clears(Run(EMPTY, steps[..j]), steps[j], machine, msg)
  }

  lemma {:induction false} ClearedSomewhere(steps: seq<Step>, machine: MachineId, msg: Message) returns (j: nat)
    requires Cleared(steps, machine, msg)
    ensures ClearedAt(steps, j, machine, msg)
  {
    var n := |steps| - 1;
    if Cleared(steps[..n], machine, msg) {
      j := ClearedSomewhere(steps[..n], machine, msg);
      assert steps[..n][..j] == steps[..j];
    } else {
      j := n;
    }
  }

  ghost predicate WaitersAreCleared(steps: seq<Step>, w: World) {
    forall p | p in w.processes && p.phase.Consumed? :: Cleared(steps, p.machine, p.phase.msg)
  }

  /** The message whose handling this invocation was. */
  ghost predicate CameFrom(steps: seq<Step>, v: Invocation, msg: Message) {
    Cleared(steps, v.machine, msg) && msg.envelope.request == v.request && msg.envelope.nonce == v.nonce && msg.envelope.payloadValid
  }

  ghost predicate HistoryIsCleared(steps: seq<Step>, w: World) {
    forall v | v in w.invocations :: exists msg :: CameFrom(steps, v, msg)
  }

  lemma WaitersWaitedOrClear(w: World, s: Step, i: nat)
    requires i < |Next(w, s).processes| && Next(w, s).processes[i].phase.Consumed?
    ensures var p := Next(w, s).processes[i]; p in w.processes || Clears(w, s, p.machine, p.phase.msg)
  {
  }

  lemma StepKeepsWaiters(steps: seq<Step>, s: Step)
    requires WaitersAreCleared(steps, Run(EMPTY, steps))
    ensures WaitersAreCleared(steps + [s], Run(EMPTY, steps + [s]))
  {
    var w, more := Run(EMPTY, steps), steps + [s];
    assert more[..|steps|] == steps;
    var next := Next(w, s);
    forall i | 0 <= i < |next.processes| && next.processes[i].phase.Consumed?
      ensures Cleared(more, next.processes[i].machine, next.processes[i].phase.msg)
    {
      WaitersWaitedOrClear(w, s, i);
    }
  }

  lemma StepKeepsCleared(steps: seq<Step>, s: Step)
    requires WaitersAreCleared(steps, Run(EMPTY, steps)) && HistoryIsCleared(steps, Run(EMPTY, steps))
    ensures HistoryIsCleared(steps + [s], Run(EMPTY, steps + [s]))
  {
    var w, more := Run(EMPTY, steps), steps + [s];
    assert more[..|steps|] == steps;
    var next := Next(w, s);
    forall v | v in next.invocations ensures exists msg :: CameFrom(more, v, msg) {
      if v in w.invocations {
        var msg :| CameFrom(steps, v, msg);
        assert CameFrom(more, v, msg);
      } else {
        var p := w.processes[s.p];
        assert p in w.processes && Cleared(steps, p.machine, p.phase.msg);
        assert CameFrom(more, v, p.phase.msg);
      }
    }
  }

  lemma {:induction false} RunsAreCleared(steps: seq<Step>)
    ensures WaitersAreCleared(steps, Run(EMPTY, steps)) && HistoryIsCleared(steps, Run(EMPTY, steps))
  {
    if steps != [] {
      var n := |steps| - 1;
      RunsAreCleared(steps[..n]);
      assert steps[..n] + [steps[n]] == steps;
      StepKeepsWaiters(steps[..n], steps[n]);
      StepKeepsCleared(steps[..n], steps[n]);
    }
  }

  /**
    Only authorised messages act: on every run, each handler run in the history goes back to a step that took a message
    past the checks, and at that step's time the message carried the right signature, was meant for and authorised on
    this machine, under the expected active key and the known contract, for the executor of a known capability, with an
    approval if it is a remote-control one, and inside its time window; its dispatch was the one on record.
   */
  lemma OnlyAuthorisedMessagesAct(steps: seq<Step>, v: Invocation) returns (j: nat, msg: Message)
    requires v in Run(EMPTY, steps).invocations
    ensures j < |steps| && steps[j].Consume?
    ensures var x, e, now := steps[j].x, msg.envelope, steps[j].now;
      && e.request == v.request && e.nonce == v.nonce && e.payloadValid
      && msg.signature == x.mac(e)
      && x.machine == v.machine && e.machine == v.machine && e.executionAuthorized
      && e.keyId == x.keyId && x.keyActive && e.version == "pet-machine-execution-v1"
      && e.executor == e.capability && e.capability in {BrowserNavigation, MusicPlayback, MusicLibrary, DeviceModelChat}
      && (e.capability == BrowserNavigation || e.capability == MusicPlayback ==> e.approved)
      && e.issuedAt <= now + 30_000_000 && now < e.expiresAt && e.expiresAt - e.issuedAt <= 600_000_000
    ensures var w, e := Run(EMPTY, steps[..j]), msg.envelope;
      && steps[j].clock < e.expiresAt && (v.machine, v.nonce) !in w.nonces
      && e.request in w.intents && var d := w.intents[e.request]; d.machine == v.machine && d.nonce == v.nonce && d.sha == e.sha
  {
    RunsAreCleared(steps);
    msg :| CameFrom(steps, v, msg);
    j := ClearedSomewhere(steps, v.machine, msg);
  }

  // ------------------------------------------------ what a held receipt says, on every run

  /** The process has run the handler for this request and has not reported it yet. */
  predicate InFlight(p: Process, k: (nat, MachineId)) {
    && p.machine == k.1
    && match p.phase
       case Acting(msg) => msg.envelope.request == k.0
       case Ready(msg, r) => msg.envelope.request == k.0 && !r.status.Held?
       case _ => false
  }

  /**
    The step makes a handler run go unreported: its process crashes, the handler itself answers held, or the receipt is
    refused.
   */
  predicate Loses(w: World, s: Step, k: (nat, MachineId)) {
    match s
    case Crash(p) => p < |w.processes| && InFlight(w.processes[p], k)
    case Return(p, status) => p < |w.processes| && w.processes[p].phase.Acting? && InFlight(w.processes[p], k) && status.Held?
    case Record(p, bound) =>
      && p < |w.processes| && w.processes[p].phase.Ready? && InFlight(w.processes[p], k)
      && RecordRefused(w, w.processes[p].phase.receipt, bound)
    case _ => false
  }

  /** Some step of the run lost a handler run for this request. */
  predicate Lost(steps: seq<Step>, k: (nat, MachineId)) {
    steps != [] &&
    (var n := |steps| - 1;
     Lost(steps[..n], k) || Loses(Run(EMPTY, steps[..n]), steps[n], k))
  }

  predicate LosesAt(steps: seq<Step>, j: nat, k: (nat, MachineId)) {
    j < |steps| && Loses(Run(EMPTY, steps[..j]), steps[j], k)
  }

  lemma {:induction false} LostSomewhere(steps: seq<Step>, k: (nat, MachineId)) returns (j: nat)
    requires Lost(steps, k)
    ensures LosesAt(steps, j, k)
  {
    j := |steps| - 1;
    if Lost(steps[..j], k) {
      var n := j;
      j := LostSomewhere(steps[..n], k);
      assert steps[..n][..j] == steps[..j];
    }
  }

  lemma {:induction false} LosingIsLost(steps: seq<Step>, j: nat, k: (nat, MachineId))
    requires LosesAt(steps, j, k)
    ensures Lost(steps, k)
  {
    var n := |steps| - 1;
    if j < n {
      assert steps[..n][..j] == steps[..j];
      LosingIsLost(steps[..n], j, k);
    }
  }

  lemma LostMeans(steps: seq<Step>, k: (nat, MachineId))
    ensures Lost(steps, k) <==> exists j: nat :: LosesAt(steps, j, k)
  {
    if Lost(steps, k) { var j := LostSomewhere(steps, k); }
    if exists j: nat :: LosesAt(steps, j, k) {
      var j: nat :| LosesAt(steps, j, k);
      LosingIsLost(steps, j, k);
    }
  }

  ghost predicate Ran(w: World, k: (nat, MachineId)) { exists v | v in w.invocations :: v.machine == k.1 && v.request == k.0 }

  ghost predicate IsInFlight(w: World, k: (nat, MachineId)) { exists p | p in w.processes :: InFlight(p, k) }

  ghost predicate Reported(w: World, k: (nat, MachineId)) { k in w.receipts && !w.receipts[k].status.Held? }

  /** Where a handler run can be: reported, lost, or still in flight. */
  ghost predicate Accounted(w: World, lost: bool, k: (nat, MachineId)) { Ran(w, k) ==> Reported(w, k) || lost || IsInFlight(w, k) }

  /** The process that a step belongs to. */
  function Actor(s: Step): Option<nat> {
    match s
    case Dispatch(_) => None
    case Start(_) => None
    case _ => Some(s.p)
  }

  lemma OthersStay(w: World, s: Step, p: nat)
    requires p < |w.processes| && Actor(s) != Some(p)
    ensures p < |Next(w, s).processes| && Next(w, s).processes[p] == w.processes[p]
  {
  }

  lemma ReportingStep(w: World, s: Step, k: (nat, MachineId), p: nat)
    requires ReadyOk(w) && p < |w.processes| && InFlight(w.processes[p], k) && Actor(s) == Some(p) && !Loses(w, s, k)
    ensures var next := Next(w, s);
      p < |next.processes| && (InFlight(next.processes[p], k) || Reported(next, k))
  {
    assert Truthful(w.processes[p], w.invocations);
  }

  /** A process in flight that a step moves is lost, reported, or still in flight. */
  lemma StepFollowsTheProcess(w: World, s: Step, k: (nat, MachineId), p: nat)
    requires ReadyOk(w) && p < |w.processes| && InFlight(w.processes[p], k) && !Loses(w, s, k)
    ensures Reported(Next(w, s), k) || IsInFlight(Next(w, s), k)
  {
    var next := Next(w, s);
    if Actor(s) == Some(p) { ReportingStep(w, s, k, p); } else { OthersStay(w, s, p); }
    assert next.processes[p] in next.processes;
  }

  lemma StepKeepsAccounts(w: World, s: Step, lost: bool, k: (nat, MachineId))
    requires ReadyOk(w) && Accounted(w, lost, k)
    ensures Accounted(Next(w, s), lost || Loses(w, s, k), k)
  {
    var next := Next(w, s);
    if Ran(w, k) {
      if IsInFlight(w, k) && !Loses(w, s, k) {
        var p :| p in w.processes && InFlight(p, k);
        var i :| 0 <= i < |w.processes| && w.processes[i] == p;
        StepFollowsTheProcess(w, s, k, i);
      }
    } else if Ran(next, k) {
      assert s.Invoke? && next.invocations != w.invocations;
      assert next.processes[s.p] in next.processes && InFlight(next.processes[s.p], k);
    }
  }

  lemma {:induction false} EveryRunIsAccountedFor(steps: seq<Step>, k: (nat, MachineId))
    ensures Accounted(Run(EMPTY, steps), Lost(steps, k), k)
  {
    if steps != [] {
      var n := |steps| - 1;
      EveryRunIsAccountedFor(steps[..n], k);
      EveryRunIsSafe(steps[..n]);
      StepKeepsAccounts(Run(EMPTY, steps[..n]), steps[n], Lost(steps[..n], k), k);
    }
  }

  /** Only a handler run can be in flight, and only one that is in flight can be lost. */
  lemma InFlightHasRun(w: World, k: (nat, MachineId), p: Process)
    requires ReadyOk(w) && p in w.processes && InFlight(p, k)
    ensures Ran(w, k)
  {
    assert Truthful(p, w.invocations);
    if p.phase.Acting? {
      assert InvocationOf(p.machine, p.phase.msg) in w.invocations;
    } else {
      assert Invocation(p.phase.receipt.machine, p.phase.receipt.request, p.phase.receipt.nonce) in w.invocations;
    }
  }

  lemma LosersHaveRun(w: World, s: Step, k: (nat, MachineId))
    requires ReadyOk(w) && Loses(w, s, k)
    ensures Ran(w, k)
  {
    InFlightHasRun(w, k, w.processes[s.p]);
  }

  lemma HistoryGrows(w: World, s: Step)
    ensures w.invocations <= Next(w, s).invocations
  {
  }

  lemma RanStays(w: World, s: Step, k: (nat, MachineId))
    requires Ran(w, k)
    ensures Ran(Next(w, s), k)
  {
    HistoryGrows(w, s);
    var v :| v in w.invocations && v.machine == k.1 && v.request == k.0;
    assert v in Next(w, s).invocations;
  }

  lemma {:induction false} LostHasRun(steps: seq<Step>, k: (nat, MachineId))
    requires Lost(steps, k)
    ensures Ran(Run(EMPTY, steps), k)
  {
    var n := |steps| - 1;
    if Lost(steps[..n], k) {
      LostHasRun(steps[..n], k);
    } else {
      EveryRunIsSafe(steps[..n]);
      LosersHaveRun(Run(EMPTY, steps[..n]), steps[n], k);
    }
    RanStays(Run(EMPTY, steps[..n]), steps[n], k);
  }

  lemma {:induction false} RanCounts(history: seq<Invocation>, k: (nat, MachineId))
    ensures Invocations(history, k.1, k.0) >= 1 <==> exists v | v in history :: v.machine == k.1 && v.request == k.0
  {
    if history != [] {
      var n := |history| - 1;
      RanCounts(history[..n], k);
      assert history == history[..n] + [history[n]];
      if exists v | v in history[..n] :: v.machine == k.1 && v.request == k.0 {
        var v :| v in history[..n] && v.machine == k.1 && v.request == k.0;
        assert v in history;
      }
    }
  }

  /** Seen from the handler: on every run a request ran if and only if it is reported, lost or in flight. */
  lemma RanExactlyWhen(steps: seq<Step>, request: nat, machine: MachineId)
    ensures var w, k := Run(EMPTY, steps), (request, machine);
      Invocations(w.invocations, machine, request) == 1 <==> Reported(w, k) || Lost(steps, k) || IsInFlight(w, k)
  {
    var w, k := Run(EMPTY, steps), (request, machine);
    EveryRunIsAccountedFor(steps, k);
    EveryRunIsSafe(steps);
    AtMostOnceExecution(steps, machine, request);
    RanCounts(w.invocations, k);
    if IsInFlight(w, k) {
      var p :| p in w.processes && InFlight(p, k);
      InFlightHasRun(w, k, p);
    }
    if Lost(steps, k) { LostHasRun(steps, k); }
  }

  /**
    "A held receipt means that nothing ran" is false, and this is exactly when it fails, over every run: a request whose
    recorded receipt says held had its handler run (once) if and only if some step lost a handler run for it (a crash of
    the process, a handler that answers held, a refused receipt) or one is still in flight while another process
    recorded the receipt of a redelivery.
   */
  lemma HeldReceiptHidesAnInvocationExactlyWhen(steps: seq<Step>, request: nat, machine: MachineId)
    requires var w := Run(EMPTY, steps); (request, machine) in w.receipts && w.receipts[(request, machine)].status.Held?
    ensures var w, k := Run(EMPTY, steps), (request, machine);
      Invocations(w.invocations, machine, request) == 1 <==> Lost(steps, k) || IsInFlight(w, k)
  {
    RanExactlyWhen(steps, request, machine);
  }

  /** A recorded receipt is final: there is one per request and machine and no later step replaces it. */
  lemma {:induction false} ReceiptsAreFinal(w: World, steps: seq<Step>, k: (nat, MachineId))
    requires k in w.receipts
    ensures k in Run(w, steps).receipts && Run(w, steps).receipts[k] == w.receipts[k]
  {
    if steps != [] {
      ReceiptsAreFinal(w, steps[..|steps| - 1], k);
    }
  }

  // ------------------------------------------------------------- the worker's own procedure

  /** The result of one delivery: acknowledged, or an exception that leaves the message to be delivered again. */
  datatype Delivery = AlreadyDone | Done(receipt: Receipt) | Refused | NotRecorded

  /** One delivery to an idle process, without a crash. */
  function Delivered(w: World, x: Executor, msg: Message, now: Time, clock: Time, outcome: Status, bound: bool): World {
    Finished(Executed(Next(w, Deliver(0, msg)), x, now, clock, outcome), bound)
  }

  function Executed(w: World, x: Executor, now: Time, clock: Time, outcome: Status): World {
    Next(Next(Next(w, Consume(0, x, now, clock)), Invoke(0, x)), Return(0, outcome))
  }

  function Finished(w: World, bound: bool): World { Next(Next(w, Record(0, bound)), Acknowledge(0)) }

  function At(w: World, machine: MachineId, phase: Phase): World { w.(processes := [Process(machine, phase)]) }

  /** `execute`: refused by an exception, held by the nonce or the flags, or invoked with the handler's outcome. */
  lemma ExecutedMeans(w: World, x: Executor, msg: Message, now: Time, clock: Time, outcome: Status)
    requires w.processes == [Process(x.machine, Checked(msg))]
    ensures var e, r := msg.envelope, Executed(w, x, now, clock, outcome);
      r == if !Permitted(x, msg, now) then At(w, x.machine, Idle)
           else if !NonceAccepted(w, x.machine, e, clock) then At(w, x.machine, Ready(msg, ReceiptFor(x.machine, msg, Held)))
           else
             var used := w.(nonces := w.nonces + {(x.machine, e.nonce)});
             if !(e.payloadValid && e.capability in x.enabled)
             then At(used, x.machine, Ready(msg, ReceiptFor(x.machine, msg, Held)))
             else At(used, x.machine, Ready(msg, ReceiptFor(x.machine, msg, outcome)))
                  .(invocations := w.invocations + [InvocationOf(x.machine, msg)])
  {
    if Permitted(x, msg, now) && NonceAccepted(w, x.machine, msg.envelope, clock) {
      var consumed := At(w, x.machine, Consumed(msg)).(nonces := w.nonces + {(x.machine, msg.envelope.nonce)});
      assert Next(w, Consume(0, x, now, clock)) == consumed;
      if msg.envelope.payloadValid && msg.envelope.capability in x.enabled {
        var acting := At(consumed, x.machine, Acting(msg)).(invocations := w.invocations + [InvocationOf(x.machine, msg)]);
        assert Next(consumed, Invoke(0, x)) == acting;
      }
    } else if Permitted(x, msg, now) {
      assert Next(w, Consume(0, x, now, clock)) == At(w, x.machine, Ready(msg, ReceiptFor(x.machine, msg, Held)));
    } else {
      assert Next(w, Consume(0, x, now, clock)) == At(w, x.machine, Idle);
    }
  }

  /** What one delivery leaves behind when nothing crashes. */
  function Settled(w: World, x: Executor, msg: Message, now: Time, clock: Time, outcome: Status, bound: bool): World {
    var e := msg.envelope;
    if (e.request, x.machine) in w.receipts then w.(acknowledged := w.acknowledged + {(x.machine, msg)})
    else if !Permitted(x, msg, now) then w
    else
      var accepted := NonceAccepted(w, x.machine, e, clock);
      var runs := accepted && e.payloadValid && e.capability in x.enabled;
      var acted := w.(nonces := w.nonces + (if accepted then {(x.machine, e.nonce)} else {}),
                      invocations := w.invocations + (if runs then [InvocationOf(x.machine, msg)] else []));
      if !bound || !(e.request in w.intents && w.intents[e.request].sha == e.sha) then acted
      else acted.(receipts := w.receipts[(e.request, x.machine) := ReceiptFor(x.machine, msg, if runs then outcome else Held)],
                  acknowledged := w.acknowledged + {(x.machine, msg)})
  }

  lemma DeliverStep(w: World, machine: MachineId, msg: Message)
    requires w.processes == [Process(machine, Idle)]
    ensures Next(w, Deliver(0, msg))
         == At(w, machine, if (msg.envelope.request, machine) in w.receipts then Recorded(msg) else Checked(msg))
  {
  }

  lemma AlreadyRecorded(w: World, x: Executor, msg: Message, now: Time, clock: Time, outcome: Status, bound: bool)
    requires w.processes == [Process(x.machine, Recorded(msg))]
    ensures Executed(w, x, now, clock, outcome) == w
    ensures Finished(w, bound) == At(w, x.machine, Idle).(acknowledged := w.acknowledged + {(x.machine, msg)})
  {
  }

  lemma IdleStays(w: World, machine: MachineId, bound: bool)
    requires w.processes == [Process(machine, Idle)]
    ensures Finished(w, bound) == w
  {
  }

  lemma DeliveredMeans(w: World, x: Executor, msg: Message, now: Time, clock: Time, outcome: Status, bound: bool)
    requires w.processes == [Process(x.machine, Idle)]
    ensures Delivered(w, x, msg, now, clock, outcome, bound) == Settled(w, x, msg, now, clock, outcome, bound)
  {
    var delivered := Next(w, Deliver(0, msg));
    DeliverStep(w, x.machine, msg);
    if (msg.envelope.request, x.machine) in w.receipts {
      AlreadyRecorded(delivered, x, msg, now, clock, outcome, bound);
    } else {
      ExecutedMeans(delivered, x, msg, now, clock, outcome);
      var executed := Executed(delivered, x, now, clock, outcome);
      if Permitted(x, msg, now) {
        FinishedMeans(executed, x.machine, msg, executed.processes[0].phase.receipt, bound);
      } else {
        IdleStays(executed, x.machine, bound);
      }
    }
  }

  lemma FinishedMeans(w: World, machine: MachineId, msg: Message, r: Receipt, bound: bool)
    requires w.processes == [Process(machine, Ready(msg, r))]
    ensures Finished(w, bound) ==
      if RecordRefused(w, r, bound) then At(w, machine, Idle)
      else At(w, machine, Idle).(receipts := w.receipts[(r.request, r.machine) := r], acknowledged := w.acknowledged + {(machine, msg)})
  {
  }

  lemma ConsumeStep(w: World, x: Executor, m: Message, now: Time, clock: Time)
    requires w.processes == [Process(x.machine, Checked(m))] && Permitted(x, m, now) && NonceAccepted(w, x.machine, m.envelope, clock)
    ensures Next(w, Consume(0, x, now, clock))
         == At(w, x.machine, Consumed(m)).(nonces := w.nonces + {(x.machine, m.envelope.nonce)})
  {
  }

  lemma InvokeStep(w: World, x: Executor, m: Message)
    requires w.processes == [Process(x.machine, Consumed(m))] && m.envelope.payloadValid && m.envelope.capability in x.enabled
    ensures Next(w, Invoke(0, x))
         == At(w, x.machine, Acting(m)).(invocations := w.invocations + [InvocationOf(x.machine, m)])
  {
  }

  lemma CrashStep(w: World, machine: MachineId, phase: Phase)
    requires w.processes == [Process(machine, phase)]
    ensures Next(w, Crash(0)) == At(w, machine, Idle)
  {
  }

  /** A dispatched request and one idle process. */
  function Begun(x: Executor, m: Message): World { Next(Next(EMPTY, Dispatch(m.envelope)), Start(x.machine)) }

  /** A delivery whose process runs the handler and crashes before it records anything. */
  function CrashedAfterActing(w: World, x: Executor, m: Message, now: Time): World {
    Next(Next(Next(Next(w, Deliver(0, m)), Consume(0, x, now, now)), Invoke(0, x)), Crash(0))
  }

  lemma CrashedAfterActingMeans(x: Executor, m: Message, now: Time)
    requires Permitted(x, m, now) && m.envelope.payloadValid && m.envelope.capability in x.enabled
    ensures CrashedAfterActing(Begun(x, m), x, m, now)
         == World(map[m.envelope.request := m.envelope], {(x.machine, m.envelope.nonce)}, map[], {},
                  [Process(x.machine, Idle)], [InvocationOf(x.machine, m)])
  {
    var begun := World(map[m.envelope.request := m.envelope], {}, map[], {}, [Process(x.machine, Idle)], []);
    assert Begun(x, m) == begun;
    DeliverStep(begun, x.machine, m);
    var checked := At(begun, x.machine, Checked(m));
    ConsumeStep(checked, x, m, now, now);
    var consumed := At(checked, x.machine, Consumed(m)).(nonces := {(x.machine, m.envelope.nonce)});
    InvokeStep(consumed, x, m);
    CrashStep(At(consumed, x.machine, Acting(m)).(invocations := [InvocationOf(x.machine, m)]), x.machine, Acting(m));
  }

  /** Whether this delivery, if it is not refused, invokes the handler. */
  predicate Runs(w: World, x: Executor, msg: Message, clock: Time) {
    NonceAccepted(w, x.machine, msg.envelope, clock) && msg.envelope.payloadValid && msg.envelope.capability in x.enabled
  }

  lemma InvocationsAppend(history: seq<Invocation>, v: Invocation, machine: MachineId, request: nat)
    ensures Invocations(history + [v], machine, request)
         == Invocations(history, machine, request) + if v.machine == machine && v.request == request then 1 else 0
  {
    assert (history + [v])[..|history|] == history;
  }

  /**
    One undisturbed delivery that records a held receipt: nothing has run for the request if and only if nothing had run
    before and the handler did not run now only to answer held.
   */
  lemma HeldReceiptMeansNothingRanExactlyWhen(w: World, x: Executor, msg: Message, now: Time, clock: Time, outcome: Status, bound: bool)
    requires w.processes == [Process(x.machine, Idle)] && (msg.envelope.request, x.machine) !in w.receipts
    ensures var k, after := (msg.envelope.request, x.machine), Delivered(w, x, msg, now, clock, outcome, bound);
      k in after.receipts && after.receipts[k].status.Held? ==>
        (Invocations(after.invocations, x.machine, k.0) == 0 <==>
           Invocations(w.invocations, x.machine, k.0) == 0 && !(Runs(w, x, msg, clock) && outcome.Held?))
  {
    DeliveredMeans(w, x, msg, now, clock, outcome, bound);
    InvocationsAppend(w.invocations, InvocationOf(x.machine, msg), x.machine, msg.envelope.request);
    assert w.invocations + [] == w.invocations;
  }

  /**
    The crash as a concrete run: it loses the receipt of the handler run, the redelivery is refused by the nonce, and
    the receipt that is recorded says held although the action was done.
   */
  lemma HeldReceiptCanHideAnInvocation(x: Executor, m: Message, now: Time, outcome: Status)
    requires Permitted(x, m, now) && m.envelope.payloadValid && m.envelope.capability in x.enabled
    ensures var w := Delivered(CrashedAfterActing(Begun(x, m), x, m, now), x, m, now, now, outcome, true);
      && (m.envelope.request, x.machine) in w.receipts
      && w.receipts[(m.envelope.request, x.machine)].status.Held?
      && Invocations(w.invocations, x.machine, m.envelope.request) == 1
  {
    var crashed := CrashedAfterActing(Begun(x, m), x, m, now);
    CrashedAfterActingMeans(x, m, now);
    DeliveredMeans(crashed, x, m, now, now, outcome, true);
    assert Settled(crashed, x, m, now, now, outcome, true).invocations == [InvocationOf(x.machine, m)];
  }

  /** Two processes get the same message, and the first one is still acting when the second is refused by the nonce. */
  function Overlapping(x: Executor, m: Message, now: Time): seq<Step> {
    [Dispatch(m.envelope), Start(x.machine), Start(x.machine), Deliver(0, m), Consume(0, x, now, now), Invoke(0, x),
     Deliver(1, m), Consume(1, x, now, now)]
  }

  function WhileActing(x: Executor, m: Message, now: Time): World {
    Next(Next(Next(Next(Begun(x, m), Start(x.machine)), Deliver(0, m)), Consume(0, x, now, now)), Invoke(0, x))
  }

  function Pair(w: World, x: Executor, first: Phase, second: Phase): World {
    w.(processes := [Process(x.machine, first), Process(x.machine, second)])
  }

  lemma RunOfFour(w: World, a: Step, b: Step, c: Step, d: Step)
    ensures Run(w, [a, b, c, d]) == Next(Next(Next(Next(w, a), b), c), d)
  {
    assert [a, b, c, d][..3] == [a, b, c] && [a, b, c][..2] == [a, b] && [a, b][..1] == [a];
    assert Run(w, []) == w && [a][..0] == [];
    assert Run(w, [a]) == Next(w, a);
    assert Run(w, [a, b]) == Next(Run(w, [a]), b);
    assert Run(w, [a, b, c]) == Next(Run(w, [a, b]), c);
  }

  lemma {:induction false} RunConcat(w: World, a: seq<Step>, b: seq<Step>)
    ensures Run(w, a + b) == Run(Run(w, a), b)
  {
    if b == [] {
      assert a + b == a;
    } else {
      var n := |b| - 1;
      assert (a + b)[..|a| + n] == a + b[..n];
      RunConcat(w, a, b[..n]);
    }
  }

  lemma OverlappingIsARun(x: Executor, m: Message, now: Time)
    ensures Run(EMPTY, Overlapping(x, m, now))
         == Next(Next(WhileActing(x, m, now), Deliver(1, m)), Consume(1, x, now, now))
  {
    var first := [Dispatch(m.envelope), Start(x.machine), Start(x.machine), Deliver(0, m)];
    var second := [Consume(0, x, now, now), Invoke(0, x), Deliver(1, m), Consume(1, x, now, now)];
    assert Overlapping(x, m, now) == first + second;
    RunConcat(EMPTY, first, second);
    RunOfFour(EMPTY, first[0], first[1], first[2], first[3]);
    RunOfFour(Run(EMPTY, first), second[0], second[1], second[2], second[3]);
  }

  lemma WhileActingMeans(x: Executor, m: Message, now: Time)
    requires Permitted(x, m, now) && m.envelope.payloadValid && m.envelope.capability in x.enabled
    ensures WhileActing(x, m, now)
         == World(map[m.envelope.request := m.envelope], {(x.machine, m.envelope.nonce)}, map[], {},
                  [Process(x.machine, Acting(m)), Process(x.machine, Idle)], [InvocationOf(x.machine, m)])
  {
    var begun := World(map[m.envelope.request := m.envelope], {}, map[], {}, [Process(x.machine, Idle)], []);
    assert Begun(x, m) == begun;
    var two := Pair(begun, x, Idle, Idle);
    assert Next(begun, Start(x.machine)) == two;
    var checked := Pair(begun, x, Checked(m), Idle);
    assert Next(two, Deliver(0, m)) == checked;
    var consumed := Pair(begun, x, Consumed(m), Idle).(nonces := {(x.machine, m.envelope.nonce)});
    assert Next(checked, Consume(0, x, now, now)) == consumed;
  }

  lemma OverlappingMeans(x: Executor, m: Message, now: Time)
    requires Permitted(x, m, now) && m.envelope.payloadValid && m.envelope.capability in x.enabled
    ensures Run(EMPTY, Overlapping(x, m, now))
         == Pair(WhileActing(x, m, now), x, Acting(m), Ready(m, ReceiptFor(x.machine, m, Held)))
  {
    OverlappingIsARun(x, m, now);
    WhileActingMeans(x, m, now);
    var w := WhileActing(x, m, now);
    assert Next(w, Deliver(1, m)) == Pair(w, x, Acting(m), Checked(m));
  }

  lemma {:induction false} NothingToLose(steps: seq<Step>, k: (nat, MachineId))
    requires forall s | s in steps :: !s.Crash? && !s.Return? && !s.Record?
    ensures !Lost(steps, k)
  {
    if steps != [] { NothingToLose(steps[..|steps| - 1], k); }
  }

  /** A run that loses nothing: the redelivery records held while the first process is in flight. */
  lemma HeldReceiptWhileInFlight(x: Executor, m: Message, now: Time)
    requires Permitted(x, m, now) && m.envelope.payloadValid && m.envelope.capability in x.enabled
    ensures var k, steps := (m.envelope.request, x.machine), Overlapping(x, m, now) + [Record(1, true)];
      var w := Run(EMPTY, steps);
      && k in w.receipts && w.receipts[k].status.Held? && Invocations(w.invocations, x.machine, k.0) == 1
      && IsInFlight(w, k) && !Lost(steps, k)
  {
    var k, before := (m.envelope.request, x.machine), Overlapping(x, m, now);
    var steps := before + [Record(1, true)];
    assert steps[..8] == before;
    OverlappingMeans(x, m, now);
    WhileActingMeans(x, m, now);
    NothingToLose(before, k);
    var w := Run(EMPTY, steps);
    assert w.processes[0] in w.processes && InFlight(w.processes[0], k);
    RanExactlyWhen(steps, k.0, k.1);
  }

  class Tables {
    var intents: map<nat, Envelope>
    var nonces: set<(MachineId, nat)>
    var receipts: map<(nat, MachineId), Receipt>
    var acknowledged: set<(MachineId, Message)>
    var invocations: seq<Invocation>

    constructor ()
      ensures Snapshot([]) == EMPTY
    {
      intents, nonces, receipts, acknowledged, invocations := map[], {}, map[], {}, [];
    }

    ghost function Snapshot(processes: seq<Process>): World
      reads this
    {
      World(intents, nonces, receipts, acknowledged, processes, invocations)
    }

    /**
      Handling one message without a crash is exactly deliver, consume, invoke, return, record, acknowledge; so
      every guarantee about runs covers it. `outcome` is what the handler does if it is invoked, `bound` whether
      the receipt's key, pet, capability and approval match the request row.
     */
    method ConsumeExecution(x: Executor, msg: Message, now: Time, clock: Time, outcome: Status, bound: bool) returns (r: Delivery)
      modifies this
      ensures Snapshot([Process(x.machine, Idle)])
           == Delivered(old(Snapshot([Process(x.machine, Idle)])), x, msg, now, clock, outcome, bound)
      ensures r.AlreadyDone? <==> old((msg.envelope.request, x.machine) in receipts)
      ensures r.Refused? <==> !r.AlreadyDone? && !Permitted(x, msg, now)
      ensures !r.AlreadyDone? && !r.Refused? <==>
        var e := msg.envelope;
        && (e.request, x.machine) !in old(receipts)
        && msg.signature == x.mac(e)
        && e.machine == x.machine && e.executionAuthorized
        && e.keyId == x.keyId && x.keyActive && e.version == "pet-machine-execution-v1"
        && e.executor == e.capability && e.capability in {BrowserNavigation, MusicPlayback, MusicLibrary, DeviceModelChat}
        && (e.capability == BrowserNavigation || e.capability == MusicPlayback ==> e.approved)
        && e.issuedAt <= now + 30_000_000 && now < e.expiresAt && e.expiresAt - e.issuedAt <= 600_000_000
      ensures r.AlreadyDone? || r.Refused? ==> nonces == old(nonces) && invocations == old(invocations) && receipts == old(receipts)
      ensures !r.AlreadyDone? && !r.Refused? ==>
        var e := msg.envelope;
        var accepted := clock < e.expiresAt && (x.machine, e.nonce) !in old(nonces) && e.request in intents
          && intents[e.request].machine == x.machine && intents[e.request].nonce == e.nonce && intents[e.request].sha == e.sha;
        && nonces == old(nonces) + (if accepted then {(x.machine, e.nonce)} else {})
        && invocations == old(invocations) + if accepted && e.payloadValid && e.capability in x.enabled
                                             then [Invocation(x.machine, e.request, e.nonce)] else []
      ensures r.Done? <==> !r.AlreadyDone? && !r.Refused? && bound && msg.envelope.request in intents
                           && intents[msg.envelope.request].sha == msg.envelope.sha
      ensures intents == old(intents)
      ensures acknowledged == old(acknowledged) + if r.AlreadyDone? || r.Done? then {(x.machine, msg)} else {}
      ensures r.Done? ==>
        var ran := |invocations| > |old(invocations)|;
        && r.receipt == Receipt(msg.envelope.request, x.machine, msg.envelope.nonce, msg.envelope.sha, if ran then outcome else Held)
        && receipts == old(receipts)[(msg.envelope.request, x.machine) := r.receipt]
      ensures r.NotRecorded? ==> receipts == old(receipts)
      ensures r.AlreadyDone? || r.Done? <==> (msg.envelope.request, x.machine) in receipts
      ensures r.Done? ==> receipts[(msg.envelope.request, x.machine)] == r.receipt
    {
      var e := msg.envelope;
      DeliveredMeans(Snapshot([Process(x.machine, Idle)]), x, msg, now, clock, outcome, bound);
      if (e.request, x.machine) in receipts {
        acknowledged := acknowledged + {(x.machine, msg)};
        return AlreadyDone;
      }
      if !Permitted(x, msg, now) { return Refused; }
      var status := Execute(x, msg, clock, outcome);
      var receipt := ReceiptFor(x.machine, msg, status);
      if !bound || !(e.request in intents && intents[e.request].sha == e.sha) { return NotRecorded; }
      receipts := receipts[(e.request, x.machine) := receipt];
      acknowledged := acknowledged + {(x.machine, msg)};
      return Done(receipt);
    }

    /** The part of `execute` after its permission checks: consume the nonce, then maybe invoke the handler. */
    method Execute(x: Executor, msg: Message, clock: Time, outcome: Status) returns (status: Status)
      modifies this`nonces, this`invocations
      ensures var w, e := old(Snapshot([])), msg.envelope;
        var accepted := NonceAccepted(w, x.machine, e, clock);
        var runs := accepted && e.payloadValid && e.capability in x.enabled;
        && status == (if runs then outcome else Held)
        && nonces == w.nonces + (if accepted then {(x.machine, e.nonce)} else {})
        && invocations == w.invocations + (if runs then [InvocationOf(x.machine, msg)] else [])
    {
      var e := msg.envelope;
      status := Held;
      if clock < e.expiresAt && e.request in intents && intents[e.request].machine == x.machine
         && intents[e.request].nonce == e.nonce && intents[e.request].sha == e.sha && (x.machine, e.nonce) !in nonces {
        nonces := nonces + {(x.machine, e.nonce)};
        if e.payloadValid && e.capability in x.enabled {
          invocations := invocations + [Invocation(x.machine, e.request, e.nonce)];
          status := outcome;
        }
      }
    }
  }
}
