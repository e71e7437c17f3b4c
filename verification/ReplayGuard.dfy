/** Signed instructions and the replay guard that forgets expired nonces. */
module ReplayGuard {
  import opened Tasks

  /** The fields under the signature; the payload is kept as the canonical text it contributes. */
  datatype Unsigned = Unsigned(instructionId: string, nonce: string, signer: string, target: string,
                               issuedAt: Time, expiresAt: Time, payload: string)

  datatype Envelope = Envelope(fields: Unsigned, signature: string)

  /** What arrives: None when a field is missing or a time does not parse; `payloadOk` is "a non-empty object". */
  datatype Message = Message(envelope: Option<Envelope>, payloadOk: bool)

  datatype Code = Malformed | InvalidSignature | WrongTarget | ExpiredOrInvalidTime | TtlExceedsPolicy | StoreUnavailable | Replayed

  datatype Decision = Denied(code: Code) | Accepted(envelope: Envelope)

  /** The verifier's settings; regular expressions, the key lookup and HMAC are functions it is given. */
  datatype Policy = Policy(machine: string, idPattern: string -> bool, signaturePattern: string -> bool,
                           secretFor: string -> Option<seq<bv8>>, mac: (seq<bv8>, Unsigned) -> string,
                           maximumTtl: Time, futureSkew: Time)

  type Key = (string, string)

  function KeyOf(e: Envelope): Key { (e.fields.signer, e.fields.nonce) }

  predicate WellFormed(p: Policy, m: Message) {
    && m.envelope.Some? && m.payloadOk
    && var u := m.envelope.value.fields;
       p.idPattern(u.instructionId) && p.idPattern(u.nonce) && p.idPattern(u.signer) && p.idPattern(u.target)
  }

  predicate Authentic(p: Policy, e: Envelope) {
    var secret := p.secretFor(e.fields.signer);
    secret.Some? && |secret.value| >= 32 && p.signaturePattern(e.signature) && e.signature == p.mac(secret.value, e.fields)
  }

  predicate Timely(p: Policy, u: Unsigned, now: Time) {
    now < u.expiresAt && u.issuedAt <= now + p.futureSkew && u.issuedAt < u.expiresAt
  }

  /** Every check of `verify_instruction` before the guard is asked, in its order. */
  function Precheck(p: Policy, m: Message, now: Time): Option<Code> {
    if !WellFormed(p, m) then Some(Malformed)
    else
      var e := m.envelope.value;
      if !Authentic(p, e) then Some(InvalidSignature)
      else if e.fields.target != p.machine then Some(WrongTarget)
      else if !Timely(p, e.fields, now) then Some(ExpiredOrInvalidTime)
      else if e.fields.expiresAt - e.fields.issuedAt > p.maximumTtl then Some(TtlExceedsPolicy)
      else None
  }

  function SignInstruction(p: Policy, u: Unsigned, secret: seq<bv8>): Envelope { Envelope(u, p.mac(secret, u)) }

  /** Signing then checking: a signed envelope passes exactly when it is well formed, meant for this machine and in time. */
  lemma SignedEnvelopesPass(p: Policy, u: Unsigned, secret: seq<bv8>, now: Time)
    requires p.secretFor(u.signer) == Some(secret) && |secret| >= 32
    requires p.signaturePattern(p.mac(secret, u))
    ensures var m := Message(Some(SignInstruction(p, u, secret)), true);
      Precheck(p, m, now).None? <==>
        WellFormed(p, m) && u.target == p.machine && Timely(p, u, now) && u.expiresAt - u.issuedAt <= p.maximumTtl
  {
  }

  /**
    Which code a denied message gets: malformed before anything else, then an envelope whose signature is not the MAC of
    its fields under the signer's secret, then another machine's, then one outside its time, then one that lives too long.
   */
  lemma DenialsMean(p: Policy, m: Message, now: Time)
    ensures Precheck(p, m, now) == Some(Malformed) <==>
      !(m.envelope.Some? && m.payloadOk
        && var u := m.envelope.value.fields;
           p.idPattern(u.instructionId) && p.idPattern(u.nonce) && p.idPattern(u.signer) && p.idPattern(u.target))
    ensures Precheck(p, m, now) == Some(InvalidSignature) <==>
      && Precheck(p, m, now) != Some(Malformed)
      && var u, signature := m.envelope.value.fields, m.envelope.value.signature;
      || p.secretFor(u.signer).None? || |p.secretFor(u.signer).value| < 32 || !p.signaturePattern(signature)
      || signature != p.mac(p.secretFor(u.signer).value, u)
    ensures Precheck(p, m, now) == Some(WrongTarget) ==> m.envelope.value.fields.target != p.machine
    ensures Precheck(p, m, now) == Some(ExpiredOrInvalidTime) ==>
      var u := m.envelope.value.fields;
      u.target == p.machine && (u.expiresAt <= now || u.issuedAt > now + p.futureSkew || u.expiresAt <= u.issuedAt)
    ensures Precheck(p, m, now) == Some(TtlExceedsPolicy) ==>
      var u := m.envelope.value.fields;
      && u.target == p.machine && now < u.expiresAt && u.issuedAt <= now + p.futureSkew && u.issuedAt < u.expiresAt
      && u.expiresAt - u.issuedAt > p.maximumTtl
  {
  }

  // ------------------------------------------------------------------- the guard object

  function Pruned(seen: map<Key, Time>, now: Time): map<Key, Time> { map k | k in seen && seen[k] > now :: seen[k] }

  class InMemoryReplayGuard {
    var seen: map<Key, Time>

    constructor ()
      ensures seen == map[]
    {
      seen := map[];
    }

    /** True once per key until the entry expires; a refusal inserts nothing. */
    method Consume(key: Key, expiresAt: Time, now: Time) returns (ok: bool)
      modifies this
      ensures ok <==> key !in Pruned(old(seen), now)
      ensures seen == if ok then Pruned(old(seen), now)[key := expiresAt] else Pruned(old(seen), now)
      ensures ok <==> (key in old(seen) ==> old(seen)[key] <= now)
      ensures forall k | k != key :: k in seen <==> k in old(seen) && old(seen)[k] > now
      ensures key in seen && seen[key] == if ok then expiresAt else old(seen)[key]
    {
      seen := map k | k in seen && seen[k] > now :: seen[k];
      if key in seen { return false; }
      seen := seen[key := expiresAt];
      return true;
    }
  }

  /** `storeUp` says whether the guard answers; the in-memory one always does, a database may raise. */
  method VerifyInstruction(p: Policy, m: Message, guard: InMemoryReplayGuard, now: Time, storeUp: bool) returns (d: Decision)
    modifies guard
    ensures guard.seen == After(old(guard.seen), p, Arrival(m, now, storeUp))
    ensures d ==
      if Precheck(p, m, now).Some? then Denied(Precheck(p, m, now).value)
      else if !storeUp then Denied(StoreUnavailable)
      else if KeyOf(m.envelope.value) in Pruned(old(guard.seen), now) then Denied(Replayed)
      else Accepted(m.envelope.value)
    ensures Precheck(p, m, now).Some? || !storeUp ==> guard.seen == old(guard.seen)
    ensures d.Accepted? <==>
      && m.envelope.Some? && m.payloadOk && storeUp
      && var u, signature := m.envelope.value.fields, m.envelope.value.signature;
      && p.idPattern(u.instructionId) && p.idPattern(u.nonce) && p.idPattern(u.signer) && p.idPattern(u.target)
      && p.secretFor(u.signer).Some? && |p.secretFor(u.signer).value| >= 32
      && p.signaturePattern(signature) && signature == p.mac(p.secretFor(u.signer).value, u)
      && u.target == p.machine
      && now < u.expiresAt && u.issuedAt <= now + p.futureSkew && u.issuedAt < u.expiresAt && u.expiresAt - u.issuedAt <= p.maximumTtl
      && ((u.signer, u.nonce) in old(guard.seen) ==> old(guard.seen)[(u.signer, u.nonce)] <= now)
    ensures d.Accepted? ==>
      && d.envelope == m.envelope.value
      && var u := d.envelope.fields;
      && (u.signer, u.nonce) in guard.seen && guard.seen[(u.signer, u.nonce)] == u.expiresAt
      && forall k | k in guard.seen && k != (u.signer, u.nonce) :: k in old(guard.seen) && guard.seen[k] == old(guard.seen)[k] > now
  {
    var early := Precheck(p, m, now);
    if early.Some? { return Denied(early.value); }
    if !storeUp { return Denied(StoreUnavailable); }
    var e := m.envelope.value;
    var consumed := guard.Consume((e.fields.signer, e.fields.nonce), e.fields.expiresAt, now);
    if !consumed { return Denied(Replayed); }
    return Accepted(e);
  }

  // ------------------------------------------------------------------------ whole runs

  datatype Arrival = Arrival(message: Message, now: Time, storeUp: bool)

  ghost predicate ClockMoves(run: seq<Arrival>) { forall i, j | 0 <= i < j < |run| :: run[i].now <= run[j].now }

  predicate Valid(p: Policy, a: Arrival) { a.storeUp && Precheck(p, a.message, a.now).None? }

  function ArrivalKey(p: Policy, a: Arrival): Key requires Valid(p, a) { KeyOf(a.message.envelope.value) }

  function Expiry(p: Policy, a: Arrival): Time requires Valid(p, a) { a.message.envelope.value.fields.expiresAt }

  /** The guard's dictionary after one message. */
  function After(seen: map<Key, Time>, p: Policy, a: Arrival): map<Key, Time> {
    if !Valid(p, a) then seen
    else
      var kept := Pruned(seen, a.now);
      if ArrivalKey(p, a) in kept then kept else kept[ArrivalKey(p, a) := Expiry(p, a)]
  }

  /** The dictionary of the forgetting guard, and the nonce set of one that never forgets. */
  function Seen(p: Policy, run: seq<Arrival>): map<Key, Time> {
    if run == [] then map[]
    else var n := |run| - 1; After(Seen(p, run[..n]), p, run[n])
  }

  function Ever(p: Policy, run: seq<Arrival>): set<Key> {
    if run == [] then {}
    else var n := |run| - 1; Ever(p, run[..n]) + if Valid(p, run[n]) then {ArrivalKey(p, run[n])} else {}
  }

  predicate Accepts(p: Policy, run: seq<Arrival>, i: nat)
    requires i < |run|
  {
    Valid(p, run[i]) && ArrivalKey(p, run[i]) !in Pruned(Seen(p, run[..i]), run[i].now)
  }

  predicate NeverForgettingAccepts(p: Policy, run: seq<Arrival>, i: nat)
    requires i < |run|
  {
    Valid(p, run[i]) && ArrivalKey(p, run[i]) !in Ever(p, run[..i])
  }

  lemma SeenStep(p: Policy, run: seq<Arrival>, n: nat)
    requires n < |run|
    ensures Seen(p, run[..n + 1]) == After(Seen(p, run[..n]), p, run[n])
    ensures Ever(p, run[..n + 1]) == Ever(p, run[..n]) + if Valid(p, run[n]) then {ArrivalKey(p, run[n])} else {}
  {
    assert run[..n + 1][..n] == run[..n];
  }

  /** An entry of the dictionary was put there by an accepted message with that key and that expiry. */
  lemma {:induction false} EntriesWereAccepted(p: Policy, run: seq<Arrival>, n: nat, k: Key) returns (i: nat)
    requires n <= |run| && k in Seen(p, run[..n])
    ensures i < n && Accepts(p, run, i) && ArrivalKey(p, run[i]) == k && Expiry(p, run[i]) == Seen(p, run[..n])[k]
  {
    assert n > 0;
    SeenStep(p, run, n - 1);
    if Valid(p, run[n - 1]) && ArrivalKey(p, run[n - 1]) == k && Accepts(p, run, n - 1) {
      i := n - 1;
    } else {
      i := EntriesWereAccepted(p, run, n - 1, k);
    }
  }

  /** An accepted message's entry stays until a message arrives at or after its expiry. */
  lemma {:induction false} UnexpiredEntriesAreKept(p: Policy, run: seq<Arrival>, i: nat, n: nat)
    requires ClockMoves(run) && i < n <= |run| && Accepts(p, run, i)
    requires Expiry(p, run[i]) > run[n - 1].now
    ensures ArrivalKey(p, run[i]) in Seen(p, run[..n]) && Seen(p, run[..n])[ArrivalKey(p, run[i])] == Expiry(p, run[i])
    decreases n
  {
    SeenStep(p, run, n - 1);
    if n > i + 1 {
      UnexpiredEntriesAreKept(p, run, i, n - 1);
    }
  }

  /** While its entry is alive, a key is refused. */
  lemma UnexpiredKeysAreRefused(p: Policy, run: seq<Arrival>, i: nat, j: nat)
    requires ClockMoves(run) && i < j < |run| && Accepts(p, run, i)
    requires Valid(p, run[j]) && ArrivalKey(p, run[j]) == ArrivalKey(p, run[i]) && Expiry(p, run[i]) > run[j].now
    ensures !Accepts(p, run, j)
  {
    assert run[j - 1].now <= run[j].now;
    UnexpiredEntriesAreKept(p, run, i, j);
  }

  /** Forgetting is safe: with a clock that does not go back, no envelope is ever accepted twice. */
  lemma NoEnvelopeIsAcceptedTwice(p: Policy, run: seq<Arrival>, i: nat, j: nat)
    requires ClockMoves(run) && i < j < |run| && run[i].message == run[j].message
    ensures !(Accepts(p, run, i) && Accepts(p, run, j))
  {
    if Accepts(p, run, i) && Accepts(p, run, j) {
      UnexpiredKeysAreRefused(p, run, i, j);
      assert false;
    }
  }

  /** Every nonce still held was accepted less than maximum_ttl + future_skew ago. */
  lemma HeldNoncesAreRecent(p: Policy, run: seq<Arrival>, now: Time, k: Key) returns (i: nat)
    requires k in Pruned(Seen(p, run), now)
    ensures i < |run| && Accepts(p, run, i) && ArrivalKey(p, run[i]) == k
    ensures now - run[i].now < p.maximumTtl + p.futureSkew
  {
    assert run[..|run|] == run;
    i := EntriesWereAccepted(p, run, |run|, k);
  }

  /** A message that is not accepted never adds a nonce. */
  lemma RefusalsConsumeNothing(p: Policy, run: seq<Arrival>, i: nat)
    requires i < |run| && !Accepts(p, run, i)
    ensures Seen(p, run[..i + 1]).Keys <= Seen(p, run[..i]).Keys
  {
    SeenStep(p, run, i);
  }

  // -------------------------------------------------- against a guard that never forgets

  ghost predicate FirstUse(p: Policy, run: seq<Arrival>, i: nat)
    requires i < |run|
  {
    Valid(p, run[i]) && forall h | 0 <= h < i && Valid(p, run[h]) :: ArrivalKey(p, run[h]) != ArrivalKey(p, run[i])
  }

  lemma {:induction false} EverHoldsValidKeys(p: Policy, run: seq<Arrival>, n: nat, k: Key)
    requires n <= |run|
    ensures k in Ever(p, run[..n]) <==> exists h | 0 <= h < n :: Valid(p, run[h]) && ArrivalKey(p, run[h]) == k
  {
    if n > 0 {
      SeenStep(p, run, n - 1);
      EverHoldsValidKeys(p, run, n - 1, k);
    }
  }

  lemma NeverForgettingAcceptsFirstUses(p: Policy, run: seq<Arrival>, i: nat)
    requires i < |run|
    ensures NeverForgettingAccepts(p, run, i) <==> FirstUse(p, run, i)
  {
    if Valid(p, run[i]) { EverHoldsValidKeys(p, run, i, ArrivalKey(p, run[i])); }
  }

  lemma FirstUsesAreAccepted(p: Policy, run: seq<Arrival>, i: nat)
    requires i < |run| && FirstUse(p, run, i)
    ensures Accepts(p, run, i)
  {
    if ArrivalKey(p, run[i]) in Pruned(Seen(p, run[..i]), run[i].now) {
      var h := EntriesWereAccepted(p, run, i, ArrivalKey(p, run[i]));
      assert false;
    }
  }

  lemma {:induction false} FindFirstUse(p: Policy, run: seq<Arrival>, i: nat) returns (f: nat)
    requires i < |run| && Valid(p, run[i])
    ensures f <= i && FirstUse(p, run, f) && ArrivalKey(p, run[f]) == ArrivalKey(p, run[i])
    decreases i
  {
    f := i;
    if !FirstUse(p, run, i) {
      var h :| 0 <= h < i && Valid(p, run[h]) && ArrivalKey(p, run[h]) == ArrivalKey(p, run[i]);
      f := FindFirstUse(p, run, h);
    }
  }

  ghost predicate SameDecisions(p: Policy, run: seq<Arrival>) {
    forall i | 0 <= i < |run| :: Accepts(p, run, i) <==> NeverForgettingAccepts(p, run, i)
  }

  /** No key comes back, in another valid message, once the expiry of its first use has passed. */
  ghost predicate NoLateReuse(p: Policy, run: seq<Arrival>) {
    forall f, j | 0 <= f < j < |run| && FirstUse(p, run, f) && Valid(p, run[j]) ::
      ArrivalKey(p, run[j]) == ArrivalKey(p, run[f]) ==> Expiry(p, run[f]) > run[j].now
  }

  lemma LateReuseIsTheDifference(p: Policy, run: seq<Arrival>, f: nat, j: nat)
    requires f < j < |run| && FirstUse(p, run, f) && Valid(p, run[j])
    requires ArrivalKey(p, run[j]) == ArrivalKey(p, run[f]) && Expiry(p, run[f]) <= run[j].now
    ensures !SameDecisions(p, run)
  {
    if SameDecisions(p, run) {
      NeverForgettingAcceptsFirstUses(p, run, j);
      assert !Accepts(p, run, j);
      var k := ArrivalKey(p, run[j]);
      var i := EntriesWereAccepted(p, run, j, k);
      NeverForgettingAcceptsFirstUses(p, run, i);
      assert false;
    }
  }

  /**
    The forgetting guard decides every message like one that never forgets if and only if no nonce is used again,
    by another valid envelope, after its first use has expired.
   */
  lemma ForgettingIsInvisibleIffNoLateReuse(p: Policy, run: seq<Arrival>)
    requires ClockMoves(run)
    ensures SameDecisions(p, run) <==> NoLateReuse(p, run)
  {
    if !NoLateReuse(p, run) {
      var f, j :| 0 <= f < j < |run| && FirstUse(p, run, f) && Valid(p, run[j])
        && ArrivalKey(p, run[j]) == ArrivalKey(p, run[f]) && Expiry(p, run[f]) <= run[j].now;
      LateReuseIsTheDifference(p, run, f, j);
    } else {
      forall i | 0 <= i < |run| ensures Accepts(p, run, i) <==> NeverForgettingAccepts(p, run, i) {
        NeverForgettingAcceptsFirstUses(p, run, i);
        if FirstUse(p, run, i) {
          FirstUsesAreAccepted(p, run, i);
        } else if Valid(p, run[i]) {
          var f := FindFirstUse(p, run, i);
          FirstUsesAreAccepted(p, run, f);
          UnexpiredKeysAreRefused(p, run, f, i);
        }
      }
    }
  }

  /** If each (signer, nonce) belongs to one envelope only, forgetting is never noticed. */
  lemma UniqueNoncesMakeForgettingInvisible(p: Policy, run: seq<Arrival>)
    requires ClockMoves(run)
    requires forall i, j | 0 <= i < j < |run| && Valid(p, run[i]) && Valid(p, run[j]) ::
      ArrivalKey(p, run[i]) == ArrivalKey(p, run[j]) ==> run[i].message == run[j].message
    ensures SameDecisions(p, run)
  {
    ForgettingIsInvisibleIffNoLateReuse(p, run);
  }

  // ------------------------------------------------------------------ a late reuse, concretely

  /** Every text matches, every signer has the same secret and every envelope the same MAC. */
  function Lenient(): Policy {
    Policy("brain", (s: string) => true, (s: string) => true, (s: string) => Some(seq(32, i => 0)), (k: seq<bv8>, u: Unsigned) => "mac",
           60 * SECOND, 0)
  }

  function Reuse(id: string, at: Time): Arrival {
    Arrival(Message(Some(Envelope(Unsigned(id, "nonce", "signer", "brain", at, at + 10 * SECOND, "payload"), "mac")), true), at, true)
  }

  /** Two envelopes with one nonce, ten seconds apart: the forgetting guard accepts both, one that never forgets only the first. */
  lemma LateReuseIsAccepted()
    ensures var p, run := Lenient(), [Reuse("first", 0), Reuse("second", 10 * SECOND)];
      && ClockMoves(run) && Accepts(p, run, 0) && Accepts(p, run, 1)
      && NeverForgettingAccepts(p, run, 0) && !NeverForgettingAccepts(p, run, 1)
  {
    var p, run := Lenient(), [Reuse("first", 0), Reuse("second", 10 * SECOND)];
    assert Valid(p, run[0]) && Valid(p, run[1]) && Expiry(p, run[0]) == 10 * SECOND;
    assert run[..0] == [];
    SeenStep(p, run, 0);
    assert ArrivalKey(p, run[1]) == ArrivalKey(p, run[0]);
  }
}
