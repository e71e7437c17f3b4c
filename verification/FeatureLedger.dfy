/** The feature ledgers: an append-only event log, a materialised current row, row versions and idempotency keys. */
module FeatureLedger {
  import opened Tasks
  import opened Ordering

  /** The two generated ledgers share one procedure up to a few tests. */
  datatype Kind = Pet | Brain

  datatype State = Planned | Gated | Operational | Rejected | BadState(text: string)

  datatype Implementation = NotStarted | InProgress | Implemented | Blocked | BadImplementation(text: string)
  datatype Evidence = NoEvidence | Submitted | Verified | EvidenceRejected | BadEvidence(text: string)
  datatype Release = Unreleased | ReleaseGated | Released | ReleaseRejected | BadRelease(text: string)

  /** The columns only the Brain ledger has; the PET ledger keeps the initial value. */
  datatype Facts = Facts(implementation: Implementation, evidence: Evidence, release: Release,
                         implementationRef: Option<string>, manifest: Option<string>)

  const NO_FACTS := Facts(NotStarted, NoEvidence, Unreleased, None, None)

  datatype Row = Row(featureVersion: nat, state: State, facts: Facts, releaseId: Option<int>, lastVerified: Option<Time>,
                     expires: Option<Time>, rowVersion: nat)

  datatype Event = Event(feature: string, featureVersion: nat, from: Option<State>, to: State, facts: Facts,
                         releaseId: Option<int>, actor: string, reason: string, key: string)

  datatype Ledger = Ledger(current: map<string, Row>, events: seq<Event>)

  const EMPTY := Ledger(map[], [])

  datatype Request = Request(feature: string, expected: int, to: State, facts: Facts, actor: string, reason: string, key: string,
                             releaseId: Option<int>, lastVerified: Option<Time>, expires: Option<Time>)

  datatype Error = InvalidInput | KeyReused | UnknownFeature | VersionConflict | NotOperational | ConstraintViolation

  datatype Outcome = Applied(row: Row) | Replayed(row: Row) | Refused(error: Error)

  // ------------------------------------------------------------------ the procedure

  predicate ValidInput(r: Request) { !r.to.BadState? && !Blank(r.actor) && !Blank(r.reason) && !Blank(r.key) }

  /** `select * ... where idempotency_key = ...`. */
  function FindKey(events: seq<Event>, key: string): (r: Option<Event>)
    ensures r.Some? ==> r.value in events && r.value.key == key
    ensures r.None? ==> forall e | e in events :: e.key != key
  {
    if events == [] then None
    else if events[|events| - 1].key == key then Some(events[|events| - 1])
    else FindKey(events[..|events| - 1], key)
  }

  /** The comparison of a repeated key: the PET ledger compares the release id, the Brain ledger three statuses. */
  predicate SameContent(kind: Kind, e: Event, r: Request) {
    && e.feature == r.feature && e.to == r.to && e.actor == r.actor && e.reason == r.reason
    && (if kind.Pet? then e.releaseId == r.releaseId
        else e.facts.implementation == r.facts.implementation && e.facts.evidence == r.facts.evidence
             && e.facts.release == r.facts.release)
  }

  predicate MayOperate(kind: Kind, facts: Facts, releaseId: Option<int>, lastVerified: Option<Time>) {
    && releaseId.Some? && lastVerified.Some?
    && (kind.Brain? ==>
          facts.implementation.Implemented? && facts.evidence.Verified? && facts.release.Released?
          && facts.implementationRef.Some? && facts.manifest.Some?)
  }

  /** `~ '^[0-9a-f]{64}$'`. */
  predicate IsSha256(s: string) { |s| == 64 && forall c | c in s :: '0' <= c <= '9' || 'a' <= c <= 'f' }

  /** The check constraints on the two tables. */
  predicate ConstraintsHold(kind: Kind, r: Request) {
    && ValidInput(r)
    && (kind.Brain? ==>
          && !r.facts.implementation.BadImplementation? && !r.facts.evidence.BadEvidence? && !r.facts.release.BadRelease?
          && (r.facts.manifest.Some? ==> IsSha256(r.facts.manifest.value)))
    && (r.expires.Some? ==> r.lastVerified.Some? && r.expires.value > r.lastVerified.value)
  }

  function FactsOf(kind: Kind, r: Request): Facts { if kind.Pet? then NO_FACTS else r.facts }

  function Transition(kind: Kind, l: Ledger, r: Request): (Ledger, Outcome) {
    if kind.Pet? && !ValidInput(r) then (l, Refused(InvalidInput))
    else
      var prior := FindKey(l.events, r.key);
      if prior.Some? then
        (if !SameContent(kind, prior.value, r) || r.feature !in l.current then (l, Refused(KeyReused))
         else (l, Replayed(l.current[r.feature])))
      else if r.feature !in l.current then (l, Refused(UnknownFeature))
      else
        var row := l.current[r.feature];
        if row.rowVersion != r.expected then (l, Refused(VersionConflict))
        else if r.to.Operational? && !MayOperate(kind, r.facts, r.releaseId, r.lastVerified) then (l, Refused(NotOperational))
        else if !ConstraintsHold(kind, r) then (l, Refused(ConstraintViolation))
        else
          var e := Event(r.feature, row.featureVersion, Some(row.state), r.to, FactsOf(kind, r), r.releaseId, r.actor, r.reason, r.key);
          var next := Row(row.featureVersion, r.to, FactsOf(kind, r), r.releaseId, r.lastVerified, r.expires, row.rowVersion + 1);
          (Ledger(l.current[r.feature := next], l.events + [e]), Applied(next))
  }

  // -------------------------------------------------------------------------- seeding

  const EXPECTED := 500

  function CatalogName(kind: Kind): string { if kind.Pet? then "pet-feature-catalog-v1" else "brain-feature-catalog-v1" }

  function InitialKey(kind: Kind, f: string): string { CatalogName(kind) + ":" + f + ":initial" }

  const INITIAL_ROW := Row(1, Planned, NO_FACTS, None, None, None, 1)

  function InitialEvent(kind: Kind, f: string): Event {
    Event(f, 1, None, Planned, NO_FACTS, None, CatalogName(kind), "Initial catalog state", InitialKey(kind, f))
  }

  /** Both inserts are `on conflict do nothing`. */
  function SeedOne(kind: Kind, l: Ledger, f: string): Ledger {
    Ledger(if f in l.current then l.current else l.current[f := INITIAL_ROW],
           if FindKey(l.events, InitialKey(kind, f)).Some? then l.events else l.events + [InitialEvent(kind, f)])
  }

  function SeedAll(kind: Kind, l: Ledger, catalog: seq<string>): Ledger {
    if catalog == [] then l else SeedOne(kind, SeedAll(kind, l, catalog[..|catalog| - 1]), catalog[|catalog| - 1])
  }

  function ByActor(events: seq<Event>, actor: string): nat {
    if events == [] then 0 else ByActor(events[..|events| - 1], actor) + if events[|events| - 1].actor == actor then 1 else 0
  }

  datatype SeedOutcome = Committed | CoverageMismatch | IntegrityFailure

  /** The PET ledger raises if a catalog row is not at feature version 1. */
  predicate Covered(kind: Kind, l: Ledger, catalog: seq<string>) {
    kind.Pet? ==> forall f | f in catalog :: f in l.current && l.current[f].featureVersion == 1
  }

  /** The transaction raises, and rolls back, unless it ends with exactly 500 rows and 500 events of the seeding actor. */
  function Seed(kind: Kind, l: Ledger, catalog: seq<string>): (Ledger, SeedOutcome) {
    var r := SeedAll(kind, l, catalog);
    if !Covered(kind, r, catalog) then (l, CoverageMismatch)
    else if |r.current.Keys| != EXPECTED || ByActor(r.events, CatalogName(kind)) != EXPECTED then (l, IntegrityFailure)
    else (r, Committed)
  }

  // ------------------------------------------------------------ what the log alone says

  /** The part of a row that its events determine. */
  datatype View = View(state: State, facts: Facts, releaseId: Option<int>, rowVersion: nat)

  function ViewOf(r: Row): View { View(r.state, r.facts, r.releaseId, r.rowVersion) }

  /** Folding the log for one feature: the last event's state, and one version per event. */
  function Fold(events: seq<Event>, f: string): Option<View> {
    if events == [] then None
    else
      var n := |events| - 1;
      var before := Fold(events[..n], f);
      if events[n].feature != f then before
      else Some(View(events[n].to, events[n].facts, events[n].releaseId, 1 + if before.Some? then before.value.rowVersion else 0))
  }

  function StateBefore(v: Option<View>): Option<State> { if v.Some? then Some(v.value.state) else None }

  /** Each event starts where the feature's previous event ended. */
  ghost predicate Chained(events: seq<Event>) {
    events == [] ||
    (var n := |events| - 1;
     Chained(events[..n]) && events[n].from == StateBefore(Fold(events[..n], events[n].feature)))
  }

  ghost predicate DistinctKeys(events: seq<Event>) {
    forall i, j | 0 <= i < j < |events| :: events[i].key != events[j].key
  }

  ghost predicate Faithful(l: Ledger) {
    forall f :: Fold(l.events, f) == if f in l.current then Some(ViewOf(l.current[f])) else None
  }

  /** An operational row carries its release, its verification and, for the Brain, its evidence. */
  ghost predicate Backed(kind: Kind, l: Ledger) {
    forall f | f in l.current && l.current[f].state.Operational? ::
      MayOperate(kind, if kind.Pet? then NO_FACTS else l.current[f].facts, l.current[f].releaseId, l.current[f].lastVerified)
  }

  ghost predicate Sound(kind: Kind, l: Ledger) {
    Faithful(l) && Chained(l.events) && DistinctKeys(l.events) && Backed(kind, l)
  }

  lemma AppendFolds(events: seq<Event>, e: Event, f: string)
    ensures Fold(events + [e], f) == (
      if e.feature != f then Fold(events, f)
      else Some(View(e.to, e.facts, e.releaseId, 1 + if Fold(events, f).Some? then Fold(events, f).value.rowVersion else 0)))
    ensures Chained(events) && e.from == StateBefore(Fold(events, e.feature)) ==> Chained(events + [e])
  {
    assert (events + [e])[..|events|] == events;
  }

  /** Where the events of one feature are in the log. */
  function EventsOf(events: seq<Event>, f: string): set<nat> { set i: nat | i < |events| && events[i].feature == f }

  lemma EventsOfAppend(events: seq<Event>, e: Event, f: string)
    ensures |EventsOf(events + [e], f)| == |EventsOf(events, f)| + if e.feature == f then 1 else 0
  {
    assert EventsOf(events + [e], f) == EventsOf(events, f) + if e.feature == f then {|events|} else {};
    assert |events| !in EventsOf(events, f);
  }

  lemma {:induction false} FoldCountsEvents(events: seq<Event>, f: string)
    ensures |EventsOf(events, f)| == if Fold(events, f).Some? then Fold(events, f).value.rowVersion else 0
  {
    if events == [] {
      assert EventsOf(events, f) == {};
    } else {
      var n := |events| - 1;
      FoldCountsEvents(events[..n], f);
      assert events == events[..n] + [events[n]];
      EventsOfAppend(events[..n], events[n], f);
      AppendFolds(events[..n], events[n], f);
    }
  }

  lemma {:induction false} FoldSeesEvents(events: seq<Event>, e: Event)
    requires e in events
    ensures Fold(events, e.feature).Some?
  {
    var n := |events| - 1;
    if e != events[n] {
      assert events == events[..n] + [events[n]];
      FoldSeesEvents(events[..n], e);
    }
  }

  // ----------------------------------------------------------------------- invariants

  lemma AppendFinds(events: seq<Event>, e: Event, key: string)
    ensures FindKey(events + [e], key) == if e.key == key then Some(e) else FindKey(events, key)
  {
    assert (events + [e])[..|events|] == events;
  }

  /** Appending an event with a new key, from the feature's state, together with its row keeps the ledger sound. */
  lemma AppendIsSound(kind: Kind, l: Ledger, e: Event, row: Row)
    requires Sound(kind, l) && FindKey(l.events, e.key).None? && e.from == StateBefore(Fold(l.events, e.feature))
    requires var before := Fold(l.events, e.feature);
      ViewOf(row) == View(e.to, e.facts, e.releaseId, 1 + if before.Some? then before.value.rowVersion else 0)
    requires row.state.Operational? ==>
      MayOperate(kind, if kind.Pet? then NO_FACTS else row.facts, row.releaseId, row.lastVerified)
    ensures Sound(kind, Ledger(l.current[e.feature := row], l.events + [e]))
  {
    var next := Ledger(l.current[e.feature := row], l.events + [e]);
    forall f ensures Fold(next.events, f) == if f in next.current then Some(ViewOf(next.current[f])) else None {
      AppendFolds(l.events, e, f);
    }
    AppendFolds(l.events, e, e.feature);
    forall i, j | 0 <= i < j < |next.events| ensures next.events[i].key != next.events[j].key {
      assert next.events[i] in l.events;
    }
  }

  lemma TransitionIsSound(kind: Kind, l: Ledger, r: Request)
    requires Sound(kind, l)
    ensures Sound(kind, Transition(kind, l, r).0)
  {
    var (next, outcome) := Transition(kind, l, r);
    if outcome.Applied? {
      assert Fold(l.events, r.feature) == Some(ViewOf(l.current[r.feature]));
      AppendIsSound(kind, l, next.events[|l.events|], next.current[r.feature]);
    }
  }

  lemma InitialKeysDiffer(kind: Kind, f: string, g: string)
    requires InitialKey(kind, f) == InitialKey(kind, g)
    ensures f == g
  {
    var c := CatalogName(kind) + ":";
    var a, b := InitialKey(kind, f), InitialKey(kind, g);
    assert a == c + (f + ":initial") && b == c + (g + ":initial");
    assert a[|c|..] == f + ":initial" && b[|c|..] == g + ":initial";
    assert f == a[|c|..|a| - |":initial"|] && g == b[|c|..|b| - |":initial"|];
  }

  /** Every row of the catalog has its initial event. */
  ghost predicate Seeded(kind: Kind, l: Ledger) {
    forall f | f in l.current :: FindKey(l.events, InitialKey(kind, f)).Some?
  }

  ghost predicate FirstVersions(l: Ledger) { forall f | f in l.current :: l.current[f].featureVersion == 1 }

  /** While seeding an empty ledger, only rows have events. */
  ghost predicate OnlySeeds(kind: Kind, l: Ledger) {
    forall e | e in l.events :: e.feature in l.current && e.key == InitialKey(kind, e.feature)
  }

  lemma SeedNewIsSound(kind: Kind, l: Ledger, f: string)
    requires Sound(kind, l) && Seeded(kind, l) && OnlySeeds(kind, l) && f !in l.current
    ensures SeedOne(kind, l, f) == Ledger(l.current[f := INITIAL_ROW], l.events + [InitialEvent(kind, f)])
    ensures Sound(kind, SeedOne(kind, l, f)) && Seeded(kind, SeedOne(kind, l, f))
  {
    var e := InitialEvent(kind, f);
    var prior := FindKey(l.events, InitialKey(kind, f));
    if prior.Some? { InitialKeysDiffer(kind, f, prior.value.feature); }
    assert SeedOne(kind, l, f) == Ledger(l.current[f := INITIAL_ROW], l.events + [e]);
    assert Fold(l.events, f).None?;
    AppendIsSound(kind, l, e, INITIAL_ROW);
    forall g | g in l.current || g == f ensures FindKey(l.events + [e], InitialKey(kind, g)).Some? {
      AppendFinds(l.events, e, InitialKey(kind, g));
    }
  }

  lemma SeedOneIsSound(kind: Kind, l: Ledger, f: string)
    requires Sound(kind, l) && Seeded(kind, l) && (f in l.current || OnlySeeds(kind, l))
    ensures Sound(kind, SeedOne(kind, l, f)) && Seeded(kind, SeedOne(kind, l, f))
    ensures f in l.current ==> SeedOne(kind, l, f) == l
    ensures OnlySeeds(kind, l) ==> OnlySeeds(kind, SeedOne(kind, l, f))
    ensures SeedOne(kind, l, f).current.Keys == l.current.Keys + {f}
  {
    if f in l.current {
      assert FindKey(l.events, InitialKey(kind, f)).Some?;
    } else {
      SeedNewIsSound(kind, l, f);
    }
  }

  lemma Members(xs: seq<string>)
    requires xs != []
    ensures Elements(xs) == Elements(xs[..|xs| - 1]) + {xs[|xs| - 1]}
  {
    assert xs == xs[..|xs| - 1] + [xs[|xs| - 1]];
  }

  lemma {:induction false} SeedingEmptyIsSound(kind: Kind, catalog: seq<string>)
    ensures var l := SeedAll(kind, EMPTY, catalog);
      && Sound(kind, l) && Seeded(kind, l) && OnlySeeds(kind, l)
      && l.current.Keys == Elements(catalog) && FirstVersions(l)
  {
    if catalog != [] {
      var n := |catalog| - 1;
      SeedingEmptyIsSound(kind, catalog[..n]);
      var before := SeedAll(kind, EMPTY, catalog[..n]);
      SeedOneIsSound(kind, before, catalog[n]);
      assert SeedAll(kind, EMPTY, catalog) == SeedOne(kind, before, catalog[n]);
      Members(catalog);
    } else {
      assert SeedAll(kind, EMPTY, catalog) == EMPTY;
    }
  }

  lemma {:induction false} SeedingCounts(kind: Kind, catalog: seq<string>)
    requires forall i, j | 0 <= i < j < |catalog| :: catalog[i] != catalog[j]
    ensures |Elements(catalog)| == |catalog|
    ensures ByActor(SeedAll(kind, EMPTY, catalog).events, CatalogName(kind)) == |catalog|
  {
    if catalog != [] {
      var n := |catalog| - 1;
      SeedingCounts(kind, catalog[..n]);
      SeedingEmptyIsSound(kind, catalog[..n]);
      Members(catalog);
      assert catalog[n] !in Elements(catalog[..n]);
      var before := SeedAll(kind, EMPTY, catalog[..n]);
      var e := InitialEvent(kind, catalog[n]);
      var prior := FindKey(before.events, e.key);
      if prior.Some? { InitialKeysDiffer(kind, catalog[n], prior.value.feature); }
      assert SeedAll(kind, EMPTY, catalog).events == before.events + [e];
      assert (before.events + [e])[..|before.events|] == before.events;
    }
  }

  /** The first migration of a catalog of 500 distinct features commits. */
  lemma FirstSeedCommits(kind: Kind, catalog: seq<string>)
    requires |catalog| == 500 && forall i, j | 0 <= i < j < |catalog| :: catalog[i] != catalog[j]
    ensures Seed(kind, EMPTY, catalog) == (SeedAll(kind, EMPTY, catalog), Committed)
    ensures WellSeeded(kind, catalog, Seed(kind, EMPTY, catalog).0)
    ensures |Elements(catalog)| == EXPECTED && ByActor(Seed(kind, EMPTY, catalog).0.events, CatalogName(kind)) == EXPECTED
  {
    var r := SeedAll(kind, EMPTY, catalog);
    SeedingCounts(kind, catalog);
    SeedingEmptyIsSound(kind, catalog);
    forall f | f in catalog ensures f in r.current { assert f in Elements(catalog); }
    assert Covered(kind, r, catalog);
  }

  lemma {:induction false} InsertingAgainChangesNothing(kind: Kind, l: Ledger, catalog: seq<string>)
    requires Sound(kind, l) && Seeded(kind, l)
    requires forall f | f in catalog :: f in l.current
    ensures SeedAll(kind, l, catalog) == l
  {
    if catalog != [] {
      var n := |catalog| - 1;
      assert forall f | f in catalog[..n] :: f in catalog;
      InsertingAgainChangesNothing(kind, l, catalog[..n]);
      SeedOneIsSound(kind, l, catalog[n]);
    }
  }

  /** Seeding again, at any later time, changes nothing, whether it commits or raises. */
  lemma SeedingAgainChangesNothing(kind: Kind, l: Ledger, catalog: seq<string>)
    requires Sound(kind, l) && Seeded(kind, l)
    requires forall f | f in catalog :: f in l.current
    ensures SeedAll(kind, l, catalog) == l && Seed(kind, l, catalog).0 == l
  {
    InsertingAgainChangesNothing(kind, l, catalog);
  }

  // ------------------------------------------------------------------------------ runs

  datatype Call = Migrate | Change(request: Request)

  /** Running the migration again, or one transition. */
  function Next(kind: Kind, catalog: seq<string>, l: Ledger, c: Call): Ledger {
    match c
    case Migrate => Seed(kind, l, catalog).0
    case Change(r) => Transition(kind, l, r).0
  }

  function Run(kind: Kind, catalog: seq<string>, l: Ledger, calls: seq<Call>): Ledger {
    if calls == [] then l else Next(kind, catalog, Run(kind, catalog, l, calls[..|calls| - 1]), calls[|calls| - 1])
  }

  /** The invariant of every ledger that the first migration and any later run produce. */
  ghost predicate WellSeeded(kind: Kind, catalog: seq<string>, l: Ledger) {
    Sound(kind, l) && Seeded(kind, l) && l.current.Keys == Elements(catalog) && FirstVersions(l)
  }

  /** What a transition can do to the tables. */
  lemma TransitionFacts(kind: Kind, l: Ledger, r: Request)
    ensures var (next, outcome) := Transition(kind, l, r);
      && l.events <= next.events && next.current.Keys == l.current.Keys
      && (forall f | f in l.current && f != r.feature :: next.current[f] == l.current[f])
      && (!outcome.Applied? ==> next == l)
      && (outcome.Applied? ==>
            && r.feature in l.current && l.current[r.feature].rowVersion == r.expected
            && next.current[r.feature].rowVersion == r.expected + 1
            && next.current[r.feature].featureVersion == l.current[r.feature].featureVersion
            && |next.events| == |l.events| + 1
            && next.events[|l.events|].key == r.key && SameContent(kind, next.events[|l.events|], r))
  {
  }

  predicate HasText(s: string) { exists i :: 0 <= i < |s| && s[i] != ' ' }

  /**
    A transition is applied exactly when all its conditions hold, whatever order they are checked in: a new key, a known
    feature at the expected version, a valid state and texts, an expiry only after a verification, for Operational a
    release and a verification, and in the Brain ledger valid statuses, a manifest that is a hash, and for Operational
    an implemented, verified and released feature with its reference and manifest.
   */
  lemma AppliedExactlyWhen(kind: Kind, l: Ledger, r: Request)
    ensures Transition(kind, l, r).1.Applied? <==>
      && (forall e | e in l.events :: e.key != r.key)
      && r.feature in l.current && l.current[r.feature].rowVersion == r.expected
      && r.to in {Planned, Gated, Operational, Rejected} && HasText(r.actor) && HasText(r.reason) && HasText(r.key)
      && (r.expires.Some? ==> r.lastVerified.Some? && r.lastVerified.value < r.expires.value)
      && (r.to == Operational ==> r.releaseId.Some? && r.lastVerified.Some?)
      && (kind == Brain ==>
            && r.facts.implementation in {NotStarted, InProgress, Implemented, Implementation.Blocked}
            && r.facts.evidence in {NoEvidence, Submitted, Verified, EvidenceRejected}
            && r.facts.release in {Unreleased, ReleaseGated, Released, ReleaseRejected}
            && (r.facts.manifest.Some? ==>
                  var m := r.facts.manifest.value; |m| == 64 && forall i | 0 <= i < 64 :: '0' <= m[i] <= '9' || 'a' <= m[i] <= 'f')
            && (r.to == Operational ==>
                  && r.facts.implementation == Implemented && r.facts.evidence == Verified && r.facts.release == Released
                  && r.facts.implementationRef.Some? && r.facts.manifest.Some?))
  {
    assert FindKey(l.events, r.key).None? <==> forall e | e in l.events :: e.key != r.key;
    assert ValidInput(r) <==> r.to in {Planned, Gated, Operational, Rejected} && HasText(r.actor) && HasText(r.reason) && HasText(r.key);
    if r.facts.manifest.Some? { HashesByPosition(r.facts.manifest.value); }
  }

  lemma HashesByPosition(m: string)
    ensures IsSha256(m) <==> |m| == 64 && forall i | 0 <= i < 64 :: '0' <= m[i] <= '9' || 'a' <= m[i] <= 'f'
  {
    if IsSha256(m) {
      forall i | 0 <= i < 64 ensures '0' <= m[i] <= '9' || 'a' <= m[i] <= 'f' { assert m[i] in m; }
    }
  }

  /** What an applied transition writes: the row it found with the new content and one more version, and one event. */
  lemma AppliedMeans(kind: Kind, l: Ledger, r: Request)
    requires Transition(kind, l, r).1.Applied?
    ensures r.feature in l.current
    ensures var (next, outcome) := Transition(kind, l, r);
      var before := l.current[r.feature];
      var facts := if kind == Brain then r.facts else Facts(NotStarted, NoEvidence, Unreleased, None, None);
      && outcome.row == Row(before.featureVersion, r.to, facts, r.releaseId, r.lastVerified, r.expires, r.expected + 1)
      && next.current == l.current[r.feature := outcome.row]
      && next.events == l.events + [Event(r.feature, before.featureVersion, Some(before.state), r.to, facts, r.releaseId, r.actor, r.reason, r.key)]
  {
  }

  /** Which error a refused transition gets: the first of these that applies. */
  lemma RefusalsMean(kind: Kind, l: Ledger, r: Request)
    ensures var outcome := Transition(kind, l, r).1;
      && (outcome == Refused(InvalidInput) <==>
            kind == Pet && !(r.to in {Planned, Gated, Operational, Rejected} && HasText(r.actor) && HasText(r.reason) && HasText(r.key)))
      && (outcome == Refused(KeyReused) || outcome.Replayed? <==>
            outcome != Refused(InvalidInput) && exists e :: e in l.events && e.key == r.key)
      && (outcome == Refused(UnknownFeature) <==>
            outcome != Refused(InvalidInput) && (forall e | e in l.events :: e.key != r.key) && r.feature !in l.current)
      && (outcome == Refused(VersionConflict) <==>
            && outcome != Refused(InvalidInput) && (forall e | e in l.events :: e.key != r.key)
            && r.feature in l.current && l.current[r.feature].rowVersion != r.expected)
      && (outcome == Refused(NotOperational) ==> r.to == Operational)
  {
    assert FindKey(l.events, r.key).None? <==> forall e | e in l.events :: e.key != r.key;
    assert ValidInput(r) <==> r.to in {Planned, Gated, Operational, Rejected} && HasText(r.actor) && HasText(r.reason) && HasText(r.key);
  }

  lemma GrowingKeepsKeys(events: seq<Event>, more: seq<Event>, key: string)
    requires events <= more && FindKey(events, key).Some?
    ensures FindKey(more, key).Some?
  {
    var e := FindKey(events, key).value;
    var i :| 0 <= i < |events| && events[i] == e;
    assert more[i] == e;
  }

  lemma GrowingKeepsSeeds(kind: Kind, l: Ledger, next: Ledger)
    requires Seeded(kind, l) && l.events <= next.events && next.current.Keys == l.current.Keys
    ensures Seeded(kind, next)
  {
    forall f | f in next.current ensures FindKey(next.events, InitialKey(kind, f)).Some? {
      GrowingKeepsKeys(l.events, next.events, InitialKey(kind, f));
    }
  }

  lemma NextIsWellSeeded(kind: Kind, catalog: seq<string>, l: Ledger, c: Call)
    requires WellSeeded(kind, catalog, l)
    ensures WellSeeded(kind, catalog, Next(kind, catalog, l, c)) && l.events <= Next(kind, catalog, l, c).events
    ensures forall f | f in l.current :: l.current[f].rowVersion <= Next(kind, catalog, l, c).current[f].rowVersion
  {
    if c.Migrate? {
      SeedingAgainChangesNothing(kind, l, catalog);
    } else {
      ChangeIsWellSeeded(kind, catalog, l, c.request);
    }
  }

  lemma ChangeIsWellSeeded(kind: Kind, catalog: seq<string>, l: Ledger, r: Request)
    requires WellSeeded(kind, catalog, l)
    ensures var next := Transition(kind, l, r).0;
      && WellSeeded(kind, catalog, next) && l.events <= next.events
      && forall f | f in l.current :: l.current[f].rowVersion <= next.current[f].rowVersion
  {
    TransitionIsSound(kind, l, r);
    TransitionFacts(kind, l, r);
    GrowingKeepsSeeds(kind, l, Transition(kind, l, r).0);
  }

  lemma {:induction false} RunsAreWellSeeded(kind: Kind, catalog: seq<string>, l: Ledger, calls: seq<Call>)
    requires WellSeeded(kind, catalog, l)
    ensures var r := Run(kind, catalog, l, calls);
      && WellSeeded(kind, catalog, r) && l.events <= r.events
      && forall f | f in l.current :: l.current[f].rowVersion <= r.current[f].rowVersion
  {
    if calls != [] {
      var n := |calls| - 1;
      RunsAreWellSeeded(kind, catalog, l, calls[..n]);
      NextIsWellSeeded(kind, catalog, Run(kind, catalog, l, calls[..n]), calls[n]);
    }
  }

  /**
    The ledger equals the fold of its event log on every run from an empty database: each current row is what the
    log says, the row version is the number of the feature's events, events are chained, keys are unique, and an
    operational row is backed.
   */
  lemma LedgerIsTheFoldOfItsLog(kind: Kind, catalog: seq<string>, calls: seq<Call>, f: string)
    requires |catalog| == 500 && (forall i, j | 0 <= i < j < |catalog| :: catalog[i] != catalog[j])
    requires f in catalog
    ensures var l := Run(kind, catalog, Seed(kind, EMPTY, catalog).0, calls);
      && Sound(kind, l)
      && f in l.current && Fold(l.events, f) == Some(ViewOf(l.current[f]))
      && l.current[f].rowVersion == |EventsOf(l.events, f)|
  {
    FirstSeedCommits(kind, catalog);
    var start := Seed(kind, EMPTY, catalog).0;
    RunsAreWellSeeded(kind, catalog, start, calls);
    FoldCountsEvents(Run(kind, catalog, start, calls).events, f);
  }

  // ------------------------------------------------------------------ seeding once more

  /** An applied transition in this actor's name. */
  predicate Signs(kind: Kind, l: Ledger, c: Call, actor: string) {
    c.Change? && c.request.actor == actor && Transition(kind, l, c.request).1.Applied?
  }

  /** How many transitions of the run are applied in this actor's name. */
  function Signatures(kind: Kind, catalog: seq<string>, start: Ledger, calls: seq<Call>, actor: string): nat {
    if calls == [] then 0
    else
      var n := |calls| - 1;
      Signatures(kind, catalog, start, calls[..n], actor)
      + if Signs(kind, Run(kind, catalog, start, calls[..n]), calls[n], actor) then 1 else 0
  }

  lemma ByActorAppend(events: seq<Event>, e: Event, actor: string)
    ensures ByActor(events + [e], actor) == ByActor(events, actor) + if e.actor == actor then 1 else 0
  {
    assert (events + [e])[..|events|] == events;
  }

  lemma TransitionActor(kind: Kind, l: Ledger, r: Request, actor: string)
    ensures ByActor(Transition(kind, l, r).0.events, actor)
         == ByActor(l.events, actor) + if Signs(kind, l, Change(r), actor) then 1 else 0
  {
    var (next, outcome) := Transition(kind, l, r);
    if outcome.Applied? { ByActorAppend(l.events, next.events[|l.events|], actor); }
  }

  lemma {:induction false} RunActors(kind: Kind, catalog: seq<string>, start: Ledger, calls: seq<Call>, actor: string)
    requires WellSeeded(kind, catalog, start)
    ensures ByActor(Run(kind, catalog, start, calls).events, actor)
         == ByActor(start.events, actor) + Signatures(kind, catalog, start, calls, actor)
  {
    if calls != [] {
      var k := |calls| - 1;
      var l := Run(kind, catalog, start, calls[..k]);
      RunActors(kind, catalog, start, calls[..k], actor);
      RunsAreWellSeeded(kind, catalog, start, calls[..k]);
      if calls[k].Migrate? {
        SeedingAgainChangesNothing(kind, l, catalog);
      } else {
        TransitionActor(kind, l, calls[k].request, actor);
      }
    }
  }

  lemma {:induction false} InsertingKeepsRows(kind: Kind, l: Ledger, catalog: seq<string>, f: string)
    requires f in l.current
    ensures var r := SeedAll(kind, l, catalog).current; f in r && r[f] == l.current[f]
  {
    if catalog != [] { InsertingKeepsRows(kind, l, catalog[..|catalog| - 1], f); }
  }

  /** The PET migration raises over a row at another feature version, whatever else it finds. */
  lemma OtherVersionsRaise(l: Ledger, catalog: seq<string>, f: string)
    requires f in catalog && f in l.current && l.current[f].featureVersion != 1
    ensures Seed(Pet, l, catalog) == (l, CoverageMismatch)
  {
    InsertingKeepsRows(Pet, l, catalog, f);
  }

  lemma CommitsByCount(kind: Kind, l: Ledger, catalog: seq<string>)
    requires WellSeeded(kind, catalog, l) && |Elements(catalog)| == EXPECTED
    ensures Seed(kind, l, catalog) == (l, if ByActor(l.events, CatalogName(kind)) == EXPECTED then Committed else IntegrityFailure)
  {
    InsertingAgainChangesNothing(kind, l, catalog);
    forall f | f in catalog ensures f in l.current { assert f in Elements(catalog); }
  }

  lemma RunsCommitByCount(kind: Kind, start: Ledger, catalog: seq<string>, calls: seq<Call>)
    requires WellSeeded(kind, catalog, start) && |Elements(catalog)| == EXPECTED
    requires ByActor(start.events, CatalogName(kind)) == EXPECTED
    ensures var l := Run(kind, catalog, start, calls);
      Seed(kind, l, catalog)
      == (l, if Signatures(kind, catalog, start, calls, CatalogName(kind)) == 0 then Committed else IntegrityFailure)
  {
    RunActors(kind, catalog, start, calls, CatalogName(kind));
    RunsAreWellSeeded(kind, catalog, start, calls);
    CommitsByCount(kind, Run(kind, catalog, start, calls), catalog);
  }

  /**
    The migration can be run again exactly as long as nobody has used its name: after any run it commits once more, and
    changes nothing, if and only if no transition of the run was applied with the seeding actor; else it raises.
   */
  lemma SeedingAgainCommitsExactlyWhen(kind: Kind, catalog: seq<string>, calls: seq<Call>)
    requires |catalog| == 500 && forall i, j | 0 <= i < j < |catalog| :: catalog[i] != catalog[j]
    ensures var start := Seed(kind, EMPTY, catalog).0;
      var l := Run(kind, catalog, start, calls);
      Seed(kind, l, catalog)
      == (l, if Signatures(kind, catalog, start, calls, CatalogName(kind)) == 0 then Committed else IntegrityFailure)
  {
    FirstSeedCommits(kind, catalog);
    RunsCommitByCount(kind, Seed(kind, EMPTY, catalog).0, catalog, calls);
  }

  lemma {:induction false} SeededRowsAreInitial(kind: Kind, catalog: seq<string>)
    ensures forall f | f in SeedAll(kind, EMPTY, catalog).current :: SeedAll(kind, EMPTY, catalog).current[f] == INITIAL_ROW
  {
    if catalog != [] { SeededRowsAreInitial(kind, catalog[..|catalog| - 1]); }
  }

  /** What a seeding event says: planned, from nothing, by the catalog, under a key of its own. */
  lemma InitialEventMeans(kind: Kind, f: string)
    ensures var e, name := InitialEvent(kind, f), if kind == Pet then "pet-feature-catalog-v1" else "brain-feature-catalog-v1";
      && e.feature == f && e.featureVersion == 1 && e.from == None && e.to == Planned && e.releaseId == None
      && e.actor == name && e.key == name + ":" + f + ":initial" && e.facts == Facts(NotStarted, NoEvidence, Unreleased, None, None)
  {
  }

  lemma {:induction false} SeedingEventsAreInitial(kind: Kind, catalog: seq<string>)
    ensures forall e | e in SeedAll(kind, EMPTY, catalog).events :: e == InitialEvent(kind, e.feature)
  {
    if catalog != [] { SeedingEventsAreInitial(kind, catalog[..|catalog| - 1]); }
  }

  /** The first migration puts every feature of the catalog, and no other, into the planned state at version 1, by such events. */
  lemma SeededStateMeans(kind: Kind, catalog: seq<string>)
    ensures var l := SeedAll(kind, EMPTY, catalog);
      && (forall f :: f in l.current <==> f in catalog)
      && (forall f | f in l.current :: l.current[f] == Row(1, Planned, Facts(NotStarted, NoEvidence, Unreleased, None, None), None, None, None, 1))
      && (forall e | e in l.events :: e.feature in catalog && e == InitialEvent(kind, e.feature))
  {
    SeedingEmptyIsSound(kind, catalog);
    SeededRowsAreInitial(kind, catalog);
    SeedingEventsAreInitial(kind, catalog);
    forall f ensures f in Elements(catalog) <==> f in catalog {}
  }

  /** A first transition out of the seeded state, in the name of the seeding actor. */
  function FirstSigned(kind: Kind, f: string): Request {
    Request(f, 1, Gated, NO_FACTS, CatalogName(kind), "reason", "key", None, None, None)
  }

  lemma FirstSignedIsApplied(kind: Kind, catalog: seq<string>, l: Ledger, f: string)
    requires f in l.current && l.current[f] == INITIAL_ROW && OnlySeeds(kind, l)
    ensures Transition(kind, l, FirstSigned(kind, f)).1.Applied?
  {
    var r := FirstSigned(kind, f);
    forall e | e in l.events ensures e.key != r.key {
      assert |InitialKey(kind, e.feature)| >= |":initial"|;
    }
    assert r.actor[0] != ' ' && r.reason[0] != ' ' && r.key[0] != ' ';
    AppliedExactlyWhen(kind, l, r);
  }

  lemma OneSignature(kind: Kind, catalog: seq<string>, start: Ledger, r: Request)
    requires Transition(kind, start, r).1.Applied?
    ensures Signatures(kind, catalog, start, [Change(r)], r.actor) == 1
  {
    assert [Change(r)][..0] == [];
    assert Run(kind, catalog, start, []) == start && Signatures(kind, catalog, start, [], r.actor) == 0;
  }

  /** A concrete run after which the migration raises. */
  lemma SignedTransitionBlocksSeeding(kind: Kind, catalog: seq<string>, f: string)
    requires |catalog| == 500 && (forall i, j | 0 <= i < j < |catalog| :: catalog[i] != catalog[j]) && f in catalog
    ensures var l := Run(kind, catalog, Seed(kind, EMPTY, catalog).0, [Change(FirstSigned(kind, f))]);
      Seed(kind, l, catalog) == (l, IntegrityFailure)
  {
    var start, calls := Seed(kind, EMPTY, catalog).0, [Change(FirstSigned(kind, f))];
    FirstSeedCommits(kind, catalog);
    SeedingEmptyIsSound(kind, catalog);
    SeededRowsAreInitial(kind, catalog);
    FirstSignedIsApplied(kind, catalog, start, f);
    OneSignature(kind, catalog, start, FirstSigned(kind, f));
    SeedingAgainCommitsExactlyWhen(kind, catalog, calls);
  }

  /**
    Operational means backed: on every run from the first migration an operational feature has a release and a
    verification, and in the Brain ledger it is implemented, verified and released, with its reference and manifest.
   */
  lemma OperationalFeaturesAreBacked(kind: Kind, catalog: seq<string>, calls: seq<Call>, f: string)
    requires |catalog| == 500 && forall i, j | 0 <= i < j < |catalog| :: catalog[i] != catalog[j]
    ensures var l := Run(kind, catalog, Seed(kind, EMPTY, catalog).0, calls);
      f in l.current && l.current[f].state == Operational ==>
        var row := l.current[f];
        && row.releaseId.Some? && row.lastVerified.Some?
        && (kind == Brain ==>
              && row.facts.implementation == Implemented && row.facts.evidence == Verified && row.facts.release == Released
              && row.facts.implementationRef.Some? && row.facts.manifest.Some?)
  {
    FirstSeedCommits(kind, catalog);
    RunsAreWellSeeded(kind, catalog, Seed(kind, EMPTY, catalog).0, calls);
  }

  /** Optimistic locking: of two transitions of one feature that expect the same version, only the first succeeds. */
  lemma SameExpectedVersionSucceedsOnce(kind: Kind, catalog: seq<string>, l: Ledger, first: Request, between: seq<Call>, second: Request)
    requires WellSeeded(kind, catalog, l)
    requires first.feature == second.feature && first.expected == second.expected
    requires Transition(kind, l, first).1.Applied?
    ensures !Transition(kind, Run(kind, catalog, Transition(kind, l, first).0, between), second).1.Applied?
  {
    TransitionFacts(kind, l, first);
    ChangeIsWellSeeded(kind, catalog, l, first);
    var next := Transition(kind, l, first).0;
    RunsAreWellSeeded(kind, catalog, next, between);
    TransitionFacts(kind, Run(kind, catalog, next, between), second);
  }

  lemma {:induction false} KeyStaysFound(events: seq<Event>, more: seq<Event>, e: Event)
    requires e in events && events <= more && DistinctKeys(more)
    ensures FindKey(more, e.key) == Some(e)
  {
    var i :| 0 <= i < |events| && events[i] == e;
    assert more[i] == e;
    var found := FindKey(more, e.key);
    var j :| 0 <= j < |more| && more[j] == found.value;
    assert i == j;
  }

  lemma AppliedInputIsValid(kind: Kind, l: Ledger, r: Request)
    requires Transition(kind, l, r).1.Applied?
    ensures ValidInput(r)
  {
  }

  // --------------------------------------------------------------------- repeated keys

  /** The part of a request that is compared when its key has been used before. */
  datatype Content = Content(feature: string, to: State, actor: string, reason: string, releaseId: Option<Option<int>>,
                             statuses: Option<(Implementation, Evidence, Release)>)

  function Compared(kind: Kind, r: Request): Content {
    Content(r.feature, r.to, r.actor, r.reason, if kind.Pet? then Some(r.releaseId) else None,
            if kind.Brain? then Some((r.facts.implementation, r.facts.evidence, r.facts.release)) else None)
  }

  /**
    Exactly which fields a repeated key silently drops: the PET ledger the expected version and both times, the Brain
    ledger also the release id, the implementation reference and the evidence manifest. (The PET ledger has no facts.)
   */
  lemma FieldsDroppedOnRepeat(a: Request, b: Request)
    requires a.key == b.key
    ensures Compared(Pet, a) == Compared(Pet, b) <==>
      a == b.(expected := a.expected, lastVerified := a.lastVerified, expires := a.expires, facts := a.facts)
    ensures Compared(Brain, a) == Compared(Brain, b) <==>
      a == b.(expected := a.expected, lastVerified := a.lastVerified, expires := a.expires, releaseId := a.releaseId,
              facts := b.facts.(implementationRef := a.facts.implementationRef, manifest := a.facts.manifest))
  {
  }

  /**
    In a sound ledger a request whose key is on an event, seeded or not, writes nothing. It is refused if and only if
    the feature, the target state, the actor or the reason differ, or the release id (PET) or one of the three
    statuses (Brain); otherwise it is answered with the current row.
   */
  lemma UsedKeyIsRefusedExactlyWhen(kind: Kind, l: Ledger, r: Request, e: Event)
    requires Sound(kind, l) && FindKey(l.events, r.key) == Some(e)
    ensures var differs := e.feature != r.feature || e.to != r.to || e.actor != r.actor || e.reason != r.reason
        || (kind.Pet? && e.releaseId != r.releaseId)
        || (kind.Brain? && (e.facts.implementation != r.facts.implementation || e.facts.evidence != r.facts.evidence
                            || e.facts.release != r.facts.release));
      if kind.Pet? && !ValidInput(r) then Transition(kind, l, r) == (l, Refused(InvalidInput))
      else if differs then Transition(kind, l, r) == (l, Refused(KeyReused))
      else r.feature in l.current && Transition(kind, l, r) == (l, Replayed(l.current[r.feature]))
  {
    FoldSeesEvents(l.events, e);
    assert e.feature in l.current;
  }

  /**
    "A key cannot be reused for something else" holds up to the dropped fields: after a request has been applied, at
    any later time, another request with its key is refused if and only if its compared content differs.
   */
  lemma ReusedKeyIsRefusedExactlyWhen(kind: Kind, catalog: seq<string>, l: Ledger, first: Request, between: seq<Call>, again: Request)
    requires WellSeeded(kind, catalog, l) && Transition(kind, l, first).1.Applied?
    requires again.key == first.key
    ensures var later := Run(kind, catalog, Transition(kind, l, first).0, between);
      if kind.Pet? && !ValidInput(again) then Transition(kind, later, again) == (later, Refused(InvalidInput))
      else if Compared(kind, again) != Compared(kind, first) then Transition(kind, later, again) == (later, Refused(KeyReused))
      else first.feature in later.current && Transition(kind, later, again) == (later, Replayed(later.current[first.feature]))
  {
    var next := Transition(kind, l, first).0;
    TransitionFacts(kind, l, first);
    ChangeIsWellSeeded(kind, catalog, l, first);
    RunsAreWellSeeded(kind, catalog, next, between);
    var later := Run(kind, catalog, next, between);
    var e := next.events[|l.events|];
    KeyStaysFound(next.events, later.events, e);
    UsedKeyIsRefusedExactlyWhen(kind, later, again, e);
  }

  /** Retrying is harmless: repeating an applied transition, at any later time, changes nothing and reports success. */
  lemma RetriesAreHarmless(kind: Kind, catalog: seq<string>, l: Ledger, r: Request, between: seq<Call>)
    requires WellSeeded(kind, catalog, l) && Transition(kind, l, r).1.Applied?
    ensures var later := Run(kind, catalog, Transition(kind, l, r).0, between);
      r.feature in later.current && Transition(kind, later, r) == (later, Replayed(later.current[r.feature]))
  {
    AppliedInputIsValid(kind, l, r);
    ReusedKeyIsRefusedExactlyWhen(kind, catalog, l, r, between, r);
  }

  /** Whatever a transition answers other than success, it leaves the ledger alone. */
  lemma OnlySuccessWrites(kind: Kind, l: Ledger, r: Request)
    ensures !Transition(kind, l, r).1.Applied? <==> Transition(kind, l, r).0 == l
  {
    var (next, outcome) := Transition(kind, l, r);
    if outcome.Applied? { assert |next.events| == |l.events| + 1; }
  }

  // --------------------------------------------------------------------------- the tables

  class Tables {
    const kind: Kind
    var current: map<string, Row>
    var events: seq<Event>

    constructor (kind: Kind)
      ensures this.kind == kind && Ledger(current, events) == EMPTY
    {
      this.kind := kind;
      current, events := map[], [];
    }

    /** The procedure, statement by statement, against its specification. */
    method TransitionFeature(r: Request) returns (outcome: Outcome)
      modifies this
      ensures (Ledger(current, events), outcome) == Transition(kind, old(Ledger(current, events)), r)
    {
      if kind.Pet? && (r.to.BadState? || Blank(r.actor) || Blank(r.reason) || Blank(r.key)) { return Refused(InvalidInput); }
      var existing := FindKey(events, r.key);
      if existing.Some? {
        if !SameContent(kind, existing.value, r) || r.feature !in current { return Refused(KeyReused); }
        return Replayed(current[r.feature]);
      }
      if r.feature !in current { return Refused(UnknownFeature); }
      var row := current[r.feature];
      if row.rowVersion != r.expected { return Refused(VersionConflict); }
      if r.to.Operational? && !MayOperate(kind, r.facts, r.releaseId, r.lastVerified) { return Refused(NotOperational); }
      if !ConstraintsHold(kind, r) { return Refused(ConstraintViolation); }
      events := events + [Event(r.feature, row.featureVersion, Some(row.state), r.to, FactsOf(kind, r), r.releaseId,
                                r.actor, r.reason, r.key)];
      row := row.(state := r.to, facts := FactsOf(kind, r), releaseId := r.releaseId, lastVerified := r.lastVerified,
                  expires := r.expires, rowVersion := row.rowVersion + 1);
      current := current[r.feature := row];
      return Applied(row);
    }
  }
}
