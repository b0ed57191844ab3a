/** The three registered migrations behind the run-once runner. */
module Migrations {
  import opened Strings
  import opened KeyMoves
  import opened KeySweep
  import opened SweepRuns
  import opened KeyScoping
  import opened ScopingRun
  import opened KeyWipe
  import opened Rewrites
  import opened WalletRetirement
  import opened RunOnce

  datatype Job = WipeBucketed | RetireWallets | ScopeKeys(chainID: int)

  datatype Migration = Migration(name: string, job: Job)

  const MARKERS := "migration:"

  function Marker(m: Migration): string {
    MARKERS + m.name
  }

  /** Static migrations first, then the chain-aware one when the chain is known. */
  function Registered(chainID: Option<int>): seq<Migration> {
    var wipe := Migration("20260626-wipe-chain-bucketed-task-keys", WipeBucketed);
    var retire := Migration("20261020-retire-legacy-factory-wallets", RetireWallets);
    if chainID.Some? && chainID.value > 0
    then [wipe, retire, Migration("20260524-chain-scope-task-keys", ScopeKeys(chainID.value))]
    else [wipe, retire]
  }

  // ---------------------------------------------------------------- one migration

  /** A store that m turned kv into, completely when done. */
  ghost predicate Step(m: Migration, kv: map<string, Value>, kv': map<string, Value>, done: bool) {
    match m.job
    case WipeBucketed => exists n :: WipeEffect(kv, kv', n, done)
    case RetireWallets => exists n :: RetireEffect(kv, kv', n, done)
    case ScopeKeys(chainID) => ScopeEffect(kv, kv', chainID, done)
  }

  /** What m makes of a store when nothing fails. */
  ghost function Complete(m: Migration, kv: map<string, Value>): map<string, Value> {
    match m.job
    case WipeBucketed => kv - BucketedKeys(kv)
    case RetireWallets => AllRetired(kv)
    case ScopeKeys(chainID) => Settled(kv, ScopePasses(chainID))
  }

  /** A migration cut short anywhere leaves the same work to be done. */
  lemma StepLeavesWork(m: Migration, kv: map<string, Value>, kv': map<string, Value>, done: bool)
    requires Step(m, kv, kv', done)
    ensures Complete(m, kv') == Complete(m, kv)
    ensures done ==> kv' == Complete(m, kv)
  {
    match m.job
    case WipeBucketed =>
      var n :| WipeEffect(kv, kv', n, done);
      WipeLeavesWork(kv, kv', n, done);
    case RetireWallets =>
      var n :| RetireEffect(kv, kv', n, done);
      RetireLeavesWork(kv, kv', n, done);
    case ScopeKeys(chainID) =>
      ScopeLeavesWork(kv, kv', chainID, done);
  }

  // ---------------------------------------------------------------- completion markers

  predicate IsMarker(k: string) {
    HasPrefix(k, MARKERS)
  }

  /** The store without its completion markers. */
  function Core(kv: map<string, Value>): map<string, Value> {
    map k | k in kv && !IsMarker(k) :: kv[k]
  }

  ghost predicate SameMarkers(kv: map<string, Value>, kv': map<string, Value>) {
    forall k :: IsMarker(k) ==> (k in kv <==> k in kv')
  }

  lemma MarkersApart(k: string)
    requires IsMarker(k)
    ensures !Bucketed(k) && !HasPrefix(k, "w:") && forall b :: b in BUCKETS ==> !HasPrefix(k, Prefix(b))
  {
  }

  lemma ScopedNotMarker(chainID: int, k: string)
    requires Legacy(k)
    ensures !IsMarker(k) && !IsMarker(ScopedKey(chainID, k))
  {
    var b :| b in BUCKETS && LegacyIn(b, k);
    BucketHead(b, k);
    var d, n := ScopedKey(chainID, k), Namespace(b);
    assert d[..|n|] == n && k[..|n|] == n;
    NotMarker(k, b);
    NotMarker(d, b);
  }

  lemma NotMarker(k: string, b: Bucket)
    requires |k| >= |Namespace(b)| && k[..|Namespace(b)|] == Namespace(b)
    ensures !IsMarker(k)
  {
    assert k[0] == Namespace(b)[0] != 'm';
    if IsMarker(k) { PrefixRest(k, MARKERS); }
  }

  lemma BucketedCore(kv: map<string, Value>)
    ensures BucketedKeys(Core(kv)) == BucketedKeys(kv)
  {
  }

  lemma RemovedCore(kv: map<string, Value>, kv': map<string, Value>, doomed: set<string>, n: nat, done: bool)
    requires Removed(kv, kv', doomed, n, done) && forall k :: k in doomed ==> !IsMarker(k)
    ensures Removed(Core(kv), Core(kv'), doomed, n, done) && SameMarkers(kv, kv')
  {
    assert Core(kv).Keys - Core(kv').Keys == kv.Keys - kv'.Keys;
  }

  lemma WipeCore(kv: map<string, Value>, kv': map<string, Value>, n: nat, done: bool)
    requires WipeEffect(kv, kv', n, done)
    ensures WipeEffect(Core(kv), Core(kv'), n, done) && SameMarkers(kv, kv')
  {
    BucketedCore(kv);
    forall k | k in BucketedKeys(kv) ensures !IsMarker(k) { if IsMarker(k) { MarkersApart(k); } }
    RemovedCore(kv, kv', BucketedKeys(kv), n, done);
  }

  lemma RetireCore(kv: map<string, Value>, kv': map<string, Value>, n: nat, done: bool)
    requires RetireEffect(kv, kv', n, done)
    ensures RetireEffect(Core(kv), Core(kv'), n, done) && SameMarkers(kv, kv')
  {
    var rule := RetireRule();
    var changed :| Applied(kv, kv', rule, changed, n, done);
    forall k | IsMarker(k) ensures !HasPrefix(k, "w:") { MarkersApart(k); }
    assert DueKeys(Core(kv), rule) == DueKeys(kv, rule);
    assert Core(kv') == Rewritten(Core(kv), rule, changed);
    assert Applied(Core(kv), Core(kv'), rule, changed, n, done);
  }

  /** Removing rows no pass looks at leaves the reachable keys alone. */
  lemma ScopeCoreReached(kv: map<string, Value>, chainID: int)
    ensures Reached(Core(kv), ScopePasses(chainID)) == Reached(kv, ScopePasses(chainID))
    ensures RejectedFrom(Core(kv), ScopePasses(chainID), 0) <==> RejectedFrom(kv, ScopePasses(chainID), 0)
  {
    var ps := ScopePasses(chainID);
    forall i, k | 0 <= i < |ps| && (Claims(ps[i], k) || Rejects(ps[i], k)) ensures !IsMarker(k) {
      PassAt(chainID, i, k);
      assert BUCKETS[i] in BUCKETS;
      if IsMarker(k) { MarkersApart(k); }
    }
    assert Without(kv, Core(kv), ps, {});
    ReachedWithout(kv, Core(kv), ps, 0, {});
  }

  lemma RenamedCore(kv: map<string, Value>, moves: Moves)
    requires moves.Keys <= kv.Keys
    requires forall k :: k in moves ==> !IsMarker(k) && !IsMarker(moves[k])
    ensures moves.Keys <= Core(kv).Keys && Core(Renamed(kv, moves)) == Renamed(Core(kv), moves)
    ensures SameMarkers(kv, Renamed(kv, moves))
  {
  }

  lemma ScopeCore(kv: map<string, Value>, kv': map<string, Value>, chainID: int, done: bool)
    requires ScopeEffect(kv, kv', chainID, done)
    ensures ScopeEffect(Core(kv), Core(kv'), chainID, done) && SameMarkers(kv, kv')
  {
    var ps := ScopePasses(chainID);
    var moved :| StoreEffect(kv, kv', ps, 0, moved) && (done ==> moved == Reached(kv, ps));
    var moves := MovesOn(ps, moved);
    forall k | k in moved ensures !IsMarker(k) && !IsMarker(moves[k]) {
      LegacyIsClaimed(chainID, k);
      ScopedNotMarker(chainID, k);
    }
    RenamedCore(kv, moves);
    ScopeCoreReached(kv, chainID);
    assert StoreEffect(Core(kv), Core(kv'), ps, 0, moved);
  }

  /** No migration reads or writes a completion marker. */
  lemma StepCore(m: Migration, kv: map<string, Value>, kv': map<string, Value>, done: bool)
    requires Step(m, kv, kv', done)
    ensures Step(m, Core(kv), Core(kv'), done) && SameMarkers(kv, kv')
  {
    match m.job
    case WipeBucketed => var n :| WipeEffect(kv, kv', n, done); WipeCore(kv, kv', n, done);
    case RetireWallets => var n :| RetireEffect(kv, kv', n, done); RetireCore(kv, kv', n, done);
    case ScopeKeys(chainID) => ScopeCore(kv, kv', chainID, done);
  }

  // ---------------------------------------------------------------- where a store is headed

  /** The migrations of a list whose completion marker is in the store. */
  function Marked(kv: map<string, Value>, ms: seq<Migration>): set<nat> {
    set i: nat | 0 <= i < |ms| && Marker(ms[i]) in kv
  }

  /** Each migration as the change it makes when nothing fails. */
  ghost function Jobs(ms: seq<Migration>): (jobs: seq<map<string, Value> -> map<string, Value>>)
    ensures |jobs| == |ms|
  {
    seq(|ms|, i requires 0 <= i < |ms| => Completion(ms[i]))
  }

  ghost function Completion(m: Migration): map<string, Value> -> map<string, Value> {
    kv => Complete(m, kv)
  }

  lemma JobAt(ms: seq<Migration>, i: nat, kv: map<string, Value>)
    requires i < |ms|
    ensures Jobs(ms)[i](kv) == Complete(ms[i], kv)
  {
  }

  /** Where a store is headed: its rows once every unmarked migration has been applied. */
  ghost function Destiny(kv: map<string, Value>, ms: seq<Migration>): map<string, Value> {
    Outcome(Marked(kv, ms), Core(kv), Jobs(ms), |ms|)
  }

  ghost predicate MarkedUpTo(kv: map<string, Value>, ms: seq<Migration>, n: nat) {
    n <= |ms| && UpTo(Marked(kv, ms), n)
  }

  predicate DistinctNames(ms: seq<Migration>) {
    forall i, j :: 0 <= i < j < |ms| ==> ms[i].name != ms[j].name
  }

  // ---------------------------------------------------------------- work and marks

  lemma MarkerIsMarker(m: Migration)
    ensures IsMarker(Marker(m))
  {
  }

  lemma MarkersDiffer(ms: seq<Migration>, i: nat, j: nat)
    requires DistinctNames(ms) && i < |ms| && j < |ms| && i != j
    ensures Marker(ms[i]) != Marker(ms[j])
  {
    assert Marker(ms[j])[|MARKERS|..] == ms[j].name && Marker(ms[i])[|MARKERS|..] == ms[i].name;
  }

  lemma StepKeepsMarks(kv: map<string, Value>, kv': map<string, Value>, ms: seq<Migration>, m: Migration, done: bool)
    requires Step(m, kv, kv', done)
    ensures Marked(kv', ms) == Marked(kv, ms)
  {
    StepCore(m, kv, kv', done);
    forall j: nat | j < |ms| ensures Marker(ms[j]) in kv <==> Marker(ms[j]) in kv' { MarkerIsMarker(ms[j]); }
  }

  lemma MarkAdds(kv: map<string, Value>, v: Value, ms: seq<Migration>, i: nat)
    requires DistinctNames(ms) && i < |ms|
    ensures Marked(kv[Marker(ms[i]) := v], ms) == Marked(kv, ms) + {i}
  {
    forall j: nat | j < |ms| && j != i ensures Marker(ms[j]) != Marker(ms[i]) { MarkersDiffer(ms, i, j); }
  }

  lemma StepOnCore(m: Migration, kv: map<string, Value>, kv': map<string, Value>, done: bool)
    requires Step(m, kv, kv', done)
    ensures Complete(m, Core(kv')) == Complete(m, Core(kv))
    ensures done ==> Core(kv') == Complete(m, Core(kv))
  {
    StepCore(m, kv, kv', done);
    StepLeavesWork(m, Core(kv), Core(kv'), done);
  }

  /** Working on the first unmarked migration, however far one gets, does not change where
      the store is headed. */
  lemma WorkKeepsDestiny(kv: map<string, Value>, kv': map<string, Value>, ms: seq<Migration>, i: nat, done: bool)
    requires i < |ms| && MarkedUpTo(kv, ms, i) && i !in Marked(kv, ms) && Step(ms[i], kv, kv', done)
    ensures Destiny(kv', ms) == Destiny(kv, ms)
    ensures done ==> Outcome(Marked(kv', ms), Core(kv'), Jobs(ms), i + 1) == Core(kv')
  {
    StepKeepsMarks(kv, kv', ms, ms[i], done);
    StepOnCore(ms[i], kv, kv', done);
    JobAt(ms, i, Core(kv));
    JobAt(ms, i, Core(kv'));
    OutcomeWork(Marked(kv, ms), Core(kv), Core(kv'), Jobs(ms), i);
    OutcomeFirst(Marked(kv, ms), Core(kv'), Jobs(ms), i);
  }

  /** Marking a migration that is complete does not either. */
  lemma MarkKeepsDestiny(kv: map<string, Value>, v: Value, ms: seq<Migration>, i: nat)
    requires DistinctNames(ms) && i < |ms| && MarkedUpTo(kv, ms, i)
    requires Outcome(Marked(kv, ms), Core(kv), Jobs(ms), i + 1) == Core(kv)
    ensures Destiny(kv[Marker(ms[i]) := v], ms) == Destiny(kv, ms)
  {
    MarkAdds(kv, v, ms, i);
    MarkKeepsCore(kv, v, ms[i]);
    OutcomeMark(Marked(kv, ms), Core(kv), Jobs(ms), i);
  }

  lemma MarkKeepsCore(kv: map<string, Value>, v: Value, m: Migration)
    ensures Core(kv[Marker(m) := v]) == Core(kv)
  {
  }

  lemma MarkWellFormed(kv: map<string, Value>, v: Value, m: Migration)
    ensures HasMalformedKey(kv[Marker(m) := v]) <==> HasMalformedKey(kv)
  {
  }

  /** No migration creates a key that scoping would refuse. */
  lemma StepWellFormed(m: Migration, kv: map<string, Value>, kv': map<string, Value>, done: bool)
    requires Step(m, kv, kv', done) && !HasMalformedKey(kv)
    ensures !HasMalformedKey(kv')
  {
    match m.job
    case WipeBucketed => var n :| WipeEffect(kv, kv', n, done);
    case RetireWallets =>
      var n :| RetireEffect(kv, kv', n, done);
      var changed :| Applied(kv, kv', RetireRule(), changed, n, done);
    case ScopeKeys(chainID) => ScopingWellFormed(kv, kv', chainID, done);
  }
}
