/** Chain scoping as a pass-based migration over the store. */
module ScopingRun {
  import opened Strings
  import opened KeyStore
  import opened KeyMoves
  import opened KeySweep
  import opened SweepRuns
  import opened KeyScoping

  function Planner(b: Bucket, chainID: int): string -> Verdict {
    k => VerdictOf(b, chainID, k)
  }

  function ScopePass(b: Bucket, chainID: int): Pass {
    Pass(Prefix(b), Planner(b, chainID))
  }

  function ScopePasses(chainID: int): (ps: seq<Pass>)
    ensures |ps| == |BUCKETS|
  {
    seq(|BUCKETS|, i requires 0 <= i < |BUCKETS| => ScopePass(BUCKETS[i], chainID))
  }

  lemma PassMeaning(b: Bucket, chainID: int, k: string)
    requires b in BUCKETS
    ensures Claims(ScopePass(b, chainID), k) <==> LegacyIn(b, k)
    ensures Rejects(ScopePass(b, chainID), k) <==> MalformedIn(b, k)
    ensures LegacyIn(b, k) ==> Dest(ScopePass(b, chainID), k) == ScopedKey(chainID, k)
  {
    if HasPrefix(k, Prefix(b)) { VerdictMeaning(b, chainID, k); }
  }

  lemma OneBucket(i: nat, j: nat, k: string)
    requires i < |BUCKETS| && j < |BUCKETS|
    requires LegacyIn(BUCKETS[i], k)
    ensures !MalformedIn(BUCKETS[j], k)
    ensures LegacyIn(BUCKETS[j], k) ==> i == j
  {
    if i < j {
      BucketsDisjoint(i, j, k);
    } else if j < i && HasPrefix(k, Prefix(BUCKETS[j])) {
      BucketsDisjoint(j, i, k);
    }
  }

  lemma BucketLegacy(i: nat, k: string)
    requires i < |BUCKETS| && LegacyIn(BUCKETS[i], k)
    ensures Legacy(k)
  {
  }

  lemma ScopeInjective(chainID: int, k: string, l: string)
    requires Colons(k) >= 1 && Colons(l) >= 1 && ScopedKey(chainID, k) == ScopedKey(chainID, l)
    ensures k == l
  {
    ScopedKeyInverse(chainID, k);
    ScopedKeyInverse(chainID, l);
  }

  lemma PassAt(chainID: int, i: nat, k: string)
    requires i < |BUCKETS|
    ensures Claims(ScopePasses(chainID)[i], k) <==> LegacyIn(BUCKETS[i], k)
    ensures Rejects(ScopePasses(chainID)[i], k) <==> MalformedIn(BUCKETS[i], k)
    ensures LegacyIn(BUCKETS[i], k) ==> Dest(ScopePasses(chainID)[i], k) == ScopedKey(chainID, k)
    ensures LegacyIn(BUCKETS[i], k) ==> Legacy(k) && Colons(k) >= 1
  {
    PassMeaning(BUCKETS[i], chainID, k);
    if LegacyIn(BUCKETS[i], k) { BucketLegacy(i, k); }
  }

  lemma PassesApart(chainID: int, i: nat, j: nat, k: string)
    requires i < |BUCKETS| && j < |BUCKETS|
    requires Claims(ScopePasses(chainID)[i], k)
    ensures var p, q := ScopePasses(chainID)[i], ScopePasses(chainID)[j];
            && !Claims(q, Dest(p, k)) && !Rejects(q, Dest(p, k))
            && !Rejects(q, k) && (Claims(q, k) ==> i == j)
  {
    PassAt(chainID, i, k);
    PassAt(chainID, j, k);
    PassAt(chainID, j, ScopedKey(chainID, k));
    ScopedKeySettled(chainID, k, BUCKETS[j]);
    OneBucket(i, j, k);
  }

  /** The seven passes never interfere. */
  lemma ScopeCoherent(chainID: int)
    ensures Coherent(ScopePasses(chainID))
  {
    var ps := ScopePasses(chainID);
    forall i, j, k | 0 <= i < |ps| && 0 <= j < |ps| && Claims(ps[i], k)
      ensures !Claims(ps[j], Dest(ps[i], k)) && !Rejects(ps[j], Dest(ps[i], k))
      ensures !Rejects(ps[j], k) && (Claims(ps[j], k) ==> i == j)
    {
      PassesApart(chainID, i, j, k);
    }
    forall i, j, k, l |
      0 <= i < |ps| && 0 <= j < |ps| && Claims(ps[i], k) && Claims(ps[j], l) && Dest(ps[i], k) == Dest(ps[j], l)
      ensures k == l
    {
      PassAt(chainID, i, k);
      PassAt(chainID, j, l);
      ScopeInjective(chainID, k, l);
    }
  }

  // ---------------------------------------------------------------- the code

  ghost function ScopeRun<V>(kv: map<string, V>, faults: Faults, chainID: int): Sweep<V> {
    if chainID <= 0 then Sweep(kv, faults, 0, BadChainID) else Run(kv, faults, ScopePasses(chainID))
  }

  /** The five status buckets, then the user keys, then the execution history. */
  method MigrateKeysToChainScoped<V>(db: Store<V>, chainID: int) returns (total: nat, stop: Stop)
    modifies db
    ensures Sweep(db.kv, db.faults, total, stop) == ScopeRun(old(db.kv), old(db.faults), chainID)
  {
    if chainID <= 0 { return 0, BadChainID; }
    var ps := ScopePasses(chainID);
    total, stop := RunPasses(db, ps);
  }

  // ---------------------------------------------------------------- what the code promises

  ghost function LegacyKeys<V>(kv: map<string, V>): set<string> {
    set k | k in kv && Legacy(k)
  }

  /** Each legacy key of the store, and the same key with the chain id inserted. */
  ghost function ScopeMoves<V>(kv: map<string, V>, chainID: int): Moves {
    map k | k in LegacyKeys(kv) :: ScopedKey(chainID, k)
  }

  ghost predicate HasMalformedKey<V>(kv: map<string, V>) {
    exists b, k :: b in BUCKETS && k in kv && MalformedIn(b, k)
  }

  lemma LegacyIsClaimed(chainID: int, k: string)
    ensures Legacy(k) <==> Claimed(ScopePasses(chainID), k)
    ensures Legacy(k) ==> DestOf(ScopePasses(chainID), k) == ScopedKey(chainID, k)
  {
    if Legacy(k) { LegacyClaimed(chainID, k); }
    if Claimed(ScopePasses(chainID), k) { ClaimedLegacy(chainID, k); }
  }

  lemma ClaimedLegacy(chainID: int, k: string)
    requires Claimed(ScopePasses(chainID), k)
    ensures Legacy(k) && DestOf(ScopePasses(chainID), k) == ScopedKey(chainID, k)
  {
    var ps := ScopePasses(chainID);
    forall i | 0 <= i < |ps| && Claims(ps[i], k) ensures Legacy(k) && Dest(ps[i], k) == ScopedKey(chainID, k) {
      PassAt(chainID, i, k);
    }
  }

  lemma BucketIndex(b: Bucket) returns (i: nat)
    requires b in BUCKETS
    ensures i < |BUCKETS| && BUCKETS[i] == b
  {
    i :| 0 <= i < |BUCKETS| && BUCKETS[i] == b;
  }

  lemma LegacyClaimed(chainID: int, k: string)
    requires Legacy(k)
    ensures Claimed(ScopePasses(chainID), k)
  {
    var b :| b in BUCKETS && LegacyIn(b, k);
    var i := BucketIndex(b);
    PassAt(chainID, i, k);
  }

  lemma MalformedIsRejected<V>(kv: map<string, V>, chainID: int)
    ensures HasMalformedKey(kv) <==> RejectedFrom(kv, ScopePasses(chainID), 0)
  {
    var ps := ScopePasses(chainID);
    forall i, k | 0 <= i < |ps| ensures Rejects(ps[i], k) <==> MalformedIn(BUCKETS[i], k) {
      PassAt(chainID, i, k);
    }
    if HasMalformedKey(kv) {
      var b, k :| b in BUCKETS && k in kv && MalformedIn(b, k);
      var i := BucketIndex(b);
      assert Rejects(ps[i], k) && AnyRejected(kv, ps[i]);
    }
    if RejectedFrom(kv, ps, 0) {
      var i :| 0 <= i < |ps| && AnyRejected(kv, ps[i]);
      var k :| k in kv && Rejects(ps[i], k);
      assert BUCKETS[i] in BUCKETS;
    }
  }

  /** Scoping some legacy keys, as moves of the passes and as a plain map. */
  lemma MovesAreScopes(chainID: int, keys: set<string>)
    requires forall k :: k in keys ==> Legacy(k)
    ensures AllClaimed(ScopePasses(chainID), keys)
    ensures MovesOn(ScopePasses(chainID), keys) == map k | k in keys :: ScopedKey(chainID, k)
  {
    var ps := ScopePasses(chainID);
    forall k | k in keys ensures Claimed(ps, k) && DestOf(ps, k) == ScopedKey(chainID, k) {
      LegacyIsClaimed(chainID, k);
    }
  }

  lemma ReachedIsLegacy<V>(kv: map<string, V>, chainID: int)
    requires !HasMalformedKey(kv)
    ensures Reached(kv, ScopePasses(chainID)) == LegacyKeys(kv)
  {
    var ps := ScopePasses(chainID);
    MalformedIsRejected(kv, chainID);
    AllReached(kv, ps, 0);
    forall k ensures Legacy(k) <==> Claimed(ps, k) { LegacyIsClaimed(chainID, k); }
  }

  /** On a store without malformed keys the settled state is the plain rename. */
  lemma SettledIsRename<V>(kv: map<string, V>, chainID: int)
    requires !HasMalformedKey(kv)
    ensures Settled(kv, ScopePasses(chainID)) == Renamed(kv, ScopeMoves(kv, chainID))
    ensures Reached(kv, ScopePasses(chainID)) == LegacyKeys(kv)
  {
    ReachedIsLegacy(kv, chainID);
    MovesAreScopes(chainID, LegacyKeys(kv));
  }

  /** On any store without malformed keys, whatever was already chain-scoped and whatever
      the destinations held: unless the store fails, the run renames every legacy key, keeps
      every value under its new name, touches nothing else and reports the exact count. */
  lemma ScopingIsRename<V>(kv: map<string, V>, faults: Faults, chainID: int)
    requires chainID > 0 && !HasMalformedKey(kv)
    requires ScopeRun(kv, faults, chainID).stop != StoreFailed
    ensures var r := ScopeRun(kv, faults, chainID);
            && r.stop == Done
            && r.kv == Renamed(kv, ScopeMoves(kv, chainID))
            && r.moved == |LegacyKeys(kv)|
  {
    ScopeCoherent(chainID);
    SettledIsRename(kv, chainID);
    MalformedIsRejected(kv, chainID);
    var moved := RunMoves(kv, faults, ScopePasses(chainID), 0);
  }

  /** The rename is injective and no destination is itself a legacy key. */
  lemma ScopeMovesClean<V>(kv: map<string, V>, chainID: int)
    ensures Clean(ScopeMoves(kv, chainID))
    ensures forall d :: d in ScopeMoves(kv, chainID).Values ==> !Legacy(d)
  {
    var ps := ScopePasses(chainID);
    ScopeCoherent(chainID);
    MovesAreScopes(chainID, LegacyKeys(kv));
    MovesOnClean(ps, LegacyKeys(kv));
    forall d | d in ScopeMoves(kv, chainID).Values ensures !Legacy(d) { LegacyIsClaimed(chainID, d); }
  }

  /** No row is lost exactly when no destination was taken before the run. */
  lemma ScopingLossless<V>(kv: map<string, V>, chainID: int)
    ensures var moves := ScopeMoves(kv, chainID);
            && |Renamed(kv, moves)| == |kv| - |moves.Values * kv.Keys|
            && (|Renamed(kv, moves)| == |kv| <==> moves.Values !! kv.Keys)
  {
    ScopeMovesClean(kv, chainID);
    RenamedSize(kv, ScopeMoves(kv, chainID));
  }

  /** Any number of attempts cut short anywhere, then one the store does not fail: the same
      store as a single run, on every store, malformed keys included. */
  lemma ScopingConverges<V>(kv: map<string, V>, tries: seq<Faults>, faults: Faults, once: Faults, chainID: int)
    requires chainID > 0
    requires ScopeRun(Attempts(kv, tries, ScopePasses(chainID)), faults, chainID).stop != StoreFailed
    requires ScopeRun(kv, once, chainID).stop != StoreFailed
    ensures var last := ScopeRun(Attempts(kv, tries, ScopePasses(chainID)), faults, chainID);
            last.kv == ScopeRun(kv, once, chainID).kv && last.stop == ScopeRun(kv, once, chainID).stop
  {
    var ps := ScopePasses(chainID);
    ScopeCoherent(chainID);
    AttemptsConverge(kv, tries, faults, ps);
    assert Attempts(kv, [], ps) == kv;
    AttemptsConverge(kv, [], once, ps);
  }

  /** A further run changes nothing and reports nothing. */
  lemma ScopingIdempotent<V>(kv: map<string, V>, faults: Faults, again: Faults, chainID: int)
    requires chainID > 0 && ScopeRun(kv, faults, chainID).stop != StoreFailed
    ensures var r := ScopeRun(kv, faults, chainID);
            ScopeRun(r.kv, again, chainID).kv == r.kv && ScopeRun(r.kv, again, chainID).moved == 0
  {
    var ps := ScopePasses(chainID);
    ScopeCoherent(chainID);
    assert Attempts(kv, [], ps) == kv;
    AttemptsConverge(kv, [], faults, ps);
    SettledIsStable(kv, again, ps);
  }

  /** kv' is kv with some reachable keys scoped, with all of them when done. */
  ghost predicate ScopeEffect<V>(kv: map<string, V>, kv': map<string, V>, chainID: int, done: bool) {
    exists moved :: StoreEffect(kv, kv', ScopePasses(chainID), 0, moved) &&
      (done ==> moved == Reached(kv, ScopePasses(chainID)))
  }

  /** A run cut short leaves the same keys to be scoped. */
  lemma ScopeLeavesWork<V>(kv: map<string, V>, kv': map<string, V>, chainID: int, done: bool)
    requires ScopeEffect(kv, kv', chainID, done)
    ensures Settled(kv', ScopePasses(chainID)) == Settled(kv, ScopePasses(chainID))
    ensures done ==> kv' == Settled(kv, ScopePasses(chainID))
  {
    var ps := ScopePasses(chainID);
    var moved :| StoreEffect(kv, kv', ps, 0, moved) && (done ==> moved == Reached(kv, ps));
    ScopeCoherent(chainID);
    Resume(kv, ps, moved);
  }

  /** Every run has that effect. */
  lemma ScopeRunEffect<V>(kv: map<string, V>, faults: Faults, chainID: int)
    ensures var r := ScopeRun(kv, faults, chainID); ScopeEffect(kv, r.kv, chainID, r.stop == Done)
  {
    var ps := ScopePasses(chainID);
    if chainID <= 0 {
      RenamedNothing(kv);
      assert MovesOn(ps, {}) == map[];
      assert StoreEffect(kv, kv, ps, 0, {});
    } else {
      ScopeCoherent(chainID);
      var moved := RunMoves(kv, faults, ps, 0);
    }
  }

  /** With no fault to come, the run completes exactly when the chain id is positive and no
      key is malformed. */
  lemma ScopingSucceeds<V>(kv: map<string, V>, faults: Faults, chainID: int)
    requires Unfailing(faults)
    ensures ScopeRun(kv, faults, chainID).stop == Done <==> chainID > 0 && !HasMalformedKey(kv)
    ensures Unfailing(ScopeRun(kv, faults, chainID).faults)
  {
    if chainID > 0 {
      var ps := ScopePasses(chainID);
      ScopeCoherent(chainID);
      RunUnfailing(kv, faults, ps, 0);
      var _ := RunMoves(kv, faults, ps, 0);
      MalformedIsRejected(kv, chainID);
    }
  }

  /** The operations of a complete run: one listing for each bucket, one move for each legacy
      key. */
  ghost function ScopeOps<V>(kv: map<string, V>): nat {
    |BUCKETS| + |LegacyKeys(kv)|
  }

  /** A run the keys allow completes exactly when none of that many operations fails. */
  lemma ScopingCounted<V(!new)>(kv: map<string, V>, faults: Faults, chainID: int)
    requires chainID > 0 && !HasMalformedKey(kv)
    ensures var r := ScopeRun(kv, faults, chainID);
            && (r.stop == Done <==> !FailsWithin(faults, ScopeOps(kv)))
            && (r.stop == Done ==> r.faults == Dropped(faults, ScopeOps(kv)))
  {
    ScopingSucceeds(kv, [], chainID);
    ScopingIsRename(kv, [], chainID);
    RunCounted(kv, faults, ScopePasses(chainID), 0);
  }

  /** A malformed key is never passed. */
  lemma ScopingRefuses<V>(kv: map<string, V>, faults: Faults, chainID: int)
    requires HasMalformedKey(kv)
    ensures ScopeRun(kv, faults, chainID).stop != Done
  {
    if chainID > 0 {
      ScopeCoherent(chainID);
      var _ := RunMoves(kv, faults, ScopePasses(chainID), 0);
      MalformedIsRejected(kv, chainID);
    }
  }

  /** Scoping creates no malformed key. */
  lemma ScopingWellFormed<V>(kv: map<string, V>, kv': map<string, V>, chainID: int, done: bool)
    requires ScopeEffect(kv, kv', chainID, done) && !HasMalformedKey(kv)
    ensures !HasMalformedKey(kv')
  {
    var ps := ScopePasses(chainID);
    var moved :| StoreEffect(kv, kv', ps, 0, moved);
    forall k | k in moved ensures Legacy(k) && DestOf(ps, k) == ScopedKey(chainID, k) {
      LegacyIsClaimed(chainID, k);
    }
    forall b, k | b in BUCKETS && k in kv' ensures !MalformedIn(b, k) {
      if k !in kv {
        var l := Origin(MovesOn(ps, moved), k);
        ScopedKeySettled(chainID, l, b);
      }
    }
  }
}
