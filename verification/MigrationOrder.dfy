/** What the two key migrations do one after the other, in either order. */
module MigrationOrder {
  import opened Strings
  import opened KeyStore
  import opened KeyMoves
  import opened KeyScoping
  import opened ScopingRun
  import opened KeyWipe
  import opened WalletRetirement
  import opened RunOnce
  import opened Migrations
  import opened MigrationCosts
  import opened MigrationRunner

  /** The registered names differ, so one marker never stands for two migrations. */
  lemma RegisteredDistinct(chainID: Option<int>)
    ensures DistinctNames(Registered(chainID))
  {
  }

  function Wiped(kv: map<string, Value>): map<string, Value> {
    kv - BucketedKeys(kv)
  }

  ghost function Scoped(kv: map<string, Value>, chainID: int): map<string, Value> {
    Renamed(kv, ScopeMoves(kv, chainID))
  }

  /** Every key that scoping writes is one the wipe deletes. */
  lemma ScopedIsBucketed(chainID: int, k: string)
    requires Legacy(k) && 0 < chainID <= MAX_INT64
    ensures Bucketed(ScopedKey(chainID, k)) && !Legacy(ScopedKey(chainID, k))
  {
    var b :| b in BUCKETS && LegacyIn(b, k);
    BucketHead(b, k);
    DecimalColonFree(chainID);
    ParsePrinted(chainID);
    BucketedShape(Namespace(b), DecimalInt(chainID), k[|Namespace(b)| + 1..]);
    forall c ensures !LegacyIn(c, ScopedKey(chainID, k)) { ScopedKeySettled(chainID, k, c); }
  }

  lemma DestinationsBucketed(kv: map<string, Value>, chainID: int)
    requires 0 < chainID <= MAX_INT64
    ensures forall d :: d in ScopeMoves(kv, chainID).Values ==> Bucketed(d) && !Legacy(d)
  {
    var moves := ScopeMoves(kv, chainID);
    forall d | d in moves.Values ensures Bucketed(d) && !Legacy(d) {
      ScopedIsBucketed(chainID, Origin(moves, d));
    }
  }

  /** Scope, then wipe: exactly the rows that were neither legacy-shaped nor bucketed are
      left, with their values, whatever the chain id was. */
  lemma ScopeThenWipe(kv: map<string, Value>, chainID: int)
    requires 0 < chainID <= MAX_INT64
    ensures var r := Wiped(Scoped(kv, chainID));
            && (forall k :: k in r <==> k in kv && !Legacy(k) && !Bucketed(k))
            && (forall k :: k in r ==> r[k] == kv[k])
  {
    DestinationsBucketed(kv, chainID);
    ScopeMovesClean(kv, chainID);
    RenamedPointwise(kv, ScopeMoves(kv, chainID));
  }

  /** Wipe, then scope: the bucketed rows are gone unless scoping wrote them anew, every other
      legacy-shaped row sits under its scoped key and every remaining row where it was. */
  lemma WipeThenScope(kv: map<string, Value>, chainID: int)
    requires 0 < chainID <= MAX_INT64
    ensures Bucketing(kv, Scoped(Wiped(kv), chainID), chainID, v => v)
  {
    WipedScope(kv, Wiped(kv), chainID, v => v);
  }

  /** r is kv without its bucketed rows, with every other legacy-shaped row under its scoped
      key and every remaining row where it was, its value possibly changed; and nothing else. */
  ghost predicate Bucketing(kv: map<string, Value>, r: map<string, Value>, chainID: int, change: Value -> Value) {
    && (forall k :: k in kv && !Bucketed(k) && Legacy(k) ==>
          ScopedKey(chainID, k) in r && r[ScopedKey(chainID, k)] == kv[k])
    && (forall k :: k in kv && !Bucketed(k) && !Legacy(k) ==>
          k in r && r[k] == if IsWalletKey(k) then change(kv[k]) else kv[k])
    && (forall k :: k in r ==>
          || (k in kv && !Bucketed(k) && !Legacy(k))
          || exists l :: l in kv && !Bucketed(l) && Legacy(l) && k == ScopedKey(chainID, l))
  }

  /** Scoping a wiped store whose wallet rows may have changed. */
  lemma WipedScope(kv: map<string, Value>, mid: map<string, Value>, chainID: int, change: Value -> Value)
    requires 0 < chainID <= MAX_INT64 && mid.Keys == Wiped(kv).Keys
    requires forall k :: k in mid ==> mid[k] == if IsWalletKey(k) then change(kv[k]) else kv[k]
    ensures Bucketing(kv, Scoped(mid, chainID), chainID, change)
  {
    var moves, r := ScopeMoves(mid, chainID), Scoped(mid, chainID);
    DestinationsBucketed(mid, chainID);
    ScopeMovesClean(mid, chainID);
    RenamedPointwise(mid, moves);
    forall k | k in kv && !Bucketed(k) && Legacy(k)
      ensures ScopedKey(chainID, k) in r && r[ScopedKey(chainID, k)] == kv[k]
    {
      assert k in moves && moves[k] == ScopedKey(chainID, k);
      LegacyNoWallet(k);
    }
    forall k | k in r && k in moves.Values
      ensures exists l :: l in kv && !Bucketed(l) && Legacy(l) && k == ScopedKey(chainID, l)
    {
      var l := Origin(moves, k);
    }
  }

  lemma LegacyNoWallet(k: string)
    requires Legacy(k)
    ensures !IsWalletKey(k)
  {
    var b :| b in BUCKETS && LegacyIn(b, k);
    BucketHead(b, k);
    SplitBucketKey(Namespace(b), k);
    assert Split(k)[0] == Namespace(b);
    assert Namespace(b)[0] != 'w';
  }

  /** After a wipe no destination is ever taken, so scoping loses nothing, and the only
      bucketed rows are the ones it made. */
  lemma WipeThenScopeLossless(kv: map<string, Value>, chainID: int)
    requires 0 < chainID <= MAX_INT64
    ensures var mid, r := Wiped(kv), Scoped(Wiped(kv), chainID);
            && |r| == |kv| - |BucketedKeys(kv)|
            && BucketedKeys(r) == ScopeMoves(mid, chainID).Values
  {
    var mid, moves := Wiped(kv), ScopeMoves(Wiped(kv), chainID);
    DestinationsBucketed(mid, chainID);
    WipedSize(kv);
    ScopingLossless(mid, chainID);
    forall k ensures k in BucketedKeys(Scoped(mid, chainID)) <==> k in moves.Values {}
  }

  lemma WipedSize(kv: map<string, Value>)
    ensures |Wiped(kv)| == |kv| - |BucketedKeys(kv)|
  {
  }

  /** If the wipe is run once more after the registered order, as the runner does when it
      cannot read the wipe's marker, every row that scoping moved is gone. */
  lemma WipeAgain(kv: map<string, Value>, chainID: int)
    requires 0 < chainID <= MAX_INT64
    ensures var r := Wiped(Scoped(Wiped(kv), chainID));
            && (forall k :: k in r <==> k in kv && !Legacy(k) && !Bucketed(k))
            && (forall k :: k in Wiped(kv) && Legacy(k) ==>
                 ScopedKey(chainID, k) in Scoped(Wiped(kv), chainID) && ScopedKey(chainID, k) !in r)
  {
    WipeThenScope(kv, chainID);
    forall k | Legacy(k) ensures Bucketed(ScopedKey(chainID, k)) { ScopedIsBucketed(chainID, k); }
    ScopeThenWipe(Wiped(kv), chainID);
  }

  lemma RegisteredJobs(chainID: int)
    requires chainID > 0
    ensures var ms := Registered(Some(chainID));
            |ms| == 3 && ms[0].job == WipeBucketed && ms[1].job == RetireWallets && ms[2].job == ScopeKeys(chainID)
  {
  }

  lemma ThreeJobs<R>(skipped: set<nat>, rows: R, jobs: seq<R -> R>)
    requires |jobs| == 3
    ensures var one := if 0 in skipped then rows else jobs[0](rows);
            var two := if 1 in skipped then one else jobs[1](one);
            Outcome(skipped, rows, jobs, 3) == if 2 in skipped then two else jobs[2](two)
  {
    assert Outcome(skipped, rows, jobs, 0) == rows;
    var one := Outcome(skipped, rows, jobs, 1);
    var two := Outcome(skipped, rows, jobs, 2);
  }

  lemma RetiredWellFormed(kv: map<string, Value>)
    requires !HasMalformedKey(kv)
    ensures !HasMalformedKey(AllRetired(Wiped(kv)))
  {
  }

  /** A first start with all three migrations pending ends here. */
  lemma FreshStart(kv: map<string, Value>, chainID: int)
    requires chainID > 0 && !HasMalformedKey(Core(kv))
    requires forall m :: m in Registered(Some(chainID)) ==> Marker(m) !in kv
    ensures Destiny(kv, Registered(Some(chainID))) == Scoped(AllRetired(Wiped(Core(kv))), chainID)
  {
    var ms := Registered(Some(chainID));
    RegisteredJobs(chainID);
    forall i: nat | i < 3 ensures i !in Marked(kv, ms) { assert ms[i] in ms; }
    AllPending(Marked(kv, ms), Core(kv), ms, chainID);
  }

  lemma AllPending(skipped: set<nat>, core: map<string, Value>, ms: seq<Migration>, chainID: int)
    requires |ms| == 3 && ms[0].job == WipeBucketed && ms[1].job == RetireWallets && ms[2].job == ScopeKeys(chainID)
    requires !HasMalformedKey(core) && forall i: nat :: i < 3 ==> i !in skipped
    ensures Outcome(skipped, core, Jobs(ms), 3) == Scoped(AllRetired(Wiped(core)), chainID)
  {
    RetiredWellFormed(core);
    SettledIsRename(AllRetired(Wiped(core)), chainID);
    JobAt(ms, 0, core);
    JobAt(ms, 1, Wiped(core));
    JobAt(ms, 2, AllRetired(Wiped(core)));
    ThreeJobs(skipped, core, Jobs(ms));
  }

  /** What the retirement makes of a row. */
  function RetiredValue(v: Value): Value {
    if v.Wallet? && !v.record.retired && IsLegacyFactoryWallet(v.record) then Wallet(Retire(v.record)) else v
  }

  /** Row by row, what a first start makes of a store: bucketed rows are gone, legacy-shaped
      rows sit under the chain id, legacy wallets are retired and hidden, and every other row
      is as it was. */
  lemma FreshRows(kv: map<string, Value>, chainID: int)
    requires 0 < chainID <= MAX_INT64 && !HasMalformedKey(Core(kv))
    requires forall m :: m in Registered(Some(chainID)) ==> Marker(m) !in kv
    ensures Bucketing(Core(kv), Destiny(kv, Registered(Some(chainID))), chainID, v => RetiredValue(v))
  {
    FreshStart(kv, chainID);
    var wiped := Wiped(Core(kv));
    forall k | k in wiped ensures AllRetired(wiped)[k] == if IsWalletKey(k) then RetiredValue(wiped[k]) else wiped[k] {
      RetiredRow(wiped, k);
    }
    WipedScope(Core(kv), AllRetired(wiped), chainID, v => RetiredValue(v));
  }

  lemma RetiredRow(kv: map<string, Value>, k: string)
    requires k in kv
    ensures AllRetired(kv)[k] == if IsWalletKey(k) then RetiredValue(kv[k]) else kv[k]
  {
    if IsWalletKey(k) { WalletPrefix(k); }
  }

  lemma WalletPrefix(k: string)
    requires IsWalletKey(k)
    ensures HasPrefix(k, "w:")
  {
    JoinSplit(k);
    assert k == "w" + ":" + Join(Split(k)[1..]);
  }

  /** With everything applied, skipping all but the wipe is the wipe. */
  lemma OnlyWipe(core: map<string, Value>, ms: seq<Migration>)
    requires |ms| == 3 && ms[0].job == WipeBucketed
    ensures Outcome({1, 2}, core, Jobs(ms), 3) == Wiped(core)
  {
    JobAt(ms, 0, core);
    ThreeJobs({1, 2}, core, Jobs(ms));
  }

  /** With everything applied and marked, a start whose only failing operation is the main
      loop's read of the wipe's marker succeeds, without a backup, and deletes every bucketed
      row, scoped rows included. */
  method MisreadWipe(db: Store<Value>, chainID: int) returns (ok: bool)
    requires chainID > 0 && AllMarked(db.kv, Registered(Some(chainID))) && db.faults == [false, false, false, true]
    modifies db
    ensures ok && Core(db.kv) == Wiped(Core(old(db.kv)))
  {
    var ms := Registered(Some(chainID));
    RegisteredJobs(chainID);
    RegisteredDistinct(Some(chainID));
    ghost var kv := db.kv;
    OneMisread(kv, ms, db.faults);
    ghost var misread;
    ok, misread := Run(db, ms, false);
    OnlyWipe(Core(kv), ms);
  }

  lemma OneMisread(kv: map<string, Value>, ms: seq<Migration>, faults: Faults)
    requires |ms| == 3 && ms[0].job == WipeBucketed && AllMarked(kv, ms) && faults == [false, false, false, true]
    ensures PreCheck(kv, ms, 0, faults) == (false, [true])
    ensures OnlyLastFails([true]) && Applicable(ms[0], kv) && Marked(kv, ms) - {0} == {1, 2}
  {
    PreCheckPasses(kv, ms, 0, faults);
    assert Dropped(faults, 3) == [true];
    assert !FailsWithin(faults, 3);
  }

  /** Running the wipe again changes the rows if and only if some row is bucketed. */
  lemma WipeChanges(kv: map<string, Value>)
    ensures Wiped(kv) == kv <==> forall k :: k in kv ==> !Bucketed(k)
  {
    if Wiped(kv) == kv { forall k | k in kv ensures !Bucketed(k) { assert k in Wiped(kv); } }
  }
}
