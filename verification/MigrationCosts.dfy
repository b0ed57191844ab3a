/** The store operations each migration takes, and so where in the fault script the runner's
    main loop reads each completion marker. */
module MigrationCosts {
  import opened Strings
  import opened KeyScoping
  import opened ScopingRun
  import opened KeyWipe
  import opened WalletRetirement
  import opened RunOnce
  import opened Migrations
  import opened MarkerReads

  /** Nothing but a store failure can stop m. */
  ghost predicate Applicable(m: Migration, kv: map<string, Value>) {
    m.job.ScopeKeys? ==> m.job.chainID > 0 && !HasMalformedKey(kv)
  }

  ghost predicate AllApplicable(ms: seq<Migration>, kv: map<string, Value>) {
    !HasMalformedKey(kv) && forall m :: m in ms && m.job.ScopeKeys? ==> m.job.chainID > 0
  }

  /** The store operations m makes to complete. */
  ghost function Cost(m: Migration, kv: map<string, Value>): nat {
    match m.job
    case WipeBucketed => WipeOps(kv)
    case RetireWallets => RetireOps(kv)
    case ScopeKeys(_) => ScopeOps(kv)
  }

  lemma LegacyCore(kv: map<string, Value>)
    ensures LegacyKeys(Core(kv)) == LegacyKeys(kv)
  {
    forall k | Legacy(k) ensures !IsMarker(k) { ScopedNotMarker(1, k); }
  }

  /** Markers neither cost nor stop anything. */
  lemma CostOnCore(m: Migration, kv: map<string, Value>)
    ensures Cost(m, Core(kv)) == Cost(m, kv) && (Applicable(m, Core(kv)) <==> Applicable(m, kv))
  {
    match m.job
    case WipeBucketed => BucketedCore(kv);
    case RetireWallets =>
      forall k | IsMarker(k) ensures !HasPrefix(k, "w:") { MarkersApart(k); }
      assert DueWallets(Core(kv)) == DueWallets(kv);
    case ScopeKeys(chainID) =>
      LegacyCore(kv);
      MalformedIsRejected(kv, chainID);
      MalformedIsRejected(Core(kv), chainID);
      ScopeCoreReached(kv, chainID);
  }

  // ---------------------------------------------------------------- the reads

  /** The rows when turn i comes, if no marker was misread before. */
  ghost function RowsAt(kv: map<string, Value>, ms: seq<Migration>, i: nat): map<string, Value>
    requires i <= |ms|
  {
    Outcome(Marked(kv, ms), Core(kv), Jobs(ms), i)
  }

  /** What the script decides about, for the main loop over a store: which migrations are
      marked, and for the others the operations that applying and marking them takes and
      whether they can be applied at all. */
  ghost function PlanOf(kv: map<string, Value>, ms: seq<Migration>): (p: Plan)
    ensures |p.ops| == |p.can| == |ms|
  {
    Plan(Marked(kv, ms), seq(|ms|, i requires 0 <= i < |ms| => Cost(ms[i], RowsAt(kv, ms, i)) + 1),
         seq(|ms|, i requires 0 <= i < |ms| => Applicable(ms[i], RowsAt(kv, ms, i))))
  }

  lemma PlanAt(kv: map<string, Value>, ms: seq<Migration>, i: nat)
    requires i < |ms|
    ensures PlanOf(kv, ms).ops[i] == Cost(ms[i], RowsAt(kv, ms, i)) + 1
    ensures PlanOf(kv, ms).can[i] == Applicable(ms[i], RowsAt(kv, ms, i))
  {
  }
}
