/** The run-once runner: pre-check, backup, then each migration whose marker is not read as
    present. */
module MigrationRunner {
  import opened Strings
  import opened KeyStore
  import opened KeySweep
  import opened ScopingRun
  import opened KeyWipe
  import opened WalletRetirement
  import opened RunOnce
  import opened Migrations
  import opened MarkerReads
  import opened MigrationCosts

  /** Succeeds exactly when m is applicable and none of its operations fails. */
  method Apply(db: Store<Value>, m: Migration) returns (count: nat, ok: bool)
    modifies db
    ensures Step(m, old(db.kv), db.kv, ok)
    ensures ok <==> Applicable(m, old(db.kv)) && !FailsWithin(old(db.faults), Cost(m, old(db.kv)))
    ensures ok ==> db.faults == Dropped(old(db.faults), Cost(m, old(db.kv)))
    ensures Unfailing(old(db.faults)) ==> Unfailing(db.faults)
  {
    if Unfailing(db.faults) { UnfailingLater(db.faults, Cost(m, db.kv)); }
    match m.job
    case WipeBucketed => count, ok := WipeChainBucketedTaskKeys(db);
    case RetireWallets => count, ok := RetireLegacyFactoryWallets(db);
    case ScopeKeys(chainID) =>
      ScopeRunEffect(db.kv, db.faults, chainID);
      ScopingFails(db.kv, db.faults, chainID);
      var stop;
      count, stop := MigrateKeysToChainScoped(db, chainID);
      ok := stop == Done;
  }

  lemma ScopingFails(kv: map<string, Value>, faults: Faults, chainID: int)
    ensures var r := ScopeRun(kv, faults, chainID);
            && (r.stop == Done <==> chainID > 0 && !HasMalformedKey(kv) && !FailsWithin(faults, ScopeOps(kv)))
            && (r.stop == Done ==> r.faults == Dropped(faults, ScopeOps(kv)))
            && (Unfailing(faults) ==> Unfailing(r.faults))
  {
    if Unfailing(faults) { ScopingSucceeds(kv, faults, chainID); }
    if chainID > 0 {
      if HasMalformedKey(kv) { ScopingRefuses(kv, faults, chainID); } else { ScopingCounted(kv, faults, chainID); }
    }
  }

  // ---------------------------------------------------------------- the pre-check

  ghost predicate AllMarked(kv: map<string, Value>, ms: seq<Migration>) {
    UpTo(Marked(kv, ms), |ms|)
  }

  /** Reading the markers from i on until one is missing or cannot be read: is anything
      pending, and which faults are left? */
  ghost function PreCheck(kv: map<string, Value>, ms: seq<Migration>, i: nat, faults: Faults): (bool, Faults)
    requires i <= |ms|
    decreases |ms| - i
  {
    if i == |ms| then (false, faults)
    else if Failing(faults) || Marker(ms[i]) !in kv then (true, After(faults))
    else PreCheck(kv, ms, i + 1, After(faults))
  }

  /** The pre-check passes exactly when every marker is present and none of its reads fails. */
  lemma {:induction false} PreCheckPasses(kv: map<string, Value>, ms: seq<Migration>, i: nat, faults: Faults)
    requires i <= |ms| && MarkedUpTo(kv, ms, i)
    ensures !PreCheck(kv, ms, i, faults).0 <==> AllMarked(kv, ms) && !FailsWithin(faults, |ms| - i)
    ensures !PreCheck(kv, ms, i, faults).0 ==> PreCheck(kv, ms, i, faults).1 == Dropped(faults, |ms| - i)
    decreases |ms| - i
  {
    if i < |ms| && !Failing(faults) && Marker(ms[i]) in kv {
      PreCheckPasses(kv, ms, i + 1, After(faults));
      FailsLater(faults, |ms| - i);
    } else if i < |ms| && Failing(faults) {
      assert faults[0];
    } else if i < |ms| {
      assert i !in Marked(kv, ms);
    }
  }

  lemma FailsLater(faults: Faults, n: nat)
    requires n > 0 && !Failing(faults)
    ensures FailsWithin(faults, n) <==> FailsWithin(After(faults), n - 1)
    ensures Dropped(faults, n) == Dropped(After(faults), n - 1)
  {
    if FailsWithin(faults, n) {
      var i :| 0 <= i < n && i < |faults| && faults[i];
      assert After(faults)[i - 1];
    }
    if FailsWithin(After(faults), n - 1) {
      var i :| 0 <= i < n - 1 && i < |After(faults)| && After(faults)[i];
      assert faults[i + 1];
    }
  }

  /** Is any migration not known to be applied? A failed read counts as pending. */
  method AnyPending(db: Store<Value>, ms: seq<Migration>) returns (pending: bool)
    modifies db`faults
    ensures (pending, db.faults) == PreCheck(db.kv, ms, 0, old(db.faults))
  {
    for i := 0 to |ms|
      invariant PreCheck(db.kv, ms, i, db.faults) == PreCheck(db.kv, ms, 0, old(db.faults))
    {
      var ok, found := db.Exists(Marker(ms[i]));
      if !ok || !found { return true; }
    }
    pending := false;
  }

  // ---------------------------------------------------------------- one migration's turn

  /** What one turn of the main loop does: it runs the migration if and only if its marker is
      missing or the read of it fails, and a run migration succeeds if and only if it is
      applicable and neither one of its operations nor the write of its marker fails. */
  ghost predicate Turn(kv: map<string, Value>, faults: Faults, kv': map<string, Value>, faults': Faults,
                       ms: seq<Migration>, i: nat, ok: bool, ran: bool)
    requires i < |ms|
  {
    && Scripted(i in Marked(kv, ms), Cost(ms[i], kv) + 1, Applicable(ms[i], kv), faults, faults', ok, ran)
    && (!ran ==> kv' == kv)
    && Marked(kv', ms) == if ok then Marked(kv, ms) + {i} else Marked(kv, ms)
  }

  /** What the turn does to the rows: a migration that was not marked brings the store closer
      to where it was headed, and a successful one is applied completely. */
  ghost predicate TurnRows(kv: map<string, Value>, kv': map<string, Value>, ms: seq<Migration>, i: nat, ok: bool,
                           ran: bool)
    requires i < |ms|
  {
    && (i !in Marked(kv, ms) ==> Destiny(kv', ms) == Destiny(kv, ms))
    && (ok && ran ==> Core(kv') == Complete(ms[i], Core(kv)))
    && (!HasMalformedKey(kv) ==> !HasMalformedKey(kv'))
  }

  /** Skipped only when its marker was read as present; otherwise applied and then marked. */
  method RunOne(db: Store<Value>, ms: seq<Migration>, i: nat) returns (ok: bool, ran: bool)
    requires DistinctNames(ms) && i < |ms| && MarkedUpTo(db.kv, ms, i)
    modifies db
    ensures Turn(old(db.kv), old(db.faults), db.kv, db.faults, ms, i, ok, ran)
    ensures TurnRows(old(db.kv), db.kv, ms, i, ok, ran)
  {
    var readOk, found := db.Exists(Marker(ms[i]));
    if found && readOk { return true, false; }
    ok := Perform(db, ms, i);
    ran := true;
  }

  /** Applies a migration and then marks it. */
  method Perform(db: Store<Value>, ms: seq<Migration>, i: nat) returns (ok: bool)
    requires DistinctNames(ms) && i < |ms| && MarkedUpTo(db.kv, ms, i)
    modifies db
    ensures Performed(Cost(ms[i], old(db.kv)) + 1, Applicable(ms[i], old(db.kv)), old(db.faults), db.faults, ok)
    ensures Marked(db.kv, ms) == if ok then Marked(old(db.kv), ms) + {i} else Marked(old(db.kv), ms)
    ensures TurnRows(old(db.kv), db.kv, ms, i, ok, true)
  {
    ghost var kv, faults := db.kv, db.faults;
    var count;
    count, ok := Apply(db, ms[i]);
    ghost var applied := db.kv;
    PerformedNext(faults, Cost(ms[i], kv), Applicable(ms[i], kv));
    RunOneSteps(kv, applied, ms, i, ok);
    if ok {
      var v := Opaque("records=" + Decimal(count));
      ok := db.Put(Marker(ms[i]), v);
      RunOneMarks(applied, v, ms, i);
    }
  }

  lemma RunOneSteps(kv: map<string, Value>, kv': map<string, Value>, ms: seq<Migration>, i: nat, done: bool)
    requires i < |ms| && MarkedUpTo(kv, ms, i) && Step(ms[i], kv, kv', done)
    ensures Marked(kv', ms) == Marked(kv, ms)
    ensures i !in Marked(kv, ms) ==> Destiny(kv', ms) == Destiny(kv, ms)
    ensures done && i !in Marked(kv, ms) ==> Outcome(Marked(kv', ms), Core(kv'), Jobs(ms), i + 1) == Core(kv')
    ensures done ==> Core(kv') == Complete(ms[i], Core(kv))
    ensures !HasMalformedKey(kv) ==> !HasMalformedKey(kv')
  {
    StepKeepsMarks(kv, kv', ms, ms[i], done);
    StepOnCore(ms[i], kv, kv', done);
    if i !in Marked(kv, ms) { WorkKeepsDestiny(kv, kv', ms, i, done); }
    if !HasMalformedKey(kv) { StepWellFormed(ms[i], kv, kv', done); }
  }

  lemma RunOneMarks(mid: map<string, Value>, v: Value, ms: seq<Migration>, i: nat)
    requires DistinctNames(ms) && i < |ms| && MarkedUpTo(mid, ms, i)
    ensures var kv' := mid[Marker(ms[i]) := v];
            && Marked(kv', ms) == Marked(mid, ms) + {i} && Core(kv') == Core(mid)
            && (Outcome(Marked(mid, ms), Core(mid), Jobs(ms), i + 1) == Core(mid) ==>
                  Destiny(kv', ms) == Destiny(mid, ms))
            && (HasMalformedKey(kv') <==> HasMalformedKey(mid))
  {
    MarkAdds(mid, v, ms, i);
    MarkKeepsCore(mid, v, ms[i]);
    MarkWellFormed(mid, v, ms[i]);
    if Outcome(Marked(mid, ms), Core(mid), Jobs(ms), i + 1) == Core(mid) { MarkKeepsDestiny(mid, v, ms, i); }
  }

  // ---------------------------------------------------------------- the main loop

  /** Exactly the last fault of the script is one. */
  predicate OnlyLastFails(faults: Faults) {
    faults != [] && faults[|faults| - 1] && forall i :: 0 <= i < |faults| - 1 ==> !faults[i]
  }

  /** Turns 0 to i over a store that has every marker. */
  ghost predicate Rereads(kv0: map<string, Value>, faults0: Faults, ms: seq<Migration>, i: nat, kv: map<string, Value>,
                          faults: Faults, misread: set<nat>)
    requires i <= |ms|
  {
    && AllMarked(kv, ms)
    && (misread == {} <==> !FailsWithin(faults0, i))
    && (misread == {} ==> kv == kv0 && faults == Dropped(faults0, i))
    && (OnlyLastFails(faults0) && |faults0| <= i ==> misread == {|faults0| - 1} && faults == [])
  }

  lemma RereadsStop(kv0: map<string, Value>, faults0: Faults, ms: seq<Migration>, i: nat, kv: map<string, Value>,
                    faults: Faults, misread: set<nat>, kv': map<string, Value>, faults': Faults, ran: bool)
    requires i < |ms| && AllMarked(kv0, ms) && Rereads(kv0, faults0, ms, i, kv, faults, misread)
    requires Turn(kv, faults, kv', faults', ms, i, false, ran)
    ensures misread + Redone(Marked(kv, ms), i, ran) != {} && FailsWithin(faults0, |ms|)
    ensures !(OnlyLastFails(faults0) && |faults0| <= |ms| && Applicable(ms[|faults0| - 1], kv0))
  {
    DroppedNext(faults0, i);
    MoreFail(faults0, i + 1, |ms|);
    OnlyLast(faults0, i);
  }

  lemma RereadsNext(kv0: map<string, Value>, faults0: Faults, ms: seq<Migration>, i: nat, kv: map<string, Value>,
                    faults: Faults, misread: set<nat>, kv': map<string, Value>, faults': Faults, ran: bool)
    requires i < |ms| && AllMarked(kv0, ms) && Rereads(kv0, faults0, ms, i, kv, faults, misread)
    requires Turn(kv, faults, kv', faults', ms, i, true, ran)
    ensures Rereads(kv0, faults0, ms, i + 1, kv', faults', misread + Redone(Marked(kv, ms), i, ran))
  {
    DroppedNext(faults0, i);
    OnlyLast(faults0, i);
  }

  lemma OnlyLast(faults: Faults, i: nat)
    ensures OnlyLastFails(faults) && i < |faults| ==> !FailsWithin(faults, i)
    ensures OnlyLastFails(faults) && i == |faults| - 1 ==> Dropped(faults, i) == [true]
  {
  }

  /** What the main loop does. `misread` collects the migrations whose marker is in the store but
      could not be read: they run a second time. Otherwise the store is headed where it was,
      and on success the rows are those of applying what was not marked or was misread. */
  ghost predicate AllRan(kv: map<string, Value>, faults: Faults, kv': map<string, Value>, ms: seq<Migration>, ok: bool,
                         misread: set<nat>)
  {
    && misread <= Marked(kv, ms) && (Unfailing(faults) ==> misread == {})
    && Decided(PlanOf(kv, ms), faults, ok, misread)
    && (misread == {} ==> Destiny(kv', ms) == Destiny(kv, ms))
    && (ok ==> AllMarked(kv', ms) && Core(kv') == Outcome(Marked(kv, ms) - misread, Core(kv), Jobs(ms), |ms|))
    && (Unfailing(faults) && AllApplicable(ms, kv) ==> ok)
    && (AllMarked(kv, ms) ==> MarkedStart(kv, faults, kv', ms, ok, misread))
  }

  /** What holds before turn i of the main loop, of the store, the script and the migrations
      misread so far. */
  type Invariant = (nat, map<string, Value>, Faults, set<nat>) -> bool

  /** What holds when the main loop was cut short. */
  type Ending = (map<string, Value>, Faults, set<nat>) -> bool

  /** Every turn from `inv` goes on to `inv` or ends in `cut`. */
  ghost predicate Carried(ms: seq<Migration>, inv: Invariant, cut: Ending) {
    && (forall i: nat, kv: map<string, Value>, faults: Faults, misread: set<nat> ::
          inv(i, kv, faults, misread) ==> MarkedUpTo(kv, ms, i))
    && (forall i: nat, kv: map<string, Value>, faults: Faults, misread: set<nat>, kv': map<string, Value>,
          faults': Faults, ok: bool, ran: bool ::
          inv(i, kv, faults, misread) && Taken(kv, faults, kv', faults', ms, i, ok, ran) ==>
            Carry(inv, cut, i, kv', faults', ok, misread + Redone(Marked(kv, ms), i, ran)))
  }

  ghost predicate Carry(inv: Invariant, cut: Ending, i: nat, kv: map<string, Value>, faults: Faults, ok: bool,
                        misread: set<nat>) {
    if ok then inv(i + 1, kv, faults, misread) else cut(kv, faults, misread)
  }

  ghost predicate Taken(kv: map<string, Value>, faults: Faults, kv': map<string, Value>, faults': Faults,
                        ms: seq<Migration>, i: nat, ok: bool, ran: bool) {
    i < |ms| && Turn(kv, faults, kv', faults', ms, i, ok, ran) && TurnRows(kv, kv', ms, i, ok, ran)
  }

  /** The main loop: whatever its turns carry on holds at its end. */
  method TakeTurns(db: Store<Value>, ms: seq<Migration>, ghost inv: Invariant, ghost cut: Ending)
    returns (ok: bool, ghost misread: set<nat>)
    requires DistinctNames(ms) && Carried(ms, inv, cut) && inv(0, db.kv, db.faults, {})
    modifies db
    ensures if ok then inv(|ms|, db.kv, db.faults, misread) else cut(db.kv, db.faults, misread)
  {
    misread := {};
    for i := 0 to |ms|
      invariant inv(i, db.kv, db.faults, misread)
    {
      ghost var kv, faults := db.kv, db.faults;
      var ran;
      ok, ran := RunOne(db, ms, i);
      assert Taken(kv, faults, db.kv, db.faults, ms, i, ok, ran);
      misread := misread + Redone(Marked(kv, ms), i, ran);
      assert Carry(inv, cut, i, db.kv, db.faults, ok, misread);
      if !ok { return; }
    }
    ok := true;
  }

  method RunAll(db: Store<Value>, ms: seq<Migration>) returns (ok: bool, ghost misread: set<nat>)
    requires DistinctNames(ms)
    modifies db
    ensures AllRan(old(db.kv), old(db.faults), db.kv, ms, ok, misread)
    ensures Unfailing(old(db.faults)) ==> Unfailing(db.faults)
  {
    ghost var kv, faults := db.kv, db.faults;
    LoopStart(kv, faults, ms);
    LoopCarried(kv, faults, ms);
    ok, misread := TakeTurns(db, ms, LoopFrom(kv, faults, ms), CutFrom(kv, faults, ms));
    if ok { LoopEnds(kv, faults, ms, db.kv, db.faults, misread); }
  }

  ghost function LoopFrom(kv0: map<string, Value>, faults0: Faults, ms: seq<Migration>): Invariant {
    (i: nat, kv, faults, misread) => i <= |ms| && Loop(kv0, faults0, ms, i, kv, faults, misread)
  }

  ghost function CutFrom(kv0: map<string, Value>, faults0: Faults, ms: seq<Migration>): Ending {
    (kv, faults, misread) =>
      AllRan(kv0, faults0, kv, ms, false, misread) && (Unfailing(faults0) ==> Unfailing(faults))
  }

  lemma LoopCarried(kv0: map<string, Value>, faults0: Faults, ms: seq<Migration>)
    ensures Carried(ms, LoopFrom(kv0, faults0, ms), CutFrom(kv0, faults0, ms))
  {
    var inv, cut := LoopFrom(kv0, faults0, ms), CutFrom(kv0, faults0, ms);
    forall i: nat, kv: map<string, Value>, faults: Faults, misread: set<nat>, kv': map<string, Value>, faults': Faults,
      ok: bool, ran: bool | inv(i, kv, faults, misread) && Taken(kv, faults, kv', faults', ms, i, ok, ran)
      ensures Carry(inv, cut, i, kv', faults', ok, misread + Redone(Marked(kv, ms), i, ran))
    {
      if ok {
        LoopNext(kv0, faults0, ms, i, kv, faults, misread, kv', faults', ran);
      } else {
        LoopStops(kv0, faults0, ms, i, kv, faults, misread, kv', faults', ran);
      }
    }
  }

  /** Turns 0 to i. */
  ghost predicate Loop(kv0: map<string, Value>, faults0: Faults, ms: seq<Migration>, i: nat, kv: map<string, Value>,
                       faults: Faults, misread: set<nat>)
    requires i <= |ms|
  {
    && Progress(kv0, ms, i, kv, misread) && Headed(kv0, kv, ms, misread) && MarkedUpTo(kv, ms, i)
    && Tracked(PlanOf(kv0, ms), faults0, i, faults, misread)
    && (Unfailing(faults0) ==> misread == {} && Unfailing(faults))
    && (AllMarked(kv0, ms) ==> Rereads(kv0, faults0, ms, i, kv, faults, misread))
  }

  lemma LoopStart(kv: map<string, Value>, faults: Faults, ms: seq<Migration>)
    ensures Loop(kv, faults, ms, 0, kv, faults, {})
  {
    AdvancedStart(Marked(kv, ms), Core(kv), Jobs(ms));
  }

  lemma LoopNext(kv0: map<string, Value>, faults0: Faults, ms: seq<Migration>, i: nat, kv: map<string, Value>,
                 faults: Faults, misread: set<nat>, kv': map<string, Value>, faults': Faults, ran: bool)
    requires i < |ms| && Loop(kv0, faults0, ms, i, kv, faults, misread)
    requires Turn(kv, faults, kv', faults', ms, i, true, ran) && TurnRows(kv, kv', ms, i, true, ran)
    ensures Loop(kv0, faults0, ms, i + 1, kv', faults', misread + Redone(Marked(kv, ms), i, ran))
  {
    HeadedNext(kv0, kv, kv', ms, i, true, ran, misread);
    ProgressNext(kv0, ms, i, kv, misread, kv', ran);
    TurnTracked(kv0, faults0, ms, i, kv, faults, misread, kv', faults', ran);
    if AllMarked(kv0, ms) { RereadsNext(kv0, faults0, ms, i, kv, faults, misread, kv', faults', ran); }
  }

  lemma LoopStops(kv0: map<string, Value>, faults0: Faults, ms: seq<Migration>, i: nat, kv: map<string, Value>,
                  faults: Faults, misread: set<nat>, kv': map<string, Value>, faults': Faults, ran: bool)
    requires i < |ms| && Loop(kv0, faults0, ms, i, kv, faults, misread)
    requires Turn(kv, faults, kv', faults', ms, i, false, ran) && TurnRows(kv, kv', ms, i, false, ran)
    ensures AllRan(kv0, faults0, kv', ms, false, misread + Redone(Marked(kv, ms), i, ran))
    ensures Unfailing(faults0) ==> Unfailing(faults')
  {
    HeadedNext(kv0, kv, kv', ms, i, false, ran, misread);
    ProgressStops(kv0, ms, i, kv, misread, ran);
    TurnDecides(kv0, faults0, ms, i, kv, faults, misread, kv', faults', ran);
    if AllMarked(kv0, ms) { RereadsStop(kv0, faults0, ms, i, kv, faults, misread, kv', faults', ran); }
    if Unfailing(faults) {
      UnfailingAfter(faults);
      UnfailingLater(After(faults), Cost(ms[i], kv) + 1);
    }
    assert AllApplicable(ms, kv0) && !HasMalformedKey(kv) ==> Applicable(ms[i], kv);
  }

  lemma LoopEnds(kv0: map<string, Value>, faults0: Faults, ms: seq<Migration>, kv: map<string, Value>, faults: Faults,
                 misread: set<nat>)
    requires Loop(kv0, faults0, ms, |ms|, kv, faults, misread)
    ensures AllRan(kv0, faults0, kv, ms, true, misread)
  {
    TrackedEnds(PlanOf(kv0, ms), faults0, faults, misread);
  }

  // ---------------------------------------------------------------- the main loop and the script

  /** While nothing was misread, turn i finds what the start planned. */
  lemma TurnPlanned(kv0: map<string, Value>, ms: seq<Migration>, i: nat, kv: map<string, Value>, misread: set<nat>)
    requires i < |ms| && Progress(kv0, ms, i, kv, misread)
    ensures Planned(PlanOf(kv0, ms), i, i in Marked(kv, ms), Cost(ms[i], kv) + 1, Applicable(ms[i], kv), misread)
  {
    if misread == {} {
      PlanAt(kv0, ms, i);
      CostOnCore(ms[i], kv);
      assert Marked(kv0, ms) - {} == Marked(kv0, ms);
    }
  }

  lemma TurnTracked(kv0: map<string, Value>, faults0: Faults, ms: seq<Migration>, i: nat, kv: map<string, Value>,
                    faults: Faults, misread: set<nat>, kv': map<string, Value>, faults': Faults, ran: bool)
    requires i < |ms| && Progress(kv0, ms, i, kv, misread) && Tracked(PlanOf(kv0, ms), faults0, i, faults, misread)
    requires Turn(kv, faults, kv', faults', ms, i, true, ran)
    ensures Tracked(PlanOf(kv0, ms), faults0, i + 1, faults', misread + Redone(Marked(kv, ms), i, ran))
  {
    TurnPlanned(kv0, ms, i, kv, misread);
    TrackedNext(PlanOf(kv0, ms), faults0, i, faults, misread, misread + Redone(Marked(kv, ms), i, ran),
                i in Marked(kv, ms), Cost(ms[i], kv) + 1, Applicable(ms[i], kv), faults', ran);
  }

  lemma TurnDecides(kv0: map<string, Value>, faults0: Faults, ms: seq<Migration>, i: nat, kv: map<string, Value>,
                    faults: Faults, misread: set<nat>, kv': map<string, Value>, faults': Faults, ran: bool)
    requires i < |ms| && Progress(kv0, ms, i, kv, misread) && Tracked(PlanOf(kv0, ms), faults0, i, faults, misread)
    requires Turn(kv, faults, kv', faults', ms, i, false, ran)
    ensures Decided(PlanOf(kv0, ms), faults0, false, misread + Redone(Marked(kv, ms), i, ran))
  {
    TurnPlanned(kv0, ms, i, kv, misread);
    TrackedStops(PlanOf(kv0, ms), faults0, i, faults, misread, misread + Redone(Marked(kv, ms), i, ran),
                 i in Marked(kv, ms), Cost(ms[i], kv) + 1, Applicable(ms[i], kv), faults', ran);
  }

  // ---------------------------------------------------------------- the main loop and the rows

  /** Turns 0 to i of the main loop from kv0 on. */
  ghost predicate Progress(kv0: map<string, Value>, ms: seq<Migration>, i: nat, kv: map<string, Value>,
                           misread: set<nat>)
    requires i <= |ms|
  {
    Advanced(Marked(kv0, ms), Core(kv0), Marked(kv, ms), Core(kv), Jobs(ms), i, misread)
  }

  /** Unless a marker was misread, the store is headed where it was; and it stays well formed. */
  ghost predicate Headed(kv0: map<string, Value>, kv: map<string, Value>, ms: seq<Migration>, misread: set<nat>) {
    && (misread == {} ==> Destiny(kv, ms) == Destiny(kv0, ms))
    && (!HasMalformedKey(kv0) ==> !HasMalformedKey(kv))
  }

  lemma HeadedNext(kv0: map<string, Value>, kv: map<string, Value>, kv': map<string, Value>, ms: seq<Migration>, i: nat,
                   ok: bool, ran: bool, misread: set<nat>)
    requires i < |ms| && Headed(kv0, kv, ms, misread) && TurnRows(kv, kv', ms, i, ok, ran) && (!ran ==> kv' == kv)
    ensures Headed(kv0, kv', ms, misread + Redone(Marked(kv, ms), i, ran))
  {
  }

  lemma ProgressNext(kv0: map<string, Value>, ms: seq<Migration>, i: nat, kv: map<string, Value>, misread: set<nat>,
                     kv': map<string, Value>, ran: bool)
    requires i < |ms| && Progress(kv0, ms, i, kv, misread) && (i !in Marked(kv, ms) ==> ran)
    requires Marked(kv', ms) == Marked(kv, ms) + {i} && Core(kv') == if ran then Complete(ms[i], Core(kv)) else Core(kv)
    ensures Progress(kv0, ms, i + 1, kv', misread + Redone(Marked(kv, ms), i, ran))
  {
    JobAt(ms, i, Core(kv));
    AdvancedNext(Marked(kv0, ms), Core(kv0), Marked(kv, ms), Core(kv), Jobs(ms), i, misread, ran);
  }

  lemma ProgressStops(kv0: map<string, Value>, ms: seq<Migration>, i: nat, kv: map<string, Value>, misread: set<nat>,
                      ran: bool)
    requires i < |ms| && Progress(kv0, ms, i, kv, misread)
    ensures misread + Redone(Marked(kv, ms), i, ran) <= Marked(kv0, ms)
  {
    AdvancedStops(Marked(kv0, ms), Core(kv0), Marked(kv, ms), Core(kv), Jobs(ms), i, misread, ran);
  }

  /** The main loop over a store with every marker: it applies no migration if and only if none
      of its reads fails, and then it changes nothing. If exactly one read fails, that one
      migration is applied again. */
  ghost predicate MarkedStart(kv: map<string, Value>, faults: Faults, kv': map<string, Value>, ms: seq<Migration>,
                              ok: bool, misread: set<nat>)
  {
    && (misread == {} <==> !FailsWithin(faults, |ms|))
    && (misread == {} ==> ok && kv' == kv)
    && (OnlyLastFails(faults) && |faults| <= |ms| && Applicable(ms[|faults| - 1], kv) ==>
          ok && misread == {|faults| - 1})
  }

  // ---------------------------------------------------------------- a start

  /** One start of the gateway: pre-check, backup if anything is pending, main loop. */
  method Run(db: Store<Value>, ms: seq<Migration>, backupOk: bool) returns (ok: bool, ghost misread: set<nat>)
    requires DistinctNames(ms)
    modifies db
    ensures misread <= Marked(old(db.kv), ms) && (Unfailing(old(db.faults)) ==> misread == {})
    ensures misread == {} ==> Destiny(db.kv, ms) == Destiny(old(db.kv), ms)
    ensures ok ==> AllMarked(db.kv, ms)
    ensures ok ==> Core(db.kv) == Outcome(Marked(old(db.kv), ms) - misread, Core(old(db.kv)), Jobs(ms), |ms|)
    ensures Unfailing(old(db.faults)) ==> Unfailing(db.faults) && (backupOk && AllApplicable(ms, old(db.kv)) ==> ok)
    ensures var check := PreCheck(old(db.kv), ms, 0, old(db.faults));
            && (check.0 && !backupOk ==> !ok && misread == {} && db.kv == old(db.kv))
            && ((check.0 ==> backupOk) ==> Decided(PlanOf(old(db.kv), ms), check.1, ok, misread))
            && (AllMarked(old(db.kv), ms) && (check.0 ==> backupOk) ==>
                  MarkedStart(old(db.kv), check.1, db.kv, ms, ok, misread))
    ensures !backupOk ==> Unbacked(old(db.kv), old(db.faults), db.kv, ms, misread)
  {
    misread := {};
    ghost var kv, faults := db.kv, db.faults;
    if Unfailing(faults) { CheckUnfailing(kv, ms, 0, faults); }
    var pending := AnyPending(db, ms);
    if pending && !backupOk {
      UnbackedExactly(kv, faults, kv, ms, false, {});
      return false, misread;
    }
    ok, misread := RunAll(db, ms);
    if !backupOk { UnbackedExactly(kv, faults, db.kv, ms, ok, misread); }
  }

  /** A start whose backup would fail applies a migration if and only if every marker was
      present and read by the pre-check and then a read of the main loop failed; otherwise it
      changes nothing. */
  ghost predicate Unbacked(kv: map<string, Value>, faults: Faults, kv': map<string, Value>, ms: seq<Migration>,
                           misread: set<nat>)
  {
    && (misread != {} <==> AllMarked(kv, ms) && !FailsWithin(faults, |ms|) && FailsWithin(Dropped(faults, |ms|), |ms|))
    && (misread == {} ==> kv' == kv)
  }

  lemma {:induction false} CheckUnfailing(kv: map<string, Value>, ms: seq<Migration>, i: nat, faults: Faults)
    requires i <= |ms| && Unfailing(faults)
    ensures Unfailing(PreCheck(kv, ms, i, faults).1)
    decreases |ms| - i
  {
    if i < |ms| {
      UnfailingAfter(faults);
      CheckUnfailing(kv, ms, i + 1, After(faults));
    }
  }

  lemma UnbackedExactly(kv: map<string, Value>, faults: Faults, kv': map<string, Value>, ms: seq<Migration>, ok: bool,
                        misread: set<nat>)
    requires PreCheck(kv, ms, 0, faults).0 ==> misread == {} && kv' == kv
    requires AllMarked(kv, ms) && !PreCheck(kv, ms, 0, faults).0 ==>
               MarkedStart(kv, PreCheck(kv, ms, 0, faults).1, kv', ms, ok, misread)
    ensures Unbacked(kv, faults, kv', ms, misread)
  {
    PreCheckPasses(kv, ms, 0, faults);
  }

  /** Any number of starts, each cut short anywhere or not. */
  method Starts(db: Store<Value>, ms: seq<Migration>, backups: seq<bool>) returns (ok: bool, ghost misread: set<nat>)
    requires DistinctNames(ms)
    modifies db
    ensures Unfailing(old(db.faults)) ==> misread == {}
    ensures misread == {} ==> Destiny(db.kv, ms) == Destiny(old(db.kv), ms)
    ensures ok && misread == {} ==> AllMarked(db.kv, ms) && Core(db.kv) == Destiny(old(db.kv), ms)
    ensures ok ==> backups != []
  {
    ok, misread := false, {};
    for i := 0 to |backups|
      invariant Unfailing(old(db.faults)) ==> misread == {} && Unfailing(db.faults)
      invariant misread == {} ==> Destiny(db.kv, ms) == Destiny(old(db.kv), ms)
      invariant ok && misread == {} ==> AllMarked(db.kv, ms) && Core(db.kv) == Destiny(old(db.kv), ms)
      invariant ok ==> i > 0
    {
      ghost var again;
      ghost var kv := db.kv;
      ok, again := Run(db, ms, backups[i]);
      misread := misread + again;
      assert Marked(kv, ms) - {} == Marked(kv, ms);
    }
  }
}
