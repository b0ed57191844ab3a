/** Whole runs of a pass-based migration: what they do, when interrupted anywhere and resumed
    any number of times, and when they are run again. */
module SweepRuns {
  import opened KeyStore
  import opened KeyMoves
  import opened KeySweep

  /** To every pass kv' is kv without the moved keys. */
  ghost predicate Without<V>(kv: map<string, V>, kv': map<string, V>, ps: seq<Pass>, moved: set<string>) {
    && (forall i, k :: 0 <= i < |ps| && Rejects(ps[i], k) ==> (k in kv' <==> k in kv))
    && (forall i, k :: 0 <= i < |ps| && Claims(ps[i], k) ==> (k in kv' <==> k in kv && k !in moved))
  }

  lemma RenamedIsWithout<V>(kv: map<string, V>, ps: seq<Pass>, moved: set<string>)
    requires Coherent(ps) && AllClaimed(ps, moved) && moved <= kv.Keys
    ensures Without(kv, Renamed(kv, MovesOn(ps, moved)), ps, moved)
  {
    MovesOnClean(ps, moved);
    forall n, k | 0 <= n < |ps| && k in moved ensures !Rejects(ps[n], k) {
      var i :| 0 <= i < |ps| && Claims(ps[i], k);
    }
    forall n, k | 0 <= n < |ps| && Claims(ps[n], k) ensures Claimed(ps, k) {}
  }

  lemma PassWithout<V>(kv: map<string, V>, kv': map<string, V>, ps: seq<Pass>, n: nat, moved: set<string>)
    requires n < |ps| && Without(kv, kv', ps, moved)
    ensures ReachedIn(kv', ps[n]) == ReachedIn(kv, ps[n]) - moved
    ensures AnyRejected(kv', ps[n]) <==> AnyRejected(kv, ps[n])
  {
    forall k ensures k in ReachedIn(kv', ps[n]) <==> k in ReachedIn(kv, ps[n]) - moved {}
  }

  lemma {:induction false} ReachedWithout<V>(kv: map<string, V>, kv': map<string, V>, ps: seq<Pass>, n: nat,
                                             moved: set<string>)
    requires n <= |ps| && Without(kv, kv', ps, moved)
    ensures ReachedFrom(kv', ps, n) == ReachedFrom(kv, ps, n) - moved
    decreases |ps| - n
  {
    if n < |ps| {
      ReachedWithout(kv, kv', ps, n + 1, moved);
      PassWithout(kv, kv', ps, n, moved);
    }
  }

  lemma ReachedAfter<V>(kv: map<string, V>, ps: seq<Pass>, n: nat, moved: set<string>)
    requires Coherent(ps) && n <= |ps| && AllClaimed(ps, moved) && moved <= kv.Keys
    ensures ReachedFrom(Renamed(kv, MovesOn(ps, moved)), ps, n) == ReachedFrom(kv, ps, n) - moved
    ensures RejectedFrom(Renamed(kv, MovesOn(ps, moved)), ps, n) <==> RejectedFrom(kv, ps, n)
  {
    RenamedIsWithout(kv, ps, moved);
    ReachedWithout(kv, Renamed(kv, MovesOn(ps, moved)), ps, n, moved);
  }

  ghost predicate RejectedFrom<V>(kv: map<string, V>, ps: seq<Pass>, n: nat) {
    exists i :: n <= i < |ps| && AnyRejected(kv, ps[i])
  }

  /** kv' came from kv by moving exactly `moved`, some of the keys reachable from pass n on. */
  ghost predicate StoreEffect<V>(kv: map<string, V>, kv': map<string, V>, ps: seq<Pass>, n: nat, moved: set<string>)
    requires n <= |ps|
  {
    AllClaimed(ps, moved) && moved <= ReachedFrom(kv, ps, n) && kv' == Renamed(kv, MovesOn(ps, moved))
  }

  /** Moves made by the pass that ended the run early: they happened but are not reported. */
  ghost function Unreported<V>(kv: map<string, V>, faults: Faults, ps: seq<Pass>, n: nat): nat
    requires n <= |ps|
    decreases |ps| - n
  {
    if n == |ps| then 0
    else
      var r := PassRun(kv, faults, ps[n]);
      if r.stop != Done then r.moved else Unreported(r.kv, r.faults, ps, n + 1)
  }

  /** The count covers what moved except what the failing pass moved; unless the store
      failed, every reachable key moved and the run ended for the right reason. */
  ghost predicate ReportEffect<V>(kv: map<string, V>, r: Sweep<V>, ps: seq<Pass>, n: nat, moved: set<string>, lost: nat)
    requires n <= |ps|
  {
    && r.moved + lost == |moved|
    && (r.stop == Done ==> lost == 0)
    && (r.stop != StoreFailed ==>
          && moved == ReachedFrom(kv, ps, n)
          && r.stop == if RejectedFrom(kv, ps, n) then MalformedKey else Done)
  }

  lemma CleanPass<V>(kv: map<string, V>, ps: seq<Pass>, n: nat)
    requires n < |ps| && !AnyRejected(kv, ps[n])
    ensures ReachedFrom(kv, ps, n) == ReachedIn(kv, ps[n]) + ReachedFrom(kv, ps, n + 1)
    ensures RejectedFrom(kv, ps, n) <==> RejectedFrom(kv, ps, n + 1)
  {
  }

  lemma SumOfDisjoint(a: set<string>, b: set<string>)
    requires a !! b
    ensures |a + b| == |a| + |b|
  {
  }

  /** A clean pass followed by the later passes. */
  lemma ReportsJoin<V>(kv: map<string, V>, mid: map<string, V>, t: Sweep<V>, ps: seq<Pass>, n: nat, a: set<string>,
                       b: set<string>, lost: nat)
    requires n < |ps| && a == ReachedIn(kv, ps[n]) && !AnyRejected(kv, ps[n])
    requires ReachedFrom(mid, ps, n + 1) == ReachedFrom(kv, ps, n + 1) - a
    requires RejectedFrom(mid, ps, n + 1) <==> RejectedFrom(kv, ps, n + 1)
    requires b <= ReachedFrom(mid, ps, n + 1) && ReportEffect(mid, t, ps, n + 1, b, lost)
    ensures a !! b && a + b <= ReachedFrom(kv, ps, n)
    ensures ReportEffect(kv, t.(moved := |a| + t.moved), ps, n, a + b, lost)
  {
    CleanPass(kv, ps, n);
    SumOfDisjoint(a, b);
  }

  /** r is what came of passes n and later. */
  ghost predicate RunEffect<V>(kv: map<string, V>, r: Sweep<V>, ps: seq<Pass>, n: nat, moved: set<string>, lost: nat)
    requires n <= |ps|
  {
    StoreEffect(kv, r.kv, ps, n, moved) && ReportEffect(kv, r, ps, n, moved, lost)
  }

  lemma NothingLeft<V>(kv: map<string, V>, faults: Faults, ps: seq<Pass>)
    ensures RunEffect(kv, Sweep(kv, faults, 0, Done), ps, |ps|, {}, 0)
  {
    RenamedNothing(kv);
  }

  /** A pass that meets a rejected key is the last one that moves anything. */
  lemma LastPass<V>(kv: map<string, V>, ps: seq<Pass>, n: nat)
    requires n < |ps|
    ensures ReachedIn(kv, ps[n]) <= ReachedFrom(kv, ps, n)
    ensures AnyRejected(kv, ps[n]) ==> ReachedFrom(kv, ps, n) == ReachedIn(kv, ps[n]) && RejectedFrom(kv, ps, n)
  {
  }

  lemma PassEnds<V>(kv: map<string, V>, r: Sweep<V>, ps: seq<Pass>, n: nat, moved: set<string>)
    requires n < |ps| && PassEffect(kv, r, ps, n, moved) && r.stop != Done
    ensures RunEffect(kv, r.(moved := 0), ps, n, moved, r.moved)
  {
    LastPass(kv, ps, n);
  }

  lemma PassGoesOn<V>(kv: map<string, V>, r: Sweep<V>, t: Sweep<V>, ps: seq<Pass>, n: nat, moved: set<string>,
                      later: set<string>, lost: nat)
    requires Coherent(ps) && n < |ps| && PassEffect(kv, r, ps, n, moved) && r.stop == Done
    requires RunEffect(r.kv, t, ps, n + 1, later, lost)
    ensures RunEffect(kv, t.(moved := r.moved + t.moved), ps, n, moved + later, lost)
  {
    ReachedAfter(kv, ps, n + 1, moved);
    ReportsJoin(kv, r.kv, t, ps, n, moved, later, lost);
    MoveSets(kv, ps, moved, later);
  }

  /** The run, one pass at a time. */
  lemma RunStep<V>(kv: map<string, V>, faults: Faults, ps: seq<Pass>, n: nat, r: Sweep<V>)
    requires n < |ps| && r == PassRun(kv, faults, ps[n])
    ensures RunFrom(kv, faults, ps, n) == RunOn(r, ps, n + 1)
    ensures Unreported(kv, faults, ps, n) == UnreportedOn(r, ps, n + 1)
  {
  }

  /** What becomes of a run after pass n - 1 ended in r. */
  ghost function RunOn<V>(r: Sweep<V>, ps: seq<Pass>, n: nat): Sweep<V>
    requires n <= |ps|
  {
    if r.stop != Done then r.(moved := 0)
    else
      var t := RunFrom(r.kv, r.faults, ps, n);
      t.(moved := r.moved + t.moved)
  }

  ghost function UnreportedOn<V>(r: Sweep<V>, ps: seq<Pass>, n: nat): nat
    requires n <= |ps|
  {
    if r.stop != Done then r.moved else Unreported(r.kv, r.faults, ps, n)
  }

  /** Any run of passes n and later, cut short anywhere or not. */
  lemma {:induction false} RunMoves<V>(kv: map<string, V>, faults: Faults, ps: seq<Pass>, n: nat)
    returns (moved: set<string>)
    requires Coherent(ps) && n <= |ps|
    ensures RunEffect(kv, RunFrom(kv, faults, ps, n), ps, n, moved, Unreported(kv, faults, ps, n))
    decreases |ps| - n
  {
    if n == |ps| {
      moved := {};
      NothingLeft(kv, faults, ps);
    } else {
      moved := PassMoves(kv, faults, ps, n);
      var r := PassRun(kv, faults, ps[n]);
      RunStep(kv, faults, ps, n, r);
      moved := RunGoesOn(kv, r, ps, n, moved);
    }
  }

  lemma {:induction false} RunGoesOn<V>(kv: map<string, V>, r: Sweep<V>, ps: seq<Pass>, n: nat, first: set<string>)
    returns (moved: set<string>)
    requires Coherent(ps) && n < |ps| && PassEffect(kv, r, ps, n, first)
    ensures RunEffect(kv, RunOn(r, ps, n + 1), ps, n, moved, UnreportedOn(r, ps, n + 1))
    decreases |ps| - n, 0
  {
    if r.stop == Done {
      var later := RunMoves(r.kv, r.faults, ps, n + 1);
      var t := RunFrom(r.kv, r.faults, ps, n + 1);
      PassGoesOn(kv, r, t, ps, n, first, later, Unreported(r.kv, r.faults, ps, n + 1));
      moved := first + later;
    } else {
      PassEnds(kv, r, ps, n, first);
      moved := first;
    }
  }

  predicate ClaimedFrom(ps: seq<Pass>, n: nat, k: string) {
    exists i :: n <= i < |ps| && Claims(ps[i], k)
  }

  /** With nothing rejected, every claimed key is reached. */
  lemma {:induction false} AllReached<V>(kv: map<string, V>, ps: seq<Pass>, n: nat)
    requires n <= |ps| && !RejectedFrom(kv, ps, n)
    ensures forall k :: k in ReachedFrom(kv, ps, n) <==> k in kv && ClaimedFrom(ps, n, k)
    decreases |ps| - n
  {
    if n < |ps| {
      assert !AnyRejected(kv, ps[n]);
      assert !RejectedFrom(kv, ps, n + 1);
      AllReached(kv, ps, n + 1);
      forall k ensures k in ReachedIn(kv, ps[n]) <==> k in kv && Claims(ps[n], k) {}
      forall k ensures ClaimedFrom(ps, n, k) <==> Claims(ps[n], k) || ClaimedFrom(ps, n + 1, k) {
        ClaimedNext(ps, n, k);
      }
    }
  }

  lemma ClaimedNext(ps: seq<Pass>, n: nat, k: string)
    requires n < |ps|
    ensures ClaimedFrom(ps, n, k) <==> Claims(ps[n], k) || ClaimedFrom(ps, n + 1, k)
  {
  }

  // ---------------------------------------------------------------- theorems

  ghost function Run<V>(kv: map<string, V>, faults: Faults, ps: seq<Pass>): Sweep<V> {
    RunFrom(kv, faults, ps, 0)
  }

  ghost function Reached<V>(kv: map<string, V>, ps: seq<Pass>): set<string> {
    ReachedFrom(kv, ps, 0)
  }

  /** What a run that is not cut short by the store leaves behind, on any store. */
  ghost function Settled<V>(kv: map<string, V>, ps: seq<Pass>): map<string, V> {
    Renamed(kv, MovesOn(ps, Reached(kv, ps)))
  }

  /** The store after a series of attempts, each with its own faults. */
  ghost function Attempts<V>(kv: map<string, V>, tries: seq<Faults>, ps: seq<Pass>): map<string, V> {
    if tries == [] then kv
    else Run(Attempts(kv, tries[..|tries| - 1], ps), tries[|tries| - 1], ps).kv
  }

  lemma {:induction false} AttemptsMove<V>(kv: map<string, V>, tries: seq<Faults>,
                                           ps: seq<Pass>) returns (moved: set<string>)
    requires Coherent(ps)
    ensures AllClaimed(ps, moved) && moved <= Reached(kv, ps)
    ensures Attempts(kv, tries, ps) == Renamed(kv, MovesOn(ps, moved))
    decreases |tries|
  {
    if tries == [] {
      moved := {};
      RenamedNothing(kv);
    } else {
      moved := AttemptsMove(kv, tries[..|tries| - 1], ps);
      var mid := Attempts(kv, tries[..|tries| - 1], ps);
      var more := RunMoves(mid, tries[|tries| - 1], ps, 0);
      ReachedAfter(kv, ps, 0, moved);
      MoveSets(kv, ps, moved, more);
      moved := moved + more;
    }
  }

  /** Picking up from a store in which only some reachable keys moved: the rest still counts
      as reachable, and moving it completes the job. */
  lemma Resume<V>(kv: map<string, V>, ps: seq<Pass>, moved: set<string>)
    requires Coherent(ps) && AllClaimed(ps, moved) && moved <= Reached(kv, ps)
    ensures var mid := Renamed(kv, MovesOn(ps, moved));
            && Settled(mid, ps) == Settled(kv, ps)
            && (RejectedFrom(mid, ps, 0) <==> RejectedFrom(kv, ps, 0))
  {
    ReachedAfter(kv, ps, 0, moved);
    var rest := Reached(kv, ps) - moved;
    assert moved + rest == Reached(kv, ps);
    MoveSets(kv, ps, moved, rest);
  }

  /** However often and wherever earlier attempts were cut short, a run the store does not
      fail ends in the store, and for the reason, of one uninterrupted run. */
  lemma AttemptsConverge<V>(kv: map<string, V>, tries: seq<Faults>, faults: Faults, ps: seq<Pass>)
    requires Coherent(ps)
    requires Run(Attempts(kv, tries, ps), faults, ps).stop != StoreFailed
    ensures var last := Run(Attempts(kv, tries, ps), faults, ps);
            && last.kv == Settled(kv, ps)
            && last.stop == if RejectedFrom(kv, ps, 0) then MalformedKey else Done
  {
    var moved := AttemptsMove(kv, tries, ps);
    Resume(kv, ps, moved);
    var _ := RunMoves(Attempts(kv, tries, ps), faults, ps, 0);
  }

  /** Once a run was not cut short, running again moves and reports nothing. */
  lemma SettledIsStable<V>(kv: map<string, V>, faults: Faults, ps: seq<Pass>)
    requires Coherent(ps)
    ensures Run(Settled(kv, ps), faults, ps).kv == Settled(kv, ps)
    ensures Run(Settled(kv, ps), faults, ps).moved == 0
  {
    ReachedAfter(kv, ps, 0, Reached(kv, ps));
    var moved := RunMoves(Settled(kv, ps), faults, ps, 0);
    assert moved == {};
    RenamedNothing(Settled(kv, ps));
    assert MovesOn(ps, moved) == map[];
  }

  /** The counts of an attempt and of the run that completes it fall short of the number of
      keys moved by exactly what the failing pass of the attempt had moved. */
  lemma CountsFallShort<V>(kv: map<string, V>, first: Faults, second: Faults, ps: seq<Pass>)
    requires Coherent(ps)
    requires Run(Run(kv, first, ps).kv, second, ps).stop == Done
    ensures Run(kv, first, ps).moved + Run(Run(kv, first, ps).kv, second, ps).moved
         == |Reached(kv, ps)| - Unreported(kv, first, ps, 0)
  {
    var moved := RunMoves(kv, first, ps, 0);
    var rest := RunMoves(Run(kv, first, ps).kv, second, ps, 0);
    RestCount(kv, ps, moved, rest);
  }

  lemma RestCount<V>(kv: map<string, V>, ps: seq<Pass>, moved: set<string>, rest: set<string>)
    requires Coherent(ps) && AllClaimed(ps, moved) && moved <= Reached(kv, ps)
    requires rest == Reached(Renamed(kv, MovesOn(ps, moved)), ps)
    ensures |moved| + |rest| == |Reached(kv, ps)|
  {
    ReachedAfter(kv, ps, 0, moved);
    SplitCount(Reached(kv, ps), moved, rest);
  }

  lemma SplitCount(all: set<string>, a: set<string>, b: set<string>)
    requires a <= all && b == all - a
    ensures |a| + |b| == |all|
  {
  }

  // ---------------------------------------------------------------- the code

  /** A sweep continued after `moved` earlier moves. */
  function Plus<V>(r: Sweep<V>, moved: nat): Sweep<V> {
    r.(moved := r.moved + moved)
  }

  /** Walk a pass's keys. */
  method Walk<V>(db: Store<V>, p: Pass, keys: seq<string>) returns (moved: nat, stop: Stop)
    modifies db
    ensures Sweep(db.kv, db.faults, moved, stop) == SweepFrom(old(db.kv), old(db.faults), p.plan, keys)
  {
    moved := 0;
    ghost var want := SweepFrom(db.kv, db.faults, p.plan, keys);
    for i := 0 to |keys|
      invariant Plus(SweepFrom(db.kv, db.faults, p.plan, keys[i..]), moved) == want
    {
      var k := keys[i];
      assert keys[i..][0] == k && keys[i..][1..] == keys[i + 1..];
      match p.plan(k)
      case Skip =>
      case Malformed => return moved, MalformedKey;
      case Rename(dst) =>
        var moveOk := db.Move(k, dst);
        if !moveOk { return moved, StoreFailed; }
        moved := moved + 1;
    }
    stop := Done;
  }

  /** List the keys of one pass, then walk them. */
  method RunPass<V>(db: Store<V>, p: Pass) returns (moved: nat, stop: Stop)
    modifies db
    ensures Sweep(db.kv, db.faults, moved, stop) == PassRun(old(db.kv), old(db.faults), p)
  {
    var ok, keys := db.ListKeys(p.prefix);
    if !ok { return 0, StoreFailed; }
    moved, stop := Walk(db, p, keys);
  }

  /** All passes in order; the first one that does not end cleanly ends the run, and what it
      moved itself is not part of the returned total. */
  method RunPasses<V>(db: Store<V>, ps: seq<Pass>) returns (total: nat, stop: Stop)
    modifies db
    ensures Sweep(db.kv, db.faults, total, stop) == Run(old(db.kv), old(db.faults), ps)
  {
    total := 0;
    ghost var want := Run(db.kv, db.faults, ps);
    for i := 0 to |ps|
      invariant Plus(RunFrom(db.kv, db.faults, ps, i), total) == want
    {
      var n, why := RunPass(db, ps[i]);
      if why != Done { return total, why; }
      total := total + n;
    }
    stop := Done;
  }
}
