/** A migration made of passes. Each pass lists the keys under one prefix, in order, and
    for every key decides to skip it, to move it, or to give up. The store may fail at any
    operation, which ends the run. */
module KeySweep {
  import opened Strings
  import opened KeyStore
  import opened KeyMoves

  datatype Verdict = Skip | Rename(dst: string) | Malformed

  datatype Pass = Pass(prefix: string, plan: string -> Verdict)

  predicate Claims(p: Pass, k: string) {
    HasPrefix(k, p.prefix) && p.plan(k).Rename?
  }

  predicate Rejects(p: Pass, k: string) {
    HasPrefix(k, p.prefix) && p.plan(k).Malformed?
  }

  function Dest(p: Pass, k: string): string
    requires Claims(p, k)
  {
    p.plan(k).dst
  }

  /** The passes never interfere: destinations are settled for every pass, no pass has a say
      in a key another one moves, and no two keys share a destination. */
  ghost predicate Coherent(ps: seq<Pass>) {
    && (forall i, j, k {:trigger Dest(ps[i], k), ps[j]} :: 0 <= i < |ps| && 0 <= j < |ps| && Claims(ps[i], k) ==>
          !Claims(ps[j], Dest(ps[i], k)) && !Rejects(ps[j], Dest(ps[i], k)))
    && (forall i, j, k {:trigger Claims(ps[i], k), Claims(ps[j], k)} ::
          0 <= i < |ps| && 0 <= j < |ps| && Claims(ps[i], k) && Claims(ps[j], k) ==> i == j)
    && (forall i, j, k {:trigger Claims(ps[i], k), Rejects(ps[j], k)} ::
          0 <= i < |ps| && 0 <= j < |ps| && Claims(ps[i], k) ==> !Rejects(ps[j], k))
    && (forall i, j, k, l {:trigger Dest(ps[i], k), Dest(ps[j], l)} ::
          0 <= i < |ps| && 0 <= j < |ps| && Claims(ps[i], k) && Claims(ps[j], l) ==>
            Dest(ps[i], k) == Dest(ps[j], l) ==> k == l)
  }

  ghost predicate Claimed(ps: seq<Pass>, k: string) {
    exists i :: 0 <= i < |ps| && Claims(ps[i], k)
  }

  ghost function DestOf(ps: seq<Pass>, k: string): string
    requires Claimed(ps, k)
  {
    var i :| 0 <= i < |ps| && Claims(ps[i], k);
    Dest(ps[i], k)
  }

  ghost predicate AllClaimed(ps: seq<Pass>, moved: set<string>) {
    forall k :: k in moved ==> Claimed(ps, k)
  }

  /** Where the passes send a set of claimed keys. */
  ghost function MovesOn(ps: seq<Pass>, moved: set<string>): Moves
    requires AllClaimed(ps, moved)
  {
    map k | k in moved :: DestOf(ps, k)
  }

  lemma MovesOnClean(ps: seq<Pass>, moved: set<string>)
    requires Coherent(ps) && AllClaimed(ps, moved)
    ensures Clean(MovesOn(ps, moved))
    ensures forall d :: d in MovesOn(ps, moved).Values ==>
              !Claimed(ps, d) && forall j :: 0 <= j < |ps| ==> !Rejects(ps[j], d)
  {
  }

  /** Moving two disjoint sets one after the other is moving their union. */
  lemma MoveSets<V>(kv: map<string, V>, ps: seq<Pass>, a: set<string>, b: set<string>)
    requires Coherent(ps) && AllClaimed(ps, a) && AllClaimed(ps, b) && a !! b && a + b <= kv.Keys
    ensures b <= Renamed(kv, MovesOn(ps, a)).Keys
    ensures Renamed(Renamed(kv, MovesOn(ps, a)), MovesOn(ps, b)) == Renamed(kv, MovesOn(ps, a + b))
  {
    assert MovesOn(ps, a + b) == MovesOn(ps, a) + MovesOn(ps, b);
    MovesOnClean(ps, a + b);
    RenamedTwice(kv, MovesOn(ps, a), MovesOn(ps, b));
  }

  lemma MoveOne<V>(kv: map<string, V>, ps: seq<Pass>, n: nat, k: string)
    requires Coherent(ps) && n < |ps| && Claims(ps[n], k) && k in kv
    ensures Claimed(ps, k)
    ensures Moved(kv, k, Dest(ps[n], k)) == Renamed(kv, MovesOn(ps, {k}))
  {
    MovesOnClaim(ps, n, k);
    assert MovesOn(ps, {k}) == map[k := Dest(ps[n], k)];
    RenamedOne(kv, k, Dest(ps[n], k));
  }

  // ---------------------------------------------------------------- one pass

  datatype Stop = Done | StoreFailed | MalformedKey | BadChainID

  /** The store afterwards, the faults left, the number reported and why it ended. */
  datatype Sweep<V> = Sweep(kv: map<string, V>, faults: Faults, moved: nat, stop: Stop)

  function SweepFrom<V>(kv: map<string, V>, faults: Faults, plan: string -> Verdict, keys: seq<string>): Sweep<V>
    decreases |keys|
  {
    if keys == [] then Sweep(kv, faults, 0, Done)
    else
      match plan(keys[0])
      case Skip => SweepFrom(kv, faults, plan, keys[1..])
      case Malformed => Sweep(kv, faults, 0, MalformedKey)
      case Rename(dst) =>
        if Failing(faults) || keys[0] !in kv then Sweep(kv, After(faults), 0, StoreFailed)
        else
          var r := SweepFrom(Moved(kv, keys[0], dst), After(faults), plan, keys[1..]);
          r.(moved := r.moved + 1)
  }

  /** The keys such a sweep moves. */
  ghost function SweptKeys(faults: Faults, plan: string -> Verdict, keys: seq<string>): (moved: set<string>)
    ensures forall k :: k in moved ==> k in keys && plan(k).Rename?
    decreases |keys|
  {
    if keys == [] then {}
    else
      match plan(keys[0])
      case Skip => SweptKeys(faults, plan, keys[1..])
      case Malformed => {}
      case Rename(_) =>
        if Failing(faults) then {} else {keys[0]} + SweptKeys(After(faults), plan, keys[1..])
  }

  /** A sorted list of keys of the store under the prefix of pass n. */
  ghost predicate Walkable<V>(kv: map<string, V>, prefix: string, keys: seq<string>) {
    && Ascending(keys)
    && forall i :: 0 <= i < |keys| ==> keys[i] in kv && HasPrefix(keys[i], prefix)
  }

  lemma MovesOnClaim(ps: seq<Pass>, n: nat, k: string)
    requires Coherent(ps) && n < |ps| && Claims(ps[n], k)
    ensures Claimed(ps, k) && DestOf(ps, k) == Dest(ps[n], k)
  {
  }

  lemma {:induction false} SweepMoves<V>(kv: map<string, V>, faults: Faults, ps: seq<Pass>, n: nat, keys: seq<string>)
    requires Coherent(ps) && n < |ps| && Walkable(kv, ps[n].prefix, keys)
    ensures var moved := SweptKeys(faults, ps[n].plan, keys);
            && AllClaimed(ps, moved) && moved <= kv.Keys
            && SweepFrom(kv, faults, ps[n].plan, keys).kv == Renamed(kv, MovesOn(ps, moved))
            && SweepFrom(kv, faults, ps[n].plan, keys).moved == |moved|
    decreases |keys|
  {
    if keys == [] {
      RenamedNothing(kv);
    } else {
      var k, rest, plan := keys[0], keys[1..], ps[n].plan;
      AscendingDistinct(keys);
      match plan(k)
      case Skip => SweepMoves(kv, faults, ps, n, rest);
      case Malformed => RenamedNothing(kv);
      case Rename(dst) =>
        if Failing(faults) {
          RenamedNothing(kv);
        } else {
          SweepMovesOne(kv, faults, ps, n, keys);
        }
    }
  }

  lemma WalkableRest<V>(kv: map<string, V>, prefix: string, keys: seq<string>, d: string)
    requires Walkable(kv, prefix, keys) && keys != []
    ensures keys[0] in kv && HasPrefix(keys[0], prefix) && keys[0] !in keys[1..]
    ensures Walkable(Moved(kv, keys[0], d), prefix, keys[1..])
    ensures forall k :: k in keys[1..] ==> k in kv
  {
    AscendingDistinct(keys);
  }

  /** A walk whose first key is moved. */
  lemma SweepOne<V>(kv: map<string, V>, faults: Faults, plan: string -> Verdict, keys: seq<string>)
    requires keys != [] && plan(keys[0]).Rename? && !Failing(faults) && keys[0] in kv
    ensures var t := SweepFrom(Moved(kv, keys[0], plan(keys[0]).dst), After(faults), plan, keys[1..]);
            && SweepFrom(kv, faults, plan, keys) == t.(moved := t.moved + 1)
            && SweptKeys(faults, plan, keys) == {keys[0]} + SweptKeys(After(faults), plan, keys[1..])
  {
  }

  /** Moving k and then the keys `later` is moving them all. */
  lemma MoveThen<V>(kv: map<string, V>, ps: seq<Pass>, n: nat, k: string, later: set<string>, end: map<string, V>)
    requires Coherent(ps) && n < |ps| && Claims(ps[n], k) && k in kv && k !in later && later <= kv.Keys
    requires AllClaimed(ps, later) && end == Renamed(Moved(kv, k, Dest(ps[n], k)), MovesOn(ps, later))
    ensures AllClaimed(ps, {k} + later) && end == Renamed(kv, MovesOn(ps, {k} + later))
  {
    MoveOne(kv, ps, n, k);
    MoveSets(kv, ps, {k}, later);
  }

  lemma {:induction false} SweepMovesOne<V>(kv: map<string, V>, faults: Faults, ps: seq<Pass>, n: nat,
                                            keys: seq<string>)
    requires Coherent(ps) && n < |ps| && Walkable(kv, ps[n].prefix, keys)
    requires keys != [] && ps[n].plan(keys[0]).Rename? && !Failing(faults)
    ensures var moved := SweptKeys(faults, ps[n].plan, keys);
            && AllClaimed(ps, moved) && moved <= kv.Keys
            && SweepFrom(kv, faults, ps[n].plan, keys).kv == Renamed(kv, MovesOn(ps, moved))
            && SweepFrom(kv, faults, ps[n].plan, keys).moved == |moved|
    decreases |keys|, 0
  {
    var k, rest := keys[0], keys[1..];
    var later := SweptKeys(After(faults), ps[n].plan, rest);
    WalkableRest(kv, ps[n].prefix, keys, Dest(ps[n], k));
    SweepMoves(Moved(kv, k, Dest(ps[n], k)), After(faults), ps, n, rest);
    SweepOne(kv, faults, ps[n].plan, keys);
    MoveThen(kv, ps, n, k, later, SweepFrom(kv, faults, ps[n].plan, keys).kv);
  }

  /** The moved keys are claimed ones with no rejected key in front; and unless the store
      failed they are all of those, and the walk ended cleanly when nothing is rejected. */
  ghost predicate ReachOk(p: Pass, keys: seq<string>, moved: set<string>, stop: Stop) {
    && (forall i :: 0 <= i < |keys| && keys[i] in moved ==> Ahead(p, keys, i))
    && (stop != StoreFailed ==>
          && (forall i :: 0 <= i < |keys| && Ahead(p, keys, i) ==> keys[i] in moved)
          && stop == if AnyRejects(p, keys) then MalformedKey else Done)
  }

  ghost predicate AnyRejects(p: Pass, keys: seq<string>) {
    exists i :: 0 <= i < |keys| && Rejects(p, keys[i])
  }

  /** The first key skipped or moved, the rest walked. */
  lemma ReachNext(p: Pass, keys: seq<string>, later: set<string>, moved: set<string>, stop: Stop)
    requires keys != [] && HasPrefix(keys[0], p.prefix) && !p.plan(keys[0]).Malformed?
    requires keys[0] !in keys[1..] && keys[0] !in later && ReachOk(p, keys[1..], later, stop)
    requires moved == if p.plan(keys[0]).Rename? then {keys[0]} + later else later
    ensures ReachOk(p, keys, moved, stop)
  {
  }

  /** A sweep never gets past a rejected key. Unless the store fails it moves every claimed
      key in front of the first rejected one, and ends cleanly when there is none. */
  lemma {:induction false} SweepReaches<V>(kv: map<string, V>, faults: Faults, p: Pass, keys: seq<string>)
    requires Walkable(kv, p.prefix, keys)
    ensures ReachOk(p, keys, SweptKeys(faults, p.plan, keys), SweepFrom(kv, faults, p.plan, keys).stop)
    decreases |keys|
  {
    if keys != [] {
      var k, rest := keys[0], keys[1..];
      AscendingDistinct(keys);
      assert k !in rest;
      match p.plan(k)
      case Malformed => assert Rejects(p, keys[0]);
      case Skip =>
        SweepReaches(kv, faults, p, rest);
        var later := SweptKeys(faults, p.plan, rest);
        ReachNext(p, keys, later, later, SweepFrom(kv, faults, p.plan, rest).stop);
      case Rename(dst) =>
        if !Failing(faults) {
          WalkableRest(kv, p.prefix, keys, dst);
          SweepReaches(Moved(kv, k, dst), After(faults), p, rest);
          var later := SweptKeys(After(faults), p.plan, rest);
          ReachNext(p, keys, later, {k} + later, SweepFrom(Moved(kv, k, dst), After(faults), p.plan, rest).stop);
        }
    }
  }

  /** Position i holds a claimed key and no rejected key stands in front of it. */
  ghost predicate Ahead(p: Pass, keys: seq<string>, i: nat)
    requires i < |keys|
  {
    Claims(p, keys[i]) && forall j :: 0 <= j < i ==> !Rejects(p, keys[j])
  }

  // ---------------------------------------------------------------- the whole migration

  ghost function PassRun<V>(kv: map<string, V>, faults: Faults, p: Pass): Sweep<V> {
    if Failing(faults) then Sweep(kv, After(faults), 0, StoreFailed)
    else SweepFrom(kv, After(faults), p.plan, Listing(WithPrefix(kv.Keys, p.prefix)))
  }

  /** Passes n and later. The pass that ends the run early adds nothing to the count. */
  ghost function RunFrom<V>(kv: map<string, V>, faults: Faults, ps: seq<Pass>, n: nat): Sweep<V>
    requires n <= |ps|
    decreases |ps| - n
  {
    if n == |ps| then Sweep(kv, faults, 0, Done)
    else
      var r := PassRun(kv, faults, ps[n]);
      if r.stop != Done then r.(moved := 0)
      else
        var t := RunFrom(r.kv, r.faults, ps, n + 1);
        t.(moved := r.moved + t.moved)
  }

  ghost predicate AnyRejected<V>(kv: map<string, V>, p: Pass) {
    exists k :: k in kv && Rejects(p, k)
  }

  /** The keys a pass moves when nothing fails: those before its first rejected key. */
  ghost function ReachedIn<V>(kv: map<string, V>, p: Pass): set<string> {
    set k | k in kv && Claims(p, k) && forall m :: m in kv && Rejects(p, m) ==> !Less(m, k)
  }

  /** The keys passes n and later move when nothing fails. */
  ghost function ReachedFrom<V>(kv: map<string, V>, ps: seq<Pass>, n: nat): (r: set<string>)
    requires n <= |ps|
    ensures r <= kv.Keys && AllClaimed(ps, r)
    decreases |ps| - n
  {
    if n == |ps| then {}
    else ReachedIn(kv, ps[n]) + if AnyRejected(kv, ps[n]) then {} else ReachedFrom(kv, ps, n + 1)
  }

  lemma ListedBefore(keys: seq<string>, i: nat, j: nat)
    requires Ascending(keys) && i < |keys| && j < |keys|
    ensures Less(keys[i], keys[j]) <==> i < j
  {
    if j < i { if Less(keys[i], keys[j]) { LessTransitive(keys[i], keys[j], keys[i]); } }
    LessIrreflexive(keys[i]);
  }

  lemma AheadIsReached<V>(kv: map<string, V>, p: Pass, i: nat)
    requires i < |Listing(WithPrefix(kv.Keys, p.prefix))|
    ensures var keys := Listing(WithPrefix(kv.Keys, p.prefix)); Ahead(p, keys, i) <==> keys[i] in ReachedIn(kv, p)
  {
    var keys := Listing(WithPrefix(kv.Keys, p.prefix));
    forall m | m in kv && Rejects(p, m)
      ensures exists j :: 0 <= j < |keys| && keys[j] == m && (Less(m, keys[i]) <==> j < i)
    {
      assert m in keys;
      var j :| 0 <= j < |keys| && keys[j] == m;
      ListedBefore(keys, j, i);
    }
    forall j | 0 <= j < i && Rejects(p, keys[j]) ensures Less(keys[j], keys[i]) {
      ListedBefore(keys, j, i);
    }
  }

  ghost function Listed<V>(kv: map<string, V>, p: Pass): (keys: seq<string>)
    ensures Walkable(kv, p.prefix, keys)
    ensures forall k :: k in kv && HasPrefix(k, p.prefix) ==> exists i :: 0 <= i < |keys| && keys[i] == k
  {
    var keys := Listing(WithPrefix(kv.Keys, p.prefix));
    assert forall k :: k in kv && HasPrefix(k, p.prefix) ==> k in keys;
    keys
  }

  lemma PassReaches<V>(kv: map<string, V>, faults: Faults, p: Pass)
    ensures var swept := SweptKeys(faults, p.plan, Listed(kv, p));
            var stop := SweepFrom(kv, faults, p.plan, Listed(kv, p)).stop;
            && swept <= ReachedIn(kv, p)
            && (stop != StoreFailed ==>
                  swept == ReachedIn(kv, p) && stop == if AnyRejected(kv, p) then MalformedKey else Done)
  {
    var keys := Listed(kv, p);
    SweepReaches(kv, faults, p, keys);
    forall i | 0 <= i < |keys| ensures Ahead(p, keys, i) <==> keys[i] in ReachedIn(kv, p) {
      AheadIsReached(kv, p, i);
    }
    ReachedAll(kv, p, keys, SweptKeys(faults, p.plan, keys), SweepFrom(kv, faults, p.plan, keys).stop);
  }

  lemma ReachedAll<V>(kv: map<string, V>, p: Pass, keys: seq<string>, swept: set<string>, stop: Stop)
    requires ReachOk(p, keys, swept, stop) && (forall k :: k in swept ==> k in keys)
    requires forall i :: 0 <= i < |keys| ==> keys[i] in kv && (Ahead(p, keys, i) <==> keys[i] in ReachedIn(kv, p))
    requires forall k :: k in kv && HasPrefix(k, p.prefix) ==> exists i :: 0 <= i < |keys| && keys[i] == k
    ensures swept <= ReachedIn(kv, p)
    ensures stop != StoreFailed ==>
              swept == ReachedIn(kv, p) && stop == if AnyRejected(kv, p) then MalformedKey else Done
  {
  }

  /** r is what came of pass n: it moved exactly `moved`, all it could reach unless the
      store failed, and ended for the right reason. */
  ghost predicate PassEffect<V>(kv: map<string, V>, r: Sweep<V>, ps: seq<Pass>, n: nat, moved: set<string>)
    requires n < |ps|
  {
    && AllClaimed(ps, moved) && moved <= ReachedIn(kv, ps[n])
    && r.kv == Renamed(kv, MovesOn(ps, moved)) && r.moved == |moved|
    && (r.stop != StoreFailed ==>
          moved == ReachedIn(kv, ps[n]) && r.stop == if AnyRejected(kv, ps[n]) then MalformedKey else Done)
  }

  /** One pass, cut short anywhere or not. */
  lemma PassMoves<V>(kv: map<string, V>, faults: Faults, ps: seq<Pass>, n: nat) returns (moved: set<string>)
    requires Coherent(ps) && n < |ps|
    ensures PassEffect(kv, PassRun(kv, faults, ps[n]), ps, n, moved)
  {
    if Failing(faults) {
      moved := {};
      RenamedNothing(kv);
    } else {
      moved := SweptKeys(After(faults), ps[n].plan, Listed(kv, ps[n]));
      PassReaches(kv, After(faults), ps[n]);
      SweepMoves(kv, After(faults), ps, n, Listed(kv, ps[n]));
    }
  }

  /** With no fault to come, nothing but a rejected key ends a walk early. */
  lemma {:induction false} SweepUnfailing<V>(kv: map<string, V>, faults: Faults, p: Pass, keys: seq<string>)
    requires Walkable(kv, p.prefix, keys) && Unfailing(faults)
    ensures var r := SweepFrom(kv, faults, p.plan, keys); r.stop != StoreFailed && Unfailing(r.faults)
    decreases |keys|
  {
    if keys != [] {
      match p.plan(keys[0])
      case Skip => SweepUnfailing(kv, faults, p, keys[1..]);
      case Malformed =>
      case Rename(dst) =>
        UnfailingAfter(faults);
        WalkableRest(kv, p.prefix, keys, dst);
        SweepUnfailing(Moved(kv, keys[0], dst), After(faults), p, keys[1..]);
    }
  }

  lemma {:induction false} RunUnfailing<V>(kv: map<string, V>, faults: Faults, ps: seq<Pass>, n: nat)
    requires n <= |ps| && Unfailing(faults)
    ensures var r := RunFrom(kv, faults, ps, n); r.stop != StoreFailed && Unfailing(r.faults)
    decreases |ps| - n
  {
    if n < |ps| {
      UnfailingAfter(faults);
      SweepUnfailing(kv, After(faults), ps[n], Listed(kv, ps[n]));
      var r := PassRun(kv, faults, ps[n]);
      RunUnfailing(r.kv, r.faults, ps, n + 1);
    }
  }

  // ---------------------------------------------------------------- store operations

  /** The moves a walk makes when the store does not fail. */
  function SweepOps(plan: string -> Verdict, keys: seq<string>): nat {
    if keys == [] then 0
    else match plan(keys[0])
      case Skip => SweepOps(plan, keys[1..])
      case Malformed => 0
      case Rename(_) => 1 + SweepOps(plan, keys[1..])
  }

  /** r is the unfailing result `clean`, unless one of the next n operations fails. */
  ghost predicate Counted<V>(faults: Faults, r: Sweep<V>, clean: Sweep<V>, n: nat) {
    if FailsWithin(faults, n) then r.stop == StoreFailed
    else clean.stop != StoreFailed && r == clean.(faults := Dropped(faults, n))
  }

  /** A walk makes that number of operations: it fails exactly when one of them does. */
  lemma {:induction false} SweepCounted<V>(kv: map<string, V>, faults: Faults, p: Pass, keys: seq<string>)
    requires Walkable(kv, p.prefix, keys)
    ensures Counted(faults, SweepFrom(kv, faults, p.plan, keys), SweepFrom(kv, [], p.plan, keys),
                    SweepOps(p.plan, keys))
    decreases |keys|
  {
    if keys != [] {
      match p.plan(keys[0])
      case Skip => SweepCounted(kv, faults, p, keys[1..]);
      case Malformed =>
      case Rename(dst) =>
        WalkableRest(kv, p.prefix, keys, dst);
        SweepCounted(Moved(kv, keys[0], dst), After(faults), p, keys[1..]);
        OneOperation(faults);
        DroppedTwice(faults, 1, SweepOps(p.plan, keys[1..]));
    }
  }

  lemma {:induction false} SweepOpsMoved<V>(kv: map<string, V>, p: Pass, keys: seq<string>)
    requires Walkable(kv, p.prefix, keys)
    ensures SweepOps(p.plan, keys) == SweepFrom(kv, [], p.plan, keys).moved
    decreases |keys|
  {
    if keys != [] {
      match p.plan(keys[0])
      case Skip => SweepOpsMoved(kv, p, keys[1..]);
      case Malformed =>
      case Rename(dst) =>
        WalkableRest(kv, p.prefix, keys, dst);
        SweepOpsMoved(Moved(kv, keys[0], dst), p, keys[1..]);
    }
  }

  /** A pass also lists its keys. */
  lemma PassCounted<V>(kv: map<string, V>, faults: Faults, p: Pass)
    ensures Counted(faults, PassRun(kv, faults, p), PassRun(kv, [], p), 1 + PassRun(kv, [], p).moved)
  {
    SweepOpsMoved(kv, p, Listed(kv, p));
    OneOperation(faults);
    DroppedTwice(faults, 1, PassRun(kv, [], p).moved);
    if !Failing(faults) { SweepCounted(kv, After(faults), p, Listed(kv, p)); }
  }

  type Stage<!V> = (map<string, V>, Faults) -> Sweep<V>

  /** Running stages n and later, as a run does its passes. */
  ghost function StagesFrom<V>(kv: map<string, V>, faults: Faults, stages: seq<Stage<V>>, n: nat): Sweep<V>
    requires n <= |stages|
    decreases |stages| - n
  {
    if n == |stages| then Sweep(kv, faults, 0, Done)
    else
      var r := stages[n](kv, faults);
      if r.stop != Done then r.(moved := 0)
      else
        var t := StagesFrom(r.kv, r.faults, stages, n + 1);
        t.(moved := r.moved + t.moved)
  }

  /** Each stage makes one operation and one for each key it moves. */
  ghost predicate AllCounted<V(!new)>(stages: seq<Stage<V>>) {
    forall i, kv, faults :: 0 <= i < |stages| ==> StageCounted(stages[i], kv, faults)
  }

  ghost predicate StageCounted<V>(stage: Stage<V>, kv: map<string, V>, faults: Faults) {
    var clean := stage(kv, []);
    clean.faults == [] && Counted(faults, stage(kv, faults), clean, 1 + clean.moved)
  }

  lemma CountedThen<V>(faults: Faults, run: Sweep<V>, m: nat, moved: nat, t: Sweep<V>, rest: Sweep<V>, n: nat)
    requires Counted(Dropped(faults, m), t, rest, n) && rest.stop == Done
    requires if FailsWithin(faults, m) then run.stop == StoreFailed else run == t.(moved := moved + t.moved)
    ensures Counted(faults, run, rest.(moved := moved + rest.moved), m + n)
  {
    DroppedTwice(faults, m, n);
  }

  lemma StagesDone<V>(kv: map<string, V>, stages: seq<Stage<V>>, n: nat, first: Sweep<V>)
    requires n < |stages| && StagesFrom(kv, [], stages, n).stop == Done
    requires first == stages[n](kv, []) && first.faults == []
    ensures first.stop == Done && StagesFrom(first.kv, [], stages, n + 1).stop == Done
    ensures var rest := StagesFrom(first.kv, [], stages, n + 1);
            StagesFrom(kv, [], stages, n) == rest.(moved := first.moved + rest.moved)
  {
  }

  lemma StagesSplit<V>(kv: map<string, V>, faults: Faults, stages: seq<Stage<V>>, n: nat, first: Sweep<V>)
    requires n < |stages| && first == stages[n](kv, []) && first.stop == Done
    requires Counted(faults, stages[n](kv, faults), first, 1 + first.moved)
    ensures var m, run := 1 + first.moved, StagesFrom(kv, faults, stages, n);
            if FailsWithin(faults, m) then run.stop == StoreFailed
            else
              var t := StagesFrom(first.kv, Dropped(faults, m), stages, n + 1);
              run == t.(moved := first.moved + t.moved)
  {
  }

  lemma {:induction false} StagesCounted<V(!new)>(kv: map<string, V>, faults: Faults, stages: seq<Stage<V>>, n: nat)
    requires n <= |stages| && AllCounted(stages) && StagesFrom(kv, [], stages, n).stop == Done
    ensures var clean := StagesFrom(kv, [], stages, n);
            Counted(faults, StagesFrom(kv, faults, stages, n), clean, |stages| - n + clean.moved)
    decreases |stages| - n
  {
    if n < |stages| {
      var first := stages[n](kv, []);
      var m := 1 + first.moved;
      assert StageCounted(stages[n], kv, faults);
      StagesDone(kv, stages, n, first);
      StagesSplit(kv, faults, stages, n, first);
      StagesCounted(first.kv, Dropped(faults, m), stages, n + 1);
      var t, rest := StagesFrom(first.kv, Dropped(faults, m), stages, n + 1), StagesFrom(first.kv, [], stages, n + 1);
      CountedThen(faults, StagesFrom(kv, faults, stages, n), m, first.moved, t, rest, |stages| - n - 1 + rest.moved);
    }
  }

  ghost function StageOf<V>(p: Pass): Stage<V> {
    (kv, faults) => PassRun(kv, faults, p)
  }

  ghost function Stages<V>(ps: seq<Pass>): (stages: seq<Stage<V>>)
    ensures |stages| == |ps|
  {
    seq(|ps|, i requires 0 <= i < |ps| => StageOf(ps[i]))
  }

  lemma {:induction false} RunIsStages<V>(kv: map<string, V>, faults: Faults, ps: seq<Pass>, n: nat)
    requires n <= |ps|
    ensures StagesFrom(kv, faults, Stages(ps), n) == RunFrom(kv, faults, ps, n)
    decreases |ps| - n
  {
    if n < |ps| {
      var r := PassRun(kv, faults, ps[n]);
      assert Stages<V>(ps)[n](kv, faults) == r;
      RunIsStages(r.kv, r.faults, ps, n + 1);
    }
  }

  lemma PassesCounted<V(!new)>(ps: seq<Pass>)
    ensures AllCounted(Stages<V>(ps))
  {
    forall i, kv, faults | 0 <= i < |ps| ensures StageCounted(Stages<V>(ps)[i], kv, faults) {
      assert Stages<V>(ps)[i] == StageOf(ps[i]);
      PassCounted<V>(kv, faults, ps[i]);
      PassCounted<V>(kv, [], ps[i]);
    }
  }

  /** A complete run makes one operation for each pass and one for each key it moves: it
      completes exactly when none of them fails. */
  lemma RunCounted<V(!new)>(kv: map<string, V>, faults: Faults, ps: seq<Pass>, n: nat)
    requires n <= |ps| && RunFrom(kv, [], ps, n).stop == Done
    ensures var clean := RunFrom(kv, [], ps, n);
            Counted(faults, RunFrom(kv, faults, ps, n), clean, |ps| - n + clean.moved)
  {
    PassesCounted<V>(ps);
    RunIsStages(kv, faults, ps, n);
    RunIsStages(kv, [], ps, n);
    StagesCounted(kv, faults, Stages(ps), n);
  }
}
