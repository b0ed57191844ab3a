/** Retiring every derived wallet whose factory is not the current one. */
module WalletRetirement {
  import opened RunOnce
  import opened Collections
  import opened Strings
  import opened KeyStore
  import opened Rewrites

  datatype SmartWallet = SmartWallet(
    owner: Option<string>,
    address: Option<string>,
    factory: Option<string>,
    salt: Option<int>,
    isHidden: bool,
    staleDerivation: bool,
    retired: bool,
    kind: string)

  /** A stored value: a readable wallet record, or bytes that are not one. */
  datatype Value = Wallet(record: SmartWallet) | Opaque(data: string)

  const WALLET_KIND_EOA_7702 := "eoa_7702"
  const MA_V2_FACTORY := "0x00000000000017c61b5bee81050ec8efc9c6fecd"

  predicate IsEOA7702(w: SmartWallet) {
    w.kind == WALLET_KIND_EOA_7702
  }

  predicate IsLegacyFactoryWallet(w: SmartWallet) {
    w.address.Some? && !IsEOA7702(w) && (w.factory == None || w.factory != Some(MA_V2_FACTORY))
  }

  /** `w:<chain>:<owner>:<address>`, every segment non-empty. */
  predicate IsWalletKey(k: string) {
    var parts := Split(k);
    |parts| == 4 && parts[0] == "w" && parts[1] != "" && parts[2] != "" && parts[3] != ""
  }

  function Retire(w: SmartWallet): SmartWallet {
    w.(retired := true, isHidden := true)
  }

  predicate Due(k: string, v: Value) {
    HasPrefix(k, "w:") && IsWalletKey(k) && v.Wallet? && !v.record.retired && IsLegacyFactoryWallet(v.record)
  }

  function RetireRecord(v: Value): Value {
    match v
    case Wallet(w) => Wallet(Retire(w))
    case Opaque(_) => v
  }

  function RetireRule(): Rule<Value> {
    Rule((k, v) => Due(k, v), v => RetireRecord(v))
  }

  lemma RetireSettles()
    ensures Settles(RetireRule())
  {
  }

  /** kv' is kv with some due wallets retired, `count` of them; with all of them when done. */
  ghost predicate RetireEffect(kv: map<string, Value>, kv': map<string, Value>, count: nat, done: bool) {
    exists changed :: Applied(kv, kv', RetireRule(), changed, count, done)
  }

  /** One row of the scan: skipped unless due; a due wallet is rewritten after its workflows
      were counted for the log. Any failure leaves the row as it was. */
  method RetireRow(db: Store<Value>, k: string, v: Value) returns (retired: bool, ok: bool)
    requires HasPrefix(k, "w:")
    modifies db
    ensures retired == (ok && Due(k, v)) && (!Due(k, v) ==> ok)
    ensures db.kv == if retired then old(db.kv)[k := RetireRecord(v)] else old(db.kv)
    ensures Due(k, v) ==> (ok <==> !FailsWithin(old(db.faults), 2))
    ensures ok ==> db.faults == Dropped(old(db.faults), if Due(k, v) then 2 else 0)
  {
    OneOperation(db.faults);
    DroppedNext(db.faults, 1);
    if !IsWalletKey(k) { return false, true; }
    if !v.Wallet? { return false, true; }
    if v.record.retired || !IsLegacyFactoryWallet(v.record) { return false, true; }
    var countOk, _ := db.ListKeys(Join(["u", Split(k)[2], v.record.address.value, ""]));
    if !countOk { return false, false; }
    ok := db.Put(k, Wallet(Retire(v.record)));
    retired := ok;
  }

  ghost function DueWallets(kv: map<string, Value>): set<string> {
    set k | k in kv && Due(k, kv[k])
  }

  /** The operations of a complete run: one scan, then a count and a write for each due wallet. */
  ghost function RetireOps(kv: map<string, Value>): nat {
    1 + 2 * |DueWallets(kv)|
  }

  /** It completes exactly when none of that many operations fails. */
  method RetireLegacyFactoryWallets(db: Store<Value>) returns (retired: nat, ok: bool)
    modifies db
    ensures RetireEffect(old(db.kv), db.kv, retired, ok)
    ensures ok <==> !FailsWithin(old(db.faults), RetireOps(old(db.kv)))
    ensures ok ==> db.faults == Dropped(old(db.faults), RetireOps(old(db.kv)))
  {
    ghost var kv, faults := db.kv, db.faults;
    OneOperation(faults);
    NothingRetired(kv);
    var rows;
    ok, rows := db.GetByPrefix("w:");
    if !ok {
      MoreFail(faults, 1, RetireOps(kv));
      return 0, false;
    }
    retired, ok := RetireRows(db, rows, kv, faults);
  }

  lemma NothingRetired(kv: map<string, Value>)
    ensures RetireEffect(kv, kv, 0, false)
  {
    RewrittenNothing(kv, RetireRule());
    assert Applied(kv, kv, RetireRule(), {}, 0, false);
  }

  /** Rows 0 to i dealt with: the store, and the operations made. */
  ghost predicate Retiring(kv0: map<string, Value>, kv: map<string, Value>, faults0: Faults, faults: Faults, i: nat,
                           changed: set<string>, count: nat) {
    && Walked(kv0, kv, RetireRule(), Listing(WithPrefix(kv0.Keys, "w:")), i, changed, count)
    && faults == Dropped(faults0, 1 + 2 * count) && !FailsWithin(faults0, 1 + 2 * count)
  }

  method RetireRows(db: Store<Value>, rows: seq<(string, Value)>, ghost kv: map<string, Value>, ghost faults: Faults)
    returns (retired: nat, ok: bool)
    requires db.kv == kv && rows == Rows(kv, Listing(WithPrefix(kv.Keys, "w:")))
    requires !FailsWithin(faults, 1) && db.faults == Dropped(faults, 1)
    modifies db
    ensures RetireEffect(kv, db.kv, retired, ok)
    ensures ok <==> !FailsWithin(faults, RetireOps(kv))
    ensures ok ==> db.faults == Dropped(faults, RetireOps(kv))
  {
    RetiringStart(kv, faults);
    ghost var changed;
    retired, ok, changed := WalkRows(db, rows, kv, faults);
    if ok { RetiringEnds(kv, db.kv, faults, db.faults, changed, retired); }
  }

  method WalkRows(db: Store<Value>, rows: seq<(string, Value)>, ghost kv: map<string, Value>, ghost faults: Faults)
    returns (retired: nat, ok: bool, ghost changed: set<string>)
    requires rows == Rows(kv, Listing(WithPrefix(kv.Keys, "w:")))
    requires Retiring(kv, db.kv, faults, db.faults, 0, {}, 0)
    modifies db
    ensures if ok then Retiring(kv, db.kv, faults, db.faults, |rows|, changed, retired)
            else RetireEffect(kv, db.kv, retired, false) && FailsWithin(faults, RetireOps(kv))
  {
    retired, changed := 0, {};
    for i := 0 to |rows|
      invariant Retiring(kv, db.kv, faults, db.faults, i, changed, retired)
    {
      retired, ok, changed := NextRow(db, rows, i, retired, kv, faults, changed);
      if !ok { return; }
    }
    ok := true;
  }

  /** The loop's body: it goes on to the next row or ends the loop. */
  method NextRow(db: Store<Value>, rows: seq<(string, Value)>, i: nat, count: nat, ghost kv: map<string, Value>,
                 ghost faults: Faults, ghost before: set<string>)
    returns (retired: nat, ok: bool, ghost changed: set<string>)
    requires i < |rows| && rows == Rows(kv, Listing(WithPrefix(kv.Keys, "w:")))
    requires Retiring(kv, db.kv, faults, db.faults, i, before, count)
    modifies db
    ensures if ok then Retiring(kv, db.kv, faults, db.faults, i + 1, changed, retired)
            else RetireEffect(kv, db.kv, retired, false) && FailsWithin(faults, RetireOps(kv))
  {
    ghost var now, left := db.kv, db.faults;
    var hit;
    hit, ok := RetireRow(db, rows[i].0, rows[i].1);
    RetiringNext(kv, now, faults, left, i, before, count, db.kv, db.faults, ok);
    retired := if hit then count + 1 else count;
    changed := if hit then before + {rows[i].0} else before;
  }

  lemma RetiringStart(kv: map<string, Value>, faults: Faults)
    requires !FailsWithin(faults, 1)
    ensures Retiring(kv, kv, faults, Dropped(faults, 1), 0, {}, 0)
  {
    RewrittenNothing(kv, RetireRule());
    AscendingDistinct(Listing(WithPrefix(kv.Keys, "w:")));
  }

  /** What RetireRow does to row i. */
  lemma RetiringNext(kv0: map<string, Value>, kv: map<string, Value>, faults0: Faults, faults: Faults, i: nat,
                     changed: set<string>, count: nat, kv': map<string, Value>, faults': Faults, ok: bool)
    requires Retiring(kv0, kv, faults0, faults, i, changed, count) && i < |Listing(WithPrefix(kv0.Keys, "w:"))|
    requires var k := Listing(WithPrefix(kv0.Keys, "w:"))[i];
             && (Due(k, kv0[k]) ==> (ok <==> !FailsWithin(faults, 2))) && (!Due(k, kv0[k]) ==> ok)
             && kv' == (if ok && Due(k, kv0[k]) then kv[k := RetireRecord(kv0[k])] else kv)
             && (ok ==> faults' == Dropped(faults, if Due(k, kv0[k]) then 2 else 0))
    ensures var k := Listing(WithPrefix(kv0.Keys, "w:"))[i];
            if !ok then RetireEffect(kv0, kv', count, false) && FailsWithin(faults0, RetireOps(kv0))
            else if Due(k, kv0[k]) then Retiring(kv0, kv', faults0, faults', i + 1, changed + {k}, count + 1)
            else Retiring(kv0, kv', faults0, faults', i + 1, changed, count)
  {
    var keys := Listing(WithPrefix(kv0.Keys, "w:"));
    RetireSettles();
    WalkStep(kv0, kv, RetireRule(), keys, i, changed, count);
    RowOps(kv0, kv, keys, i, changed, count, faults0);
    assert Applied(kv0, kv, RetireRule(), changed, count, false);
  }

  lemma RetiringEnds(kv0: map<string, Value>, kv: map<string, Value>, faults0: Faults, faults: Faults,
                     changed: set<string>, count: nat)
    requires Retiring(kv0, kv, faults0, faults, |Listing(WithPrefix(kv0.Keys, "w:"))|, changed, count)
    ensures RetireEffect(kv0, kv, count, true) && 1 + 2 * count == RetireOps(kv0)
  {
    RetireSettles();
    WalkDone(kv0, kv, RetireRule(), Listing(WithPrefix(kv0.Keys, "w:")), changed, count);
    assert Applied(kv0, kv, RetireRule(), changed, count, true);
    assert DueWallets(kv0) == DueKeys(kv0, RetireRule());
  }

  /** Another due row means two more operations, and there are never more due rows met than
      due wallets. */
  lemma RowOps(kv0: map<string, Value>, kv: map<string, Value>, keys: seq<string>, i: nat, changed: set<string>,
               count: nat, faults: Faults)
    requires Walked(kv0, kv, RetireRule(), keys, i, changed, count) && i < |keys| && !FailsWithin(faults, 1 + 2 * count)
    ensures var left := Dropped(faults, 1 + 2 * count);
            && Dropped(left, 0) == left && Dropped(left, 2) == Dropped(faults, 1 + 2 * (count + 1))
            && (FailsWithin(left, 2) <==> FailsWithin(faults, 1 + 2 * (count + 1)))
            && (Due(keys[i], kv0[keys[i]]) && FailsWithin(left, 2) ==> FailsWithin(faults, RetireOps(kv0)))
  {
    var n := 1 + 2 * count;
    DroppedTwice(faults, n, 2);
    assert n + 2 == 1 + 2 * (count + 1);
    if Due(keys[i], kv0[keys[i]]) {
      RowsLeft(kv0, kv, keys, i, changed, count);
      MoreFail(faults, n + 2, RetireOps(kv0));
    }
  }

  lemma RowsLeft(kv0: map<string, Value>, kv: map<string, Value>, keys: seq<string>, i: nat, changed: set<string>,
                 count: nat)
    requires Walked(kv0, kv, RetireRule(), keys, i, changed, count) && i < |keys| && Due(keys[i], kv0[keys[i]])
    ensures count + 1 <= |DueWallets(kv0)|
  {
    var rule, more := RetireRule(), changed + {keys[i]};
    RetireSettles();
    WalkStep(kv0, kv, rule, keys, i, changed, count);
    assert DueKeys(kv0, rule) == DueWallets(kv0);
    SubsetSize(more, DueWallets(kv0));
  }

  // ---------------------------------------------------------------- what the code promises

  /** Key by key: due wallets come out retired and hidden, everything else is untouched, and
      nothing due is left. */
  lemma RetireExact(kv: map<string, Value>, kv': map<string, Value>, count: nat)
    requires RetireEffect(kv, kv', count, true)
    ensures kv'.Keys == kv.Keys && count == |DueWallets(kv)| && DueWallets(kv') == {}
    ensures forall k :: k in kv && !Due(k, kv[k]) ==> kv'[k] == kv[k]
    ensures forall k :: k in kv && Due(k, kv[k]) ==> kv'[k] == Wallet(Retire(kv[k].record))
  {
    var rule := RetireRule();
    var changed :| Applied(kv, kv', rule, changed, count, true);
    RetireSettles();
    DueAfter(kv, rule, changed);
    assert DueWallets(kv) == DueKeys(kv, rule) && DueWallets(kv') == DueKeys(kv', rule);
  }

  /** Cut short anywhere and run again: one run's result, and the counts add up. */
  lemma RetireResumes(kv: map<string, Value>, mid: map<string, Value>, end: map<string, Value>, first: nat,
                      second: nat, done: bool)
    requires RetireEffect(kv, mid, first, done) && RetireEffect(mid, end, second, true)
    ensures RetireEffect(kv, end, first + second, true)
    ensures done ==> end == mid && second == 0
  {
    var rule := RetireRule();
    var a :| Applied(kv, mid, rule, a, first, done);
    var b :| Applied(mid, end, rule, b, second, true);
    RetireSettles();
    AppliedResumes(kv, mid, end, rule, a, b, first, second, done);
  }

  ghost function AllRetired(kv: map<string, Value>): map<string, Value> {
    Rewritten(kv, RetireRule(), DueKeys(kv, RetireRule()))
  }

  /** A run cut short leaves the same wallets to be retired. */
  lemma RetireLeavesWork(kv: map<string, Value>, kv': map<string, Value>, count: nat, done: bool)
    requires RetireEffect(kv, kv', count, done)
    ensures AllRetired(kv') == AllRetired(kv)
    ensures done ==> kv' == AllRetired(kv)
  {
  }

  ghost function RetireRun(): (map<string, Value>, map<string, Value>, nat, bool) -> bool {
    (kv, kv', n: nat, done) => RetireEffect(kv, kv', n, done)
  }

  lemma RetireRunResumes(a: map<string, Value>, b: map<string, Value>, c: map<string, Value>, m: nat, n: nat,
                         done: bool)
    requires RetireRun()(a, b, m, done) && RetireRun()(b, c, n, true)
    ensures RetireRun()(a, c, m + n, true)
  {
    RetireResumes(a, b, c, m, n, done);
  }

  /** Any number of runs, each cut short anywhere but the last: one run's result, and the
      counts add up to the number of legacy wallets. */
  lemma RetireSeries(kvs: seq<map<string, Value>>, counts: seq<nat>, done: seq<bool>)
    requires Chained(RetireRun(), kvs, counts, done)
    ensures RetireEffect(kvs[0], kvs[|kvs| - 1], Total(counts), true) && Total(counts) == |DueWallets(kvs[0])|
  {
    forall a, b, c, m: nat, n: nat, d | RetireRun()(a, b, m, d) && RetireRun()(b, c, n, true)
      ensures RetireRun()(a, c, m + n, true)
    {
      RetireRunResumes(a, b, c, m, n, d);
    }
    Series(RetireRun(), kvs, counts, done);
    RetireExact(kvs[0], kvs[|kvs| - 1], Total(counts));
  }
}
