/** The wipe of chain-bucketed task rows: every key of the `t`, `u` and `history` namespaces
    whose second segment reads as an int64 is deleted, and nothing else. */
module KeyWipe {
  import opened Collections
  import opened RunOnce
  import opened Strings
  import opened KeyStore

  const NAMESPACES: seq<string> := ["t", "u", "history"]

  /** The scan's test on one key of a listed prefix. */
  predicate IntegerBucket(k: string) {
    var parts := SplitN(k, 3);
    |parts| >= 3 && ParseInt64(parts[1]).Some?
  }

  predicate Bucketed(k: string) {
    IntegerBucket(k) && exists ns :: ns in NAMESPACES && HasPrefix(k, ns + ":")
  }

  function BucketedKeys<V>(kv: map<string, V>): set<string> {
    set k | k in kv && Bucketed(k)
  }

  // ---------------------------------------------------------------- the classifier

  /** The first segment decides the namespace. */
  lemma NamespaceOf(ns: string, tail: string)
    requires ColonFree(ns)
    ensures (exists n :: n in NAMESPACES && HasPrefix(ns + ":" + tail, n + ":")) <==> ns in NAMESPACES
  {
    var k := ns + ":" + tail;
    assert k[..|ns| + 1] == ns + ":";
    HeadSegment(ns, k);
    forall n | n in NAMESPACES ensures HasPrefix(k, n + ":") <==> n == ns {
      if HasPrefix(k, n + ":") { HeadSegment(n, k); }
    }
  }

  /** A key `ns:seg:rest` is bucketed exactly when ns is one of the three and seg reads as
      an int64. */
  lemma BucketedShape(ns: string, seg: string, rest: string)
    requires ColonFree(ns) && ColonFree(seg)
    ensures Bucketed(ns + ":" + (seg + ":" + rest)) <==> ns in NAMESPACES && ParseInt64(seg).Some?
  {
    ThreeSegments(ns, seg, rest);
    NamespaceOf(ns, seg + ":" + rest);
  }

  /** Keys with fewer than three segments are kept. */
  lemma ShortKeysKept(k: string)
    requires Colons(k) < 2
    ensures !Bucketed(k)
  {
    JoinSplitN(k, 3);
  }

  /** Addresses and status letters never read as an int64. */
  lemma LettersNeverParse(seg: string, i: nat)
    requires 0 < i < |seg| && !IsDigit(seg[i])
    ensures ParseInt64(seg) == None
  {
  }

  // ---------------------------------------------------------------- ULIDs

  function Pow10(n: nat): (p: nat)
    ensures p >= 1
  {
    if n == 0 then 1 else 10 * Pow10(n - 1)
  }

  lemma {:induction false} DigitsConcat(a: string, b: string)
    requires AllDigits(a) && AllDigits(b)
    ensures AllDigits(a + b)
    ensures DigitsValue(a + b) == DigitsValue(a) * Pow10(|b|) + DigitsValue(b)
    decreases |b|
  {
    if b == [] {
      assert a + b == a;
    } else {
      var n := |b| - 1;
      var c, s := b[..n], a + b;
      DigitsConcat(a, c);
      assert s[..|s| - 1] == a + c && s[|s| - 1] == b[n];
      assert AllDigits(s);
      assert DigitsValue(s) == 10 * DigitsValue(a + c) + DigitValue(b[n]);
      assert DigitsValue(b) == 10 * DigitsValue(c) + DigitValue(b[n]);
      Shifted(DigitsValue(a), Pow10(n), DigitsValue(c), DigitValue(b[n]));
    }
  }

  lemma Shifted(x: nat, p: nat, y: nat, d: nat)
    ensures 10 * (x * p + y) + d == x * (10 * p) + (10 * y + d)
  {
  }

  lemma {:induction false} ZeroDigits(s: string)
    requires AllDigits(s)
    ensures DigitsValue(s) == 0 <==> forall i :: 0 <= i < |s| ==> s[i] == '0'
  {
    if s != [] {
      var t := s[..|s| - 1];
      ZeroDigits(t);
      assert forall i :: 0 <= i < |t| ==> t[i] == s[i];
    }
  }

  lemma Pow19()
    ensures Pow10(19) == 10_000_000_000_000_000_000
  {
    assert Pow10(5) == 100_000;
    assert Pow10(10) == 10_000_000_000;
    assert Pow10(15) == 1_000_000_000_000_000;
  }

  /** A 26-character id without a sign reads as an int64 exactly when it is seven zeros
      followed by nineteen digits of a value in range. */
  lemma UlidParses(id: string)
    requires |id| == 26 && id[0] != '-' && id[0] != '+'
    ensures ParseInt64(id).Some? <==>
            && (forall i :: 0 <= i < 7 ==> id[i] == '0')
            && AllDigits(id[7..])
            && DigitsValue(id[7..]) <= MAX_INT64
  {
    var a, b := id[..7], id[7..];
    assert id == a + b;
    assert AllDigits(id) <==> AllDigits(a) && AllDigits(b) by {
      assert forall i :: 0 <= i < 26 ==> id[i] == if i < 7 then a[i] else b[i - 7];
      assert forall i :: 0 <= i < 19 ==> b[i] == id[i + 7];
    }
    if AllDigits(id) {
      DigitsConcat(a, b);
      ZeroDigits(a);
      Pow19();
      assert forall i :: 0 <= i < 7 ==> a[i] == id[i];
      var v := DigitsValue(a);
      if v >= 1 { assert v * Pow10(19) >= Pow10(19); }
    } else {
      assert (forall i :: 0 <= i < 7 ==> id[i] == '0') ==> AllDigits(a);
    }
  }

  // ---------------------------------------------------------------- the code

  /** kv' is kv without some of the doomed rows, `deleted` of them; without all when done. */
  ghost predicate Removed<V>(kv: map<string, V>, kv': map<string, V>, doomed: set<string>, deleted: nat, done: bool) {
    var gone := kv.Keys - kv'.Keys;
    && kv'.Keys <= kv.Keys && (forall k :: k in kv' ==> kv'[k] == kv[k])
    && gone <= doomed && deleted == |gone| && (done ==> gone == doomed)
  }

  ghost predicate WipeEffect<V>(kv: map<string, V>, kv': map<string, V>, deleted: nat, done: bool) {
    Removed(kv, kv', BucketedKeys(kv), deleted, done)
  }

  predicate Scanned(k: string, n: nat)
    requires n <= |NAMESPACES|
  {
    IntegerBucket(k) && exists j :: 0 <= j < n && HasPrefix(k, NAMESPACES[j] + ":")
  }

  /** One listed prefix: the bucketed keys of the listing, in order. */
  method ScanBucketed(keys: seq<string>) returns (found: seq<string>)
    requires Distinct(keys)
    ensures Distinct(found)
    ensures forall k :: k in found <==> k in keys && IntegerBucket(k)
  {
    found := [];
    for i := 0 to |keys|
      invariant Distinct(found)
      invariant forall k :: k in found <==> k in keys[..i] && IntegerBucket(k)
    {
      assert keys[..i + 1] == keys[..i] + [keys[i]];
      if IntegerBucket(keys[i]) {
        found := found + [keys[i]];
      }
    }
    assert keys[..|keys|] == keys;
  }

  lemma NamespacesApart(i: nat, j: nat, k: string)
    requires i < j < |NAMESPACES| && HasPrefix(k, NAMESPACES[i] + ":")
    ensures !HasPrefix(k, NAMESPACES[j] + ":")
  {
    PrefixRest(k, NAMESPACES[i] + ":");
    assert k[0] == NAMESPACES[i][0];
    assert (NAMESPACES[i])[0] != (NAMESPACES[j])[0];
    if HasPrefix(k, NAMESPACES[j] + ":") { PrefixRest(k, NAMESPACES[j] + ":"); }
  }

  lemma ScanStep(stored: set<string>, earlier: seq<string>, found: seq<string>, i: nat)
    requires i < |NAMESPACES| && Distinct(earlier) && Distinct(found)
    requires forall k :: k in earlier <==> k in stored && Scanned(k, i)
    requires forall k :: k in found <==> k in stored && HasPrefix(k, NAMESPACES[i] + ":") && IntegerBucket(k)
    ensures Distinct(earlier + found)
    ensures forall k :: k in earlier + found <==> k in stored && Scanned(k, i + 1)
  {
    forall k | k in earlier ensures k !in found {
      var j :| 0 <= j < i && HasPrefix(k, NAMESPACES[j] + ":");
      NamespacesApart(j, i, k);
    }
    DistinctConcat(earlier, found);
    forall k ensures Scanned(k, i + 1) <==> Scanned(k, i) || (HasPrefix(k, NAMESPACES[i] + ":") && IntegerBucket(k)) {
      ScannedNext(k, i);
    }
  }

  lemma ScannedNext(k: string, i: nat)
    requires i < |NAMESPACES|
    ensures Scanned(k, i + 1) <==> Scanned(k, i) || (HasPrefix(k, NAMESPACES[i] + ":") && IntegerBucket(k))
  {
  }

  /** Deletes in order until done or until the store fails. */
  method DeleteAll<V>(db: Store<V>, keys: seq<string>) returns (deleted: nat, ok: bool)
    modifies db
    requires Distinct(keys) && forall k :: k in keys ==> k in db.kv
    ensures deleted <= |keys| && (ok <==> deleted == |keys|)
    ensures db.kv == old(db.kv) - Elements(keys[..deleted])
    ensures ok <==> !FailsWithin(old(db.faults), |keys|)
    ensures ok ==> db.faults == Dropped(old(db.faults), |keys|)
  {
    deleted := 0;
    assert Elements<string>([]) == {};
    while deleted < |keys|
      invariant deleted <= |keys|
      invariant db.kv == old(db.kv) - Elements(keys[..deleted])
      invariant db.faults == Dropped(old(db.faults), deleted) && !FailsWithin(old(db.faults), deleted)
    {
      DroppedNext(old(db.faults), deleted);
      ok := db.Delete(keys[deleted]);
      if !ok {
        MoreFail(old(db.faults), deleted + 1, |keys|);
        return;
      }
      ElementsNext(keys, deleted);
      deleted := deleted + 1;
    }
    ok := true;
  }

  /** The operations of a complete wipe: three listings and one delete for each bucketed key. */
  function WipeOps<V>(kv: map<string, V>): nat {
    |NAMESPACES| + |BucketedKeys(kv)|
  }

  /** It completes exactly when none of that many operations fails. */
  method WipeChainBucketedTaskKeys<V>(db: Store<V>) returns (deleted: nat, ok: bool)
    modifies db
    ensures WipeEffect(old(db.kv), db.kv, deleted, ok)
    ensures ok <==> !FailsWithin(old(db.faults), WipeOps(old(db.kv)))
    ensures ok ==> db.faults == Dropped(old(db.faults), WipeOps(old(db.kv)))
  {
    var toDelete: seq<string> := [];
    for i := 0 to |NAMESPACES|
      invariant db.kv == old(db.kv)
      invariant db.faults == Dropped(old(db.faults), i) && !FailsWithin(old(db.faults), i)
      invariant Distinct(toDelete)
      invariant forall k :: k in toDelete <==> k in db.kv && Scanned(k, i)
    {
      DroppedNext(old(db.faults), i);
      var scanOk, keys := db.ListKeys(NAMESPACES[i] + ":");
      if !scanOk {
        NothingWiped(db.kv);
        MoreFail(old(db.faults), i + 1, WipeOps(db.kv));
        return 0, false;
      }
      AscendingDistinct(keys);
      var found := ScanBucketed(keys);
      ScanStep(db.kv.Keys, toDelete, found, i);
      toDelete := toDelete + found;
    }
    DroppedTwice(old(db.faults), |NAMESPACES|, |toDelete|);
    deleted, ok := DeleteAll(db, toDelete);
    ScannedCount(old(db.kv), toDelete);
    WipedPrefix(old(db.kv), toDelete, deleted);
  }

  lemma NothingWiped<V>(kv: map<string, V>)
    ensures WipeEffect(kv, kv, 0, false)
  {
  }

  lemma ScannedIsBucketed(k: string)
    ensures Scanned(k, |NAMESPACES|) <==> Bucketed(k)
  {
  }

  lemma ScannedCount<V>(kv: map<string, V>, keys: seq<string>)
    requires Distinct(keys) && forall k :: k in keys <==> k in kv && Scanned(k, |NAMESPACES|)
    ensures |keys| == |BucketedKeys(kv)|
  {
    forall k ensures Scanned(k, |NAMESPACES|) <==> Bucketed(k) { ScannedIsBucketed(k); }
    assert Elements(keys) == BucketedKeys(kv);
    DistinctCount(keys);
  }

  lemma RemovedPrefix<V>(kv: map<string, V>, keys: seq<string>, n: nat)
    requires n <= |keys| && Distinct(keys) && Elements(keys) <= kv.Keys
    ensures Removed(kv, kv - Elements(keys[..n]), Elements(keys), n, n == |keys|)
  {
    var gone := Elements(keys[..n]);
    DistinctCount(keys[..n]);
    assert kv.Keys - (kv - gone).Keys == gone;
    assert keys[..|keys|] == keys;
  }

  lemma WipedPrefix<V>(kv: map<string, V>, keys: seq<string>, n: nat)
    requires n <= |keys| && Distinct(keys)
    requires forall k :: k in keys <==> k in kv && Scanned(k, |NAMESPACES|)
    ensures WipeEffect(kv, kv - Elements(keys[..n]), n, n == |keys|)
  {
    forall k ensures Scanned(k, |NAMESPACES|) <==> Bucketed(k) { ScannedIsBucketed(k); }
    assert Elements(keys) == BucketedKeys(kv);
    RemovedPrefix(kv, keys, n);
  }

  // ---------------------------------------------------------------- what the code promises

  /** Exactly the bucketed rows go; every other row keeps its value. */
  lemma WipeExact<V>(kv: map<string, V>, kv': map<string, V>, deleted: nat)
    requires WipeEffect(kv, kv', deleted, true)
    ensures forall k :: k in kv' <==> k in kv && !Bucketed(k)
    ensures forall k :: k in kv' ==> kv'[k] == kv[k]
    ensures deleted == |BucketedKeys(kv)| && |kv'| == |kv| - deleted
  {
    assert kv'.Keys == kv.Keys - BucketedKeys(kv);
    assert |kv'| == |kv'.Keys| && |kv| == |kv.Keys|;
  }

  lemma RemovedResumes<V>(kv: map<string, V>, mid: map<string, V>, end: map<string, V>, doomed: set<string>,
                          first: nat, second: nat, done: bool)
    requires doomed <= kv.Keys && Removed(kv, mid, doomed, first, done)
    requires Removed(mid, end, doomed * mid.Keys, second, true)
    ensures Removed(kv, end, doomed, first + second, true)
    ensures done ==> end == mid && second == 0
  {
    KeysResume(kv.Keys, mid.Keys, end.Keys, doomed);
    if done { assert end.Keys == mid.Keys; }
  }

  lemma KeysResume(all: set<string>, mid: set<string>, end: set<string>, doomed: set<string>)
    requires end <= mid <= all && all - mid <= doomed <= all && mid - end == doomed * mid
    ensures all - end == doomed
    ensures |all - mid| + |mid - end| == |doomed|
    ensures all - mid == doomed ==> mid == end
  {
    assert doomed == (all - mid) + (mid - end);
  }

  /** Cut short anywhere and run again: the same rows go as in one run, and the counts add up. */
  lemma WipeResumes<V>(kv: map<string, V>, mid: map<string, V>, end: map<string, V>, first: nat, second: nat,
                       done: bool)
    requires WipeEffect(kv, mid, first, done) && WipeEffect(mid, end, second, true)
    ensures WipeEffect(kv, end, first + second, true)
    ensures done ==> end == mid && second == 0
  {
    assert BucketedKeys(mid) == BucketedKeys(kv) * mid.Keys;
    RemovedResumes(kv, mid, end, BucketedKeys(kv), first, second, done);
  }

  /** A wipe cut short leaves the same rows to be wiped. */
  lemma WipeLeavesWork<V>(kv: map<string, V>, kv': map<string, V>, deleted: nat, done: bool)
    requires WipeEffect(kv, kv', deleted, done)
    ensures kv' - BucketedKeys(kv') == kv - BucketedKeys(kv)
    ensures done ==> kv' == kv - BucketedKeys(kv)
  {
    RemovedLeavesWork(kv, kv', BucketedKeys(kv), BucketedKeys(kv'), deleted, done);
  }

  lemma RemovedLeavesWork<V>(kv: map<string, V>, kv': map<string, V>, doomed: set<string>, left: set<string>,
                             deleted: nat, done: bool)
    requires Removed(kv, kv', doomed, deleted, done) && left == doomed * kv'.Keys
    ensures kv' - left == kv - doomed
    ensures done ==> kv' == kv - doomed
  {
  }

  ghost function Wiping<V>(): (map<string, V>, map<string, V>, nat, bool) -> bool {
    (kv, kv', n: nat, done) => WipeEffect(kv, kv', n, done)
  }

  lemma WipingResumes<V(!new)>(a: map<string, V>, b: map<string, V>, c: map<string, V>, m: nat, n: nat, done: bool)
    requires Wiping<V>()(a, b, m, done) && Wiping<V>()(b, c, n, true)
    ensures Wiping<V>()(a, c, m + n, true)
  {
    WipeResumes(a, b, c, m, n, done);
  }

  /** Any number of wipes, each cut short anywhere but the last: the same rows go as in one
      run, and the counts add up. */
  lemma WipeSeries<V(!new)>(kvs: seq<map<string, V>>, counts: seq<nat>, done: seq<bool>)
    requires Chained(Wiping<V>(), kvs, counts, done)
    ensures WipeEffect(kvs[0], kvs[|kvs| - 1], Total(counts), true)
  {
    forall a, b, c, m: nat, n: nat, d | Wiping<V>()(a, b, m, d) && Wiping<V>()(b, c, n, true)
      ensures Wiping<V>()(a, c, m + n, true)
    {
      WipingResumes(a, b, c, m, n, d);
    }
    Series(Wiping<V>(), kvs, counts, done);
  }
}
