/** The embedded key-value store: one flat map, iterated in byte order, whose every
    operation is a transaction that either happens completely or fails. */
module KeyStore {
  import opened Collections
  import opened Strings

  /** Which of the coming operations fail, oldest first; past its end none does. */
  type Faults = seq<bool>

  predicate Failing(faults: Faults) {
    faults != [] && faults[0]
  }

  function After(faults: Faults): Faults {
    if faults == [] then [] else faults[1..]
  }

  /** No operation to come fails. */
  predicate Unfailing(faults: Faults) {
    forall i :: 0 <= i < |faults| ==> !faults[i]
  }

  /** Operation n from now fails. */
  predicate FailsAt(faults: Faults, n: nat) {
    n < |faults| && faults[n]
  }

  /** One of the next n operations fails. */
  predicate FailsWithin(faults: Faults, n: nat) {
    exists i :: 0 <= i < n && i < |faults| && faults[i]
  }

  /** The faults left after n operations. */
  function Dropped(faults: Faults, n: nat): Faults {
    if n <= |faults| then faults[n..] else []
  }

  lemma UnfailingLater(faults: Faults, n: nat)
    requires Unfailing(faults)
    ensures !FailsWithin(faults, n) && Unfailing(Dropped(faults, n))
  {
  }

  lemma UnfailingAfter(faults: Faults)
    requires Unfailing(faults)
    ensures !Failing(faults) && Unfailing(After(faults))
  {
  }

  lemma DroppedNext(faults: Faults, n: nat)
    ensures Failing(Dropped(faults, n)) <==> FailsAt(faults, n)
    ensures After(Dropped(faults, n)) == Dropped(faults, n + 1)
    ensures FailsWithin(faults, n + 1) <==> FailsWithin(faults, n) || FailsAt(faults, n)
  {
  }

  /** First m operations, then n more. */
  lemma {:induction false} DroppedTwice(faults: Faults, m: nat, n: nat)
    ensures Dropped(Dropped(faults, m), n) == Dropped(faults, m + n)
    ensures FailsWithin(faults, m + n) <==> FailsWithin(faults, m) || FailsWithin(Dropped(faults, m), n)
  {
    if n > 0 {
      DroppedTwice(faults, m, n - 1);
      DroppedNext(faults, m + n - 1);
      DroppedNext(Dropped(faults, m), n - 1);
    }
  }

  lemma MoreFail(faults: Faults, m: nat, n: nat)
    requires m <= n
    ensures FailsWithin(faults, m) ==> FailsWithin(faults, n)
  {
  }

  lemma OneOperation(faults: Faults)
    ensures FailsWithin(faults, 1) <==> Failing(faults)
    ensures Dropped(faults, 1) == After(faults)
  {
    DroppedNext(faults, 0);
  }

  // ---------------------------------------------------------------- iteration order

  ghost predicate Ascending(keys: seq<string>) {
    forall i, j :: 0 <= i < j < |keys| ==> Less(keys[i], keys[j])
  }

  ghost predicate IsLeast(m: string, s: set<string>) {
    m in s && forall k :: k in s ==> k == m || Less(m, k)
  }

  lemma {:induction false} LeastExists(s: set<string>)
    requires s != {}
    ensures exists m :: IsLeast(m, s)
  {
    var k :| k in s;
    if s == {k} {
      assert IsLeast(k, s);
    } else {
      LeastExists(s - {k});
      var m :| IsLeast(m, s - {k});
      LessTotal(m, k);
      if Less(m, k) {
        assert IsLeast(m, s);
      } else {
        forall j | j in s ensures j == k || Less(k, j) {
          if j != k && j != m { LessTransitive(k, m, j); }
        }
        assert IsLeast(k, s);
      }
    }
  }

  lemma LeastUnique(m: string, n: string, s: set<string>)
    requires IsLeast(m, s) && IsLeast(n, s)
    ensures m == n
  {
    if m != n {
      LessTransitive(m, n, m);
      LessIrreflexive(m);
    }
  }

  ghost function Least(s: set<string>): (m: string)
    requires s != {}
    ensures IsLeast(m, s)
  {
    LeastExists(s);
    var m :| IsLeast(m, s);
    m
  }

  /** The order in which an iterator visits a set of keys. */
  ghost function Listing(s: set<string>): (keys: seq<string>)
    ensures |keys| == |s|
    ensures forall k :: k in keys <==> k in s
    ensures forall i :: 0 <= i < |keys| ==> keys[i] in s
    ensures Ascending(keys)
  {
    if s == {} then []
    else
      var m := Least(s);
      [m] + Listing(s - {m})
  }

  lemma AscendingDistinct(keys: seq<string>)
    requires Ascending(keys)
    ensures Distinct(keys)
  {
    forall i, j | 0 <= i < j < |keys| ensures keys[i] != keys[j] {
      LessIrreflexive(keys[i]);
    }
  }

  function WithPrefix(s: set<string>, prefix: string): (r: set<string>) {
    set k | k in s && HasPrefix(k, prefix)
  }

  // ---------------------------------------------------------------- the store

  class Store<V> {
    var kv: map<string, V>
    var faults: Faults

    constructor (kv: map<string, V>, faults: Faults)
      ensures this.kv == kv && this.faults == faults
    {
      this.kv := kv;
      this.faults := faults;
    }

    /** ListKeys and IterateKeysOnly: the keys under a prefix, ascending. */
    method ListKeys(prefix: string) returns (ok: bool, keys: seq<string>)
      modifies this`faults
      ensures ok == !Failing(old(faults)) && faults == After(old(faults))
      ensures keys == if ok then Listing(WithPrefix(kv.Keys, prefix)) else []
    {
      ok := !Failing(faults);
      faults := After(faults);
      if !ok { return false, []; }
      keys := InOrder(WithPrefix(kv.Keys, prefix));
    }

    /** GetByPrefix: a snapshot of the rows under a prefix, ascending by key. */
    method GetByPrefix(prefix: string) returns (ok: bool, rows: seq<(string, V)>)
      modifies this`faults
      ensures ok == !Failing(old(faults)) && faults == After(old(faults))
      ensures rows == if ok then Rows(kv, Listing(WithPrefix(kv.Keys, prefix))) else []
    {
      var keys;
      rows := [];
      ok, keys := ListKeys(prefix);
      if !ok { return; }
      rows := ReadRows(kv, keys);
    }

    method Exists(key: string) returns (ok: bool, found: bool)
      modifies this`faults
      ensures ok == !Failing(old(faults)) && faults == After(old(faults))
      ensures found == (ok && key in kv)
    {
      ok := !Failing(faults);
      faults := After(faults);
      found := ok && key in kv;
    }

    method Put(key: string, value: V) returns (ok: bool)
      modifies this
      ensures ok == !Failing(old(faults)) && faults == After(old(faults))
      ensures kv == if ok then old(kv)[key := value] else old(kv)
    {
      ok := !Failing(faults);
      faults := After(faults);
      if ok { kv := kv[key := value]; }
    }

    method Delete(key: string) returns (ok: bool)
      modifies this
      ensures ok == !Failing(old(faults)) && faults == After(old(faults))
      ensures kv == if ok then old(kv) - {key} else old(kv)
    {
      ok := !Failing(faults);
      faults := After(faults);
      if ok { kv := kv - {key}; }
    }

    /** Move: the value leaves src and replaces whatever dst held; a missing src fails. */
    method Move(src: string, dst: string) returns (ok: bool)
      modifies this
      ensures ok == (!Failing(old(faults)) && src in old(kv)) && faults == After(old(faults))
      ensures kv == if ok then Moved(old(kv), src, dst) else old(kv)
    {
      ok := !Failing(faults) && src in kv;
      faults := After(faults);
      if ok { kv := Moved(kv, src, dst); }
    }
  }

  function Moved<V>(kv: map<string, V>, src: string, dst: string): map<string, V>
    requires src in kv
  {
    (kv - {src})[dst := kv[src]]
  }

  function Rows<V>(kv: map<string, V>, keys: seq<string>): (rows: seq<(string, V)>)
    requires forall i :: 0 <= i < |keys| ==> keys[i] in kv
    ensures |rows| == |keys|
    ensures forall i :: 0 <= i < |keys| ==> rows[i] == (keys[i], kv[keys[i]])
  {
    if keys == [] then []
    else Rows(kv, keys[..|keys| - 1]) + [(keys[|keys| - 1], kv[keys[|keys| - 1]])]
  }

  method Smallest(s: set<string>) returns (m: string)
    requires s != {}
    ensures IsLeast(m, s)
  {
    m :| m in s;
    var rest := s - {m};
    while rest != {}
      invariant rest <= s && IsLeast(m, s - rest)
      decreases rest
    {
      var k :| k in rest;
      LessTotal(m, k);
      if Less(k, m) {
        forall j | j in s - rest ensures j == k || Less(k, j) {
          if j != m { LessTransitive(k, m, j); }
        }
        m := k;
      }
      rest := rest - {k};
    }
    assert s - rest == s;
  }

  lemma ListingNext(s: set<string>, m: string)
    requires IsLeast(m, s)
    ensures Listing(s) == [m] + Listing(s - {m})
  {
    LeastUnique(m, Least(s), s);
  }

  lemma Regroup(a: seq<string>, m: string, b: seq<string>)
    ensures (a + [m]) + b == a + ([m] + b)
  {
  }

  /** A set of keys, least first. */
  method InOrder(s: set<string>) returns (keys: seq<string>)
    ensures keys == Listing(s)
  {
    keys := [];
    var rest := s;
    while rest != {}
      invariant keys + Listing(rest) == Listing(s)
      decreases rest
    {
      var m := Smallest(rest);
      ListingNext(rest, m);
      Regroup(keys, m, Listing(rest - {m}));
      keys := keys + [m];
      rest := rest - {m};
    }
  }

  method ReadRows<V>(kv: map<string, V>, keys: seq<string>) returns (rows: seq<(string, V)>)
    requires forall i :: 0 <= i < |keys| ==> keys[i] in kv
    ensures rows == Rows(kv, keys)
  {
    rows := [];
    for i := 0 to |keys|
      invariant rows == Rows(kv, keys[..i])
    {
      assert keys[..i + 1][..i] == keys[..i];
      rows := rows + [(keys[i], kv[keys[i]])];
    }
    assert keys[..|keys|] == keys;
  }
}
