/** The table of operators that checked in: one stored record per operator address, and the
    clean-up of records left over from id-based keys. */
module OperatorTable {
  import opened Collections
  import opened Strings
  import opened KeyStore

  datatype Status = Status(remoteIP: string, version: string, metricsPort: int, blockNumber: int, eventCount: int)

  datatype OperatorNode = OperatorNode(address: string, name: string, lastPing: int, status: Status)

  /** A stored value: a record, or bytes that do not decode. */
  datatype Row = Node(node: OperatorNode) | Garbage(data: string)

  const PREFIX := "operator:"

  function Key(address: string): string {
    PREFIX + address
  }

  function NameOf(names: map<string, string>, address: string): string {
    if address in names then names[address] else "Unknown"
  }

  // ---------------------------------------------------------------- what the table holds

  /** Row k is a decodable operator record of the address. */
  predicate IsRecord(kv: map<string, Row>, k: string, address: string) {
    k in kv && HasPrefix(k, PREFIX) && kv[k].Node? && kv[k].node.address == address
  }

  function RecordsOf(kv: map<string, Row>, address: string): set<string> {
    set k | k in kv && IsRecord(kv, k, address)
  }

  /** The rows clean-up removes: records of an address that has several, other than the one
      under the address's own key. */
  predicate Doomed(kv: map<string, Row>, k: string) {
    && k in kv && HasPrefix(k, PREFIX) && kv[k].Node?
    && |RecordsOf(kv, kv[k].node.address)| > 1 && k != Key(kv[k].node.address)
  }

  function DoomedKeys(kv: map<string, Row>): set<string> {
    set k | k in kv && Doomed(kv, k)
  }

  // ---------------------------------------------------------------- the code

  method Checkin(db: Store<Row>, names: map<string, string>, address: string, now: int,
                 status: Status) returns (ok: bool)
    modifies db
    ensures db.kv == if ok then CheckedIn(old(db.kv), names, address, now, status) else old(db.kv)
    ensures ok == !Failing(old(db.faults)) && db.faults == After(old(db.faults))
  {
    ok := db.Put(Key(address), Node(OperatorNode(address, NameOf(names, address), now, status)));
  }

  function CheckedIn(kv: map<string, Row>, names: map<string, string>, address: string, now: int,
                     status: Status): map<string, Row> {
    kv[Key(address) := Node(OperatorNode(address, NameOf(names, address), now, status))]
  }

  /** The decodable rows' keys, grouped by the address they record. */
  ghost predicate GroupedUpTo(rows: seq<(string, Row)>, n: nat, groups: map<string, seq<string>>)
    requires n <= |rows|
  {
    && (forall a, k :: a in groups && k in groups[a] ==> InRows(rows, n, k, a))
    && (forall i :: 0 <= i < n && rows[i].1.Node? ==>
         rows[i].1.node.address in groups && rows[i].0 in groups[rows[i].1.node.address])
    && (forall a :: a in groups ==> Distinct(groups[a]))
  }

  ghost predicate InRows(rows: seq<(string, Row)>, n: nat, k: string, a: string)
    requires n <= |rows|
  {
    exists i :: 0 <= i < n && rows[i].0 == k && rows[i].1.Node? && rows[i].1.node.address == a
  }

  ghost predicate DistinctKeys(rows: seq<(string, Row)>) {
    forall i, j :: 0 <= i < j < |rows| ==> rows[i].0 != rows[j].0
  }

  lemma GroupStep(rows: seq<(string, Row)>, n: nat, groups: map<string, seq<string>>)
    requires n < |rows| && DistinctKeys(rows) && GroupedUpTo(rows, n, groups)
    ensures rows[n].1.Garbage? ==> GroupedUpTo(rows, n + 1, groups)
    ensures rows[n].1.Node? ==>
              var a := rows[n].1.node.address;
              GroupedUpTo(rows, n + 1, groups[a := (if a in groups then groups[a] else []) + [rows[n].0]])
  {
    forall a, k | a in groups && k in groups[a] ensures InRows(rows, n + 1, k, a) && k != rows[n].0 {
      assert InRows(rows, n, k, a);
      var i :| 0 <= i < n && rows[i].0 == k && rows[i].1.Node? && rows[i].1.node.address == a;
      assert rows[i].0 == k;
    }
    if rows[n].1.Node? {
      var a, k := rows[n].1.node.address, rows[n].0;
      var more := (if a in groups then groups[a] else []) + [k];
      assert InRows(rows, n + 1, k, a);
      forall i, j | 0 <= i < j < |more| ensures more[i] != more[j] {
        if j == |more| - 1 { assert more[i] in groups[a]; }
      }
      forall i | 0 <= i <= n && rows[i].1.Node?
        ensures rows[i].1.node.address in groups[a := more] && rows[i].0 in groups[a := more][rows[i].1.node.address]
      {
        if i == n { assert more[|more| - 1] == k; }
      }
    }
  }

  method GroupByAddress(rows: seq<(string, Row)>) returns (groups: map<string, seq<string>>)
    requires DistinctKeys(rows)
    ensures GroupedUpTo(rows, |rows|, groups)
  {
    groups := map[];
    for i := 0 to |rows|
      invariant GroupedUpTo(rows, i, groups)
    {
      GroupStep(rows, i, groups);
      if rows[i].1.Node? {
        var a := rows[i].1.node.address;
        groups := groups[a := (if a in groups then groups[a] else []) + [rows[i].0]];
      }
    }
  }

  /** The rows a prefix scan returns, as far as the table is concerned. */
  ghost predicate Scan(kv: map<string, Row>, rows: seq<(string, Row)>) {
    && DistinctKeys(rows)
    && (forall i :: 0 <= i < |rows| ==> rows[i].0 in kv && HasPrefix(rows[i].0, PREFIX) && rows[i].1 == kv[rows[i].0])
    && (forall k :: k in kv && HasPrefix(k, PREFIX) ==> exists i :: 0 <= i < |rows| && rows[i].0 == k)
  }

  lemma RowsScan(kv: map<string, Row>, keys: seq<string>)
    requires Distinct(keys)
    requires forall i :: 0 <= i < |keys| ==> keys[i] in kv && HasPrefix(keys[i], PREFIX)
    requires forall k :: k in kv && HasPrefix(k, PREFIX) ==> k in keys
    ensures Scan(kv, Rows(kv, keys))
  {
  }

  method ScanTable(db: Store<Row>) returns (ok: bool, rows: seq<(string, Row)>)
    modifies db`faults
    ensures ok == !Failing(old(db.faults)) && db.faults == KeyStore.After(old(db.faults))
    ensures ok ==> Scan(db.kv, rows) && AscendingRows(rows)
  {
    ok, rows := db.GetByPrefix(PREFIX);
    if ok {
      ghost var keys := Listing(WithPrefix(db.kv.Keys, PREFIX));
      AscendingDistinct(keys);
      RowsScan(db.kv, keys);
    }
  }

  lemma GroupIsRecords(kv: map<string, Row>, rows: seq<(string, Row)>, groups: map<string, seq<string>>, a: string)
    requires Scan(kv, rows) && GroupedUpTo(rows, |rows|, groups)
    ensures a in groups ==> Elements(groups[a]) == RecordsOf(kv, a) && |groups[a]| == |RecordsOf(kv, a)|
    ensures a !in groups ==> RecordsOf(kv, a) == {}
  {
    forall k | IsRecord(kv, k, a) ensures a in groups && k in groups[a] {
      var i :| 0 <= i < |rows| && rows[i].0 == k;
      assert rows[i].1 == kv[k];
    }
    if a in groups {
      forall k | k in groups[a] ensures IsRecord(kv, k, a) {
        assert InRows(rows, |rows|, k, a);
      }
      DistinctCount(groups[a]);
    }
  }

  /** Deletes the keys other than the address's own; a failed delete is passed over. */
  method DeleteOthers(db: Store<Row>, address: string, keys: seq<string>) returns (ghost gone: set<string>)
    modifies db
    ensures db.kv == old(db.kv) - gone && gone <= Elements(keys) - {Key(address)}
    ensures Unfailing(old(db.faults)) ==> Unfailing(db.faults) && gone == Elements(keys) - {Key(address)}
  {
    gone := {};
    for i := 0 to |keys|
      invariant db.kv == old(db.kv) - gone && gone <= Elements(keys[..i]) - {Key(address)}
      invariant Unfailing(old(db.faults)) ==> Unfailing(db.faults) && gone == Elements(keys[..i]) - {Key(address)}
    {
      ElementsNext(keys, i);
      if keys[i] != Key(address) {
        var ok := db.Delete(keys[i]);
        if ok { gone := gone + {keys[i]}; }
      }
    }
    assert keys[..|keys|] == keys;
  }

  /** The doomed keys whose address is in the given set. */
  function DoomedAt(kv: map<string, Row>, addresses: set<string>): set<string> {
    set k | k in kv && Doomed(kv, k) && kv[k].node.address in addresses
  }

  lemma DoomedGrows(kv: map<string, Row>, done: set<string>, a: string)
    ensures DoomedAt(kv, done + {a}) ==
            DoomedAt(kv, done) + if |RecordsOf(kv, a)| > 1 then RecordsOf(kv, a) - {Key(a)} else {}
  {
  }

  lemma CleanStep(kv: map<string, Row>, rows: seq<(string, Row)>, groups: map<string, seq<string>>, done: set<string>,
                  a: string)
    requires Scan(kv, rows) && GroupedUpTo(rows, |rows|, groups) && a in groups
    ensures DoomedAt(kv, done + {a}) ==
            DoomedAt(kv, done) + if |groups[a]| > 1 then Elements(groups[a]) - {Key(a)} else {}
  {
    GroupIsRecords(kv, rows, groups, a);
    DoomedGrows(kv, done, a);
  }

  /** The deleting loop, over the addresses in whatever order the map yields them. */
  method CleanGroups(db: Store<Row>, groups: map<string, seq<string>>,
                     ghost rows: seq<(string, Row)>) returns (ghost gone: set<string>)
    requires Scan(db.kv, rows) && GroupedUpTo(rows, |rows|, groups)
    modifies db
    ensures db.kv == old(db.kv) - gone && gone <= DoomedAt(old(db.kv), groups.Keys)
    ensures Unfailing(old(db.faults)) ==> gone == DoomedAt(old(db.kv), groups.Keys)
  {
    ghost var kv := db.kv;
    gone := {};
    var rest := groups.Keys;
    ghost var done: set<string> := {};
    while rest != {}
      invariant rest <= groups.Keys && done == groups.Keys - rest
      invariant db.kv == kv - gone && gone <= DoomedAt(kv, done)
      invariant Unfailing(old(db.faults)) ==> Unfailing(db.faults) && gone == DoomedAt(kv, done)
      decreases rest
    {
      var address :| address in rest;
      CleanStep(kv, rows, groups, done, address);
      if |groups[address]| > 1 {
        ghost var more := DeleteOthers(db, address, groups[address]);
        gone := gone + more;
      }
      rest := rest - {address};
      done := done + {address};
    }
  }

  method CleanupDuplicateOperators(db: Store<Row>) returns (ok: bool, ghost gone: set<string>)
    modifies db
    ensures db.kv == old(db.kv) - gone && gone <= DoomedKeys(old(db.kv))
    ensures Unfailing(old(db.faults)) ==> ok && gone == DoomedKeys(old(db.kv))
  {
    gone := {};
    var rows;
    ok, rows := ScanTable(db);
    if !ok { return; }
    var groups := GroupByAddress(rows);
    AllGrouped(db.kv, rows, groups);
    gone := CleanGroups(db, groups, rows);
  }

  lemma AllGrouped(kv: map<string, Row>, rows: seq<(string, Row)>, groups: map<string, seq<string>>)
    requires Scan(kv, rows) && GroupedUpTo(rows, |rows|, groups)
    ensures DoomedAt(kv, groups.Keys) == DoomedKeys(kv)
  {
  }

  /** A name is filled in for records written without one. */
  function Named(names: map<string, string>, n: OperatorNode): OperatorNode {
    if n.name == "" then n.(name := NameOf(names, n.address)) else n
  }

  /** The first decodable record of an address among the first n rows. */
  function FirstOf(rows: seq<(string, Row)>, n: nat, a: string): Option<OperatorNode>
    requires n <= |rows|
  {
    if n == 0 then None
    else
      var earlier := FirstOf(rows, n - 1, a);
      var row := rows[n - 1].1;
      if earlier == None && row.Node? && row.node.address == a then Some(row.node) else earlier
  }

  /** The listed nodes: a row counts unless its address was seen before. */
  function FirstNodes(names: map<string, string>, rows: seq<(string, Row)>, n: nat): seq<OperatorNode>
    requires n <= |rows|
  {
    if n == 0 then []
    else
      var row := rows[n - 1].1;
      var unseen := row.Node? && FirstOf(rows, n - 1, row.node.address) == None;
      FirstNodes(names, rows, n - 1) + if unseen then [Named(names, row.node)] else []
  }

  method FirstPerAddress(names: map<string, string>, rows: seq<(string, Row)>) returns (nodes: seq<OperatorNode>)
    ensures nodes == FirstNodes(names, rows, |rows|)
  {
    nodes := [];
    var seenAddresses: set<string> := {};
    for n := 0 to |rows|
      invariant nodes == FirstNodes(names, rows, n)
      invariant forall a :: a in seenAddresses <==> FirstOf(rows, n, a).Some?
    {
      if rows[n].1.Garbage? { continue; }
      var node := rows[n].1.node;
      if node.address in seenAddresses { continue; }
      seenAddresses := seenAddresses + {node.address};
      nodes := nodes + [Named(names, node)];
    }
  }

  /** The listed nodes of one address. */
  function OfAddress(nodes: seq<OperatorNode>, a: string): seq<OperatorNode> {
    if nodes == [] then []
    else
      var n := |nodes| - 1;
      OfAddress(nodes[..n], a) + if nodes[n].address == a then [nodes[n]] else []
  }

  lemma {:induction false} ListedOnce(names: map<string, string>, rows: seq<(string, Row)>, n: nat, a: string)
    requires n <= |rows|
    ensures OfAddress(FirstNodes(names, rows, n), a) ==
            if FirstOf(rows, n, a).Some? then [Named(names, FirstOf(rows, n, a).value)] else []
  {
    if n > 0 {
      ListedOnce(names, rows, n - 1, a);
      var earlier, row := FirstNodes(names, rows, n - 1), rows[n - 1].1;
      if row.Node? && FirstOf(rows, n - 1, row.node.address) == None {
        assert (earlier + [Named(names, row.node)])[..|earlier|] == earlier;
      } else {
        assert FirstNodes(names, rows, n) == earlier;
      }
    }
  }

  ghost predicate AscendingRows(rows: seq<(string, Row)>) {
    forall i, j :: 0 <= i < j < |rows| ==> Less(rows[i].0, rows[j].0)
  }

  lemma {:induction false} FirstOfRow(rows: seq<(string, Row)>, n: nat, a: string) returns (r: nat)
    requires n <= |rows|
    ensures FirstOf(rows, n, a) == None ==> forall q :: 0 <= q < n && rows[q].1.Node? ==> rows[q].1.node.address != a
    ensures FirstOf(rows, n, a).Some? ==>
              && r < n && rows[r].1 == Node(FirstOf(rows, n, a).value) && rows[r].1.node.address == a
              && forall q :: 0 <= q < r && rows[q].1.Node? ==> rows[q].1.node.address != a
  {
    r := 0;
    if n > 0 {
      r := FirstOfRow(rows, n - 1, a);
      if FirstOf(rows, n - 1, a) == None && FirstOf(rows, n, a).Some? { r := n - 1; }
    }
  }

  /** How an address is to be listed: by its record of least key, if it has one. */
  ghost function ListedAs(kv: map<string, Row>, names: map<string, string>, a: string): seq<OperatorNode> {
    if RecordsOf(kv, a) == {} then [] else [Named(names, kv[Least(RecordsOf(kv, a))].node)]
  }

  lemma ListedAsLeast(kv: map<string, Row>, names: map<string, string>, a: string, k: string)
    requires IsLeast(k, RecordsOf(kv, a))
    ensures kv[k].Node? && ListedAs(kv, names, a) == [Named(names, kv[k].node)]
  {
    LeastUnique(k, Least(RecordsOf(kv, a)), RecordsOf(kv, a));
  }

  lemma LeastRecord(kv: map<string, Row>, rows: seq<(string, Row)>, r: nat, a: string)
    requires Scan(kv, rows) && AscendingRows(rows) && r < |rows| && rows[r].1.Node? && rows[r].1.node.address == a
    requires forall q :: 0 <= q < r && rows[q].1.Node? ==> rows[q].1.node.address != a
    ensures IsLeast(rows[r].0, RecordsOf(kv, a)) && kv[rows[r].0] == rows[r].1
  {
  }

  lemma NoRecord(kv: map<string, Row>, rows: seq<(string, Row)>, a: string)
    requires Scan(kv, rows) && forall q :: 0 <= q < |rows| && rows[q].1.Node? ==> rows[q].1.node.address != a
    ensures RecordsOf(kv, a) == {}
  {
  }

  lemma FirstIsLeast(kv: map<string, Row>, names: map<string, string>, rows: seq<(string, Row)>, a: string)
    requires Scan(kv, rows) && AscendingRows(rows)
    ensures var first := FirstOf(rows, |rows|, a);
            ListedAs(kv, names, a) == if first.Some? then [Named(names, first.value)] else []
  {
    var r := FirstOfRow(rows, |rows|, a);
    if FirstOf(rows, |rows|, a).Some? {
      LeastRecord(kv, rows, r, a);
      ListedAsLeast(kv, names, a, rows[r].0);
    } else {
      NoRecord(kv, rows, a);
    }
  }

  /** Each recorded address is listed exactly once, with its record of least key. */
  method GetAll(db: Store<Row>, names: map<string, string>) returns (nodes: seq<OperatorNode>)
    modifies db`faults
    ensures Failing(old(db.faults)) ==> nodes == []
    ensures !Failing(old(db.faults)) ==> forall a :: OfAddress(nodes, a) == ListedAs(db.kv, names, a)
  {
    var ok, rows := ScanTable(db);
    if !ok { return []; }
    nodes := FirstPerAddress(names, rows);
    forall a ensures OfAddress(nodes, a) == ListedAs(db.kv, names, a) {
      ListedOnce(names, rows, |rows|, a);
      FirstIsLeast(db.kv, names, rows, a);
    }
  }

  // ---------------------------------------------------------------- what clean-up promises

  function Cleaned(kv: map<string, Row>): map<string, Row> {
    kv - DoomedKeys(kv)
  }

  lemma CleanedRecords(kv: map<string, Row>, a: string)
    ensures var records := RecordsOf(kv, a);
            RecordsOf(Cleaned(kv), a) == if |records| > 1 then records * {Key(a)} else records
  {
  }

  /** At most one record per address is left, and an address's own record is never deleted. */
  lemma CleanedAtMostOne(kv: map<string, Row>, a: string)
    ensures |RecordsOf(Cleaned(kv), a)| <= 1
    ensures Key(a) in RecordsOf(kv, a) ==> RecordsOf(Cleaned(kv), a) == {Key(a)}
  {
    CleanedRecords(kv, a);
    Sole(RecordsOf(kv, a), Key(a));
  }

  lemma Sole(s: set<string>, k: string)
    ensures |s * {k}| <= 1
    ensures k in s ==> s * {k} == {k}
    ensures k in s && |s| <= 1 ==> s == {k}
  {
    if k in s {
      assert s * {k} == {k};
      assert |s - {k}| == |s| - 1;
      if |s| <= 1 { assert s - {k} == {}; }
    } else {
      assert s * {k} == {};
    }
  }

  /** An address loses every record exactly when it had several and none under its own key. */
  lemma CleanedLoses(kv: map<string, Row>, a: string)
    ensures RecordsOf(kv, a) != {} && RecordsOf(Cleaned(kv), a) == {} <==>
            |RecordsOf(kv, a)| > 1 && Key(a) !in RecordsOf(kv, a)
  {
    CleanedRecords(kv, a);
    Sole(RecordsOf(kv, a), Key(a));
  }

  // ---------------------------------------------------------------- check-ins after clean-up

  /** Every record sits under its address's own key. */
  ghost predicate OnlyKeyed(kv: map<string, Row>) {
    forall a :: RecordsOf(kv, a) <= {Key(a)}
  }

  lemma CleanedOnlyKeyed(kv: map<string, Row>)
    requires forall a :: RecordsOf(kv, a) != {} ==> Key(a) in RecordsOf(kv, a)
    ensures OnlyKeyed(Cleaned(kv))
  {
    forall a ensures RecordsOf(Cleaned(kv), a) <= {Key(a)} { CleanedRecords(kv, a); CleanedAtMostOne(kv, a); }
  }

  datatype Check = Check(address: string, now: int, status: Status)

  function CheckIns(kv: map<string, Row>, names: map<string, string>, log: seq<Check>): map<string, Row> {
    if log == [] then kv
    else
      var c := log[|log| - 1];
      CheckedIn(CheckIns(kv, names, log[..|log| - 1]), names, c.address, c.now, c.status)
  }

  lemma KeyInjective(a: string, b: string)
    requires Key(a) == Key(b)
    ensures a == b
  {
    assert Key(a)[|PREFIX|..] == a && Key(b)[|PREFIX|..] == b;
  }

  lemma CheckedInRecords(kv: map<string, Row>, names: map<string, string>, address: string, now: int, status: Status,
                         a: string)
    ensures RecordsOf(CheckedIn(kv, names, address, now, status), a) ==
            if a == address then RecordsOf(kv, a) + {Key(a)} else RecordsOf(kv, a) - {Key(address)}
  {
  }

  /** A check-in leaves one record of its address exactly when there was none elsewhere. */
  lemma CheckedInOnce(kv: map<string, Row>, names: map<string, string>, address: string, now: int, status: Status)
    ensures |RecordsOf(CheckedIn(kv, names, address, now, status), address)| == 1 <==>
            RecordsOf(kv, address) <= {Key(address)}
  {
    CheckedInRecords(kv, names, address, now, status, address);
    var s := RecordsOf(kv, address) + {Key(address)};
    Sole(s, Key(address));
    if |s| == 1 { assert s == {Key(address)}; }
    if RecordsOf(kv, address) <= {Key(address)} { assert s == {Key(address)}; }
  }

  /** The latest check-in of an address in a log. */
  function Latest(log: seq<Check>, address: string): Option<Check> {
    if log == [] then None
    else if log[|log| - 1].address == address then Some(log[|log| - 1])
    else Latest(log[..|log| - 1], address)
  }

  /** From a cleaned table, any run of check-ins keeps exactly one record per address, under
      its own key: the latest check-in's, or the old one when there was none. */
  lemma {:induction false} CheckInsKeepOne(kv: map<string, Row>, names: map<string, string>, log: seq<Check>, a: string)
    requires OnlyKeyed(kv)
    ensures OnlyKeyed(CheckIns(kv, names, log))
    ensures RecordsOf(CheckIns(kv, names, log), a) == if Latest(log, a).Some? then {Key(a)} else RecordsOf(kv, a)
    ensures Latest(log, a).Some? ==>
              var c := Latest(log, a).value;
              CheckIns(kv, names, log)[Key(a)] == Node(OperatorNode(a, NameOf(names, a), c.now, c.status))
    ensures Latest(log, a) == None && Key(a) in RecordsOf(kv, a) ==> CheckIns(kv, names, log)[Key(a)] == kv[Key(a)]
    decreases |log|
  {
    if log != [] {
      var n := |log| - 1;
      var before, c := CheckIns(kv, names, log[..n]), log[n];
      CheckInsKeepOne(kv, names, log[..n], a);
      if a != c.address && Key(a) == Key(c.address) { KeyInjective(a, c.address); }
      forall b ensures RecordsOf(CheckIns(kv, names, log), b) <= {Key(b)} {
        CheckedInRecords(before, names, c.address, c.now, c.status, b);
      }
      CheckedInRecords(before, names, c.address, c.now, c.status, a);
    }
  }

  /** So after clean-up and any run of check-ins, each address that checked in is listed
      once, as its latest check-in. */
  lemma ListedAsLatest(kv: map<string, Row>, names: map<string, string>, log: seq<Check>, a: string)
    requires OnlyKeyed(kv) && Latest(log, a).Some?
    ensures var c := Latest(log, a).value;
            var node := OperatorNode(a, NameOf(names, a), c.now, c.status);
            ListedAs(CheckIns(kv, names, log), names, a) == [Named(names, node)]
  {
    CheckInsKeepOne(kv, names, log, a);
    assert Least({Key(a)}) == Key(a);
  }
}
