/** The gas-sponsorship webhook: who owns the sending wallet, and is that owner within the
    credit limit on every chain. */
module Sponsorship {
  import opened Collections
  import opened Strings
  import opened KeyStore
  import opened HexAddress

  // ---------------------------------------------------------------- the reverse owner lookup

  /** `w:<chain>:<owner>:<wallet>` */
  function WalletKey(chain: int, owner: string, wallet: string): string {
    "w:" + (DecimalInt(chain) + ":" + (owner + ":" + wallet))
  }

  function ChainPrefix(chain: int): string {
    "w:" + DecimalInt(chain) + ":"
  }

  /** The visitor's test on a key. */
  predicate Matches(k: string, wallet: string) {
    var parts := Split(k);
    |parts| == 4 && parts[3] == wallet
  }

  function MatchingKeys<V>(kv: map<string, V>, chain: int, wallet: string): set<string> {
    set k | k in kv && HasPrefix(k, ChainPrefix(chain)) && Matches(k, wallet)
  }

  function OwnerOf(k: string): string
    requires |Split(k)| == 4
  {
    Split(k)[2]
  }

  /** The owner segment of the matching key that comes first in key order. */
  ghost function FirstOwner<V>(kv: map<string, V>, chain: int, wallet: string): Option<string> {
    var keys := MatchingKeys(kv, chain, wallet);
    if keys == {} then None else Some(OwnerOf(Least(keys)))
  }

  /** The scan over the listed keys, stopping at the first match. */
  method FirstMatch(keys: seq<string>, wallet: string) returns (owner: Option<string>, ghost at: nat)
    ensures at <= |keys| && forall i :: 0 <= i < at ==> !Matches(keys[i], wallet)
    ensures at < |keys| ==> Matches(keys[at], wallet) && owner == Some(OwnerOf(keys[at]))
    ensures at == |keys| ==> owner == None
  {
    for i := 0 to |keys|
      invariant forall j :: 0 <= j < i ==> !Matches(keys[j], wallet)
    {
      var parts := Split(keys[i]);
      if |parts| != 4 { continue; }
      if parts[3] != wallet { continue; }
      return Some(parts[2]), i;
    }
    return None, |keys|;
  }

  method OwnerOfSmartWallet<V>(db: Store<V>, chain: int, wallet: Address) returns (ok: bool, owner: Option<string>)
    modifies db`faults
    ensures ok == !Failing(old(db.faults))
    ensures owner == if ok then FirstOwner(db.kv, chain, Hex(wallet)) else None
  {
    var keys;
    ok, keys := db.ListKeys(ChainPrefix(chain));
    if !ok { return false, None; }
    ghost var at;
    owner, at := FirstMatch(keys, Hex(wallet));
    FirstIsLeast(db.kv, chain, Hex(wallet), keys, at);
  }

  lemma FirstIsLeast<V>(kv: map<string, V>, chain: int, wallet: string, keys: seq<string>, at: nat)
    requires Ascending(keys) && (forall k :: k in keys <==> k in kv && HasPrefix(k, ChainPrefix(chain)))
    requires at <= |keys| && (forall i :: 0 <= i < at ==> !Matches(keys[i], wallet))
    requires at < |keys| ==> Matches(keys[at], wallet)
    ensures FirstOwner(kv, chain, wallet) == if at < |keys| then Some(OwnerOf(keys[at])) else None
  {
    var s := MatchingKeys(kv, chain, wallet);
    forall k | k in s ensures exists i :: at <= i < |keys| && keys[i] == k {
      var i :| 0 <= i < |keys| && keys[i] == k;
    }
    if at < |keys| {
      var k := keys[at];
      assert k in s;
      forall l | l in s ensures l == k || Less(k, l) {
        var i :| at <= i < |keys| && keys[i] == l;
      }
      LeastUnique(k, Least(s), s);
    }
  }

  lemma SplitWhole(s: string)
    ensures ColonFree(s) ==> Split(s) == [s]
    ensures |Split(s)| == 1 ==> ColonFree(s)
  {
  }

  lemma SplitTwo(a: string, d: string, rest: string)
    requires ColonFree(a) && ColonFree(d)
    ensures Split(a + ":" + (d + ":" + rest)) == [a, d] + Split(rest)
  {
    SplitHead(d, rest);
    SplitHead(a, d + ":" + rest);
    assert [a] + ([d] + Split(rest)) == [a, d] + Split(rest);
  }

  /** A wallet key splits into its four segments. */
  lemma WalletKeySplit(chain: int, owner: string, wallet: string)
    requires ColonFree(owner) && ColonFree(wallet)
    ensures Split(WalletKey(chain, owner, wallet)) == ["w", DecimalInt(chain), owner, wallet]
  {
    DecimalColonFree(chain);
    FourSegments(DecimalInt(chain), owner, wallet);
  }

  lemma SplitPair(a: string, b: string)
    requires ColonFree(a) && ColonFree(b)
    ensures Split(a + ":" + b) == [a, b]
  {
    SplitWhole(b);
    SplitHead(a, b);
  }

  lemma FourSegments(d: string, owner: string, wallet: string)
    requires ColonFree(d) && ColonFree(owner) && ColonFree(wallet)
    ensures Split("w:" + (d + ":" + (owner + ":" + wallet))) == ["w", d, owner, wallet]
  {
    SplitPair(owner, wallet);
    var tail := owner + ":" + wallet;
    assert "w" + ":" + (d + ":" + tail) == "w:" + (d + ":" + tail);
    SplitTwo("w", d, tail);
  }

  lemma SegmentText(d: string, k: string)
    requires HasPrefix(k, "w:" + d + ":")
    ensures k == "w" + ":" + (d + ":" + k[|d| + 3..])
  {
  }

  lemma SegmentPrefix(d: string, k: string)
    requires ColonFree(d) && HasPrefix(k, "w:" + d + ":")
    ensures k == "w:" + (d + ":" + k[|d| + 3..]) && Split(k) == ["w", d] + Split(k[|d| + 3..])
  {
    SegmentText(d, k);
    SplitTwo("w", d, k[|d| + 3..]);
  }

  /** A key under a chain's prefix is the prefix's segments and the rest. */
  lemma PrefixSplit(chain: int, k: string)
    requires HasPrefix(k, ChainPrefix(chain))
    ensures var rest := k[|ChainPrefix(chain)|..];
            k == "w:" + (DecimalInt(chain) + ":" + rest) && Split(k) == ["w", DecimalInt(chain)] + Split(rest)
  {
    DecimalColonFree(chain);
    SegmentPrefix(DecimalInt(chain), k);
  }

  lemma TwoSegments(rest: string)
    requires |Split(rest)| == 2
    ensures rest == Split(rest)[0] + ":" + Split(rest)[1] && ColonFree(Split(rest)[0]) && ColonFree(Split(rest)[1])
  {
  }

  lemma MatchedKey(chain: int, k: string, wallet: string)
    requires HasPrefix(k, ChainPrefix(chain)) && Matches(k, wallet)
    ensures k == WalletKey(chain, OwnerOf(k), wallet) && ColonFree(OwnerOf(k))
  {
    PrefixSplit(chain, k);
    TwoSegments(k[|ChainPrefix(chain)|..]);
  }

  lemma WalletKeyMatches(chain: int, owner: string, wallet: string)
    requires ColonFree(owner) && ColonFree(wallet)
    ensures HasPrefix(WalletKey(chain, owner, wallet), ChainPrefix(chain))
    ensures Matches(WalletKey(chain, owner, wallet), wallet)
  {
    WalletKeySplit(chain, owner, wallet);
    SegmentsRegroup(DecimalInt(chain), owner + ":" + wallet);
  }

  lemma SegmentsRegroup(d: string, tail: string)
    ensures HasPrefix("w:" + (d + ":" + tail), "w:" + d + ":")
  {
    assert "w:" + (d + ":" + tail) == "w:" + d + ":" + tail;
  }

  /** What the scan matches: exactly the keys of that wallet on that chain, whoever owns it. */
  lemma MatchesExactly(chain: int, k: string, wallet: string)
    requires ColonFree(wallet)
    ensures HasPrefix(k, ChainPrefix(chain)) && Matches(k, wallet) <==>
            exists owner :: ColonFree(owner) && k == WalletKey(chain, owner, wallet)
  {
    if HasPrefix(k, ChainPrefix(chain)) && Matches(k, wallet) { MatchedKey(chain, k, wallet); }
    forall owner | ColonFree(owner) && k == WalletKey(chain, owner, wallet)
      ensures HasPrefix(k, ChainPrefix(chain)) && Matches(k, wallet)
    {
      WalletKeyMatches(chain, owner, wallet);
    }
  }

  /** No key of another chain is under a chain's prefix, even when one id is a decimal prefix
      of the other. */
  lemma ChainsApart(chain: int, other: int, owner: string, wallet: string)
    requires ColonFree(owner) && ColonFree(wallet)
    ensures HasPrefix(WalletKey(other, owner, wallet), ChainPrefix(chain)) <==> chain == other
  {
    DecimalColonFree(chain);
    DecimalColonFree(other);
    SegmentsApart(DecimalInt(chain), DecimalInt(other), owner + ":" + wallet);
    if DecimalInt(chain) == DecimalInt(other) { DecimalIntInjective(chain, other); }
  }

  lemma SegmentsApart(d: string, e: string, rest: string)
    requires ColonFree(d) && ColonFree(e)
    ensures HasPrefix("w:" + (e + ":" + rest), "w:" + d + ":") <==> d == e
  {
    var k := "w:" + (e + ":" + rest);
    if HasPrefix(k, "w:" + d + ":") {
      SegmentPrefix(d, k);
      assert k[2..] == d + ":" + k[|d| + 3..] && k[2..] == e + ":" + rest;
      HeadUnique(d, k[|d| + 3..], e, rest);
    }
    assert k == "w:" + e + ":" + rest;
  }

  lemma HexColonFree(a: Address)
    ensures ColonFree(Hex(a))
  {
  }

  /** The lookup finds an owner exactly when the wallet is stored on that chain, and then one
      of its owners; when there is a single owner it is the inverse of the wallet map. */
  lemma OwnerLookup<V>(kv: map<string, V>, chain: int, wallet: Address)
    ensures FirstOwner(kv, chain, Hex(wallet)) == None <==>
            forall owner :: ColonFree(owner) ==> WalletKey(chain, owner, Hex(wallet)) !in kv
    ensures FirstOwner(kv, chain, Hex(wallet)).Some? ==>
              var owner := FirstOwner(kv, chain, Hex(wallet)).value;
              ColonFree(owner) && WalletKey(chain, owner, Hex(wallet)) in kv
  {
    var w := Hex(wallet);
    HexColonFree(wallet);
    var keys := MatchingKeys(kv, chain, w);
    forall owner | ColonFree(owner) && WalletKey(chain, owner, w) in kv ensures WalletKey(chain, owner, w) in keys {
      WalletKeyMatches(chain, owner, w);
    }
    if keys != {} { MatchedKey(chain, Least(keys), w); }
  }

  lemma SingleOwner<V>(kv: map<string, V>, chain: int, wallet: Address, owner: string)
    requires ColonFree(owner) && WalletKey(chain, owner, Hex(wallet)) in kv
    requires forall other :: ColonFree(other) && WalletKey(chain, other, Hex(wallet)) in kv ==> other == owner
    ensures FirstOwner(kv, chain, Hex(wallet)) == Some(owner)
  {
    OwnerLookup(kv, chain, wallet);
  }

  // ---------------------------------------------------------------- the credit check

  method AddChain(seen: set<int>, out: seq<int>, id: int) returns (seen': set<int>, out': seq<int>)
    ensures seen' == if id > 0 then seen + {id} else seen
    ensures out' == if id > 0 && id !in seen then out + [id] else out
  {
    if id <= 0 { return seen, out; }
    if id in seen { return seen, out; }
    return seen + {id}, out + [id];
  }

  /** Every chain the gateway serves, once. */
  method KnownFeeChainIDs(gateway: int, chains: seq<int>) returns (out: seq<int>)
    ensures Distinct(out)
    ensures forall id :: id in out <==> id > 0 && (id == gateway || id in chains)
  {
    var seen: set<int> := {};
    out := [];
    seen, out := AddChain(seen, out, gateway);
    for i := 0 to |chains|
      invariant Distinct(out) && forall id :: id in out <==> id in seen
      invariant forall id :: id in out <==> id > 0 && (id == gateway || id in chains[..i])
    {
      assert chains[..i + 1] == chains[..i] + [chains[i]];
      seen, out := AddChain(seen, out, chains[i]);
    }
    assert chains[..|chains|] == chains;
  }

  /** What an owner owes on a chain; nothing when the ledger cannot be read. */
  type Ledger = (int, string) -> Option<int>

  datatype Credit = CreditError | Over(outstanding: int) | Within(outstanding: int)

  /** Every chain's ledger answers, within the limit. */
  predicate WithinOn(ledger: Ledger, owner: string, limit: int, ids: seq<int>) {
    forall i :: 0 <= i < |ids| ==> ledger(ids[i], owner).Some? && ledger(ids[i], owner).value <= limit
  }

  function Max(a: int, b: int): int {
    if a > b then a else b
  }

  /** The largest amount owed on any of the chains, or 0. */
  function Worst(ledger: Ledger, owner: string, ids: seq<int>): int {
    if ids == [] then 0
    else
      var rest := Worst(ledger, owner, ids[..|ids| - 1]);
      if ledger(ids[|ids| - 1], owner).Some? then Max(rest, ledger(ids[|ids| - 1], owner).value) else rest
  }

  lemma {:induction false} WorstIsMax(ledger: Ledger, owner: string, ids: seq<int>)
    ensures Worst(ledger, owner, ids) >= 0
    ensures forall i :: 0 <= i < |ids| && ledger(ids[i], owner).Some? ==>
            ledger(ids[i], owner).value <= Worst(ledger, owner, ids)
    ensures Worst(ledger, owner, ids) > 0 ==>
              exists i :: 0 <= i < |ids| && ledger(ids[i], owner) == Some(Worst(ledger, owner, ids))
  {
    if ids != [] {
      var n := |ids| - 1;
      WorstIsMax(ledger, owner, ids[..n]);
      assert forall i :: 0 <= i < n ==> ids[..n][i] == ids[i];
    }
  }

  /** The limit is the configured one in wei, unless it cannot be known. */
  method OwnerWithinCreditLimit(limit: Option<int>, ids: seq<int>, ledger: Ledger, owner: string) returns (r: Credit)
    ensures r.Within? <==> limit.Some? && ids != [] && WithinOn(ledger, owner, limit.value, ids)
    ensures r.Within? ==> r.outstanding == Worst(ledger, owner, ids)
    ensures r.Over? ==>
              limit.Some? && r.outstanding > limit.value && exists i ::
                  0 <= i < |ids| && ledger(ids[i], owner) == Some(r.outstanding)
  {
    if limit == None { return CreditError; }
    if |ids| == 0 { return CreditError; }
    var worst := 0;
    for i := 0 to |ids|
      invariant worst == Worst(ledger, owner, ids[..i])
      invariant forall j :: 0 <= j < i ==> ledger(ids[j], owner).Some? && ledger(ids[j], owner).value <= limit.value
    {
      assert ids[..i + 1][..i] == ids[..i];
      var outstanding := ledger(ids[i], owner);
      if outstanding == None { return CreditError; }
      if outstanding.value > worst { worst := outstanding.value; }
      if !(outstanding.value <= limit.value) { return Over(outstanding.value); }
    }
    assert ids[..|ids|] == ids;
    r := Within(worst);
  }

  // ---------------------------------------------------------------- the gate

  /** unicode.IsSpace */
  predicate Space(c: char) {
    || '\t' <= c <= '\r' || c == ' ' || c == '\U{85}' || c == '\U{a0}' || c == '\U{1680}'
    || '\U{2000}' <= c <= '\U{200a}'
    || c == '\U{2028}' || c == '\U{2029}' || c == '\U{202f}' || c == '\U{205f}' || c == '\U{3000}'
  }

  function TrimSpace(s: string): string {
    if s == [] then s
    else if Space(s[0]) then TrimSpace(s[1..])
    else if Space(s[|s| - 1]) then TrimSpace(s[..|s| - 1])
    else s
  }

  datatype Webhook = Webhook(policyID: string, webhookData: string, sender: string, chainID: int)

  datatype Gateway = Gateway(policyID: string, secret: string, hasStore: bool, chainID: int, chains: seq<int>,
    limit: Option<int>)

  /** Everything the gate asks of a request before it looks at the store. */
  predicate Admissible(g: Gateway, req: Webhook) {
    && req.policyID == g.policyID
    && (g.secret == "" || req.webhookData == g.secret)
    && IsHexAddress(TrimSpace(req.sender))
    && g.hasStore
  }

  predicate Known(g: Gateway, id: int) {
    id > 0 && (id == g.chainID || id in g.chains)
  }

  /** The owner owes at most the limit on every chain the gateway serves, of which there is
      at least one. */
  ghost predicate Solvent(g: Gateway, ledger: Ledger, owner: string) {
    && g.limit.Some? && (exists id :: Known(g, id))
    && forall id :: Known(g, id) ==> ledger(id, owner).Some? && ledger(id, owner).value <= g.limit.value
  }

  lemma SolventExactly(g: Gateway, ledger: Ledger, owner: string, ids: seq<int>)
    requires forall id :: id in ids <==> Known(g, id)
    ensures g.limit.Some? && ids != [] && WithinOn(ledger, owner, g.limit.value, ids) <==> Solvent(g, ledger, owner)
  {
    if ids != [] { assert ids[0] in ids; }
    if g.limit.Some? && WithinOn(ledger, owner, g.limit.value, ids) {
      forall id | Known(g, id) ensures ledger(id, owner).Some? && ledger(id, owner).value <= g.limit.value {
        assert id in ids;
      }
    }
    forall i | 0 <= i < |ids| ensures Known(g, ids[i]) { assert ids[i] in ids; }
  }

  /** Sponsored exactly when the request decodes and is admissible, the store yields an owner
      of the sender on the request's chain, and that owner is solvent. */
  method HandleGasManagerWebhook<V>(db: Store<V>, g: Gateway, body: Option<Webhook>,
                                    ledger: Ledger) returns (approved: bool)
    modifies db`faults
    ensures approved <==>
            && body.Some? && Admissible(g, body.value) && !Failing(old(db.faults))
            && var owner := FirstOwner(db.kv, body.value.chainID, Hex(HexToAddress(TrimSpace(body.value.sender))));
            && owner.Some? && Solvent(g, ledger, owner.value)
  {
    if body == None { return false; }
    var req := body.value;
    if req.policyID != g.policyID { return false; }
    if g.secret != "" && req.webhookData != g.secret { return false; }
    var sender := TrimSpace(req.sender);
    if !IsHexAddress(sender) { return false; }
    var wallet := HexToAddress(sender);
    if !g.hasStore { return false; }
    var ok, owner := OwnerOfSmartWallet(db, req.chainID, wallet);
    if !ok { return false; }
    if owner == None { return false; }
    var ids := KnownFeeChainIDs(g.chainID, g.chains);
    SolventExactly(g, ledger, owner.value, ids);
    var credit := OwnerWithinCreditLimit(g.limit, ids, ledger, owner.value);
    approved := credit.Within?;
  }
}
