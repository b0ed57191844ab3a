/** Planning a withdrawal: how much is sent, under which derivation salt, and after which
    checks. */
module Withdraw {
  import opened Strings
  import opened HexAddress
  import opened WalletRetirement
  import opened Sponsorship

  // ---------------------------------------------------------------- amounts

  function ToLower(s: string): string {
    seq(|s|, i requires 0 <= i < |s| => Lower(s[i]))
  }

  /** Any casing of "max", with space around it. */
  predicate IsMax(amount: string) {
    TrimSpace(ToLower(amount)) == "max"
  }

  /** big.Int.SetString(s, 10): an optional sign and at least one digit, without bound. */
  function ParseBig(s: string): Option<int> {
    var signed := s != [] && (s[0] == '-' || s[0] == '+');
    var digits := if signed then s[1..] else s;
    if digits == [] || !AllDigits(digits) then None
    else Some(if signed && s[0] == '-' then -(DigitsValue(digits) as int) else DigitsValue(digits))
  }

  predicate IsNative(token: string) {
    ToLower(token) == "eth"
  }

  // ---------------------------------------------------------------- what the planner reads

  datatype Payload = Payload(recipient: string, amount: string, token: string, smartWallet: string)

  datatype PolicyLookup = LookupFailed | NoPolicy | ActivePolicy

  datatype ConfigLookup = Unresolved | NotConfigured | Configured(sponsored: bool)

  datatype SaltDerivation = DeriveFailed | Derived(address: Address)

  /** Storage, chain and session policy as the planner finds them. `permits` is the policy's
      answer to a native send of an amount. */
  datatype World = World(
    chainMatches: bool,
    config: ConfigLookup,
    hasStore: bool,
    policy: PolicyLookup,
    permits: int -> bool,
    readerOk: bool,
    ownsWallet: bool,
    nativeBalance: Option<int>,
    tokenBalance: Option<int>,
    stored: Option<SmartWallet>,
    fallback: Option<SmartWallet>,
    salt0: SaltDerivation,
    packs: bool)

  // ---------------------------------------------------------------- the salt

  datatype SaltChoice = SaltRefused | Saltless | Salted(salt: nat)

  /** A negative salt counts as missing. */
  function RecordSalt(w: Option<SmartWallet>): Option<nat> {
    if w.Some? && w.value.salt.Some? && w.value.salt.value >= 0 then Some(w.value.salt.value) else None
  }

  function DerivationSalt(w: World, wallet: Address): SaltChoice {
    if !w.hasStore then SaltRefused
    else if w.stored.Some? && IsEOA7702(w.stored.value) then Saltless
    else if RecordSalt(w.stored).Some? then Salted(RecordSalt(w.stored).value)
    else if w.fallback.Some? && IsEOA7702(w.fallback.value) then Saltless
    else if RecordSalt(w.fallback).Some? then Salted(RecordSalt(w.fallback).value)
    else match w.salt0
      case DeriveFailed => SaltRefused
      case Derived(address) => if address == wallet then Salted(0) else SaltRefused
  }

  predicate Is7702(r: Option<SmartWallet>) {
    r.Some? && IsEOA7702(r.value)
  }

  predicate Records(r: Option<SmartWallet>, salt: int) {
    r.Some? && r.value.salt == Some(salt)
  }

  /** No salt only for an EOA-7702 record; a salt only if one of the two records has it, or
      if it is 0 and the wallet is the owner's salt-0 address. A wallet with neither record
      usable and another address is always refused. */
  lemma SaltRule(w: World, wallet: Address)
    ensures DerivationSalt(w, wallet) == Saltless ==> Is7702(w.stored) || Is7702(w.fallback)
    ensures DerivationSalt(w, wallet).Salted? ==>
              var salt := DerivationSalt(w, wallet).salt;
              Records(w.stored, salt) || Records(w.fallback, salt) || (salt == 0 && w.salt0 == Derived(wallet))
    ensures DerivationSalt(w, wallet) == SaltRefused <==>
            || !w.hasStore
            || (&& !Is7702(w.stored) && !Is7702(w.fallback) && w.salt0 != Derived(wallet)
                && forall salt :: salt >= 0 ==> !Records(w.stored, salt) && !Records(w.fallback, salt))
  {
  }

  // ---------------------------------------------------------------- the native preflight

  /** preflightNativeWithdraw: true when it does not object. */
  predicate Preflight(w: World, sponsored: bool, p: Payload, amount: Option<int>, withdrawAll: bool) {
    if TrimSpace(ToLower(p.token)) != "eth" then true
    else if withdrawAll && !sponsored then false
    else if !w.hasStore then false
    else
      var policy := if IsHexAddress(p.smartWallet) && HexToAddress(p.smartWallet) != 0 then w.policy else NoPolicy;
      match policy
      case LookupFailed => false
      case NoPolicy => true
      case ActivePolicy => w.permits(if amount.Some? then amount.value else 0)
  }

  // ---------------------------------------------------------------- the plan

  /** What is handed to the sender. */
  datatype Send = Send(native: bool, amount: int, salt: Option<nat>, wallet: Address, recipient: Address)

  /** The native amount: the balance under "max" (with the preflight repeated for it), else
      the requested amount if the balance covers it. */
  method NativeAmount(w: World, sponsored: bool, p: Payload, requested: Option<int>,
                      withdrawAll: bool) returns (amount: Option<int>)
    requires requested.Some? <==> !withdrawAll
    ensures amount.Some? ==> w.nativeBalance.Some? && amount.value <= w.nativeBalance.value
    ensures amount.Some? && withdrawAll ==> amount == w.nativeBalance && Preflight(w, sponsored, p, amount, false)
    ensures amount.Some? && !withdrawAll ==> amount == requested
    ensures amount == None <==>
            || w.nativeBalance == None
            || (withdrawAll && (w.nativeBalance == Some(0) || !Preflight(w, sponsored, p, w.nativeBalance, false)))
            || (!withdrawAll && requested.value > w.nativeBalance.value)
  {
    if w.nativeBalance == None { return None; }
    if withdrawAll {
      if w.nativeBalance.value == 0 { return None; }
      if !Preflight(w, sponsored, p, w.nativeBalance, false) { return None; }
      return w.nativeBalance;
    }
    if requested.value > w.nativeBalance.value { return None; }
    amount := requested;
  }

  method TokenAmount(w: World, p: Payload, requested: Option<int>, withdrawAll: bool) returns (amount: Option<int>)
    requires requested.Some? <==> !withdrawAll
    ensures amount.Some? ==> w.tokenBalance.Some? && amount.value <= w.tokenBalance.value
    ensures amount.Some? && withdrawAll ==> amount == w.tokenBalance
    ensures amount.Some? && !withdrawAll ==> amount == requested
    ensures amount == None <==>
            || !IsHexAddress(p.token) || HexToAddress(p.token) == 0 || w.tokenBalance == None
            || (withdrawAll && w.tokenBalance == Some(0))
            || (!withdrawAll && requested.value > w.tokenBalance.value)
  {
    if !IsHexAddress(p.token) { return None; }
    if HexToAddress(p.token) == 0 { return None; }
    if w.tokenBalance == None { return None; }
    if withdrawAll {
      if w.tokenBalance.value == 0 { return None; }
      return w.tokenBalance;
    }
    if requested.value > w.tokenBalance.value { return None; }
    amount := requested;
  }

  /** The balance the amount is drawn from. */
  function BalanceFor(w: World, p: Payload): Option<int> {
    if IsNative(p.token) then w.nativeBalance else w.tokenBalance
  }

  function Sponsored(w: World): bool {
    w.config.Configured? && w.config.sponsored
  }

  /** The amount is drawn from the balance that was read, all of it under "max" and as requested
      otherwise, with the checks its kind of token needs. */
  predicate Covered(w: World, p: Payload, amount: int) {
    && BalanceFor(w, p).Some? && amount <= BalanceFor(w, p).value
    && (if IsMax(p.amount) then Some(amount) == BalanceFor(w, p) else Some(amount) == ParseBig(p.amount))
    && (IsNative(p.token) && IsMax(p.amount) ==> Preflight(w, Sponsored(w), p, Some(amount), false))
    && (!IsNative(p.token) ==> IsHexAddress(p.token) && HexToAddress(p.token) != 0)
  }

  /** Everything but the amount is the payload's. */
  predicate Addressed(w: World, p: Payload, s: Send) {
    && s.native == IsNative(p.token)
    && IsHexAddress(p.recipient) && s.recipient == HexToAddress(p.recipient) && s.recipient != 0
    && IsHexAddress(p.smartWallet) && s.wallet == HexToAddress(p.smartWallet) && w.ownsWallet
    && DerivationSalt(w, s.wallet) == if s.salt.Some? then Salted(s.salt.value) else Saltless
  }

  /** A send is within its rules. */
  predicate Lawful(w: World, p: Payload, s: Send) {
    && s.amount > 0 && Covered(w, p, s.amount) && Addressed(w, p, s)
    && (s.native && IsMax(p.amount) ==> Sponsored(w))
    && (s.native ==> Preflight(w, Sponsored(w), p, Some(s.amount), false))
  }

  /** The amount asked for; none under "max". */
  function RequestedAmount(p: Payload): Option<int> {
    if IsMax(p.amount) then None else ParseBig(p.amount)
  }

  /** The check made before the balance is known; under "max" it asks about an amount of 0. */
  predicate EarlyPreflight(w: World, p: Payload) {
    Preflight(w, Sponsored(w), p, RequestedAmount(p), IsMax(p.amount))
  }

  /** The request's own part: well-formed fields and a positive amount or "max". */
  predicate WellFormed(p: Payload) {
    && p.recipient != "" && p.amount != "" && p.token != "" && IsHexAddress(p.recipient)
    && (IsMax(p.amount) || (ParseBig(p.amount).Some? && ParseBig(p.amount).value > 0))
  }

  /** The amount to send, if the balance that was read allows one. */
  method FinalAmount(w: World, p: Payload) returns (amount: Option<int>)
    requires w.config.Configured? && WellFormed(p)
    ensures amount.Some? ==> Covered(w, p, amount.value)
    ensures amount == None ==> forall a :: a > 0 ==> !Covered(w, p, a)
  {
    var requested, withdrawAll := RequestedAmount(p), IsMax(p.amount);
    if IsNative(p.token) {
      amount := NativeAmount(w, w.config.sponsored, p, requested, withdrawAll);
    } else {
      amount := TokenAmount(w, p, requested, withdrawAll);
    }
  }

  /** Some lawful send exists for the payload. */
  ghost predicate Plannable(w: World, p: Payload) {
    exists s :: Lawful(w, p, s)
  }

  /** With a covered amount that is enough, given the early check. */
  lemma PlanLawful(w: World, p: Payload, s: Send)
    requires s.amount > 0 && Covered(w, p, s.amount) && Addressed(w, p, s) && EarlyPreflight(w, p)
    ensures Lawful(w, p, s) && Plannable(w, p)
  {
    assert Lawful(w, p, s);
  }

  /** What a lawful send says about the payload. */
  lemma LawfulParts(w: World, p: Payload)
    ensures Plannable(w, p) ==>
              && WellFormed(p) && HexToAddress(p.recipient) != 0
              && IsHexAddress(p.smartWallet) && w.ownsWallet && (exists a :: a > 0 && Covered(w, p, a))
              && DerivationSalt(w, HexToAddress(p.smartWallet)) != SaltRefused
    ensures Plannable(w, p) ==> forall a :: Covered(w, p, a) ==> a > 0
  {
    if Plannable(w, p) {
      var s :| Lawful(w, p, s);
      assert s.amount > 0 && Covered(w, p, s.amount);
    }
  }

  /** Every send the planner reaches is lawful, and it reaches one whenever there is a lawful
      one, the early check does not object and the chain can be read and the call packed. */
  method ExecuteWithdraw(w: World, p: Payload) returns (send: Option<Send>)
    ensures send.Some? ==> Lawful(w, p, send.value)
    ensures send.Some? <==>
            w.chainMatches && w.config.Configured? && w.readerOk && w.packs && EarlyPreflight(w, p) && Plannable(w, p)
  {
    LawfulParts(w, p);
    if !w.chainMatches { return None; }
    if !w.config.Configured? { return None; }
    if p.recipient == "" || p.amount == "" || p.token == "" { return None; }
    if !IsHexAddress(p.recipient) { return None; }
    var withdrawAll := IsMax(p.amount);
    if !withdrawAll {
      if ParseBig(p.amount) == None { return None; }
      if ParseBig(p.amount).value <= 0 { return None; }
    }
    if !Preflight(w, w.config.sponsored, p, RequestedAmount(p), withdrawAll) { return None; }
    if !w.readerOk { return None; }
    if p.smartWallet == "" || !IsHexAddress(p.smartWallet) { return None; }
    var wallet := HexToAddress(p.smartWallet);
    if !w.ownsWallet { return None; }
    var amount := FinalAmount(w, p);
    if amount == None { return None; }
    var recipient := HexToAddress(p.recipient);
    if recipient == 0 || amount.value <= 0 || !w.packs { return None; }
    var salt := DerivationSalt(w, wallet);
    if salt == SaltRefused { return None; }
    var s := if salt.Salted? then Some(salt.salt) else None;
    var plan := Send(IsNative(p.token), amount.value, s, wallet, recipient);
    PlanLawful(w, p, plan);
    send := Some(plan);
  }

  /** There is never a choice: a payload has at most one lawful send. */
  lemma LawfulUnique(w: World, p: Payload, s: Send, t: Send)
    requires Lawful(w, p, s) && Lawful(w, p, t)
    ensures s == t
  {
  }
}
