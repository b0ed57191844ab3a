/** Who may call the operator plane: the signer must be the claimed operator or the alias it
    declared, and the operator must be on the approved list. */
module OperatorAuth {
  import opened Strings
  import opened HexAddress
  import opened AliasCache
  import opened AliasRuns

  // ---------------------------------------------------------------- the code

  /** A message of the operator service and the address it claims to come from. */
  datatype Request =
    | Checkin(address: string)
    | SyncMessages(address: string)
    | NotifyTriggers(address: string)
    | EventOverload(operatorAddress: string)
    | OtherMessage

  function OperatorAddress(req: Request): Option<string> {
    match req
    case Checkin(address) => Some(address)
    case SyncMessages(address) => Some(address)
    case NotifyTriggers(address) => Some(address)
    case EventOverload(address) => Some(address)
    case OtherMessage => None
  }

  /** What a call sees besides the request: its authorization headers if it has metadata,
      the signer that a header recovers to for a claimed address, and the resolver's answer
      if there is a resolver. */
  datatype Caller = Caller(headers: Option<seq<string>>, signerOf: (string, string) -> Option<Address>,
    resolver: Option<Result>)

  predicate VerifyOperator(caller: Caller, operatorAddr: string) {
    if caller.headers == None then false
    else if |caller.headers.value| < 1 then false
    else
      var signer := caller.signerOf(caller.headers.value[0], operatorAddr);
      if signer == None then false
      else if EqualFold(Hex(signer.value), operatorAddr) then true
      else if caller.resolver == None then false
      else match caller.resolver.value
        case LookupError => false
        case Alias(alias) => if alias == NO_ALIAS then false else alias == signer.value
  }

  predicate IsApprovedOperator(approved: seq<Address>, address: string) {
    exists i :: 0 <= i < |approved| && EqualFold(address, Hex(approved[i]))
  }

  predicate AuthorizeOperator(caller: Caller, approved: seq<Address>, req: Request) {
    var claimed := OperatorAddress(req);
    if claimed == None then false
    else if !IsHexAddress(claimed.value) then false
    else if !VerifyOperator(caller, claimed.value) then false
    else IsApprovedOperator(approved, claimed.value)
  }

  const HEALTH_CHECK := "/aggregator.Node/HealthCheck"

  /** Does the unary interceptor hand the call to its handler? */
  predicate UnaryServed(fullMethod: string, caller: Caller, approved: seq<Address>, req: Request) {
    if fullMethod == HEALTH_CHECK then true else AuthorizeOperator(caller, approved, req)
  }

  class AuthenticatedStream {
    var verified: bool
    const authorize: Request -> bool

    constructor (authorize: Request -> bool)
      ensures this.authorize == authorize && !verified
    {
      this.authorize := authorize;
      verified := false;
    }

    /** Nothing comes in when the transport fails; the handler is given the message when
        `delivered`. */
    method RecvMsg(incoming: Option<Request>) returns (delivered: bool)
      modifies this
      ensures delivered == (incoming.Some? && (old(verified) || authorize(incoming.value)))
      ensures verified == (old(verified) || delivered)
    {
      if incoming == None { return false; }
      if verified { return true; }
      if !authorize(incoming.value) { return false; }
      verified := true;
      delivered := true;
    }

    /** A stream's whole life: a message reaches the handler exactly when it, or one before
        it, was authorized. */
    method RecvAll(incoming: seq<Option<Request>>) returns (delivered: seq<bool>)
      requires !verified
      modifies this
      ensures |delivered| == |incoming|
      ensures forall i :: 0 <= i < |incoming| ==>
                (delivered[i] <==> incoming[i].Some? && AuthorizedBy(authorize, incoming, i))
    {
      delivered := [];
      for i := 0 to |incoming|
        invariant |delivered| == i
        invariant verified <==> i > 0 && AuthorizedBy(authorize, incoming, i - 1)
        invariant forall j :: 0 <= j < i ==>
                    (delivered[j] <==> incoming[j].Some? && AuthorizedBy(authorize, incoming, j))
      {
        var ok := RecvMsg(incoming[i]);
        delivered := delivered + [ok];
      }
    }
  }

  /** Some message up to the i-th was authorized. */
  ghost predicate AuthorizedBy(authorize: Request -> bool, incoming: seq<Option<Request>>, i: nat)
    requires i < |incoming|
  {
    exists j :: 0 <= j <= i && incoming[j].Some? && authorize(incoming[j].value)
  }

  // ---------------------------------------------------------------- who gets in

  ghost predicate ValidCaller(caller: Caller, approved: seq<Address>) {
    && (forall h, a :: caller.signerOf(h, a).Some? ==> caller.signerOf(h, a).value < Pow16(40))
    && forall i :: 0 <= i < |approved| ==> approved[i] < Pow16(40)
  }

  lemma FoldSymmetric(a: string, b: string)
    ensures EqualFold(a, b) <==> EqualFold(b, a)
  {
  }

  /** Approval is membership, again only for a claim written with 0x. */
  lemma ApprovedExactly(approved: seq<Address>, s: string)
    requires IsHexAddress(s) && forall i :: 0 <= i < |approved| ==> approved[i] < Pow16(40)
    ensures IsApprovedOperator(approved, s) <==> Prefixed(s) && HexToAddress(s) in approved
  {
    forall i | 0 <= i < |approved|
      ensures EqualFold(s, Hex(approved[i])) <==> Prefixed(s) && HexToAddress(s) == approved[i]
    {
      FoldSymmetric(s, Hex(approved[i]));
      SameAddress(approved[i], s);
    }
  }

  /** The signer speaks for the operator: it is the operator, or the alias the resolver has
      for it. */
  predicate SpeaksFor(caller: Caller, operator: Address, signer: Address) {
    signer == operator || (signer != NO_ALIAS && caller.resolver == Some(Alias(signer)))
  }

  /** The signer that the first authorization header recovers to, if any. */
  function Signer(caller: Caller, claimed: string): Option<Address> {
    if caller.headers.Some? && |caller.headers.value| >= 1
    then caller.signerOf(caller.headers.value[0], claimed)
    else None
  }

  /** Verification of any claimed hex address: its own signature counts only if the claim is
      written with 0x, the alias's signature either way. */
  lemma VerifiedExactly(caller: Caller, s: string)
    requires IsHexAddress(s) && (Signer(caller, s).Some? ==> Signer(caller, s).value < Pow16(40))
    ensures VerifyOperator(caller, s) <==>
            && Signer(caller, s).Some?
            && var signer := Signer(caller, s).value;
            || (Prefixed(s) && signer == HexToAddress(s))
            || (signer != NO_ALIAS && caller.resolver == Some(Alias(signer)))
  {
    if Signer(caller, s).Some? { SameAddress(Signer(caller, s).value, s); }
  }

  /** A request is let through exactly when it claims a 0x-prefixed address of an approved
      operator and carries a header whose signer speaks for that operator. */
  lemma AuthorizedExactly(caller: Caller, approved: seq<Address>, req: Request)
    requires ValidCaller(caller, approved)
    ensures AuthorizeOperator(caller, approved, req) <==>
            && OperatorAddress(req).Some?
            && var claimed := OperatorAddress(req).value;
            && IsHexAddress(claimed) && Prefixed(claimed) && HexToAddress(claimed) in approved
            && Signer(caller, claimed).Some? && SpeaksFor(caller, HexToAddress(claimed), Signer(caller, claimed).value)
  {
    if OperatorAddress(req).Some? && IsHexAddress(OperatorAddress(req).value) {
      var claimed := OperatorAddress(req).value;
      ApprovedExactly(approved, claimed);
      VerifiedExactly(caller, claimed);
    }
  }

  /** Apart from the health check, no unary call is served unless its signer speaks for an
      approved operator. */
  lemma OnlyHealthCheckIsPublic(fullMethod: string, caller: Caller, approved: seq<Address>, req: Request)
    requires ValidCaller(caller, approved) && UnaryServed(fullMethod, caller, approved, req)
    ensures fullMethod == HEALTH_CHECK || OperatorAddress(req).Some?
    ensures fullMethod != HEALTH_CHECK ==>
              var claimed := OperatorAddress(req).value;
              && IsHexAddress(claimed) && HexToAddress(claimed) in approved
              && Signer(caller, claimed).Some?
              && SpeaksFor(caller, HexToAddress(claimed), Signer(caller, claimed).value)
  {
    AuthorizedExactly(caller, approved, req);
  }

  /** Without 0x an operator that signs with its own key is turned away. */
  lemma UnprefixedRefused(caller: Caller, approved: seq<Address>, req: Request)
    requires ValidCaller(caller, approved) && OperatorAddress(req).Some? && !Prefixed(OperatorAddress(req).value)
    ensures !AuthorizeOperator(caller, approved, req)
  {
  }

  /** End to end: when the resolver's answer is any alias ever served for the claimed operator
      in any interleaving of lookups, an admitted request was signed by the operator itself
      or by a key that a source declared for it. */
  lemma AdmittedSigner(now: int, sources: seq<bool>, steps: seq<Step>, k: nat, caller: Caller, approved: seq<Address>,
                       req: Request)
    returns (c: Commit)
    requires ValidCaller(caller, approved) && AuthorizeOperator(caller, approved, req)
    requires Runs(Init(now, sources), steps) && k < |After(Init(now, sources), steps).served|
    requires var v := After(Init(now, sources), steps).served[k];
             caller.resolver == Some(Alias(v.alias)) && v.operator == HexToAddress(OperatorAddress(req).value)
    ensures var operator, signer := HexToAddress(OperatorAddress(req).value),
            Signer(caller, OperatorAddress(req).value).value;
            || signer == operator
            || (&& c in After(Init(now, sources), steps).commits && c.operator == operator
                && exists i :: 0 <= i < |c.heard| && c.heard[i].answer == Answered(signer))
  {
    AuthorizedExactly(caller, approved, req);
    ServedIsJustified(now, sources, steps, k);
    var t := After(Init(now, sources), steps);
    c := Last(t.commits[..t.served[k].seen], t.served[k].operator).value;
  }
}
