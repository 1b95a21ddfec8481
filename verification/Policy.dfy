/** The in-process policy engine (src/adapters/policy/native.rs): any denial wins, somebody must allow,
    and only then is there an approval.
*/
module Policy {
  import opened Types
  import opened Signing

  datatype Verdict = Grant | Forbid(rule: string) | Abstain

  /** The built-in rules; `Custom` is any rule a user adds. */
  datatype Rule =
    | TargetAllowlist(targets: set<Address>)
    | SpendLimit(maxValue: nat)
    | MessageSigningAllowed
    | TypedDataDomainAllowlist(contracts: set<Address>)
    | AllowAll
    | Custom(check: SigningRequest -> Verdict)

  function Check(rule: Rule, request: SigningRequest): Verdict {
    match rule
    case TargetAllowlist(targets) =>
      if request.Transaction? && request.intent.to.Call? && request.intent.to.to in targets then Grant else Abstain
    case SpendLimit(maxValue) =>
      if request.Transaction? && request.intent.value > maxValue then Forbid("SpendLimit") else Abstain
    case MessageSigningAllowed =>
      if request.Message? then Grant else Abstain
    case TypedDataDomainAllowlist(contracts) =>
      if request.Typed? && request.data.verifyingContract.Some? && request.data.verifyingContract.value in contracts
      then Grant else Abstain
    case AllowAll => Grant
    case Custom(check) => check(request)
  }

  /** The hash an approval binds; typed data without a chain, or that cannot be encoded, has none. */
  function SigningHash(request: SigningRequest): Answer<Digest> {
    match request
    case Transaction(intent) => Ok(OfIntent(intent))
    case Cancel(intent) => Ok(OfIntent(intent))
    case Message(message) => Ok(OfMessage(message))
    case Typed(data) =>
      if data.chainId.Some? && data.chainId.value != 0 && data.encodable then Ok(OfTyped(data)) else Err
  }

  datatype PolicyOutcome = WouldAllow | WouldDeny(rule: string)

  /** The grounds for allowing, whatever order the rules come in. */
  ghost predicate Permitted(rules: seq<Rule>, request: SigningRequest) {
    && (forall i | 0 <= i < |rules| :: !Check(rules[i], request).Forbid?)
    && ((exists i :: 0 <= i < |rules| && Check(rules[i], request).Grant?) || (request.Cancel? && request.intent.IsSelfSend()))
    && SigningHash(request).Ok?
  }

  /** Rule `i` is the first that forbids. */
  ghost predicate FirstForbid(rules: seq<Rule>, request: SigningRequest, i: nat) {
    i < |rules| && Check(rules[i], request).Forbid? && forall j | 0 <= j < i :: !Check(rules[j], request).Forbid?
  }

  /** The shared decision of `evaluate` and `validate`. */
  method DecideOutcome(rules: seq<Rule>, request: SigningRequest) returns (o: PolicyOutcome)
    ensures o.WouldAllow? <==> Permitted(rules, request)
    ensures forall i: nat | FirstForbid(rules, request, i) :: o == WouldDeny(Check(rules[i], request).rule)
    ensures o == Outcome(rules, request)
  {
    var allowed := false;
    var i := 0;
    while i < |rules|
      invariant i <= |rules|
      invariant forall j | 0 <= j < i :: !Check(rules[j], request).Forbid?
      invariant allowed <==> exists j :: 0 <= j < i && Check(rules[j], request).Grant?
      invariant Outcome(rules, request) == OutcomeFrom(rules, request, i, allowed)
    {
      match Check(rules[i], request) {
        case Forbid(rule) => return WouldDeny(rule);
        case Grant => allowed := true;
        case Abstain =>
      }
      i := i + 1;
    }
    var cancelOk := request.Cancel? && request.intent.IsSelfSend();
    if !allowed && !cancelOk {
      return WouldDeny("default-deny");
    }
    if SigningHash(request).Err? {
      return WouldDeny("malformed-payload");
    }
    o := WouldAllow;
  }

  function OutcomeFrom(rules: seq<Rule>, request: SigningRequest, i: nat, allowed: bool): PolicyOutcome
    requires i <= |rules|
    decreases |rules| - i
  {
    if i < |rules| then
      match Check(rules[i], request)
      case Forbid(rule) => WouldDeny(rule)
      case Grant => OutcomeFrom(rules, request, i + 1, true)
      case Abstain => OutcomeFrom(rules, request, i + 1, allowed)
    else if !allowed && !(request.Cancel? && request.intent.IsSelfSend()) then WouldDeny("default-deny")
    else if SigningHash(request).Err? then WouldDeny("malformed-payload")
    else WouldAllow
  }

  function Outcome(rules: seq<Rule>, request: SigningRequest): PolicyOutcome {
    OutcomeFrom(rules, request, 0, false)
  }

  lemma {:induction false} OutcomeFromMeaning(rules: seq<Rule>, request: SigningRequest, i: nat, allowed: bool)
    requires i <= |rules|
    requires forall j | 0 <= j < i :: !Check(rules[j], request).Forbid?
    requires allowed <==> exists j :: 0 <= j < i && Check(rules[j], request).Grant?
    ensures OutcomeFrom(rules, request, i, allowed).WouldAllow? <==> Permitted(rules, request)
    decreases |rules| - i
  {
    if i < |rules| {
      match Check(rules[i], request)
      case Forbid(_) =>
      case Grant => OutcomeFromMeaning(rules, request, i + 1, true);
      case Abstain => OutcomeFromMeaning(rules, request, i + 1, allowed);
    }
  }

  /** Allowed exactly when no rule forbids, some rule grants or it is a self-send cancel, and the payload
      hashes. */
  lemma AllowsIffPermitted(rules: seq<Rule>, request: SigningRequest)
    ensures Outcome(rules, request).WouldAllow? <==> Permitted(rules, request)
  {
    OutcomeFromMeaning(rules, request, 0, false);
  }

  /** Same rules, in any order and with any repetition: same permission. */
  lemma OrderDoesNotMatter(rules: seq<Rule>, rules': seq<Rule>, request: SigningRequest)
    requires forall r: Rule :: r in rules <==> r in rules'
    ensures Outcome(rules, request).WouldAllow? <==> Outcome(rules', request).WouldAllow?
  {
    AllowsIffPermitted(rules, request);
    AllowsIffPermitted(rules', request);
    assert forall i | 0 <= i < |rules| :: rules[i] in rules';
    assert forall i | 0 <= i < |rules'| :: rules'[i] in rules;
  }

  /** With the built-in restrictive rules only, a transaction passes exactly when its target is on some
      allowlist and its value within every limit. */
  lemma TransactionsNeedAListedTarget(rules: seq<Rule>, intent: TxIntent)
    requires forall i | 0 <= i < |rules| :: !rules[i].AllowAll? && !rules[i].Custom?
    ensures Outcome(rules, Transaction(intent)).WouldAllow? <==>
            && intent.to.Call?
            && (exists i :: 0 <= i < |rules| && rules[i].TargetAllowlist? && intent.to.to in rules[i].targets)
            && (forall i | 0 <= i < |rules| && rules[i].SpendLimit? :: intent.value <= rules[i].maxValue)
  {
    var request := Transaction(intent);
    AllowsIffPermitted(rules, request);
    if i :| 0 <= i < |rules| && Check(rules[i], request).Grant? {
      assert rules[i].TargetAllowlist?;
    }
    if i :| 0 <= i < |rules| && rules[i].TargetAllowlist? && intent.to.Call? && intent.to.to in rules[i].targets {
      assert Check(rules[i], request).Grant?;
    }
    forall i | 0 <= i < |rules| ensures Check(rules[i], request).Forbid? <==> rules[i].SpendLimit? && intent.value > rules[i].maxValue {
    }
  }

  /** Messages pass exactly when some rule opts in to them. */
  lemma MessagesNeedAnOptIn(rules: seq<Rule>, message: Bytes)
    requires forall i | 0 <= i < |rules| :: !rules[i].AllowAll? && !rules[i].Custom?
    ensures Outcome(rules, Message(message)).WouldAllow? <==> exists i :: 0 <= i < |rules| && rules[i].MessageSigningAllowed?
  {
    AllowsIffPermitted(rules, Message(message));
    assert forall i | 0 <= i < |rules| :: Check(rules[i], Message(message)).Grant? <==> rules[i].MessageSigningAllowed?;
  }

  /** Typed data passes exactly when its contract is on some list, it names a chain and it can be encoded. */
  lemma TypedDataNeedsAListedContract(rules: seq<Rule>, data: TypedData)
    requires forall i | 0 <= i < |rules| :: !rules[i].AllowAll? && !rules[i].Custom?
    ensures Outcome(rules, Typed(data)).WouldAllow? <==>
            && data.chainId.Some? && data.chainId.value != 0 && data.encodable
            && data.verifyingContract.Some?
            && exists i :: 0 <= i < |rules| && rules[i].TypedDataDomainAllowlist? && data.verifyingContract.value in rules[i].contracts
  {
    AllowsIffPermitted(rules, Typed(data));
    assert forall i | 0 <= i < |rules| ::
        Check(rules[i], Typed(data)).Grant? <==>
        rules[i].TypedDataDomainAllowlist? && data.verifyingContract.Some? && data.verifyingContract.value in rules[i].contracts;
  }

  /** A cancel passes exactly when it sends nothing, to its own account, with no data. */
  lemma CancelsMustBeSelfSends(rules: seq<Rule>, intent: TxIntent)
    requires forall i | 0 <= i < |rules| :: !rules[i].AllowAll? && !rules[i].Custom?
    ensures Outcome(rules, Cancel(intent)).WouldAllow? <==> intent.to == Call(intent.account) && intent.value == 0 && intent.input == []
  {
    AllowsIffPermitted(rules, Cancel(intent));
    assert forall i | 0 <= i < |rules| :: Check(rules[i], Cancel(intent)).Abstain?;
  }

  /** The engine's answer: the outcome, with an approval bound to the payload on allow. */
  function Evaluate(rules: seq<Rule>, feeCaps: GasEnvelope, ttl: nat, now: nat, request: SigningRequest): Decision {
    match Outcome(rules, request)
    case WouldDeny(rule) => Deny(rule)
    case WouldAllow =>
      match SigningHash(request)
      case Ok(payload) => Allow(PolicyApproval(payload, feeCaps, now + ttl))
      case Err => Deny("malformed-payload")
  }

  /** A dry run and a real evaluation agree, and an approval binds exactly the payload asked about. */
  lemma ValidateAgreesWithEvaluate(rules: seq<Rule>, feeCaps: GasEnvelope, ttl: nat, now: nat, request: SigningRequest)
    ensures match Evaluate(rules, feeCaps, ttl, now, request)
            case Allow(a) =>
              && Outcome(rules, request).WouldAllow? && Permitted(rules, request)
              && SigningHash(request) == Ok(a.payload) && a.envelope == feeCaps && a.validUntil == now + ttl
            case Deny(rule) => Outcome(rules, request) == WouldDeny(rule) && !Permitted(rules, request)
  {
    AllowsIffPermitted(rules, request);
  }

  /** From rules to signature: an approval the engine gave for one transaction signs that transaction's
      body and no other intent's, before it expires and within the engine's caps. */
  lemma ApprovedIsWhatGetsSigned(
    rules: seq<Rule>, feeCaps: GasEnvelope, ttl: nat, asked: nat, intent: TxIntent, approval: PolicyApproval,
    signedIntent: TxIntent, body: TxBody, now: nat, backend: Answer<Signature>)
    requires Evaluate(rules, feeCaps, ttl, asked, Transaction(intent)) == Allow(approval)
    requires SignEncode(body, OfIntent(signedIntent), approval, now, backend).Signed?
    ensures signedIntent == intent && Permitted(rules, Transaction(signedIntent))
    ensures now <= asked + ttl && feeCaps.Admits(body.fees)
  {
    ValidateAgreesWithEvaluate(rules, feeCaps, ttl, asked, Transaction(intent));
    SignsExactlyTheAuthorized(body, OfIntent(signedIntent), approval, now, backend);
  }

  /** What a bump without a usable cached approval asks the engine. */
  function BumpRequest(intent: TxIntent): SigningRequest {
    if intent.IsSelfSend() then Cancel(intent) else Transaction(intent)
  }

  /** Asking again never refuses what the built-in rules permitted at send or cancel time, and the new
      approval binds the same payload. */
  lemma BumpKeepsPermission(rules: seq<Rule>, intent: TxIntent)
    requires forall i | 0 <= i < |rules| :: !rules[i].Custom?
    requires Permitted(rules, Transaction(intent)) || (intent.IsSelfSend() && Permitted(rules, Cancel(intent)))
    ensures Permitted(rules, BumpRequest(intent)) && SigningHash(BumpRequest(intent)) == Ok(OfIntent(intent))
  {
    if intent.IsSelfSend() {
      forall i | 0 <= i < |rules| ensures !Check(rules[i], Cancel(intent)).Forbid? {
        assert !rules[i].Custom?;
      }
    }
  }
}
