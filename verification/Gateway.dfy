/** The execution boundary: action policy, approvals, `ToolGateway.authorize` and receipts. */
module Gateway {
  import opened Text
  import opened Pacing
  import opened Scope

  datatype RiskLevel = ReadOnly | StateChange | Destructive

  datatype ActionPolicy = ActionPolicy(
    readOnly: bool, stateMutation: bool, destructive: bool,
    requireStateChangeApproval: bool, requireDestructiveApproval: bool)
  {
    predicate Allows(risk: RiskLevel) {
      match risk
      case ReadOnly => readOnly
      case StateChange => stateMutation
      case Destructive => destructive
    }

    /** The operator has waived per-action approval for this class of action. */
    predicate Waives(risk: RiskLevel) {
      match risk
      case ReadOnly => true
      case StateChange => !requireStateChangeApproval
      case Destructive => !requireDestructiveApproval
    }
  }

  type ActionId = nat

  /** The longest sleep, in seconds, that an execution accepts before it asks again. */
  const LONGEST_WAIT := 60.0

  datatype ActionRequest = ActionRequest(
    actionId: ActionId, target: Target, verb: string, risk: RiskLevel, approvalId: Option<string>)

  datatype ApprovalReason =
    | DisabledByPolicy | AllowedByPolicy | EnabledWithoutApproval | ApprovalValid | ApprovalRequired
    | ApprovalNotEvaluated | ApprovalSkippedWhileKilled | ApprovalSkippedWhileDisabled

  datatype ApprovalDecision = ApprovalDecision(allowed: bool, reason: ApprovalReason)

  /** `ActionApprover.evaluate`; `approved` holds the non-empty identifiers the operator registered. */
  function Evaluate(policy: ActionPolicy, approved: set<string>, request: ActionRequest): ApprovalDecision {
    if !policy.Allows(request.risk) then ApprovalDecision(false, DisabledByPolicy)
    else if request.risk == ReadOnly && policy.readOnly then ApprovalDecision(true, AllowedByPolicy)
    else if request.risk == StateChange && policy.stateMutation && !policy.requireStateChangeApproval then
      ApprovalDecision(true, EnabledWithoutApproval)
    else if request.risk == Destructive && policy.destructive && !policy.requireDestructiveApproval then
      ApprovalDecision(true, EnabledWithoutApproval)
    else if request.approvalId.Some? && request.approvalId.value != "" && request.approvalId.value in approved then
      ApprovalDecision(true, ApprovalValid)
    else ApprovalDecision(false, ApprovalRequired)
  }

  datatype Engagement = Engagement(
    engagementId: string, policyHash: string, authProfiles: seq<string>,
    scope: ScopePolicy, limits: RateLimits, actions: ActionPolicy,
    activeTestingEnabled: bool, maxPayloadBytes: nat, maxCases: nat)
  {
    predicate Valid() {
      scope.Valid() && limits.Valid() && maxPayloadBytes > 0 && maxCases > 0
    }
  }

  datatype GateReason =
    | ScopeBlocked | KillSwitchActive | ActiveTestingDisabled | ApprovalBlocked
    | RateBlocked | RateWaitRequired | PassedAllGates

  datatype GatewayDecision = GatewayDecision(
    ready: bool, reason: GateReason, scope: ScopeDecision, approval: ApprovalDecision, rate: RateDecision)

  /** The gates in front of the limiter: a refusal, or nothing when the request may go on to `acquire`. */
  function Screen(config: Engagement, approved: set<string>, request: ActionRequest, killed: bool,
                  count: nat): Option<GatewayDecision> {
    var scope := CheckUrl(config.scope, request.target, request.verb);
    var approval := Evaluate(config.actions, approved, request);
    if !scope.allowed then
      Some(GatewayDecision(false, ScopeBlocked, scope, ApprovalDecision(false, ApprovalNotEvaluated),
                           RateDecision(false, 0.0, NotEvaluatedAfterScopeDenial, count)))
    else if killed then
      Some(GatewayDecision(false, KillSwitchActive, scope, ApprovalDecision(false, ApprovalSkippedWhileKilled),
                           RateDecision(false, 0.0, NotEvaluatedWhileKilled, count)))
    else if request.risk != ReadOnly && !config.activeTestingEnabled then
      Some(GatewayDecision(false, ActiveTestingDisabled, scope, ApprovalDecision(false, ApprovalSkippedWhileDisabled),
                           RateDecision(false, 0.0, NotEvaluatedWhileDisabled, count)))
    else if !approval.allowed then
      Some(GatewayDecision(false, ApprovalBlocked, scope, approval,
                           RateDecision(false, 0.0, NotEvaluatedAfterApprovalDenial, count)))
    else None
  }

  /** The decision for a screened request, once the limiter has answered. */
  function Conclude(config: Engagement, approved: set<string>, request: ActionRequest,
                    rate: RateDecision): GatewayDecision {
    var scope := CheckUrl(config.scope, request.target, request.verb);
    var approval := Evaluate(config.actions, approved, request);
    if !rate.allowed then GatewayDecision(false, RateBlocked, scope, approval, rate)
    else if rate.waitSeconds > 0.0 then GatewayDecision(false, RateWaitRequired, scope, approval, rate)
    else GatewayDecision(true, PassedAllGates, scope, approval, rate)
  }

  /** `authorize` when the kill switch reads `killed` and the limiter's clock reads `current`. */
  function Authorize(config: Engagement, approved: set<string>, request: ActionRequest, killed: bool, s: Ledger,
                     current: real)
    : (Ledger, GatewayDecision)
    requires config.limits.Valid()
  {
    match Screen(config, approved, request, killed, s.requestCount)
    case Some(refusal) => (s, refusal)
    case None =>
      var (s', rate) := Take(config.limits, s, current);
      (s', Conclude(config, approved, request, rate))
  }

  datatype ActionReceipt = ActionReceipt(
    actionId: ActionId, engagementId: string, policyHash: string, verb: string, risk: RiskLevel,
    scopeAllowed: bool, scopeReason: ScopeReason, approvalAllowed: bool, approvalReason: ApprovalReason,
    requestCount: nat, rateReady: bool, rateWaitSeconds: real, rateReason: RateReason)

  function ReceiptFor(config: Engagement, request: ActionRequest, decision: GatewayDecision): ActionReceipt {
    ActionReceipt(
      request.actionId, config.engagementId, config.policyHash, request.verb, request.risk,
      decision.scope.allowed, decision.scope.reason, decision.approval.allowed, decision.approval.reason,
      decision.rate.requestCount, decision.rate.allowed && decision.rate.waitSeconds == 0.0,
      decision.rate.waitSeconds, decision.rate.reason)
  }

  class ToolGateway {
    const config: Engagement
    const approved: set<string>
    const limiter: RateLimiter
    var receipts: seq<ActionReceipt>
    var freeSlots: int

    /** `strip` is `str.strip`; identifiers that are blank are dropped. */
    constructor (config: Engagement, approvedApprovalIds: set<string>, strip: string -> string)
      requires config.Valid()
      ensures Valid() && fresh(this) && fresh(limiter)
      ensures this.config == config
      ensures approved == set id | id in approvedApprovalIds && strip(id) != "" :: strip(id)
      ensures limiter.State() == FRESH && receipts == [] && freeSlots == config.limits.maxConcurrentRequests
    {
      this.config := config;
      this.approved := set id | id in approvedApprovalIds && strip(id) != "" :: strip(id);
      this.limiter := new RateLimiter(config.limits);
      this.receipts := [];
      this.freeSlots := config.limits.maxConcurrentRequests;
    }

    ghost predicate Valid()
      reads this
    {
      config.Valid() && limiter.limits == config.limits && 0 <= freeSlots <= config.limits.maxConcurrentRequests
    }

    method AuthorizeRequest(request: ActionRequest, killed: bool, current: real) returns (decision: GatewayDecision)
      requires Valid()
      modifies limiter
      ensures (limiter.State(), decision) == Authorize(config, approved, request, killed, old(limiter.State()), current)
    {
      var refusal := Screen(config, approved, request, killed, limiter.requestCount);
      if refusal.Some? {
        return refusal.value;
      }
      var rate := limiter.Acquire(current);
      decision := Conclude(config, approved, request, rate);
    }

    method RecordDecision(request: ActionRequest, decision: GatewayDecision) returns (receipt: ActionReceipt)
      modifies this`receipts
      ensures receipt == ReceiptFor(config, request, decision)
      ensures receipts == old(receipts) + [receipt]
    {
      receipt := ReceiptFor(config, request, decision);
      receipts := receipts + [receipt];
    }

    ghost predicate HoldsSlot()
      reads this
    {
      freeSlots < config.limits.maxConcurrentRequests
    }

    /** The two ends of `execution_slot`, when a slot is free. */
    method TakeSlot()
      requires Valid() && freeSlots > 0
      modifies this`freeSlots
      ensures Valid() && HoldsSlot() && freeSlots == old(freeSlots) - 1
    {
      freeSlots := freeSlots - 1;
    }

    method ReleaseSlot()
      requires Valid() && HoldsSlot()
      modifies this`freeSlots
      ensures Valid() && freeSlots == old(freeSlots) + 1
    {
      freeSlots := freeSlots + 1;
    }

    /** One receipt whatever the outcome; `None` stands for `GatewayBlocked`. */
    method DryRun(request: ActionRequest, killed: bool, current: real) returns (result: Option<ActionReceipt>)
      requires Valid()
      modifies limiter, this`receipts
      ensures var (s', decision) := Authorize(config, approved, request, killed, old(limiter.State()), current);
        && limiter.State() == s'
        && receipts == old(receipts) + [ReceiptFor(config, request, decision)]
        && (result.Some? <==> decision.ready)
        && (result.Some? ==> result.value == receipts[|old(receipts)|])
    {
      var decision := AuthorizeRequest(request, killed, current);
      var receipt := RecordDecision(request, decision);
      result := if decision.ready then Some(receipt) else None;
    }
  }

  // ---------------------------------------------------------------- what a decision means

  /** The policy's own words: the class of action is enabled, and it is waived or carries a registered approval. */
  predicate Approved(policy: ActionPolicy, approved: set<string>, request: ActionRequest) {
    && policy.Allows(request.risk)
    && (policy.Waives(request.risk) || (request.approvalId.Some? && request.approvalId.value in approved))
  }

  lemma EvaluateMeansApproved(policy: ActionPolicy, approved: set<string>, request: ActionRequest)
    requires "" !in approved
    ensures Evaluate(policy, approved, request).allowed <==> Approved(policy, approved, request)
  {
  }

  /** Everything `ready` stands for, and that nothing short of it touches the budget. */
  lemma ReadyExactly(config: Engagement, approved: set<string>, request: ActionRequest, killed: bool, s: Ledger,
                     current: real)
    requires config.Valid() && "" !in approved
    ensures var (s', d) := Authorize(config, approved, request, killed, s, current);
      && (d.ready <==>
            && CheckUrl(config.scope, request.target, request.verb).allowed
            && !killed
            && (request.risk == ReadOnly || config.activeTestingEnabled)
            && Approved(config.actions, approved, request)
            && s.requestCount < config.limits.maxRequests
            && (s.lastRequestAt.Some? ==> current >= s.lastRequestAt.value + config.limits.Interval()))
      && (if d.ready then s' == Ledger(Some(current), s.requestCount + 1) else s' == s)
      && d.rate.requestCount == s'.requestCount
  {
    EvaluateMeansApproved(config.actions, approved, request);
    GrantExactly(config.limits, s, current);
  }

  /** A refusal names the first gate that said no, and the gates behind it are not asked. */
  lemma RefusalNamesFirstGate(config: Engagement, approved: set<string>, request: ActionRequest, killed: bool,
                              s: Ledger, current: real)
    requires config.Valid() && "" !in approved
    ensures var d := Authorize(config, approved, request, killed, s, current).1;
      var inScope := CheckUrl(config.scope, request.target, request.verb).allowed;
      var enabled := request.risk == ReadOnly || config.activeTestingEnabled;
      && (d.reason == ScopeBlocked <==> !inScope)
      && (d.reason == KillSwitchActive <==> inScope && killed)
      && (d.reason == ActiveTestingDisabled <==> inScope && !killed && !enabled)
      && (d.reason == ApprovalBlocked <==>
            inScope && !killed && enabled && !Approved(config.actions, approved, request))
      && (d.reason == RateBlocked ==> s.requestCount >= config.limits.maxRequests)
      && (d.reason == RateWaitRequired ==> s.requestCount < config.limits.maxRequests)
      && (d.scope.allowed <==> inScope)
      && (d.approval.allowed ==> d.reason in {RateBlocked, RateWaitRequired, PassedAllGates})
      && (d.rate.allowed <==> d.reason in {RateWaitRequired, PassedAllGates})
  {
    EvaluateMeansApproved(config.actions, approved, request);
    GrantExactly(config.limits, s, current);
  }

  /** Why an action is or is not approved. */
  lemma ApprovalReasons(policy: ActionPolicy, approved: set<string>, request: ActionRequest)
    requires "" !in approved
    ensures var d, risk := Evaluate(policy, approved, request), request.risk;
      var waived := risk == ReadOnly || (risk == StateChange && !policy.requireStateChangeApproval)
        || (risk == Destructive && !policy.requireDestructiveApproval);
      var enabled := (risk == ReadOnly && policy.readOnly) || (risk == StateChange && policy.stateMutation)
        || (risk == Destructive && policy.destructive);
      && (d.reason == DisabledByPolicy <==> !enabled)
      && (d.reason == AllowedByPolicy <==> enabled && risk == ReadOnly)
      && (d.reason == EnabledWithoutApproval <==> enabled && waived && risk != ReadOnly)
      && (d.reason == ApprovalValid <==> enabled && !waived && d.allowed)
      && (d.reason == ApprovalRequired <==> enabled && !d.allowed)
  {
  }

  /** What a receipt tells: whose action it was, and for every gate what it said or that it was not asked. */
  lemma ReceiptTells(config: Engagement, approved: set<string>, request: ActionRequest, killed: bool, s: Ledger,
                     current: real)
    requires config.Valid() && "" !in approved
    ensures var (s', d) := Authorize(config, approved, request, killed, s, current);
      var r, scope := ReceiptFor(config, request, d), CheckUrl(config.scope, request.target, request.verb);
      var evaluated := Evaluate(config.actions, approved, request);
      var enabled := request.risk == ReadOnly || config.activeTestingEnabled;
      && r.actionId == request.actionId && r.verb == request.verb && r.risk == request.risk
      && r.engagementId == config.engagementId && r.policyHash == config.policyHash
      && r.scopeAllowed == scope.allowed && r.scopeReason == scope.reason
      && r.approvalAllowed == (scope.allowed && !killed && enabled && evaluated.allowed)
      && r.approvalReason ==
         (if !scope.allowed then ApprovalNotEvaluated
          else if killed then ApprovalSkippedWhileKilled
          else if !enabled then ApprovalSkippedWhileDisabled
          else evaluated.reason)
      && r.rateReason ==
         (if !scope.allowed then NotEvaluatedAfterScopeDenial
          else if killed then NotEvaluatedWhileKilled
          else if !enabled then NotEvaluatedWhileDisabled
          else if !evaluated.allowed then NotEvaluatedAfterApprovalDenial
          else if s.requestCount >= config.limits.maxRequests then BudgetExhausted
          else if d.ready then Permitted
          else PacingRequired)
      && r.requestCount == s'.requestCount && r.rateReady == d.ready
      && (r.rateReason == PacingRequired ==>
            s.lastRequestAt.Some? && current + r.rateWaitSeconds == s.lastRequestAt.value + config.limits.Interval())
      && (r.rateReason != PacingRequired ==> r.rateWaitSeconds == 0.0)
  {
    GrantExactly(config.limits, s, current);
  }

  /** A receipt says `rate_ready` exactly when its decision was ready, whichever gate decided. */
  lemma RateReadyIsReady(config: Engagement, approved: set<string>, request: ActionRequest, killed: bool, s: Ledger,
                         current: real)
    requires config.limits.Valid()
    ensures var (_, d) := Authorize(config, approved, request, killed, s, current);
      ReceiptFor(config, request, d).rateReady <==> d.ready
  {
    GrantExactly(config.limits, s, current);
  }
}
