/**
 * Any number of threads inside `HttpExecutor.execute`, sharing one gateway and one evidence store.
 * Every event below is one atomic action of one thread, or of the clock or the operator.
 */
module Interleaving {
  import opened Pacing
  import opened Gateway

  /** What stays fixed: the policy and the request each thread brings; action ids are unique. */
  datatype System = System(config: Engagement, approved: set<string>, calls: seq<ActionRequest>)
  {
    ghost predicate Valid() {
      && config.Valid()
      && forall i :: 0 <= i < |calls| ==> calls[i].actionId == i
    }
  }

  /** How a call has fared in the authorize-and-sleep loop: waits so far, the count last seen, and when it may wake. */
  datatype Patience = Patience(waits: nat, seen: nat, until: real)

  /** How the guarded block ended; all but `Response` are caught by the `except` clause. */
  datatype Outcome = Response | NamedException | KillTrip

  /** Where a thread stands in `execute`. */
  datatype Pc =
    | Idle(p: Patience)
    | Screened(p: Patience)
    | Sleeping(p: Patience)
    | Refused(decision: GatewayDecision)
    | Blocked
    | GaveUp
    | Granted(decision: GatewayDecision)
    | Receipted(k: nat)
    | NoCredentials(k: nat)
    | Queued(k: nat)
    | Holding(k: nat)
    | Live(k: nat)
    | Sending(k: nat)
    | Leaving(k: nat, outcome: Outcome)
    | Closing(k: nat, outcome: Outcome)
    | Finished(k: nat, outcome: Outcome)

  datatype Evidence = Evidence(actionId: ActionId, outcome: Outcome)

  datatype State = State(
    now: real, killed: bool, ledger: Ledger, freeSlots: int,
    receipts: seq<ActionReceipt>, evidence: seq<Evidence>, grants: seq<real>, pcs: seq<Pc>)

  datatype Event =
    | Tick(now: real)
    | Trip(on: bool)
    | ScreenCall(i: nat)        // authorize up to and including the kill-switch and approval gates
    | AcquireCall(i: nat)       // the limiter's locked section
    | WakeCall(i: nat)
    | WriteReceipt(i: nat)
    | LoadCredentials(i: nat, loaded: bool)
    | SlotTimeout(i: nat)       // 0.25 s without a slot: look at the kill switch
    | TakeSlot(i: nat)
    | CheckLive(i: nat)
    | BeginSend(i: nat)
    | EndSend(i: nat, outcome: Outcome)
    | ReleaseSlot(i: nat)       // the with-block ends before the except clause or the record runs
    | WriteEvidence(i: nat)
  {
    predicate OfCall() { !Tick? && !Trip? }
  }

  function Start(sys: System, now: real): State {
    State(now, false, FRESH, sys.config.limits.maxConcurrentRequests, [], [], [],
          seq(|sys.calls|, _ => Idle(Patience(0, 0, now))))
  }

  predicate Enabled(s: State, e: Event) {
    match e
    case Tick(_) => true
    case Trip(_) => true
    case _ =>
      e.i < |s.pcs| &&
      var pc := s.pcs[e.i];
      match e
      case ScreenCall(_) => pc.Idle?
      case AcquireCall(_) => pc.Screened?
      case WakeCall(_) => pc.Sleeping? && s.now >= pc.p.until
      case WriteReceipt(_) => pc.Granted? || pc.Refused?
      case LoadCredentials(_, _) => pc.Receipted?
      case SlotTimeout(_) => pc.Queued?
      case TakeSlot(_) => pc.Queued? && s.freeSlots > 0
      case CheckLive(_) => pc.Holding?
      case BeginSend(_) => pc.Live?
      case EndSend(_, outcome) => pc.Sending? && outcome != KillTrip
      case ReleaseSlot(_) => pc.Leaving?
      case WriteEvidence(_) => pc.Closing?
      case _ => true
  }

  function RateAnswer(sys: System, s: State): (Ledger, RateDecision)
    requires sys.config.limits.Valid()
  {
    Take(sys.config.limits, s.ledger, s.now)
  }

  function NextPc(sys: System, s: State, e: Event): Pc
    requires sys.config.limits.Valid() && |sys.calls| == |s.pcs| && Enabled(s, e) && e.OfCall()
  {
    var pc, request := s.pcs[e.i], sys.calls[e.i];
    match e
    case ScreenCall(_) =>
      (match Screen(sys.config, sys.approved, request, s.killed, s.ledger.requestCount)
       case Some(refusal) => Refused(refusal)
       case None => Screened(pc.p))
    case AcquireCall(_) =>
      var rate := RateAnswer(sys, s).1;
      var decision := Conclude(sys.config, sys.approved, request, rate);
      if decision.ready then Granted(decision)
      else if rate.allowed && rate.waitSeconds > 0.0 then
        if rate.waitSeconds > LONGEST_WAIT then GaveUp
        else Sleeping(Patience(pc.p.waits + 1, rate.requestCount, s.now + rate.waitSeconds))
      else Refused(decision)
    case WakeCall(_) => Idle(pc.p)
    case WriteReceipt(_) => if pc.Granted? then Receipted(pc.decision.rate.requestCount) else Blocked
    case LoadCredentials(_, loaded) => if loaded then Queued(pc.k) else NoCredentials(pc.k)
    case SlotTimeout(_) => if s.killed then Closing(pc.k, KillTrip) else pc
    case TakeSlot(_) => Holding(pc.k)
    case CheckLive(_) => if s.killed then Leaving(pc.k, KillTrip) else Live(pc.k)
    case BeginSend(_) => Sending(pc.k)
    case EndSend(_, outcome) => Leaving(pc.k, outcome)
    case ReleaseSlot(_) => Closing(pc.k, pc.outcome)
    case WriteEvidence(_) => Finished(pc.k, pc.outcome)
  }

  /** What the event does to the shared objects. */
  function Shared(sys: System, s: State, e: Event): State
    requires sys.config.limits.Valid() && |sys.calls| == |s.pcs| && Enabled(s, e) && e.OfCall()
  {
    var pc, request := s.pcs[e.i], sys.calls[e.i];
    match e
    case AcquireCall(_) =>
      var (ledger, rate) := RateAnswer(sys, s);
      s.(ledger := ledger, grants := if rate.Granted() then s.grants + [s.now] else s.grants)
    case WriteReceipt(_) => s.(receipts := s.receipts + [ReceiptFor(sys.config, request, pc.decision)])
    case TakeSlot(_) => s.(freeSlots := s.freeSlots - 1)
    case ReleaseSlot(_) => s.(freeSlots := s.freeSlots + 1)
    case WriteEvidence(_) => s.(evidence := s.evidence + [Evidence(request.actionId, pc.outcome)])
    case _ => s
  }

  function Apply(sys: System, s: State, e: Event): (s': State)
    requires sys.config.limits.Valid() && |sys.calls| == |s.pcs| && Enabled(s, e)
    ensures |s'.pcs| == |s.pcs|
  {
    match e
    case Tick(now) => s.(now := now)
    case Trip(on) => s.(killed := on)
    case _ => Shared(sys, s, e).(pcs := s.pcs[e.i := NextPc(sys, s, e)])
  }

  /** With nothing in between, the two halves of `authorize` are the gateway's one decision. */
  lemma UninterruptedAuthorize(sys: System, s: State, i: nat)
    requires sys.config.limits.Valid() && |sys.calls| == |s.pcs| && i < |s.pcs| && s.pcs[i].Idle?
    ensures var (ledger, decision) := Authorize(sys.config, sys.approved, sys.calls[i], s.killed, s.ledger, s.now);
      var half := Apply(sys, s, ScreenCall(i));
      if half.pcs[i].Screened? then
        var whole := Apply(sys, half, AcquireCall(i));
        && whole.ledger == ledger
        && (decision.ready <==> whole.pcs[i] == Granted(decision))
        && (whole.pcs[i].Refused? ==> whole.pcs[i] == Refused(decision))
        && (whole.pcs[i].Sleeping? || whole.pcs[i].GaveUp? <==> decision.reason == RateWaitRequired)
        && (whole.pcs[i].GaveUp? <==> decision.rate.waitSeconds > 60.0)
        && (whole.pcs[i].Sleeping? ==> whole.pcs[i].p.until == s.now + decision.rate.waitSeconds)
      else half.pcs[i] == Refused(decision) && half.ledger == ledger
  {
    GrantExactly(sys.config.limits, s.ledger, s.now);
  }

  // ---------------------------------------------------------------- runs

  predicate Legal(sys: System, s: State, es: seq<Event>)
    requires sys.config.limits.Valid() && |sys.calls| == |s.pcs|
    decreases |es|, 0
  {
    es == [] || (Legal(sys, s, es[..|es| - 1]) && Enabled(After(sys, s, es[..|es| - 1]), es[|es| - 1]))
  }

  /** The state the events lead to. */
  function After(sys: System, s: State, es: seq<Event>): (s': State)
    requires sys.config.limits.Valid() && |sys.calls| == |s.pcs| && Legal(sys, s, es)
    ensures |s'.pcs| == |s.pcs|
    decreases |es|, 1
  {
    if es == [] then s else Apply(sys, After(sys, s, es[..|es| - 1]), es[|es| - 1])
  }

  /** A run of the whole system from its start, at any starting time. */
  ghost predicate Run(sys: System, now: real, es: seq<Event>) {
    sys.Valid() && Legal(sys, Start(sys, now), es)
  }

  function Reached(sys: System, now: real, es: seq<Event>): State
    requires sys.config.limits.Valid() && Legal(sys, Start(sys, now), es)
  {
    After(sys, Start(sys, now), es)
  }

  // ---------------------------------------------------------------- which calls are where

  predicate HoldsSlot(pc: Pc) { pc.Holding? || pc.Live? || pc.Sending? || pc.Leaving? }

  predicate IsLive(pc: Pc) { pc.Live? }

  predicate IsNoCredentials(pc: Pc) { pc.NoCredentials? }

  predicate IsFinished(pc: Pc) { pc.Finished? }

  predicate Waiting(pc: Pc) { pc.Idle? || pc.Screened? || pc.Sleeping? }

  predicate WasGranted(pc: Pc) { !Waiting(pc) && !pc.Refused? && !pc.Blocked? && !pc.GaveUp? }

  /** Granted, and neither recorded as evidence nor stopped on its credentials. */
  predicate InFlight(pc: Pc) { WasGranted(pc) && !pc.NoCredentials? && !pc.Finished? }

  predicate HasReceipt(pc: Pc) { pc.Blocked? || (WasGranted(pc) && !pc.Granted?) }

  predicate Done(pc: Pc) { pc.Blocked? || pc.GaveUp? || pc.NoCredentials? || pc.Finished? }

  /** Holds grant number `k` without having written its receipt. */
  function Unwritten(k: nat): Pc -> bool {
    (pc: Pc) => pc.Granted? && pc.decision.rate.requestCount == k
  }

  function ReadyReceipt(k: nat): ActionReceipt -> bool {
    (r: ActionReceipt) => r.rateReady && r.requestCount == k
  }

  function ReceiptOf(i: nat): ActionReceipt -> bool {
    (r: ActionReceipt) => r.actionId == i
  }

  function EvidenceOf(i: nat): Evidence -> bool {
    (v: Evidence) => v.actionId == i
  }
}
