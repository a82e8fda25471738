/** What every step of the shared executor keeps, and what follows for whole runs. */
module InterleavingSafety {
  import opened Text
  import opened Counting
  import opened Pacing
  import opened Scope
  import opened Gateway
  import opened Interleaving

  // ---------------------------------------------------------------- the invariant, one concern at a time

  /** Every slot is free or held, and none is counted twice. */
  ghost predicate SlotsBalanced(sys: System, s: State) {
    s.freeSlots >= 0 && s.freeSlots + Count(s.pcs, HoldsSlot) == sys.config.limits.maxConcurrentRequests
  }

  /** The budget spent is the number of calls that were granted. */
  ghost predicate BudgetBalanced(s: State) {
    s.ledger.requestCount == Count(s.pcs, WasGranted)
  }

  /** A program counter carries the decision that put it there. */
  ghost predicate DecisionKept(s: State, pc: Pc) {
    && (pc.Granted? ==>
          && pc.decision.ready && pc.decision.rate.Granted()
          && 1 <= pc.decision.rate.requestCount <= s.ledger.requestCount)
    && (pc.Refused? ==> !pc.decision.ready && !pc.decision.rate.Granted())
  }

  ghost predicate DecisionsKept(s: State) {
    forall i :: 0 <= i < |s.pcs| ==> DecisionKept(s, s.pcs[i])
  }

  /** Grant number `k` is either still with its thread or on exactly one ready receipt. */
  ghost predicate Numbered(s: State, k: nat) {
    Count(s.pcs, Unwritten(k)) + Count(s.receipts, ReadyReceipt(k)) == One(1 <= k <= s.ledger.requestCount)
  }

  ghost predicate GrantsNumbered(s: State) {
    forall k: nat :: Numbered(s, k)
  }

  /** Each call has written as many receipts and evidence records as its program counter says. */
  ghost predicate Recorded(s: State, i: nat)
    requires i < |s.pcs|
  {
    && Count(s.receipts, ReceiptOf(i)) == One(HasReceipt(s.pcs[i]))
    && Count(s.evidence, EvidenceOf(i)) == One(IsFinished(s.pcs[i]))
  }

  ghost predicate LogsMatchCalls(s: State) {
    forall i: nat :: i < |s.pcs| ==> Recorded(s, i)
  }

  /** A logged receipt is ready exactly when its call was granted. */
  ghost predicate ReceiptsTruthful(s: State) {
    forall r :: r in s.receipts ==> Truthful(s, r)
  }

  ghost predicate Truthful(s: State, r: ActionReceipt) {
    && r.actionId < |s.pcs|
    && (r.rateReady <==> WasGranted(s.pcs[r.actionId]))
    && HasReceipt(s.pcs[r.actionId])
  }

  ghost predicate Inv(sys: System, s: State) {
    && sys.Valid()
    && |s.pcs| == |sys.calls|
    && Remembers(sys.config.limits, s.ledger, s.grants)
    && SlotsBalanced(sys, s)
    && BudgetBalanced(s)
    && DecisionsKept(s)
    && GrantsNumbered(s)
    && LogsMatchCalls(s)
    && ReceiptsTruthful(s)
  }

  lemma StartInv(sys: System, now: real)
    requires sys.Valid()
    ensures Inv(sys, Start(sys, now))
  {
    var s := Start(sys, now);
    CountNone(s.pcs, HoldsSlot);
    CountNone(s.pcs, WasGranted);
    forall k: nat ensures Numbered(s, k) { CountNone(s.pcs, Unwritten(k)); }
  }

  lemma StepSlots(sys: System, s: State, e: Event)
    requires Inv(sys, s) && Enabled(s, e)
    ensures SlotsBalanced(sys, Apply(sys, s, e))
  {
    if e.OfCall() { CountUpdate(s.pcs, e.i, NextPc(sys, s, e), HoldsSlot); }
  }

  lemma StepBudget(sys: System, s: State, e: Event)
    requires Inv(sys, s) && Enabled(s, e)
    ensures BudgetBalanced(Apply(sys, s, e))
  {
    StepGrants(sys, s, e);
    if e.OfCall() { CountUpdate(s.pcs, e.i, NextPc(sys, s, e), WasGranted); }
  }

  /** A call becomes a granted one exactly when the limiter counts it. */
  lemma StepGrants(sys: System, s: State, e: Event)
    requires Inv(sys, s) && Enabled(s, e)
    ensures Apply(sys, s, e).ledger.requestCount == s.ledger.requestCount +
      if e.OfCall() then One(WasGranted(NextPc(sys, s, e))) - One(WasGranted(s.pcs[e.i])) else 0
  {
    if e.AcquireCall? { GrantExactly(sys.config.limits, s.ledger, s.now); }
  }

  lemma StepRemembers(sys: System, s: State, e: Event)
    requires Inv(sys, s) && Enabled(s, e)
    ensures Remembers(sys.config.limits, Apply(sys, s, e).ledger, Apply(sys, s, e).grants)
  {
    if e.AcquireCall? { TakeRemembers(sys.config.limits, s.ledger, s.grants, s.now); }
  }

  lemma StepDecisions(sys: System, s: State, e: Event)
    requires Inv(sys, s) && Enabled(s, e)
    ensures DecisionsKept(Apply(sys, s, e))
  {
    GrantExactly(sys.config.limits, s.ledger, s.now);
    var s' := Apply(sys, s, e);
    forall j | 0 <= j < |s'.pcs| ensures DecisionKept(s', s'.pcs[j]) {
      assert DecisionKept(s, s.pcs[j]);
    }
  }

  lemma StepNumbered(sys: System, s: State, e: Event, k: nat)
    requires Inv(sys, s) && Enabled(s, e)
    ensures Numbered(Apply(sys, s, e), k)
  {
    assert Numbered(s, k);
    if e.OfCall() {
      assert DecisionKept(s, s.pcs[e.i]);
      CountUpdate(s.pcs, e.i, NextPc(sys, s, e), Unwritten(k));
      if e.AcquireCall? { GrantExactly(sys.config.limits, s.ledger, s.now); }
      if e.WriteReceipt? {
        CountAppend(s.receipts, ReceiptFor(sys.config, sys.calls[e.i], s.pcs[e.i].decision), ReadyReceipt(k));
      }
    }
  }

  /**
   * Only its own WriteReceipt changes whether a call has a receipt; only its own WriteEvidence, whether it is finished.
   */
  lemma StepProgress(sys: System, s: State, e: Event, j: nat)
    requires sys.Valid() && |s.pcs| == |sys.calls| && Enabled(s, e) && j < |s.pcs|
    ensures var s' := Apply(sys, s, e);
      && (HasReceipt(s'.pcs[j]) <==> HasReceipt(s.pcs[j]) || e == WriteReceipt(j))
      && (IsFinished(s'.pcs[j]) <==> IsFinished(s.pcs[j]) || e == WriteEvidence(j))
      && (e == WriteReceipt(j) ==> !HasReceipt(s.pcs[j]))
      && (e == WriteEvidence(j) ==> !IsFinished(s.pcs[j]))
  {
    if e.OfCall() && e.i == j {
      assert Apply(sys, s, e).pcs[j] == NextPc(sys, s, e);
    } else {
      assert Apply(sys, s, e).pcs[j] == s.pcs[j];
    }
  }

  lemma StepRecorded(sys: System, s: State, e: Event, j: nat)
    requires Inv(sys, s) && Enabled(s, e) && j < |s.pcs|
    ensures Recorded(Apply(sys, s, e), j)
  {
    assert Recorded(s, j);
    StepProgress(sys, s, e, j);
    if e.WriteReceipt? {
      CountAppend(s.receipts, ReceiptFor(sys.config, sys.calls[e.i], s.pcs[e.i].decision), ReceiptOf(j));
    } else if e.WriteEvidence? {
      CountAppend(s.evidence, Evidence(sys.calls[e.i].actionId, s.pcs[e.i].outcome), EvidenceOf(j));
    } else {
      assert Apply(sys, s, e).receipts == s.receipts && Apply(sys, s, e).evidence == s.evidence;
    }
  }

  lemma StepTruthful(sys: System, s: State, e: Event)
    requires Inv(sys, s) && Enabled(s, e)
    ensures ReceiptsTruthful(Apply(sys, s, e))
  {
    var s' := Apply(sys, s, e);
    if e.OfCall() { assert DecisionKept(s, s.pcs[e.i]); }
    forall r | r in s'.receipts ensures Truthful(s', r) {
      if r in s.receipts {
        assert Truthful(s, r);
      }
    }
  }

  /** Every event keeps the invariant. */
  lemma StepInv(sys: System, s: State, e: Event)
    requires Inv(sys, s) && Enabled(s, e)
    ensures Inv(sys, Apply(sys, s, e))
  {
    StepSlots(sys, s, e);
    StepBudget(sys, s, e);
    StepRemembers(sys, s, e);
    StepDecisions(sys, s, e);
    forall k: nat ensures Numbered(Apply(sys, s, e), k) { StepNumbered(sys, s, e, k); }
    forall i: nat | i < |s.pcs| ensures Recorded(Apply(sys, s, e), i) { StepRecorded(sys, s, e, i); }
    StepTruthful(sys, s, e);
  }

  lemma {:induction false} AfterInv(sys: System, s: State, es: seq<Event>)
    requires Inv(sys, s) && Legal(sys, s, es)
    ensures Inv(sys, After(sys, s, es))
  {
    if es != [] {
      AfterInv(sys, s, es[..|es| - 1]);
      StepInv(sys, After(sys, s, es[..|es| - 1]), es[|es| - 1]);
    }
  }

  lemma RunInv(sys: System, now: real, es: seq<Event>)
    requires Run(sys, now, es)
    ensures Inv(sys, Reached(sys, now, es))
  {
    StartInv(sys, now);
    AfterInv(sys, Start(sys, now), es);
  }

  // ---------------------------------------------------------------- whole runs

  /** Pacing, the windowed rate and the budget hold in every interleaving. */
  lemma GrantsWithinRate(sys: System, now: real, es: seq<Event>)
    requires Run(sys, now, es)
    ensures var s := Reached(sys, now, es);
      && |s.grants| == s.ledger.requestCount == Count(s.pcs, WasGranted) <= sys.config.limits.maxRequests
      && WithinRate(sys.config.limits, s.grants)
  {
    RunInv(sys, now, es);
    PacedIsWithinRate(sys.config.limits, Reached(sys, now, es).grants);
  }

  /** Slots are never lost, duplicated or oversubscribed. */
  lemma SlotsConserved(sys: System, now: real, es: seq<Event>)
    requires Run(sys, now, es)
    ensures var s := Reached(sys, now, es);
      && 0 <= s.freeSlots
      && s.freeSlots + Count(s.pcs, HoldsSlot) == sys.config.limits.maxConcurrentRequests
  {
    RunInv(sys, now, es);
  }

  /**
   * Each granted call is in flight, or has exactly one evidence record under its own action id, or stopped on its
   * credentials; no other call has evidence.
   */
  lemma GrantsConserved(sys: System, now: real, es: seq<Event>)
    requires Run(sys, now, es)
    ensures var s := Reached(sys, now, es);
      && s.ledger.requestCount == Count(s.pcs, InFlight) + Count(s.pcs, IsFinished) + Count(s.pcs, IsNoCredentials)
      && forall i: nat :: i < |s.pcs| ==> Count(s.evidence, EvidenceOf(i)) == One(s.pcs[i].Finished?)
  {
    RunInv(sys, now, es);
    var s := Reached(sys, now, es);
    CountCases(s.pcs, WasGranted, InFlight, IsFinished, IsNoCredentials);
    forall i: nat | i < |s.pcs| ensures Count(s.evidence, EvidenceOf(i)) == One(s.pcs[i].Finished?) {
      assert Recorded(s, i);
    }
  }

  /** A receipt is ready exactly when its call was granted, and a call writes at most one. */
  lemma ReceiptsTellTheTruth(sys: System, now: real, es: seq<Event>)
    requires Run(sys, now, es)
    ensures var s := Reached(sys, now, es);
      && (forall r :: r in s.receipts ==> r.actionId < |s.pcs| && (r.rateReady <==> WasGranted(s.pcs[r.actionId])))
      && (forall i: nat :: i < |s.pcs| ==> Count(s.receipts, ReceiptOf(i)) == One(HasReceipt(s.pcs[i])))
  {
    RunInv(sys, now, es);
    var s := Reached(sys, now, es);
    forall i: nat | i < |s.pcs| ensures Count(s.receipts, ReceiptOf(i)) == One(HasReceipt(s.pcs[i])) {
      assert Recorded(s, i);
    }
  }

  /** Once no granted call still owes its receipt, the ready receipts are numbered 1 to n, each number once. */
  lemma ReadyReceiptsAreNumbered(sys: System, now: real, es: seq<Event>)
    requires Run(sys, now, es)
    requires forall i :: 0 <= i < |Reached(sys, now, es).pcs| ==> !Reached(sys, now, es).pcs[i].Granted?
    ensures var s := Reached(sys, now, es);
      forall k: nat :: Count(s.receipts, ReadyReceipt(k)) == One(1 <= k <= s.ledger.requestCount)
  {
    RunInv(sys, now, es);
    var s := Reached(sys, now, es);
    forall k: nat ensures Count(s.receipts, ReadyReceipt(k)) == One(1 <= k <= s.ledger.requestCount) {
      assert Numbered(s, k);
      CountNone(s.pcs, Unwritten(k));
    }
  }

  /** When every call has ended, all slots are free and every unit of budget is accounted for. */
  lemma AtRest(sys: System, now: real, es: seq<Event>)
    requires Run(sys, now, es)
    requires forall i :: 0 <= i < |Reached(sys, now, es).pcs| ==> Done(Reached(sys, now, es).pcs[i])
    ensures var s := Reached(sys, now, es);
      && s.freeSlots == sys.config.limits.maxConcurrentRequests
      && s.ledger.requestCount == Count(s.pcs, IsFinished) + Count(s.pcs, IsNoCredentials)
      && (forall k: nat :: Count(s.receipts, ReadyReceipt(k)) == One(1 <= k <= s.ledger.requestCount))
      && (forall i: nat :: i < |s.pcs| ==> Settled(s, i))
  {
    var s := Reached(sys, now, es);
    SlotsConserved(sys, now, es);
    GrantsConserved(sys, now, es);
    ReceiptsTellTheTruth(sys, now, es);
    ReadyReceiptsAreNumbered(sys, now, es);
    CountNone(s.pcs, HoldsSlot);
    CountNone(s.pcs, InFlight);
  }

  /**
   * Call `i` has ended: a granted one has one receipt, and either one evidence record or a credential error; no other
   * has evidence.
   */
  ghost predicate Settled(s: State, i: nat)
    requires i < |s.pcs|
  {
    && Count(s.evidence, EvidenceOf(i)) + One(s.pcs[i].NoCredentials?) == One(WasGranted(s.pcs[i]))
    && (WasGranted(s.pcs[i]) ==> Count(s.receipts, ReceiptOf(i)) == 1)
  }

  // ---------------------------------------------------------------- receipts need not be in grant order

  lemma OneMore(sys: System, s: State, es: seq<Event>, e: Event)
    requires sys.config.limits.Valid() && |sys.calls| == |s.pcs| && Legal(sys, s, es) && Enabled(After(sys, s, es), e)
    ensures Legal(sys, s, es + [e]) && After(sys, s, es + [e]) == Apply(sys, After(sys, s, es), e)
  {
    assert (es + [e])[..|es|] == es;
  }

  /** Two calls whose requests pass every gate in front of the limiter. */
  ghost predicate TwoClearCalls(sys: System) {
    && sys.Valid() && |sys.calls| == 2 && sys.config.limits.maxRequests >= 2
    && forall i, count :: 0 <= i < 2 && 0 <= count ==>
          Screen(sys.config, sys.approved, sys.calls[i], false, count).None?
  }

  /** An idle call for which the limiter has room goes through `authorize` without interruption. */
  lemma PassGate(sys: System, s: State, es: seq<Event>, i: nat)
    requires TwoClearCalls(sys) && |s.pcs| == 2 && i < 2 && Legal(sys, s, es)
    requires var m := After(sys, s, es);
      !m.killed && m.pcs[i].Idle? && m.ledger.requestCount < sys.config.limits.maxRequests
      && (m.ledger.lastRequestAt.Some? ==> m.now >= m.ledger.lastRequestAt.value + sys.config.limits.Interval())
    ensures var longer := es + [ScreenCall(i)] + [AcquireCall(i)];
      && Legal(sys, s, longer)
      && var m, m' := After(sys, s, es), After(sys, s, longer);
        && m'.ledger == Ledger(Some(m.now), m.ledger.requestCount + 1)
        && m'.pcs[i].Granted? && m'.pcs[i].decision.rate.requestCount == m.ledger.requestCount + 1
        && m'.pcs == m.pcs[i := m'.pcs[i]]
        && m'.receipts == m.receipts && m'.now == m.now && !m'.killed
  {
    var m := After(sys, s, es);
    PassScreen(sys, s, es, i);
    var half := After(sys, s, es + [ScreenCall(i)]);
    PassLimiter(sys, s, es + [ScreenCall(i)], i);
    UpdateTwice(m.pcs, i, Screened(m.pcs[i].p), After(sys, s, es + [ScreenCall(i)] + [AcquireCall(i)]).pcs[i]);
  }

  lemma UpdateTwice<T>(q: seq<T>, i: nat, x: T, y: T)
    requires i < |q|
    ensures q[i := x][i := y] == q[i := y]
  {
  }

  lemma PassScreen(sys: System, s: State, es: seq<Event>, i: nat)
    requires TwoClearCalls(sys) && |s.pcs| == 2 && i < 2 && Legal(sys, s, es)
    requires !After(sys, s, es).killed && After(sys, s, es).pcs[i].Idle?
    ensures Legal(sys, s, es + [ScreenCall(i)])
    ensures var m := After(sys, s, es);
      After(sys, s, es + [ScreenCall(i)]) == m.(pcs := m.pcs[i := Screened(m.pcs[i].p)])
  {
    OneMore(sys, s, es, ScreenCall(i));
  }

  lemma PassLimiter(sys: System, s: State, es: seq<Event>, i: nat)
    requires TwoClearCalls(sys) && |s.pcs| == 2 && i < 2 && Legal(sys, s, es)
    requires var m := After(sys, s, es);
      m.pcs[i].Screened? && m.ledger.requestCount < sys.config.limits.maxRequests
      && (m.ledger.lastRequestAt.Some? ==> m.now >= m.ledger.lastRequestAt.value + sys.config.limits.Interval())
    ensures Legal(sys, s, es + [AcquireCall(i)])
    ensures var m, m' := After(sys, s, es), After(sys, s, es + [AcquireCall(i)]);
      && m'.ledger == Ledger(Some(m.now), m.ledger.requestCount + 1)
      && m'.pcs[i].Granted? && m'.pcs[i].decision.rate.requestCount == m.ledger.requestCount + 1
      && m'.pcs == m.pcs[i := m'.pcs[i]]
      && m'.receipts == m.receipts && m'.now == m.now && m'.killed == m.killed
  {
    var m := After(sys, s, es);
    OneMore(sys, s, es, AcquireCall(i));
    GrantExactly(sys.config.limits, m.ledger, m.now);
  }

  /** One is granted now, the other an interval later, and neither has logged yet. */
  lemma BothGranted(sys: System, now: real) returns (es: seq<Event>)
    requires TwoClearCalls(sys)
    ensures Run(sys, now, es)
    ensures var s := Reached(sys, now, es);
      && s.receipts == [] && s.pcs[0].Granted? && s.pcs[1].Granted?
      && s.pcs[0].decision.rate.requestCount == 1 && s.pcs[1].decision.rate.requestCount == 2
  {
    var s := Start(sys, now);
    PassGate(sys, s, [], 0);
    es := [] + [ScreenCall(0)] + [AcquireCall(0)];
    OneMore(sys, s, es, Tick(now + sys.config.limits.Interval()));
    es := es + [Tick(now + sys.config.limits.Interval())];
    PassGate(sys, s, es, 1);
    es := es + [ScreenCall(1)] + [AcquireCall(1)];
  }

  /** The second one may then log first: the receipts are numbered 2, 1. */
  lemma LogOrderMayDiffer(sys: System, now: real) returns (es: seq<Event>)
    requires TwoClearCalls(sys)
    ensures Run(sys, now, es)
    ensures var log := Reached(sys, now, es).receipts;
      |log| == 2 && log[0].rateReady && log[1].rateReady && log[0].requestCount == 2 && log[1].requestCount == 1
  {
    es := BothGranted(sys, now);
    RunInv(sys, now, es);
    var s := Reached(sys, now, es);
    assert DecisionKept(s, s.pcs[0]) && DecisionKept(s, s.pcs[1]);
    OneMore(sys, Start(sys, now), es, WriteReceipt(1));
    OneMore(sys, Start(sys, now), es + [WriteReceipt(1)], WriteReceipt(0));
    es := es + [WriteReceipt(1)] + [WriteReceipt(0)];
  }

  const SHOP := ParsedUrl("https", "shop", 443, "/", false, "")

  /** A policy with one open origin, and two calls that read it. */
  const TWO_READERS := System(
    Engagement(
      "engagement", "hash", [], ScopePolicy([ScopeOrigin("https", "shop", [443], [], ["GET"])], []),
      RateLimits(1.0, 2, 1), ActionPolicy(true, false, false, true, true), false, 1, 1),
    {}, [ActionRequest(0, SHOP, "GET", ReadOnly, None), ActionRequest(1, SHOP, "GET", ReadOnly, None)])

  lemma TwoReadersAreClear()
    ensures TwoClearCalls(TWO_READERS)
  {
    var origin := TWO_READERS.config.scope.allowedOrigins[0];
    assert origin.Owns("https", "shop", 443) && origin.Permits("GET", "/");
  }

  /** So there is such a run. */
  lemma LogOrderDiffers(now: real) returns (es: seq<Event>)
    ensures Run(TWO_READERS, now, es)
    ensures var log := Reached(TWO_READERS, now, es).receipts;
      |log| == 2 && log[0].rateReady && log[1].rateReady && log[0].requestCount == 2 && log[1].requestCount == 1
  {
    TwoReadersAreClear();
    es := LogOrderMayDiffer(TWO_READERS, now);
  }
}
