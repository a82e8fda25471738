/** The requests that leave the machine, over whole runs: each within policy, receipted, counted and recorded. */
module InterleavingSends {
  import opened Counting
  import opened Scope
  import opened Gateway
  import opened Interleaving
  import opened InterleavingSafety
  import opened InterleavingProgress

  /** The call has begun its one send. */
  predicate HasSent(pc: Pc) {
    pc.Sending? || (HasOutcome(pc) && pc.outcome != KillTrip)
  }

  function SendOf(i: nat): Event -> bool {
    (e: Event) => e.BeginSend? && e.i == i
  }

  /** The policy's own words for call `i`: target in scope, class of action enabled, and waived or approved. */
  ghost predicate Permitted(sys: System, i: nat)
    requires i < |sys.calls|
  {
    var request := sys.calls[i];
    && CheckUrl(sys.config.scope, request.target, request.verb).allowed
    && (request.risk == ReadOnly || sys.config.activeTestingEnabled)
    && Approved(sys.config.actions, sys.approved, request)
  }

  /** Whoever is past the gates of `authorize` was let through by the policy. */
  ghost predicate AllPermitted(sys: System, s: State)
    requires |s.pcs| == |sys.calls|
  {
    forall i: nat :: i < |s.pcs| && (s.pcs[i].Screened? || WasGranted(s.pcs[i])) ==> Permitted(sys, i)
  }

  lemma StepPermitted(sys: System, s: State, e: Event)
    requires sys.Valid() && |s.pcs| == |sys.calls| && Enabled(s, e) && AllPermitted(sys, s)
    ensures AllPermitted(sys, Apply(sys, s, e))
  {
  }

  lemma {:induction false} AfterPermitted(sys: System, s: State, es: seq<Event>)
    requires sys.Valid() && |s.pcs| == |sys.calls| && AllPermitted(sys, s) && Legal(sys, s, es)
    ensures AllPermitted(sys, After(sys, s, es))
  {
    if es != [] {
      var n := |es| - 1;
      AfterPermitted(sys, s, es[..n]);
      StepPermitted(sys, After(sys, s, es[..n]), es[n]);
    }
  }

  /** The sends of a call and of all calls together are what the program counters say. */
  ghost predicate SendsTallied(s: State, es: seq<Event>) {
    && Count(es, IsSend) == Count(s.pcs, HasSent)
    && forall i: nat :: i < |s.pcs| ==> Count(es, SendOf(i)) == One(HasSent(s.pcs[i]))
  }

  lemma StepSends(sys: System, s: State, e: Event, i: nat)
    requires sys.Valid() && |s.pcs| == |sys.calls| && Enabled(s, e) && i < |s.pcs|
    ensures var s' := Apply(sys, s, e);
      && Count(s'.pcs, HasSent) == Count(s.pcs, HasSent) + One(IsSend(e))
      && One(HasSent(s'.pcs[i])) == One(HasSent(s.pcs[i])) + One(SendOf(i)(e))
  {
    if e.OfCall() { CountUpdate(s.pcs, e.i, NextPc(sys, s, e), HasSent); }
  }

  lemma {:induction false} AfterSends(sys: System, now: real, es: seq<Event>)
    requires Run(sys, now, es)
    ensures SendsTallied(Reached(sys, now, es), es)
  {
    if es == [] {
      CountNone(Start(sys, now).pcs, HasSent);
    } else {
      var n := |es| - 1;
      AfterSends(sys, now, es[..n]);
      var s := Reached(sys, now, es[..n]);
      if s.pcs != [] { StepSends(sys, s, es[n], 0); }
      forall i: nat | i < |s.pcs| ensures Count(es, SendOf(i)) == One(HasSent(Reached(sys, now, es).pcs[i])) {
        StepSends(sys, s, es[n], i);
      }
    }
  }

  /**
   * In every interleaving: no more sends than grants, so never more than `max_requests`; no call sends twice; and a
   * finished call has sent unless the emergency stop ended it.
   */
  lemma SendsWithinBudget(sys: System, now: real, es: seq<Event>)
    requires Run(sys, now, es)
    ensures var s := Reached(sys, now, es);
      && Count(es, IsSend) <= s.ledger.requestCount <= sys.config.limits.maxRequests
      && (forall i: nat :: i < |s.pcs| ==> Count(es, SendOf(i)) <= 1)
      && (forall i: nat :: i < |s.pcs| && s.pcs[i].Finished? ==>
            Count(es, SendOf(i)) == One(s.pcs[i].outcome != KillTrip))
  {
    AfterSends(sys, now, es);
    GrantsWithinRate(sys, now, es);
    CountImplies(Reached(sys, now, es).pcs, HasSent, WasGranted);
  }

  /** An evidence record tells how its call ended. */
  ghost predicate EvidenceTruthful(s: State) {
    forall v :: v in s.evidence ==>
      v.actionId < |s.pcs| && s.pcs[v.actionId].Finished? && s.pcs[v.actionId].outcome == v.outcome
  }

  lemma {:induction false} AfterEvidence(sys: System, now: real, es: seq<Event>)
    requires Run(sys, now, es)
    ensures EvidenceTruthful(Reached(sys, now, es))
  {
    if es != [] { AfterEvidence(sys, now, es[..|es| - 1]); }
  }

  /**
   * How call `i` stands to the events so far: its credentials came out as it went on, and its outcome is that of its
   * send, or the stop was on.
   */
  ghost predicate Traced(pc: Pc, i: nat, es: seq<Event>) {
    && (HasOutcome(pc) ==> if pc.outcome == KillTrip then Trip(true) in es else EndSend(i, pc.outcome) in es)
    && (HasOutcome(pc) || pc.Queued? || pc.Holding? || pc.Live? || pc.Sending? ==> LoadCredentials(i, true) in es)
    && (pc.NoCredentials? ==> LoadCredentials(i, false) in es)
  }

  predicate HasOutcome(pc: Pc) { pc.Leaving? || pc.Closing? || pc.Finished? }

  lemma TracedStill(pc: Pc, i: nat, es: seq<Event>, e: Event)
    requires Traced(pc, i, es)
    ensures Traced(pc, i, es + [e])
  {
  }

  lemma StepTraced(sys: System, s: State, es: seq<Event>, e: Event, i: nat)
    requires sys.Valid() && |s.pcs| == |sys.calls| && Enabled(s, e) && i < |s.pcs|
    requires Traced(s.pcs[i], i, es) && (s.killed ==> Trip(true) in es)
    ensures Traced(Apply(sys, s, e).pcs[i], i, es + [e])
  {
    if e.OfCall() && e.i == i {
      assert Apply(sys, s, e).pcs[i] == NextPc(sys, s, e);
      assert e in es + [e];
    } else {
      assert Apply(sys, s, e).pcs[i] == s.pcs[i];
      TracedStill(s.pcs[i], i, es, e);
    }
  }

  /** In every run, outcomes are those of the sends that ended, and the stop is on only after it was switched on. */
  lemma {:induction false} AfterTraced(sys: System, now: real, es: seq<Event>)
    requires Run(sys, now, es)
    ensures Reached(sys, now, es).killed ==> Trip(true) in es
    ensures forall i: nat :: i < |sys.calls| ==> Traced(Reached(sys, now, es).pcs[i], i, es)
  {
    if es != [] {
      var n := |es| - 1;
      var s := Reached(sys, now, es[..n]);
      AfterTraced(sys, now, es[..n]);
      assert es == es[..n] + [es[n]];
      forall i: nat | i < |sys.calls| ensures Traced(Reached(sys, now, es).pcs[i], i, es) {
        StepTraced(sys, s, es[..n], es[n], i);
      }
    }
  }

  /**
   * Evidence of a response or of a failed send means one send by that call, which ended just so; evidence of the stop
   * means no send, and that the stop was switched on.
   */
  lemma EvidenceTellsTheTruth(sys: System, now: real, es: seq<Event>, v: Interleaving.Evidence)
    requires Run(sys, now, es) && v in Reached(sys, now, es).evidence
    ensures v.actionId < |sys.calls|
    ensures Count(es, SendOf(v.actionId)) == One(v.outcome != KillTrip)
    ensures v.outcome != KillTrip ==> EndSend(v.actionId, v.outcome) in es
    ensures v.outcome == KillTrip ==> Trip(true) in es
    ensures Count(Reached(sys, now, es).evidence, EvidenceOf(v.actionId)) == 1
    ensures Count(Reached(sys, now, es).receipts, ReceiptOf(v.actionId)) == 1
  {
    AfterEvidence(sys, now, es);
    AfterTraced(sys, now, es);
    SendsWithinBudget(sys, now, es);
    RunInv(sys, now, es);
    assert Recorded(Reached(sys, now, es), v.actionId);
    assert Traced(Reached(sys, now, es).pcs[v.actionId], v.actionId, es);
  }

  /** The two looks at the switch: a call in the queue or with a slot in hand is turned away exactly by the stop. */
  lemma LookExactly(sys: System, s: State, i: nat)
    requires sys.Valid() && |s.pcs| == |sys.calls| && i < |s.pcs|
    ensures s.pcs[i].Queued? ==>
      Apply(sys, s, SlotTimeout(i)).pcs[i] == if s.killed then Closing(s.pcs[i].k, KillTrip) else s.pcs[i]
    ensures s.pcs[i].Holding? ==>
      Apply(sys, s, CheckLive(i)).pcs[i] == if s.killed then Leaving(s.pcs[i].k, KillTrip) else Live(s.pcs[i].k)
  {
  }

  /** One call after its grant: receipt, credentials, slot, live check, send, release and evidence. */
  function RestOfCall(outcome: Outcome): seq<Event> {
    [WriteReceipt(0), LoadCredentials(0, true), TakeSlot(0), CheckLive(0), BeginSend(0), EndSend(0, outcome),
     ReleaseSlot(0), WriteEvidence(0)]
  }

  /** A call can get through: there is a run in which it is sent and ends as the network has it. */
  lemma CallMayFinish(sys: System, now: real, outcome: Outcome) returns (es: seq<Event>)
    requires TwoClearCalls(sys) && outcome != KillTrip
    ensures Run(sys, now, es)
    ensures var s := Reached(sys, now, es);
      && s.pcs[0] == Finished(1, outcome) && s.evidence == [Interleaving.Evidence(0, outcome)]
      && |s.receipts| == 1 && s.receipts[0].rateReady && s.freeSlots == sys.config.limits.maxConcurrentRequests
  {
    var s := Start(sys, now);
    PassGate(sys, s, [], 0);
    es := [] + [ScreenCall(0)] + [AcquireCall(0)];
    var rest, n := RestOfCall(outcome), 0;
    ghost var granted := After(sys, s, es);
    RunInv(sys, now, es);
    assert DecisionKept(granted, granted.pcs[0]);
    while n < |rest|
      invariant 0 <= n <= |rest| && Legal(sys, s, es)
      invariant PassesAt(sys, granted, After(sys, s, es), outcome, n)
    {
      PassNext(sys, granted, After(sys, s, es), outcome, n);
      OneMore(sys, s, es, rest[n]);
      es := es + [rest[n]];
      n := n + 1;
    }
  }

  lemma PassNext(sys: System, granted: State, s: State, outcome: Outcome, n: nat)
    requires sys.Valid() && |sys.calls| == 2 && outcome != KillTrip && n < |RestOfCall(outcome)|
    requires PassesAt(sys, granted, s, outcome, n)
    requires granted.pcs[0].Granted? && granted.pcs[0].decision.rate.Granted()
    requires granted.pcs[0].decision.rate.requestCount == 1 && granted.freeSlots > 0
    ensures var e := RestOfCall(outcome)[n];
      Enabled(s, e) && PassesAt(sys, granted, Apply(sys, s, e), outcome, n + 1)
  {
    var e := RestOfCall(outcome)[n];
    assert Apply(sys, s, e).pcs[0] == NextPc(sys, s, e);
  }

  /** Where the call stands after `n` of those events. */
  ghost predicate PassesAt(sys: System, granted: State, s: State, outcome: Outcome, n: nat) {
    && |s.pcs| == |granted.pcs| == 2 && !s.killed
    && s.freeSlots == granted.freeSlots - (if 3 <= n < 7 then 1 else 0)
    && (n > 0 ==> |s.receipts| == 1 && s.receipts[0].rateReady)
    && (n == 0 ==> s.receipts == [] && s.pcs[0] == granted.pcs[0])
    && s.evidence == (if n == 8 then [Interleaving.Evidence(0, outcome)] else [])
    && match n
      case 0 => s.pcs[0].Granted?
      case 1 => s.pcs[0] == Receipted(1)
      case 2 => s.pcs[0] == Queued(1)
      case 3 => s.pcs[0] == Holding(1)
      case 4 => s.pcs[0] == Live(1)
      case 5 => s.pcs[0] == Sending(1)
      case 6 => s.pcs[0] == Leaving(1, outcome)
      case 7 => s.pcs[0] == Closing(1, outcome)
      case _ => s.pcs[0] == Finished(1, outcome)
  }

  /**
   * Whenever a send begins, its request is within policy, its credentials were loaded, its ready receipt is already on
   * file, its evidence is not yet, and its thread is one of at most `max_concurrent_requests` that hold a slot.
   */
  lemma SendsArePermitted(sys: System, now: real, es: seq<Event>, i: nat)
    requires Run(sys, now, es + [BeginSend(i)])
    ensures i < |sys.calls| && Permitted(sys, i) && LoadCredentials(i, true) in es
    ensures Run(sys, now, es)
    ensures var s := Reached(sys, now, es);
      && (exists r :: r in s.receipts && r.actionId == i && r.rateReady)
      && Count(s.evidence, EvidenceOf(i)) == 0
      && HoldsSlot(s.pcs[i]) && Count(s.pcs, HoldsSlot) <= sys.config.limits.maxConcurrentRequests
  {
    assert (es + [BeginSend(i)])[..|es|] == es;
    var s := Reached(sys, now, es);
    assert s.pcs[i].Live?;
    AfterPermitted(sys, Start(sys, now), es);
    AfterTraced(sys, now, es);
    assert Traced(s.pcs[i], i, es);
    RunInv(sys, now, es);
    assert Recorded(s, i);
    CountWitness(s.receipts, ReceiptOf(i));
    var n :| 0 <= n < |s.receipts| && ReceiptOf(i)(s.receipts[n]);
    assert s.receipts[n] in s.receipts;
  }
}
