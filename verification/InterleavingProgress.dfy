/** The emergency stop, the end of every wait, and freedom from deadlock, over whole runs. */
module InterleavingProgress {
  import opened Counting
  import opened Pacing
  import opened Interleaving
  import opened InterleavingSafety

  // ---------------------------------------------------------------- the emergency stop

  /** Nobody switches the emergency stop off. */
  ghost predicate StaysTripped(es: seq<Event>) {
    forall e :: e in es && e.Trip? ==> e.on
  }

  predicate IsSend(e: Event) { e.BeginSend? }

  /** A call may only be granted after the stop if it was past the gates of `authorize` when the stop came. */
  ghost predicate NoFreshGrant(before: State, after: State)
    requires |before.pcs| == |after.pcs|
  {
    forall i :: 0 <= i < |before.pcs| ==>
      && (after.pcs[i].Screened? ==> before.pcs[i].Screened?)
      && (WasGranted(after.pcs[i]) ==> WasGranted(before.pcs[i]) || before.pcs[i].Screened?)
  }

  lemma StoppedSends(sys: System, s: State, e: Event)
    requires Inv(sys, s) && Enabled(s, e) && s.killed
    ensures One(IsSend(e)) + Count(Apply(sys, s, e).pcs, IsLive) == Count(s.pcs, IsLive)
  {
    if e.OfCall() { CountUpdate(s.pcs, e.i, NextPc(sys, s, e), IsLive); }
  }

  lemma StoppedGrants(sys: System, s: State, e: Event)
    requires Inv(sys, s) && Enabled(s, e) && s.killed && (e.Trip? ==> e.on)
    ensures Apply(sys, s, e).killed && NoFreshGrant(s, Apply(sys, s, e))
  {
  }

  lemma {:induction false} StoppedSegment(sys: System, s: State, es: seq<Event>)
    requires Inv(sys, s) && Legal(sys, s, es) && s.killed && StaysTripped(es)
    ensures var s' := After(sys, s, es);
      && s'.killed
      && Count(es, IsSend) + Count(s'.pcs, IsLive) == Count(s.pcs, IsLive)
      && NoFreshGrant(s, s')
  {
    if es != [] {
      var n := |es| - 1;
      var front, e := es[..n], es[n];
      assert forall x :: x in front ==> x in es;
      assert e in es;
      StoppedSegment(sys, s, front);
      AfterInv(sys, s, front);
      StoppedSends(sys, After(sys, s, front), e);
      StoppedGrants(sys, After(sys, s, front), e);
    }
  }

  /**
   * In any interleaving, once the stop is on and stays on: at most `max_concurrent_requests` further sends begin, and
   * no authorization that looks at the switch from then on is granted.
   */
  lemma StopBoundsSends(sys: System, now: real, es: seq<Event>, more: seq<Event>)
    requires Run(sys, now, es) && Reached(sys, now, es).killed
    requires Legal(sys, Reached(sys, now, es), more) && StaysTripped(more)
    ensures var s := Reached(sys, now, es);
      && Count(more, IsSend) <= Count(s.pcs, IsLive) <= sys.config.limits.maxConcurrentRequests
      && NoFreshGrant(s, After(sys, s, more))
  {
    RunInv(sys, now, es);
    var s := Reached(sys, now, es);
    StoppedSegment(sys, s, more);
    CountImplies(s.pcs, IsLive, HoldsSlot);
  }

  // ---------------------------------------------------------------- the authorize-and-sleep loop ends

  /** The clock never runs backwards, as `time.monotonic` promises. */
  ghost predicate ClockForward(sys: System, s: State, es: seq<Event>)
    requires sys.config.limits.Valid() && |sys.calls| == |s.pcs| && Legal(sys, s, es)
  {
    es == [] ||
    var n := |es| - 1;
    ClockForward(sys, s, es[..n]) && (es[n].Tick? ==> es[n].now >= After(sys, s, es[..n]).now)
  }

  ghost predicate Patient(sys: System, s: State, pc: Pc)
    requires sys.config.limits.Valid()
  {
    Waiting(pc) ==>
      && pc.p.waits <= pc.p.seen <= s.ledger.requestCount
      && pc.p.waits < sys.config.limits.maxRequests
      && (pc.p.waits > 0 && pc.p.seen == s.ledger.requestCount ==>
            s.ledger.lastRequestAt.Some? && pc.p.until >= s.ledger.lastRequestAt.value + sys.config.limits.Interval())
      && (pc.p.waits > 0 && !pc.Sleeping? ==> s.now >= pc.p.until)
  }

  ghost predicate AllPatient(sys: System, s: State)
    requires sys.config.limits.Valid()
  {
    forall i :: 0 <= i < |s.pcs| ==> Patient(sys, s, s.pcs[i])
  }

  /** Being told to wait again means that another call was granted in between. */
  lemma WaitingAgainMeansGrant(sys: System, s: State, i: nat)
    requires Inv(sys, s) && i < |s.pcs| && Patient(sys, s, s.pcs[i]) && Enabled(s, AcquireCall(i))
    ensures var before, after := s.pcs[i], NextPc(sys, s, AcquireCall(i));
      after.Sleeping? ==>
        && after.p.waits == before.p.waits + 1
        && after.p.seen == s.ledger.requestCount < sys.config.limits.maxRequests
        && (before.p.waits > 0 ==> after.p.seen > before.p.seen)
        && s.ledger.lastRequestAt.Some?
        && after.p.until == s.ledger.lastRequestAt.value + sys.config.limits.Interval()
        && after.p.seen >= 1
  {
    GrantExactly(sys.config.limits, s.ledger, s.now);
  }

  lemma StepPatient(sys: System, s: State, e: Event)
    requires Inv(sys, s) && Enabled(s, e) && AllPatient(sys, s) && (e.Tick? ==> e.now >= s.now)
    ensures AllPatient(sys, Apply(sys, s, e))
  {
    var s' := Apply(sys, s, e);
    GrantExactly(sys.config.limits, s.ledger, s.now);
    forall j | 0 <= j < |s'.pcs| ensures Patient(sys, s', s'.pcs[j]) {
      assert Patient(sys, s, s.pcs[j]);
      if e == AcquireCall(j) { WaitingAgainMeansGrant(sys, s, j); }
    }
  }

  lemma {:induction false} AfterPatient(sys: System, s: State, es: seq<Event>)
    requires Inv(sys, s) && AllPatient(sys, s) && Legal(sys, s, es) && ClockForward(sys, s, es)
    ensures AllPatient(sys, After(sys, s, es))
  {
    if es != [] {
      var n := |es| - 1;
      AfterPatient(sys, s, es[..n]);
      AfterInv(sys, s, es[..n]);
      StepPatient(sys, After(sys, s, es[..n]), es[n]);
    }
  }

  /** The attempts of call `i` to pass `authorize`. */
  function AttemptOf(i: nat): Event -> bool {
    (e: Event) => e.ScreenCall? && e.i == i
  }

  /** The steps of call `i`, other than looking at the kill switch while it queues for a slot. */
  function StepOf(i: nat): Event -> bool {
    (e: Event) => e.OfCall() && e.i == i && !e.SlotTimeout?
  }

  ghost predicate AttemptsTallied(sys: System, pc: Pc, attempts: nat) {
    match pc
    case Idle(p) => attempts == p.waits
    case Sleeping(p) => attempts == p.waits
    case Screened(p) => attempts == p.waits + 1
    case _ => attempts <= sys.config.limits.maxRequests
  }

  /** How many steps a call can still take. */
  function Fuel(sys: System, pc: Pc): int {
    var waitsLeft := if Waiting(pc) then sys.config.limits.maxRequests - pc.p.waits else 0;
    match pc
    case Idle(_) => 3 * waitsLeft + 9
    case Screened(_) => 3 * waitsLeft + 8
    case Sleeping(_) => 3 * waitsLeft + 10
    case Granted(_) => 9
    case Receipted(_) => 8
    case Queued(_) => 7
    case Holding(_) => 6
    case Live(_) => 5
    case Sending(_) => 4
    case Leaving(_, _) => 3
    case Closing(_, _) => 2
    case Refused(_) => 1
    case _ => 0
  }

  lemma StepTally(sys: System, s: State, e: Event, i: nat, attempts: nat)
    requires Inv(sys, s) && AllPatient(sys, s) && Enabled(s, e) && i < |s.pcs|
    requires AttemptsTallied(sys, s.pcs[i], attempts)
    ensures var s' := Apply(sys, s, e);
      && AttemptsTallied(sys, s'.pcs[i], attempts + One(AttemptOf(i)(e)))
      && Fuel(sys, s'.pcs[i]) + One(StepOf(i)(e)) <= Fuel(sys, s.pcs[i])
  {
    assert Patient(sys, s, s.pcs[i]);
    if e == AcquireCall(i) { WaitingAgainMeansGrant(sys, s, i); }
  }

  lemma {:induction false} AfterTally(sys: System, s: State, es: seq<Event>, i: nat)
    requires Inv(sys, s) && AllPatient(sys, s) && Legal(sys, s, es) && ClockForward(sys, s, es) && i < |s.pcs|
    requires AttemptsTallied(sys, s.pcs[i], 0)
    ensures var s' := After(sys, s, es);
      && AttemptsTallied(sys, s'.pcs[i], Count(es, AttemptOf(i)))
      && Fuel(sys, s'.pcs[i]) + Count(es, StepOf(i)) <= Fuel(sys, s.pcs[i])
  {
    if es != [] {
      var n := |es| - 1;
      AfterTally(sys, s, es[..n], i);
      AfterInv(sys, s, es[..n]);
      AfterPatient(sys, s, es[..n]);
      StepTally(sys, After(sys, s, es[..n]), es[n], i, Count(es[..n], AttemptOf(i)));
    }
  }

  /**
   * With a clock that never runs backwards, a call makes at most `max_requests` attempts to authorize, however the
   * others interleave, and only a bounded number of steps in all.
   */
  lemma CallsAreBounded(sys: System, now: real, es: seq<Event>, i: nat)
    requires Run(sys, now, es) && ClockForward(sys, Start(sys, now), es) && i < |sys.calls|
    ensures Count(es, AttemptOf(i)) <= sys.config.limits.maxRequests
    ensures Count(es, StepOf(i)) <= 3 * sys.config.limits.maxRequests + 9
  {
    var s := Start(sys, now);
    StartInv(sys, now);
    AfterTally(sys, s, es, i);
    AfterInv(sys, s, es);
    AfterPatient(sys, s, es);
    assert Patient(sys, After(sys, s, es), After(sys, s, es).pcs[i]);
  }

  // ---------------------------------------------------------------- no deadlock

  /** The next step of a call that is neither done, asleep nor queueing. */
  function Runnable(s: State, i: nat): Event
    requires i < |s.pcs|
    requires var pc := s.pcs[i]; !Done(pc) && !pc.Sleeping? && !pc.Queued?
  {
    match s.pcs[i]
    case Idle(_) => ScreenCall(i)
    case Screened(_) => AcquireCall(i)
    case Granted(_) => WriteReceipt(i)
    case Refused(_) => WriteReceipt(i)
    case Receipted(_) => LoadCredentials(i, true)
    case Holding(_) => CheckLive(i)
    case Live(_) => BeginSend(i)
    case Sending(_) => EndSend(i, Response)
    case Leaving(_, _) => ReleaseSlot(i)
    case Closing(_, _) => WriteEvidence(i)
  }

  lemma RunnableIsEnabled(s: State, i: nat)
    requires i < |s.pcs|
    requires var pc := s.pcs[i]; !Done(pc) && !pc.Sleeping? && !pc.Queued?
    ensures var e := Runnable(s, i); Enabled(s, e) && e.OfCall() && !e.SlotTimeout?
  {
  }

  /** Some call can take a step other than looking at the kill switch. */
  ghost predicate CanMove(s: State) {
    exists e :: Enabled(s, e) && e.OfCall() && !e.SlotTimeout?
  }

  /** Some call sleeps, and can wake once its time has come. */
  ghost predicate CanWake(s: State) {
    exists j :: 0 <= j < |s.pcs| && s.pcs[j].Sleeping? && Enabled(s.(now := s.pcs[j].p.until), WakeCall(j))
  }

  /** A queueing call can take a free slot; when there is none, a holder can move on. */
  lemma QueueMoves(sys: System, s: State, i: nat)
    requires Inv(sys, s) && i < |s.pcs| && s.pcs[i].Queued?
    ensures CanMove(s)
  {
    if s.freeSlots > 0 {
      assert Enabled(s, TakeSlot(i));
    } else {
      CountWitness(s.pcs, HoldsSlot);
      var j :| 0 <= j < |s.pcs| && HoldsSlot(s.pcs[j]);
      RunnableIsEnabled(s, j);
    }
  }

  /** While some call is unfinished, some call can take a step, or some call is asleep and only needs time to pass. */
  lemma NeverStuck(sys: System, now: real, es: seq<Event>, i: nat)
    requires Run(sys, now, es) && i < |sys.calls| && !Done(Reached(sys, now, es).pcs[i])
    ensures CanMove(Reached(sys, now, es)) || CanWake(Reached(sys, now, es))
  {
    RunInv(sys, now, es);
    var s := Reached(sys, now, es);
    if s.pcs[i].Sleeping? {
      assert Enabled(s.(now := s.pcs[i].p.until), WakeCall(i));
    } else if s.pcs[i].Queued? {
      QueueMoves(sys, s, i);
    } else {
      RunnableIsEnabled(s, i);
    }
  }
}
