/** The step machine with a single call refines the one execution that `HttpExecutor.Execute` is specified by. */
module LoneCall {
  import opened Text
  import opened Pacing
  import opened Gateway
  import opened Findings
  import opened Credentials
  import opened Calls
  import opened Accounting
  import opened Interleaving
  import Evidence

  type Records = seq<Evidence.Record>

  /** One thread, bringing one call. */
  function Lone(env: Setting, call: HttpCall): System {
    System(env.config, env.approved, [RequestFor(call, 0)])
  }

  /** Nothing is said about the limiter, the logs, the clock or the switch at the start. */
  ghost predicate StartsAlone(s: State) {
    |s.pcs| == 1 && s.pcs[0].Idle?
  }

  /** Credentials load exactly when the profile resolves. */
  predicate LoadsAsResolved(env: Setting, call: HttpCall, e: Event) {
    e.LoadCredentials? ==> (e.loaded <==> ResolveAuthHeaders(env.vault, call.authProfile).Headers?)
  }

  /** The books that a state of the machine stands for, given the records on file. */
  function BooksOf(s: State, records: Records): Books { Books(s.ledger, s.receipts, records) }

  ghost predicate Untouched(start: State, s: State) {
    s.ledger == start.ledger && s.receipts == start.receipts && s.evidence == start.evidence
  }

  /** The gateway turned the request down, and the receipt says so. */
  ghost predicate TurnedDown(env: Setting, call: HttpCall, before: Books, after: Books, decision: GatewayDecision)
    requires env.config.limits.Valid()
  {
    env.DecidedOnce(call, 0, before, after, decision) && !decision.ready && !AsksToWait(decision)
  }

  ghost predicate WasTurnedDown(env: Setting, call: HttpCall, before: Books, after: Books)
    requires env.config.limits.Valid()
  {
    exists d :: TurnedDown(env, call, before, after, d)
  }

  /** What the program counter says about the books so far. */
  ghost predicate Tracks(env: Setting, call: HttpCall, start: State, s: State) {
    var request, resolved := RequestFor(call, 0), ResolveAuthHeaders(env.vault, call.authProfile);
    var before, after := BooksOf(start, []), BooksOf(s, []);
    && env.config.limits.Valid() && |s.pcs| == 1
    && match s.pcs[0]
      case Idle(_) => Untouched(start, s)
      case Sleeping(_) => Untouched(start, s)
      case Screened(_) =>
        Untouched(start, s) && Screen(env.config, env.approved, request, false, start.ledger.requestCount).None?
      case Refused(d) =>
        Untouched(start, s) && env.DecidedSo(request, start.ledger, s.ledger, d) && !d.ready && !AsksToWait(d)
      case Blocked => s.evidence == start.evidence && WasTurnedDown(env, call, before, after)
      case GaveUp => Untouched(start, s) && env.WaitTooLong(request, start.ledger)
      case Granted(d) =>
        && s.receipts == start.receipts && s.evidence == start.evidence
        && env.DecidedSo(request, start.ledger, s.ledger, d) && d.ready
      case Receipted(_) => s.evidence == start.evidence && env.GrantedOnce(call, 0, before, after)
      case NoCredentials(_) =>
        s.evidence == start.evidence && env.GrantedOnce(call, 0, before, after) && resolved.Refusal?
      case Finished(_, outcome) =>
        && s.evidence == start.evidence + [Interleaving.Evidence(0, outcome)]
        && env.GrantedOnce(call, 0, before, after) && resolved.Headers?
      case _ => s.evidence == start.evidence && env.GrantedOnce(call, 0, before, after) && resolved.Headers?
  }

  lemma ScreenTracks(env: Setting, call: HttpCall, start: State, s: State)
    requires Tracks(env, call, start, s) && s.pcs[0].Idle?
    ensures Tracks(env, call, start, Apply(Lone(env, call), s, ScreenCall(0)))
  {
    var request := RequestFor(call, 0);
    var screened := Screen(env.config, env.approved, request, s.killed, s.ledger.requestCount);
    if screened.Some? {
      assert Authorize(env.config, env.approved, request, s.killed, s.ledger, 0.0) == (s.ledger, screened.value);
    }
  }

  lemma AcquireTracks(env: Setting, call: HttpCall, start: State, s: State)
    requires Tracks(env, call, start, s) && s.pcs[0].Screened?
    ensures Tracks(env, call, start, Apply(Lone(env, call), s, AcquireCall(0)))
  {
    var request := RequestFor(call, 0);
    var (ledger, rate) := Take(env.config.limits, s.ledger, s.now);
    var decision := Conclude(env.config, env.approved, request, rate);
    GrantExactly(env.config.limits, s.ledger, s.now);
    assert Authorize(env.config, env.approved, request, false, s.ledger, s.now) == (ledger, decision);
    assert env.DecidedSo(request, start.ledger, ledger, decision);
  }

  lemma ReceiptTracks(env: Setting, call: HttpCall, start: State, s: State)
    requires Tracks(env, call, start, s) && (s.pcs[0].Granted? || s.pcs[0].Refused?)
    ensures Tracks(env, call, start, Apply(Lone(env, call), s, WriteReceipt(0)))
  {
    var s', d := Apply(Lone(env, call), s, WriteReceipt(0)), s.pcs[0].decision;
    assert env.DecidedOnce(call, 0, BooksOf(start, []), BooksOf(s', []), d);
    if s.pcs[0].Refused? { assert TurnedDown(env, call, BooksOf(start, []), BooksOf(s', []), d); }
  }

  lemma QuietTracks(env: Setting, call: HttpCall, start: State, s: State, e: Event)
    requires Tracks(env, call, start, s) && Enabled(s, e)
    requires e.Tick? || e.Trip? || e.WakeCall?
    ensures Tracks(env, call, start, Apply(Lone(env, call), s, e))
  {
  }

  lemma LoadTracks(env: Setting, call: HttpCall, start: State, s: State, loaded: bool)
    requires Tracks(env, call, start, s) && s.pcs[0].Receipted?
    requires loaded <==> ResolveAuthHeaders(env.vault, call.authProfile).Headers?
    ensures Tracks(env, call, start, Apply(Lone(env, call), s, LoadCredentials(0, loaded)))
  {
  }

  lemma SlotTracks(env: Setting, call: HttpCall, start: State, s: State, e: Event)
    requires Tracks(env, call, start, s) && Enabled(s, e)
    requires e.SlotTimeout? || e.TakeSlot? || e.CheckLive?
    ensures Tracks(env, call, start, Apply(Lone(env, call), s, e))
  {
  }

  lemma SendTracks(env: Setting, call: HttpCall, start: State, s: State, e: Event)
    requires Tracks(env, call, start, s) && Enabled(s, e)
    requires e.BeginSend? || e.EndSend? || e.ReleaseSlot?
    ensures Tracks(env, call, start, Apply(Lone(env, call), s, e))
  {
  }

  lemma EvidenceTracks(env: Setting, call: HttpCall, start: State, s: State)
    requires Tracks(env, call, start, s) && s.pcs[0].Closing?
    ensures Tracks(env, call, start, Apply(Lone(env, call), s, WriteEvidence(0)))
  {
    var s' := Apply(Lone(env, call), s, WriteEvidence(0));
    assert s'.evidence == s.evidence + [Interleaving.Evidence(0, s.pcs[0].outcome)];
    assert s'.pcs[0] == Finished(s.pcs[0].k, s.pcs[0].outcome) && BooksOf(s', []) == BooksOf(s, []);
  }

  lemma StepTracks(env: Setting, call: HttpCall, start: State, s: State, e: Event)
    requires Tracks(env, call, start, s) && Enabled(s, e) && LoadsAsResolved(env, call, e)
    ensures Tracks(env, call, start, Apply(Lone(env, call), s, e))
  {
    match e
    case Tick(_) => QuietTracks(env, call, start, s, e);
    case Trip(_) => QuietTracks(env, call, start, s, e);
    case WakeCall(_) => QuietTracks(env, call, start, s, e);
    case LoadCredentials(_, loaded) => LoadTracks(env, call, start, s, loaded);
    case ScreenCall(_) => ScreenTracks(env, call, start, s);
    case AcquireCall(_) => AcquireTracks(env, call, start, s);
    case WriteReceipt(_) => ReceiptTracks(env, call, start, s);
    case SlotTimeout(_) => SlotTracks(env, call, start, s, e);
    case TakeSlot(_) => SlotTracks(env, call, start, s, e);
    case CheckLive(_) => SlotTracks(env, call, start, s, e);
    case WriteEvidence(_) => EvidenceTracks(env, call, start, s);
    case _ => SendTracks(env, call, start, s, e);
  }

  lemma {:induction false} AfterTracks(env: Setting, call: HttpCall, start: State, es: seq<Event>)
    requires env.config.limits.Valid() && StartsAlone(start) && Legal(Lone(env, call), start, es)
    requires forall e :: e in es ==> LoadsAsResolved(env, call, e)
    ensures Tracks(env, call, start, After(Lone(env, call), start, es))
  {
    if es != [] {
      var n := |es| - 1;
      assert forall e :: e in es[..n] ==> e in es;
      AfterTracks(env, call, start, es[..n]);
      assert es[n] in es;
      StepTracks(env, call, start, After(Lone(env, call), start, es[..n]), es[n]);
    }
  }

  /** The response, if the send ended in one. */
  function Answered(outcome: Outcome, response: HttpResponse): Option<HttpResponse> {
    if outcome == Response then Some(response) else None
  }

  /** The evidence that the machine has logged since the start. */
  function Logged(start: State, s: State): seq<Interleaving.Evidence>
    requires |start.evidence| <= |s.evidence|
  {
    s.evidence[|start.evidence|..]
  }

  /** What the machine's evidence stands for: one full record for each entry. */
  function Written(env: Setting, call: HttpCall, logged: seq<Interleaving.Evidence>, records: Records,
                   response: HttpResponse): Records
  {
    var resolved := ResolveAuthHeaders(env.vault, call.authProfile);
    var auth := if resolved.Headers? then resolved.headers else map[];
    seq(|logged|, i requires 0 <= i < |logged| =>
      Evidence.Record(|records| + i,
                      env.Exchange(call, auth, logged[i].actionId, Answered(logged[i].outcome, response))))
  }

  /** The record of a finished call. */
  function WrittenBy(env: Setting, call: HttpCall, pc: Pc, records: Records, response: HttpResponse): Records {
    match ResolveAuthHeaders(env.vault, call.authProfile)
    case Headers(headers) =>
      if pc.Finished? then
        [Evidence.Record(|records|, env.Exchange(call, headers, 0, Answered(pc.outcome, response)))]
      else []
    case Refusal(_) => []
  }

  lemma WrittenIs(env: Setting, call: HttpCall, pc: Pc, logged: seq<Interleaving.Evidence>, records: Records,
                  response: HttpResponse)
    requires pc.Finished? ==> ResolveAuthHeaders(env.vault, call.authProfile).Headers?
    requires logged == if pc.Finished? then [Interleaving.Evidence(0, pc.outcome)] else []
    ensures Written(env, call, logged, records, response) == WrittenBy(env, call, pc, records, response)
  {
  }

  /** How a call ends and what `execute` returns or raises. */
  ghost predicate Returns(pc: Pc, result: Execution, response: HttpResponse) {
    match pc
    case Blocked => result.Raised? && result.error.BlockedByGateway?
    case GaveUp => result == Raised(UnsafeWait)
    case NoCredentials(_) => result.Raised? && result.error.CredentialsRefused?
    case Finished(_, outcome) =>
      if outcome == Response then result.Observed? && result.observation.response == response
      else result == Raised(SendFailed)
    case _ => false
  }

  /**
   * A call that runs alone to its end, from any state of the limiter and the logs and under any clock and switch,
   * accounts for itself exactly as one execution does, the machine's own evidence read as records.
   */
  lemma LoneCallAccounts(env: Setting, call: HttpCall, start: State, es: seq<Event>, records: Records,
                         response: HttpResponse)
    returns (result: Execution)
    requires env.config.limits.Valid() && CheckArguments(env.config, env.lib.lower, call).None?
    requires StartsAlone(start) && Legal(Lone(env, call), start, es)
    requires forall e :: e in es ==> LoadsAsResolved(env, call, e)
    requires Done(After(Lone(env, call), start, es).pcs[0])
    ensures var s := After(Lone(env, call), start, es);
      && s.evidence == start.evidence +
        (if s.pcs[0].Finished? then [Interleaving.Evidence(0, s.pcs[0].outcome)] else [])
      && Returns(s.pcs[0], result, response)
      && env.Accounts(call, 0, BooksOf(start, records), result,
                      BooksOf(s, records + Written(env, call, Logged(start, s), records, response)))
  {
    var s := After(Lone(env, call), start, es);
    AfterTracks(env, call, start, es);
    var logged := if s.pcs[0].Finished? then [Interleaving.Evidence(0, s.pcs[0].outcome)] else [];
    assert s.evidence == start.evidence + logged && Logged(start, s) == logged;
    WrittenIs(env, call, s.pcs[0], logged, records, response);
    if s.pcs[0].Blocked? {
      var d :| TurnedDown(env, call, BooksOf(start, []), BooksOf(s, []), d);
      assert records + [] == records;
      TurnedDownWith(env, call, start, s, records, d);
      result := Raised(BlockedByGateway(d));
    } else if s.pcs[0].GaveUp? {
      assert records + [] == records;
      result := Raised(UnsafeWait);
    } else {
      result := ResultOf(env, call, s.pcs[0], records, response);
      GrantedAccounts(env, call, start, s, s.pcs[0], records, response);
    }
  }

  /** What a granted call that has ended returns or raises. */
  function ResultOf(env: Setting, call: HttpCall, pc: Pc, records: Records, response: HttpResponse): Execution
    requires pc.NoCredentials? || pc.Finished?
    requires pc.NoCredentials? ==> ResolveAuthHeaders(env.vault, call.authProfile).Refusal?
  {
    if pc.NoCredentials? then Raised(CredentialsRefused(ResolveAuthHeaders(env.vault, call.authProfile).error))
    else if pc.outcome == Response then Observed(HttpObservation(0, |records|, call.authProfile, response))
    else Raised(SendFailed)
  }

  /** A granted call that has ended. */
  lemma GrantedAccounts(env: Setting, call: HttpCall, start: State, s: State, pc: Pc, records: Records,
                        response: HttpResponse)
    requires env.config.limits.Valid() && CheckArguments(env.config, env.lib.lower, call).None?
    requires env.GrantedOnce(call, 0, BooksOf(start, []), BooksOf(s, [])) && (pc.NoCredentials? || pc.Finished?)
    requires pc.NoCredentials? <==> ResolveAuthHeaders(env.vault, call.authProfile).Refusal?
    ensures env.Accounts(call, 0, BooksOf(start, records), ResultOf(env, call, pc, records, response),
                         BooksOf(s, records + WrittenBy(env, call, pc, records, response)))
  {
    GrantedWith(env, call, start, s, records, records + WrittenBy(env, call, pc, records, response));
    DeliveredAs(env, call, pc, records, response);
  }

  lemma DeliveredAs(env: Setting, call: HttpCall, pc: Pc, records: Records, response: HttpResponse)
    requires pc.NoCredentials? || pc.Finished?
    requires pc.NoCredentials? <==> ResolveAuthHeaders(env.vault, call.authProfile).Refusal?
    ensures env.Delivered(call, 0, records, ResultOf(env, call, pc, records, response),
                          records + WrittenBy(env, call, pc, records, response))
  {
    assert records + [] == records;
  }

  /** Neither a refusal nor a grant depends on the records. */
  lemma TurnedDownWith(env: Setting, call: HttpCall, start: State, s: State, records: Records, d: GatewayDecision)
    requires env.config.limits.Valid() && CheckArguments(env.config, env.lib.lower, call).None?
    requires TurnedDown(env, call, BooksOf(start, []), BooksOf(s, []), d)
    ensures env.Accounts(call, 0, BooksOf(start, records), Raised(BlockedByGateway(d)), BooksOf(s, records))
  {
    assert env.DecidedOnce(call, 0, BooksOf(start, records), BooksOf(s, records), d);
  }

  lemma GrantedWith(env: Setting, call: HttpCall, start: State, s: State, before: Records, after: Records)
    requires env.config.limits.Valid() && env.GrantedOnce(call, 0, BooksOf(start, []), BooksOf(s, []))
    ensures env.GrantedOnce(call, 0, BooksOf(start, before), BooksOf(s, after))
  {
    var d: GatewayDecision :| d.ready && env.DecidedOnce(call, 0, BooksOf(start, []), BooksOf(s, []), d);
    assert env.DecidedOnce(call, 0, BooksOf(start, before), BooksOf(s, after), d);
  }
}
