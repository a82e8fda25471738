/**
 * What executions leave behind: the limiter, the receipts and the evidence, for one execution and for several in a row.
 */
module Accounting {
  import opened Text
  import opened Pacing
  import opened Scope
  import opened Gateway
  import opened Findings
  import opened Credentials
  import opened Evidence
  import opened Redaction
  import opened Calls

  /** The limiter, the receipts and the evidence log, before or after an execution. */
  datatype Books = Books(ledger: Ledger, receipts: seq<ActionReceipt>, records: seq<Record>)
  {
    function Spent(): nat { ledger.requestCount }
  }

  /** At most 160 characters of a payload label; an empty one is none. */
  function RecordedLabel(text: Option<string>): Option<string> {
    if text.None? || text.value == "" then None
    else if |text.value| > 160 then Some(text.value[..160])
    else text
  }

  predicate AsksToWait(decision: GatewayDecision) {
    !decision.ready && decision.rate.allowed && decision.rate.waitSeconds > 0.0
  }

  /** A request went out, or would have but for the emergency stop. */
  predicate ReachedSend(result: Execution) { result.Observed? || result == Raised(SendFailed) }

  /** What stays fixed from one execution to the next. */
  datatype Setting = Setting(config: Engagement, approved: set<string>, lib: Library, vault: Vault)
  {
    function Exchange(call: HttpCall, auth: map<string, string>, actionId: ActionId,
                      response: Option<HttpResponse>): Payload {
      HttpExchange(
        config.engagementId, config.policyHash, actionId, call.authProfile, call.verb,
        RedactHeaders(lib.lower, SentHeaders(lib.lower, call, auth)),
        if call.body == [] then None else Some(RecordedBody(lib.bodyDigest(call.body), |call.body|)),
        RecordedLabel(call.payloadLabel),
        match response
        case Some(r) => Some(RecordedResponse(r.status, lib.bodyDigest(r.body), |r.body|))
        case None => None,
        response.None?)
    }

    /** Some reading of the kill switch and of the clock makes the gateway decide so on the books as they are. */
    ghost predicate DecidedSo(request: ActionRequest, s: Ledger, s': Ledger, decision: GatewayDecision)
      requires config.limits.Valid()
    {
      exists killed: bool, current: real :: Authorize(config, approved, request, killed, s, current) == (s', decision)
    }

    /** The gateway may ask for a sleep of more than a minute. */
    ghost predicate WaitTooLong(request: ActionRequest, s: Ledger)
      requires config.limits.Valid()
    {
      exists decision: GatewayDecision ::
        DecidedSo(request, s, s, decision) && AsksToWait(decision) && decision.rate.waitSeconds > 60.0
    }

    /** The gateway may ask for a sleep of just this length, which is no longer than a minute. */
    ghost predicate MayAskFor(request: ActionRequest, s: Ledger, seconds: real)
      requires config.limits.Valid()
    {
      exists decision: GatewayDecision ::
        && DecidedSo(request, s, s, decision) && decision.reason == RateWaitRequired
        && decision.rate.waitSeconds == seconds <= 60.0
    }

    /** The sleeps of one execution: none, or one that the gateway asked for. */
    ghost predicate SleptAsAsked(request: ActionRequest, s: Ledger, before: seq<real>, after: seq<real>)
      requires config.limits.Valid()
    {
      after == before ||
      (|after| == |before| + 1 && after[..|before|] == before && MayAskFor(request, s, after[|before|]))
    }

    /** A decision with its receipt, and nothing else. */
    ghost predicate DecidedOnce(call: HttpCall, actionId: ActionId, before: Books, after: Books,
                                decision: GatewayDecision)
      requires config.limits.Valid()
    {
      && DecidedSo(RequestFor(call, actionId), before.ledger, after.ledger, decision)
      && after.receipts == before.receipts + [ReceiptFor(config, RequestFor(call, actionId), decision)]
    }

    ghost predicate GrantedOnce(call: HttpCall, actionId: ActionId, before: Books, after: Books)
      requires config.limits.Valid()
    {
      exists decision: GatewayDecision :: decision.ready && DecidedOnce(call, actionId, before, after, decision)
    }

    /** Every way a granted call can end, and what it adds to the evidence. */
    ghost predicate Delivered(call: HttpCall, actionId: ActionId, before: seq<Record>, result: Execution,
                              after: seq<Record>) {
      var resolved := ResolveAuthHeaders(vault, call.authProfile);
      match result
      case Raised(CredentialsRefused(error)) => resolved == Refusal(error) && after == before
      case Raised(SendFailed) =>
        resolved.Headers? && after == before + [Record(|before|, Exchange(call, resolved.headers, actionId, None))]
      case Raised(_) => false
      case Observed(o) =>
        && resolved.Headers?
        && after == before + [Record(|before|, Exchange(call, resolved.headers, actionId, Some(o.response)))]
        && o.actionId == actionId && o.evidenceId == |before| && o.authProfile == call.authProfile
    }

    /** Every way an execution can end, and exactly what it leaves behind. */
    ghost predicate Accounts(call: HttpCall, actionId: ActionId, before: Books, result: Execution, after: Books)
      requires config.limits.Valid()
    {
      var refused := CheckArguments(config, lib.lower, call);
      if refused.Some? then result == Raised(refused.value) && after == before
      else if result == Raised(UnsafeWait) then
        after == before && WaitTooLong(RequestFor(call, actionId), before.ledger)
      else if result.Raised? && result.error.BlockedByGateway? then
        && !result.error.decision.ready && !AsksToWait(result.error.decision) && after.records == before.records
        && DecidedOnce(call, actionId, before, after, result.error.decision)
      else
        && GrantedOnce(call, actionId, before, after)
        && Delivered(call, actionId, before.records, result, after.records)
    }

    /** What an execution puts on the network: its one request if it came past the live check, else nothing. */
    ghost predicate Transmits(call: HttpCall, result: Execution, cleared: bool,
                              before: seq<WireRequest>, after: seq<WireRequest>) {
      var resolved := ResolveAuthHeaders(vault, call.authProfile);
      if result.Observed? || (result == Raised(SendFailed) && cleared) then
        && resolved.Headers? && cleared
        && after == before +
          [WireRequest(call.target, call.verb, SentHeaders(lib.lower, call, resolved.headers), call.body)]
      else after == before
    }
  }

  /** What the record of an exchange tells: whose it was, what was sent, and how it was answered. */
  lemma ExchangeTells(env: Setting, call: HttpCall, auth: map<string, string>, actionId: ActionId,
                      response: Option<HttpResponse>)
    ensures var entry, digest := env.Exchange(call, auth, actionId, response), env.lib.bodyDigest;
      && entry.HttpExchange?
      && entry.engagementId == env.config.engagementId && entry.policyHash == env.config.policyHash
      && entry.actionId == actionId && entry.authProfile == call.authProfile && entry.verb == call.verb
      && (entry.requestBody.None? <==> call.body == [])
      && (call.body != [] ==> entry.requestBody.value == RecordedBody(digest(call.body), |call.body|))
      && (entry.failed <==> response.None?) && (entry.response.None? <==> response.None?)
      && (response.Some? ==>
            && entry.response.value.status == response.value.status
            && entry.response.value.bodyDigest == digest(response.value.body)
            && entry.response.value.bodyLength == |response.value.body|)
      && (forall name :: name in entry.requestHeaders <==> name in SentHeaders(env.lib.lower, call, auth))
      && (forall name :: name in entry.requestHeaders ==>
            var secret := env.lib.lower(name) in ["authorization", "cookie", "proxy-authorization", "set-cookie",
                                                  "x-api-key", "x-auth-token"];
            entry.requestHeaders[name] ==
              if secret then "[REDACTED]" else SentHeaders(env.lib.lower, call, auth)[name])
  {
  }

  /** Of a payload label at most 160 characters are kept; an empty one is none. */
  lemma LabelExactly(text: Option<string>)
    ensures RecordedLabel(text).Some? <==> text.Some? && text.value != ""
    ensures RecordedLabel(text).Some? ==>
      var kept := RecordedLabel(text).value;
      kept <= text.value && |kept| == if |text.value| < 160 then |text.value| else 160
  {
  }

  // ---------------------------------------------------------------- one execution

  /** A grant uses one unit of budget and its receipt is ready, numbered with that unit; a refusal uses none. */
  lemma DecisionSpends(env: Setting, call: HttpCall, actionId: ActionId, before: Books, after: Books,
                       decision: GatewayDecision)
    requires env.config.limits.Valid() && env.DecidedOnce(call, actionId, before, after, decision)
    ensures after.Spent() == before.Spent() + (if decision.ready then 1 else 0)
    ensures var receipt := after.receipts[|before.receipts|];
      receipt.rateReady == decision.ready && receipt.actionId == actionId && receipt.requestCount == after.Spent()
  {
    var request := RequestFor(call, actionId);
    var killed, current :|
      Authorize(env.config, env.approved, request, killed, before.ledger, current) == (after.ledger, decision);
    GrantExactly(env.config.limits, before.ledger, current);
  }

  /** An answer costs one unit of budget; nothing costs more. */
  lemma ExecutionSpends(env: Setting, call: HttpCall, actionId: ActionId, before: Books, result: Execution,
                        after: Books)
    requires env.config.limits.Valid() && env.Accounts(call, actionId, before, result, after)
    ensures before.Spent() <= after.Spent() <= before.Spent() + 1
    ensures result.Observed? ==> after.Spent() == before.Spent() + 1
  {
    if result.Raised? && result.error.BlockedByGateway? {
      DecisionSpends(env, call, actionId, before, after, result.error.decision);
    } else if env.GrantedOnce(call, actionId, before, after) {
      var decision: GatewayDecision :| decision.ready && env.DecidedOnce(call, actionId, before, after, decision);
      DecisionSpends(env, call, actionId, before, after, decision);
    }
  }

  /**
   * Nothing reaches the point of sending but what the policy permits: an entry of the scope admits the target, the
   * approval is there, a body is within bounds and goes only where active testing is enabled, and one unit of budget
   * was paid, with a ready receipt on file.
   */
  lemma SentIsPermitted(env: Setting, call: HttpCall, actionId: ActionId, before: Books, result: Execution,
                        after: Books)
    requires env.config.Valid() && "" !in env.approved && ReachedSend(result)
    requires env.Accounts(call, actionId, before, result, after)
    ensures SomeOriginPermits(env.config.scope, call.target, call.verb)
    ensures Approved(env.config.actions, env.approved, RequestFor(call, actionId))
    ensures call.verb in ["GET", "HEAD", "OPTIONS", "POST", "PUT", "PATCH", "DELETE"]
    ensures VerbPermitted(env.config.actions, env.approved, call.verb, call.approvalId)
    ensures call.verb !in ["GET", "HEAD", "OPTIONS"] ==> env.config.activeTestingEnabled
    ensures call.body != [] ==> env.config.activeTestingEnabled && |call.body| <= env.config.maxPayloadBytes
    ensures before.Spent() < env.config.limits.maxRequests && after.Spent() == before.Spent() + 1
    ensures |after.receipts| == |before.receipts| + 1 && after.receipts[|before.receipts|].rateReady
  {
    var decision: GatewayDecision :| decision.ready && env.DecidedOnce(call, actionId, before, after, decision);
    var request := RequestFor(call, actionId);
    var killed, current :|
      Authorize(env.config, env.approved, request, killed, before.ledger, current) == (after.ledger, decision);
    ReadyExactly(env.config, env.approved, request, killed, before.ledger, current);
    EvaluateMeansApproved(env.config.actions, env.approved, request);
    AcceptedExactly(env.config, env.lib.lower, call);
    VerbPermittedExactly(env.config.actions, env.approved, call, actionId);
    AllowedIsPermitted(env.config.scope, call.target, call.verb);
    DecisionSpends(env, call, actionId, before, after, decision);
  }

  /** And what is blocked for want of an approval is not permitted by the policy. */
  lemma BlockedIsNotPermitted(env: Setting, call: HttpCall, actionId: ActionId, before: Books,
                              decision: GatewayDecision, after: Books)
    requires env.config.Valid() && "" !in env.approved && decision.reason == ApprovalBlocked
    requires env.Accounts(call, actionId, before, Raised(BlockedByGateway(decision)), after)
    ensures !VerbPermitted(env.config.actions, env.approved, call.verb, call.approvalId)
    ensures after.ledger == before.ledger && after.records == before.records
  {
    var request := RequestFor(call, actionId);
    ArgumentErrors(env.config, env.lib.lower, call);
    AcceptedExactly(env.config, env.lib.lower, call);
    var killed, current :|
      Authorize(env.config, env.approved, request, killed, before.ledger, current) == (after.ledger, decision);
    RefusalNamesFirstGate(env.config, env.approved, request, killed, before.ledger, current);
    ReadyExactly(env.config, env.approved, request, killed, before.ledger, current);
    EvaluateMeansApproved(env.config.actions, env.approved, request);
    VerbPermittedExactly(env.config.actions, env.approved, call, actionId);
  }

  /** A decision asks for a wait exactly when pacing is what stands in the way. */
  lemma AsksExactly(config: Engagement, approved: set<string>, request: ActionRequest, killed: bool, s: Ledger,
                    current: real)
    requires config.limits.Valid()
    ensures var d := Authorize(config, approved, request, killed, s, current).1;
      AsksToWait(d) <==> d.reason == RateWaitRequired
  {
    GrantExactly(config.limits, s, current);
  }

  /** An execution is never blocked by pacing: it waits, or gives up on a wait of more than a minute. */
  lemma PacingNeverBlocks(env: Setting, call: HttpCall, actionId: ActionId, before: Books, decision: GatewayDecision,
                          after: Books)
    requires env.config.Valid() && env.Accounts(call, actionId, before, Raised(BlockedByGateway(decision)), after)
    ensures decision.reason in {ScopeBlocked, KillSwitchActive, ActiveTestingDisabled, ApprovalBlocked, RateBlocked}
  {
    var request := RequestFor(call, actionId);
    ArgumentErrors(env.config, env.lib.lower, call);
    var killed, current :|
      Authorize(env.config, env.approved, request, killed, before.ledger, current) == (after.ledger, decision);
    AsksExactly(env.config, env.approved, request, killed, before.ledger, current);
  }

  lemma AuthNamesAreSensitive()
    ensures AUTH_HEADER_NAMES <= SENSITIVE_HEADERS
  {
  }

  /** Whatever a profile's secrets are, the evidence records only which of its headers were sent. */
  lemma EvidenceHidesCredentials(env: Setting, call: HttpCall, g: map<string, string>, h: map<string, string>,
                                 actionId: ActionId, response: Option<HttpResponse>)
    requires g.Keys == h.Keys
    requires g.Keys != {} ==> ValidHeaders(env.lib.lower, g) && ValidHeaders(env.lib.lower, h)
    ensures env.Exchange(call, g, actionId, response) == env.Exchange(call, h, actionId, response)
    ensures forall name :: name in g ==>
      var kept := env.Exchange(call, g, actionId, response).requestHeaders;
      name in kept && kept[name] == REDACTED
  {
    AuthNamesAreSensitive();
    SameNamesSent(env.lib.lower, call, g, h);
    RedactedAlike(env.lib.lower, SentHeaders(env.lib.lower, call, g), SentHeaders(env.lib.lower, call, h), g.Keys);
  }

  lemma RedactedAlike(lower: string -> string, x: map<string, string>, y: map<string, string>, secret: set<string>)
    requires x.Keys == y.Keys && forall name :: name in secret ==> lower(name) in SENSITIVE_HEADERS
    requires forall name :: name in x && name !in secret ==> x[name] == y[name]
    ensures RedactHeaders(lower, x) == RedactHeaders(lower, y)
  {
  }

  // ---------------------------------------------------------------- executions in a row

  /**
   * Several executions in a row: their action ids and results, and the books before the first and after each of them.
   */
  datatype Course = Course(ids: seq<ActionId>, results: seq<Execution>, books: seq<Books>)
  {
    function Last(): Execution
      requires results != []
    {
      results[|results| - 1]
    }

    /** Without the last execution. */
    function Front(): Course
      requires results != [] && |ids| == |results| && |books| == |results| + 1
    {
      Course(ids[..|ids| - 1], results[..|results| - 1], books[..|results|])
    }

    /** One execution more. */
    function Then(id: ActionId, result: Execution, after: Books): Course {
      Course(ids + [id], results + [result], books + [after])
    }

    predicate AllObserved() {
      forall i :: 0 <= i < |results| ==> results[i].Observed?
    }

    /** All action ids come from before `next`. */
    predicate Below(next: ActionId) {
      forall i :: 0 <= i < |ids| ==> ids[i] < next
    }

    /** How many of the executions reached the point of sending, when only the last may not have. */
    function Sent(): nat {
      if results != [] && !ReachedSend(Last()) then |results| - 1 else |results|
    }
  }

  /**
   * A course of executions of the first of these calls, under fresh ids, each of them answered but perhaps the last.
   */
  ghost predicate Conducted(env: Setting, calls: seq<HttpCall>, course: Course, before: Books, after: Books) {
    && env.config.limits.Valid()
    && |course.ids| == |course.results| <= |calls| && |course.books| == |course.results| + 1
    && course.books[0] == before && course.books[|course.results|] == after
    && (forall i, j :: 0 <= i < j < |course.ids| ==> course.ids[i] < course.ids[j])
    && forall i: nat :: i < |course.results| ==> ExecutedAt(env, calls, course, i)
  }

  /** Execution `i` of the course accounts for itself, and is answered unless it is the last. */
  ghost predicate ExecutedAt(env: Setting, calls: seq<HttpCall>, course: Course, i: nat) {
    && env.config.limits.Valid()
    && i < |course.results| && i < |course.ids| && i < |calls| && i + 1 < |course.books|
    && (i < |course.results| - 1 ==> course.results[i].Observed?)
    && env.Accounts(calls[i], course.ids[i], course.books[i], course.results[i], course.books[i + 1])
  }

  lemma FrontThenLast(course: Course)
    requires course.results != [] && |course.ids| == |course.results| && |course.books| == |course.results| + 1
    ensures course == course.Front().Then(course.ids[|course.ids| - 1], course.Last(), course.books[|course.results|])
  {
  }

  /** A course without its last execution, and that execution. */
  lemma CourseFront(env: Setting, calls: seq<HttpCall>, course: Course, before: Books, after: Books)
    requires Conducted(env, calls, course, before, after) && course.results != []
    ensures course == course.Front().Then(course.ids[|course.ids| - 1], course.Last(), after)
    ensures course.Front().AllObserved()
    ensures var n := |course.results| - 1;
      && Conducted(env, calls, course.Front(), before, course.books[n])
      && env.Accounts(calls[n], course.ids[n], course.books[n], course.Last(), after)
  {
    FrontThenLast(course);
    var n, front := |course.results| - 1, course.Front();
    assert ExecutedAt(env, calls, course, n);
    forall i: nat | i < n ensures front.results[i].Observed? && ExecutedAt(env, calls, front, i) {
      assert ExecutedAt(env, calls, course, i);
      SameExecution(env, calls, course, front, i);
    }
  }

  lemma SameExecution(env: Setting, calls: seq<HttpCall>, c: Course, d: Course, i: nat)
    requires ExecutedAt(env, calls, c, i) && c.results[i].Observed?
    requires i < |d.results| && i < |d.ids| && i + 1 < |d.books|
    requires d.ids[i] == c.ids[i] && d.results[i] == c.results[i]
    requires d.books[i] == c.books[i] && d.books[i + 1] == c.books[i + 1]
    ensures ExecutedAt(env, calls, d, i)
  {
  }

  /** A call more, under a fresh id, after a course without a failure. */
  lemma ConductedThen(env: Setting, calls: seq<HttpCall>, course: Course, id: ActionId,
                      before: Books, middle: Books, result: Execution, after: Books)
    requires Conducted(env, calls, course, before, middle) && course.AllObserved() && |course.results| < |calls|
    requires course.Below(id) && env.Accounts(calls[|course.results|], id, middle, result, after)
    ensures Conducted(env, calls, course.Then(id, result, after), before, after)
  {
    var n, longer := |course.results|, course.Then(id, result, after);
    forall i: nat | i < n ensures ExecutedAt(env, calls, longer, i) {
      assert ExecutedAt(env, calls, course, i);
      ThenKeeps(course, id, result, after, i);
      SameExecution(env, calls, course, longer, i);
    }
    LastExecuted(env, calls, course, id, middle, result, after);
  }

  lemma ThenKeeps(course: Course, id: ActionId, result: Execution, after: Books, i: nat)
    requires i < |course.results| == |course.ids| && |course.books| == |course.results| + 1
    ensures var longer := course.Then(id, result, after);
      && longer.ids[i] == course.ids[i] && longer.results[i] == course.results[i]
      && longer.books[i] == course.books[i] && longer.books[i + 1] == course.books[i + 1]
  {
  }

  lemma LastExecuted(env: Setting, calls: seq<HttpCall>, course: Course, id: ActionId, middle: Books,
                     result: Execution, after: Books)
    requires env.config.limits.Valid()
    requires |course.ids| == |course.results| < |calls| && |course.books| == |course.results| + 1
    requires course.books[|course.results|] == middle
    requires env.Accounts(calls[|course.results|], id, middle, result, after)
    ensures ExecutedAt(env, calls, course.Then(id, result, after), |course.results|)
  {
  }

  /** The evidence log shows this answer to this call at position `at`. */
  ghost predicate AnswerAt(env: Setting, call: HttpCall, id: ActionId, answer: Execution, at: nat, books: Books) {
    var resolved := ResolveAuthHeaders(env.vault, call.authProfile);
    && answer.Observed? && answer.observation.evidenceId == at < |books.records| && resolved.Headers?
    && answer.observation.actionId == id
    && books.records[at] == Record(at, env.Exchange(call, resolved.headers, id, Some(answer.observation.response)))
  }

  /** Execution `i` of the course was answered, and is on file at its place after the first `start` records. */
  ghost predicate AnsweredIn(env: Setting, calls: seq<HttpCall>, course: Course, i: nat, start: nat, books: Books) {
    && i < |calls| && i < |course.ids| && i < |course.results|
    && AnswerAt(env, calls[i], course.ids[i], course.results[i], start + i, books)
  }

  /** Each execution cost one unit of budget and added one record, in the order of the calls. */
  ghost predicate AllAnswered(env: Setting, calls: seq<HttpCall>, course: Course, before: Books, after: Books) {
    var n := |course.results|;
    && |course.ids| == n <= |calls|
    && after.Spent() == before.Spent() + n && |after.records| == |before.records| + n
    && forall i: nat :: i < n ==> AnsweredIn(env, calls, course, i, |before.records|, after)
  }

  /** What is on file stays there while course and log only grow. */
  lemma AnsweredStill(env: Setting, calls: seq<HttpCall>, course: Course, i: nat, start: nat, middle: Books,
                      id: ActionId, answer: Execution, after: Books)
    requires AnsweredIn(env, calls, course, i, start, middle) && middle.records <= after.records
    ensures AnsweredIn(env, calls, course.Then(id, answer, after), i, start, after)
  {
    var longer := course.Then(id, answer, after);
    assert longer.ids[i] == course.ids[i] && longer.results[i] == course.results[i];
    assert after.records[start + i] == middle.records[start + i];
  }

  lemma AnsweredLast(env: Setting, calls: seq<HttpCall>, course: Course, start: nat, id: ActionId, answer: Execution,
                     after: Books)
    requires |course.ids| == |course.results| < |calls|
    requires AnswerAt(env, calls[|course.results|], id, answer, start + |course.results|, after)
    ensures AnsweredIn(env, calls, course.Then(id, answer, after), |course.results|, start, after)
  {
  }

  lemma AnswersStay(env: Setting, calls: seq<HttpCall>, course: Course, before: Books, middle: Books,
                    id: ActionId, answer: Execution, after: Books)
    requires AllAnswered(env, calls, course, before, middle) && |course.results| < |calls|
    requires after.Spent() == middle.Spent() + 1
    requires |after.records| == |middle.records| + 1 && middle.records <= after.records
    requires AnswerAt(env, calls[|course.results|], id, answer, |middle.records|, after)
    ensures AllAnswered(env, calls, course.Then(id, answer, after), before, after)
  {
    var start, n := |before.records|, |course.results|;
    AnsweredLast(env, calls, course, start, id, answer, after);
    forall i: nat | i < n ensures AnsweredIn(env, calls, course.Then(id, answer, after), i, start, after) {
      AnsweredStill(env, calls, course, i, start, middle, id, answer, after);
    }
  }

  lemma OneAnswer(env: Setting, call: HttpCall, id: ActionId, before: Books, result: Execution, after: Books)
    requires env.config.limits.Valid() && env.Accounts(call, id, before, result, after)
    ensures before.Spent() <= after.Spent() <= before.Spent() + 1
    ensures before.records <= after.records && |after.records| <= |before.records| + 1
    ensures result.Observed? ==>
      && after.Spent() == before.Spent() + 1 && |after.records| == |before.records| + 1
      && AnswerAt(env, call, id, result, |before.records|, after)
  {
    ExecutionSpends(env, call, id, before, result, after);
  }

  /** What a course of executions costs and leaves on file. */
  lemma {:induction false} CourseIsOnFile(env: Setting, calls: seq<HttpCall>, course: Course, before: Books,
                                          after: Books)
    requires Conducted(env, calls, course, before, after)
    ensures before.Spent() <= after.Spent() <= before.Spent() + |course.results|
    ensures before.records <= after.records && |after.records| <= |before.records| + |course.results|
    ensures course.AllObserved() ==> AllAnswered(env, calls, course, before, after)
    decreases |course.results|
  {
    if course.results != [] {
      var n := |course.results| - 1;
      CourseFront(env, calls, course, before, after);
      CourseIsOnFile(env, calls, course.Front(), before, course.books[n]);
      OneAnswer(env, calls[n], course.ids[n], course.books[n], course.Last(), after);
      if course.AllObserved() {
        AnswersStay(env, calls, course.Front(), before, course.books[n], course.ids[n], course.Last(), after);
      }
    }
  }

  /** The executions before the last one are on file whatever came of the last one. */
  lemma AllButLastIsOnFile(env: Setting, calls: seq<HttpCall>, course: Course, before: Books, after: Books)
    requires Conducted(env, calls, course, before, after) && course.results != []
    ensures var n, middle := |course.results| - 1, course.books[|course.results| - 1];
      && AllAnswered(env, calls, course.Front(), before, middle)
      && before.Spent() + n <= after.Spent() <= before.Spent() + n + 1
      && middle.records <= after.records && |after.records| <= |middle.records| + 1
  {
    var n := |course.results| - 1;
    CourseFront(env, calls, course, before, after);
    CourseIsOnFile(env, calls, course.Front(), before, course.books[n]);
    OneAnswer(env, calls[n], course.ids[n], course.books[n], course.Last(), after);
  }

  // ---------------------------------------------------------------- receipts and evidence

  /** A ready receipt and an evidence record under one action id. */
  ghost predicate PairAt(id: ActionId, r: nat, e: nat, books: Books) {
    && r < |books.receipts| && books.receipts[r].rateReady && books.receipts[r].actionId == id
    && e < |books.records| && books.records[e].payload.HttpExchange? && books.records[e].payload.actionId == id
  }

  /**
   * Since `before`, each execution that reached the point of sending has one ready receipt and one record under its
   * own id, in order, and there is no other record; another ready receipt there is only when the last execution
   * stopped on its credentials, and it is that one's.
   */
  ghost predicate Paired(course: Course, before: Books, after: Books) {
    var n, r, e := course.Sent(), |before.receipts|, |before.records|;
    && |course.ids| == |course.results|
    && before.receipts <= after.receipts && before.records <= after.records
    && r + n <= |after.receipts| <= r + |course.results| && |after.records| == e + n
    && (forall i: nat :: i < n ==> PairAt(course.ids[i], r + i, e + i, after))
    && forall k :: r + n <= k < |after.receipts| && after.receipts[k].rateReady ==>
      && course.Last().Raised? && course.Last().error.CredentialsRefused?
      && after.receipts[k].actionId == course.ids[n]
  }

  /** What one execution adds to receipts and evidence. */
  ghost predicate AddsPair(id: ActionId, before: Books, result: Execution, after: Books) {
    var r := |before.receipts|;
    && before.receipts <= after.receipts && before.records <= after.records && |after.receipts| <= r + 1
    && if ReachedSend(result) then
         |after.receipts| == r + 1 && |after.records| == |before.records| + 1 && PairAt(id, r, |before.records|, after)
       else
         && after.records == before.records
         && (|after.receipts| == r + 1 && after.receipts[r].rateReady ==>
               result.error.CredentialsRefused? && after.receipts[r].actionId == id)
  }

  /** A grant leaves one ready receipt. */
  lemma GrantReceipted(env: Setting, call: HttpCall, id: ActionId, before: Books, after: Books)
    requires env.config.limits.Valid() && env.GrantedOnce(call, id, before, after)
    ensures before.receipts <= after.receipts && |after.receipts| == |before.receipts| + 1
    ensures var receipt := after.receipts[|before.receipts|]; receipt.rateReady && receipt.actionId == id
  {
    var decision: GatewayDecision :| decision.ready && env.DecidedOnce(call, id, before, after, decision);
    DecisionSpends(env, call, id, before, after, decision);
  }

  /** What a granted call delivers is one record under its id, or a credential error. */
  lemma DeliveryRecorded(env: Setting, call: HttpCall, id: ActionId, before: seq<Record>, result: Execution,
                         after: seq<Record>)
    requires env.Delivered(call, id, before, result, after)
    ensures ReachedSend(result) || (result.Raised? && result.error.CredentialsRefused? && after == before)
    ensures ReachedSend(result) ==>
      && before <= after && |after| == |before| + 1
      && after[|before|].payload.HttpExchange? && after[|before|].payload.actionId == id
  {
  }

  /** The argument checks raise nothing that comes from behind them. */
  lemma ArgumentErrors(config: Engagement, lower: string -> string, call: HttpCall)
    ensures var refused := CheckArguments(config, lower, call);
      refused.Some? ==>
        !refused.value.SendFailed? && !refused.value.BlockedByGateway? && !refused.value.CredentialsRefused?
  {
  }

  lemma OnePair(env: Setting, call: HttpCall, id: ActionId, before: Books, result: Execution, after: Books)
    requires env.config.limits.Valid() && env.Accounts(call, id, before, result, after)
    ensures AddsPair(id, before, result, after)
  {
    ArgumentErrors(env.config, env.lib.lower, call);
    if result.Raised? && result.error.BlockedByGateway? {
      DecisionSpends(env, call, id, before, after, result.error.decision);
    } else if CheckArguments(env.config, env.lib.lower, call).None? && result != Raised(UnsafeWait) {
      GrantReceipted(env, call, id, before, after);
      DeliveryRecorded(env, call, id, before.records, result, after.records);
    }
  }

  lemma PairsStay(course: Course, id: ActionId, before: Books, middle: Books, result: Execution, after: Books)
    requires Paired(course, before, middle) && course.AllObserved() && AddsPair(id, middle, result, after)
    ensures Paired(course.Then(id, result, after), before, after)
  {
    var n, r, e := |course.results|, |before.receipts|, |before.records|;
    var longer := course.Then(id, result, after);
    assert course.Sent() == n && longer.Last() == result && longer.ids[n] == id;
    forall i: nat | i < longer.Sent() ensures PairAt(longer.ids[i], r + i, e + i, after) {
      if i < n {
        assert PairAt(course.ids[i], r + i, e + i, middle);
        assert after.receipts[r + i] == middle.receipts[r + i] && after.records[e + i] == middle.records[e + i];
      }
    }
  }

  lemma {:induction false} CoursePairs(env: Setting, calls: seq<HttpCall>, course: Course, before: Books, after: Books)
    requires Conducted(env, calls, course, before, after)
    ensures Paired(course, before, after)
    decreases |course.results|
  {
    if course.results != [] {
      var n := |course.results| - 1;
      CourseFront(env, calls, course, before, after);
      CoursePairs(env, calls, course.Front(), before, course.books[n]);
      OnePair(env, calls[n], course.ids[n], course.books[n], course.Last(), after);
      PairsStay(course.Front(), course.ids[n], before, course.books[n], course.Last(), after);
    }
  }

  /** Ready receipts and evidence of a course pair up by action id, and no two executions share one. */
  lemma ReceiptsPairWithEvidence(env: Setting, calls: seq<HttpCall>, course: Course, before: Books, after: Books)
    requires Conducted(env, calls, course, before, after)
    ensures Paired(course, before, after)
    ensures forall i, j :: 0 <= i < j < |course.ids| ==> course.ids[i] != course.ids[j]
  {
    CoursePairs(env, calls, course, before, after);
  }
}
