/** `ActiveProbeEngine.run`: bounded cases, substituted one by one into an operator's body template. */
module Probe {
  import opened Text
  import opened Scope
  import opened Gateway
  import opened Findings
  import opened Evidence
  import opened Calls
  import opened Accounting
  import opened Executor
  import opened Substitution

  /** Any text that is not empty can mark the place of a payload; the engine's mark is `{{NIGHWATCH_PAYLOAD}}`. */
  type Marker = s: string | s != "" witness "?"

  const PROBE_METHODS := ["POST", "PUT", "PATCH"]

  datatype ProbePlan = ProbePlan(
    target: Target, verb: string, template: string, marker: Marker, payloads: seq<string>, authProfile: Option<string>,
    approvalId: Option<string>, contentType: string, payloadLabel: string)
  {
    /** The body of case `i`, counting from 0. */
    function Body(i: nat): Bytes
      requires i < |payloads|
    {
      Encode(Replace(template, marker, payloads[i]))
    }

    function LabelOf(i: nat): string { payloadLabel + " #" + Decimal(i + 1) }

    function Call(i: nat): HttpCall
      requires i < |payloads|
    {
      HttpCall(target, verb, authProfile, Body(i), map["Content-Type" := contentType], approvalId, Some(LabelOf(i)))
    }

    /** What a run submits, case by case. */
    function Calls(): seq<HttpCall> {
      seq(|payloads|, i requires 0 <= i < |payloads| => Call(i))
    }
  }

  /** Just what case `i` asks for: the template with every mark replaced, and nothing else of the caller's. */
  lemma CaseExactly(plan: ProbePlan, i: nat)
    requires i < |plan.payloads|
    ensures |plan.Calls()| == |plan.payloads|
    ensures var call := plan.Calls()[i];
      && call.target == plan.target && call.verb == plan.verb && call.authProfile == plan.authProfile
      && call.approvalId == plan.approvalId && call.requestHeaders == map["Content-Type" := plan.contentType]
      && call.payloadLabel == Some(plan.payloadLabel + " #" + Decimal(i + 1))
      && Decode(call.body) == Some(Weave(Pieces(plan.template, plan.marker), plan.payloads[i]))
  {
    ReplaceIsWeave(plan.template, plan.marker, plan.payloads[i]);
    EncodeReadsBack(Replace(plan.template, plan.marker, plan.payloads[i]));
  }

  datatype ProbeResult = ProbeResult(
    casesRequested: nat, casesExecuted: nat,
    evidenceIds: seq<EvidenceId>, statuses: seq<int>, payloadHashes: seq<Bytes>)

  datatype ProbeError =
    | MethodNotProbed | NoPlaceholder | TemplateTooLarge | TooManyPayloads | NoPayload
    | CaseTooLarge(index: nat)
    | CaseRaised(index: nat, error: ExecError)

  datatype ProbeRun = Completed(result: ProbeResult) | Failed(error: ProbeError)

  /** The checks in front of the first case, in order. */
  function CheckPlan(config: Engagement, plan: ProbePlan): Option<ProbeError> {
    if plan.verb !in PROBE_METHODS then Some(MethodNotProbed)
    else if !Contains(plan.template, plan.marker) then Some(NoPlaceholder)
    else if Size(plan.template) > config.maxPayloadBytes then Some(TemplateTooLarge)
    else if |plan.payloads| > config.maxCases then Some(TooManyPayloads)
    else if plan.payloads == [] then Some(NoPayload)
    else None
  }

  /** Which plans are refused before the first case, and for which reason. */
  lemma RefusedPlans(config: Engagement, plan: ProbePlan)
    ensures var refused, marked := CheckPlan(config, plan), exists i :: Occurs(plan.template, plan.marker, i);
      var verb, small := plan.verb in ["POST", "PUT", "PATCH"], Size(plan.template) <= config.maxPayloadBytes;
      && (refused == Some(MethodNotProbed) <==> !verb)
      && (refused == Some(NoPlaceholder) <==> verb && !marked)
      && (refused == Some(TemplateTooLarge) <==> verb && marked && !small)
      && (refused == Some(TooManyPayloads) <==> verb && marked && small && |plan.payloads| > config.maxCases)
      && (refused == Some(NoPayload) <==>
            verb && marked && small && plan.payloads == [] && |plan.payloads| <= config.maxCases)
      && (refused.None? <==> verb && marked && small && 1 <= |plan.payloads| <= config.maxCases)
  {
    ContainsMeans(plan.template, plan.marker);
  }

  /** The first `k` bodies are within the engagement's limit. */
  ghost predicate Fit(config: Engagement, plan: ProbePlan, k: nat) {
    k <= |plan.payloads| && forall i: nat :: i < k ==> |plan.Body(i)| <= config.maxPayloadBytes
  }

  lemma FitNext(config: Engagement, plan: ProbePlan, k: nat)
    requires Fit(config, plan, k) && k < |plan.payloads| && |plan.Body(k)| <= config.maxPayloadBytes
    ensures Fit(config, plan, k + 1)
  {
  }

  /** Result `i` belongs to payload `i`. */
  ghost predicate Matched(lib: Library, plan: ProbePlan, course: Course, r: ProbeResult) {
    && |r.evidenceIds| == |r.statuses| == |r.payloadHashes| == |course.results| <= |plan.payloads|
    && course.AllObserved()
    && forall i :: 0 <= i < |course.results| ==>
      && r.evidenceIds[i] == course.results[i].observation.evidenceId
      && r.statuses[i] == course.results[i].observation.response.status
      && r.payloadHashes[i] == lib.bodyDigest(Encode(plan.payloads[i]))
  }

  /** Why the cases ended where they did. */
  ghost predicate Ended(env: Setting, plan: ProbePlan, run: ProbeRun, course: Course) {
    var k := |course.results|;
    match run
    case Completed(r) =>
      && r.casesRequested == r.casesExecuted == k == |plan.payloads| <= env.config.maxCases
      && Matched(env.lib, plan, course, r)
    case Failed(CaseTooLarge(index)) =>
      index == k + 1 <= |plan.payloads| && course.AllObserved() && |plan.Body(k)| > env.config.maxPayloadBytes
    case Failed(CaseRaised(index, error)) => index == k > 0 && course.Last() == Raised(error)
    case Failed(_) => false
  }

  /** Every way a run can end: which cases were executed, with what result, and why there were no more. */
  ghost predicate Explains(env: Setting, plan: ProbePlan, before: Books, run: ProbeRun, course: Course, after: Books) {
    var refused := CheckPlan(env.config, plan);
    if refused.Some? then run == Failed(refused.value) && course.results == [] && after == before
    else
      && Conducted(env, plan.Calls(), course, before, after) && Fit(env.config, plan, |course.results|)
      && Ended(env, plan, run, course)
  }

  lemma EndsSo(env: Setting, plan: ProbePlan, before: Books, run: ProbeRun, course: Course, after: Books)
    requires CheckPlan(env.config, plan).None?
    requires Conducted(env, plan.Calls(), course, before, after) && Fit(env.config, plan, |course.results|)
    requires Ended(env, plan, run, course)
    ensures Explains(env, plan, before, run, course, after)
  {
  }

  lemma CaseAdded(lib: Library, plan: ProbePlan, course: Course, r: ProbeResult, id: ActionId, result: Execution,
                  after: Books)
    requires Matched(lib, plan, course, r) && |course.results| < |plan.payloads| && result.Observed?
    ensures Matched(lib, plan, course.Then(id, result, after), r.(
      evidenceIds := r.evidenceIds + [result.observation.evidenceId],
      statuses := r.statuses + [result.observation.response.status],
      payloadHashes := r.payloadHashes + [lib.bodyDigest(Encode(plan.payloads[|course.results|]))]))
  {
  }

  class ActiveProbeEngine {
    const executor: HttpExecutor

    constructor (executor: HttpExecutor)
      ensures this.executor == executor
    {
      this.executor := executor;
    }

    /** The payloads, unless there are too many of them; a longer list is not read to its end. */
    method CollectPayloads(payloads: seq<string>, maxCases: nat) returns (values: Option<seq<string>>)
      ensures values == if |payloads| > maxCases then None else Some(payloads)
    {
      var collected: seq<string> := [];
      for i := 0 to |payloads|
        invariant collected == payloads[..i] && i <= maxCases
      {
        if |collected| >= maxCases {
          return None;
        }
        collected := collected + [payloads[i]];
      }
      assert payloads[..|payloads|] == payloads;
      values := Some(collected);
    }

    /** The second loop: one execution per payload, in order, until one fails. */
    method RunCases(world: World, plan: ProbePlan) returns (run: ProbeRun, ghost course: Course)
      requires executor.Ready() && CheckPlan(executor.gateway.config, plan).None?
      modifies world, executor.gateway, executor.gateway.limiter, executor.evidence
      ensures executor.Ready()
      ensures Explains(executor.Env(), plan, old(executor.Ledgers()), run, course, executor.Ledgers())
    {
      var config, lib := executor.gateway.config, executor.lib;
      var r := ProbeResult(|plan.payloads|, 0, [], [], []);
      ghost var env, start := executor.Env(), executor.Ledgers();
      course := Course([], [], [start]);
      for i := 0 to |plan.payloads|
        invariant executor.Ready() && course.Below(world.actions)
        invariant |course.results| == i && Conducted(env, plan.Calls(), course, start, executor.Ledgers())
        invariant Fit(config, plan, i) && Matched(lib, plan, course, r) && r.casesRequested == |plan.payloads|
      {
        if |plan.Body(i)| > config.maxPayloadBytes {
          run := Failed(CaseTooLarge(i + 1));
          EndsSo(env, plan, start, run, course, executor.Ledgers());
          return run, course;
        }
        ghost var id := world.actions;
        var result, longer := RunCase(world, plan, i, course, start);
        if result.Raised? {
          run := Failed(CaseRaised(i + 1, result.error));
          EndsSo(env, plan, start, run, longer, executor.Ledgers());
          return run, longer;
        }
        CaseAdded(lib, plan, course, r, id, result, executor.Ledgers());
        course := longer;
        r := r.(evidenceIds := r.evidenceIds + [result.observation.evidenceId],
                statuses := r.statuses + [result.observation.response.status],
                payloadHashes := r.payloadHashes + [lib.bodyDigest(Encode(plan.payloads[i]))]);
      }
      run := Completed(r.(casesExecuted := |r.evidenceIds|));
      EndsSo(env, plan, start, run, course, executor.Ledgers());
    }

    /** Case `i`, the next of the plan. */
    method RunCase(world: World, plan: ProbePlan, i: nat, ghost course: Course, ghost start: Books)
      returns (result: Execution, ghost longer: Course)
      requires executor.Ready() && Conducted(executor.Env(), plan.Calls(), course, start, executor.Ledgers())
      requires i == |course.results| < |plan.payloads| && course.AllObserved() && course.Below(world.actions)
      requires Fit(executor.gateway.config, plan, i) && |plan.Body(i)| <= executor.gateway.config.maxPayloadBytes
      modifies world, executor.gateway, executor.gateway.limiter, executor.evidence
      ensures executor.Ready()
      ensures Fit(executor.gateway.config, plan, i + 1)
      ensures longer == course.Then(old(world.actions), result, executor.Ledgers())
      ensures result.Observed? ==> longer.Below(world.actions)
      ensures Conducted(executor.Env(), plan.Calls(), longer, start, executor.Ledgers())
    {
      ghost var id, before := world.actions, executor.Ledgers();
      var call := plan.Call(i);
      result := executor.Execute(world, call);
      FitNext(executor.gateway.config, plan, i);
      assert plan.Calls()[i] == call;
      longer := course.Then(id, result, executor.Ledgers());
      ConductedThen(executor.Env(), plan.Calls(), course, id, start, before, result, executor.Ledgers());
    }

    method Run(world: World, plan: ProbePlan) returns (run: ProbeRun, ghost course: Course)
      requires executor.Ready()
      modifies world, executor.gateway, executor.gateway.limiter, executor.evidence
      ensures executor.Ready()
      ensures Explains(executor.Env(), plan, old(executor.Ledgers()), run, course, executor.Ledgers())
    {
      course := Course([], [], []);
      var config := executor.gateway.config;
      if plan.verb !in PROBE_METHODS { return Failed(MethodNotProbed), course; }
      if !Contains(plan.template, plan.marker) { return Failed(NoPlaceholder), course; }
      if Size(plan.template) > config.maxPayloadBytes { return Failed(TemplateTooLarge), course; }
      var values := CollectPayloads(plan.payloads, config.maxCases);
      if values.None? { return Failed(TooManyPayloads), course; }
      if values.value == [] { return Failed(NoPayload), course; }
      run, course := RunCases(world, plan);
    }
  }

  // ---------------------------------------------------------------- what a run leaves on file

  /** How many cases a run executed to the end: all of them, or those in front of the one that failed. */
  function CasesDone(plan: ProbePlan, run: ProbeRun): int {
    match run
    case Completed(_) => |plan.payloads|
    case Failed(CaseTooLarge(index)) => index - 1
    case Failed(CaseRaised(index, _)) => index - 1
    case Failed(_) => 0
  }

  /** The evidence log shows case `i` answered, at its place after the first `start` records. */
  ghost predicate CaseOnFile(env: Setting, plan: ProbePlan, i: nat, start: nat, books: Books)
    requires i < |plan.payloads|
  {
    && start + i < |books.records|
    && books.records[start + i].payload.HttpExchange?
    && var entry, body := books.records[start + i].payload, plan.Body(i);
      && entry.verb == plan.verb && entry.authProfile == plan.authProfile && entry.response.Some?
      && entry.requestBody == (if body == [] then None else Some(RecordedBody(env.lib.bodyDigest(body), |body|)))
      && entry.payloadLabel == RecordedLabel(Some(plan.payloadLabel + " #" + Decimal(i + 1)))
  }

  ghost predicate CasesOnFile(env: Setting, plan: ProbePlan, k: nat, start: nat, books: Books) {
    k <= |plan.payloads| && forall i: nat :: i < k ==> CaseOnFile(env, plan, i, start, books)
  }

  /**
   * Whatever way a run ends, the books tell the same: at most `max_cases` executions; each case that was done is on
   * file at its own place, with its own body, and no later case left a trace.
   */
  lemma RunIsOnFile(env: Setting, plan: ProbePlan, before: Books, run: ProbeRun, course: Course, after: Books)
    requires Explains(env, plan, before, run, course, after) && env.config.maxCases > 0
    ensures var k := CasesDone(plan, run);
      var extra := if run.Failed? && run.error.CaseRaised? then 1 else 0;
      && 0 <= k <= k + extra <= env.config.maxCases
      && before.Spent() + k <= after.Spent() <= before.Spent() + k + extra
      && |before.records| + k <= |after.records| <= |before.records| + k + extra
      && CasesOnFile(env, plan, k, |before.records|, after)
  {
    if CheckPlan(env.config, plan).None? {
      if run.Failed? && run.error.CaseRaised? {
        AllButLastIsOnFile(env, plan.Calls(), course, before, after);
        AnswersOnFile(env, plan, course.Front(), before, course.books[|course.results| - 1], after);
      } else {
        CourseIsOnFile(env, plan.Calls(), course, before, after);
        AnswersOnFile(env, plan, course, before, after, after);
      }
    }
  }

  lemma AnswersOnFile(env: Setting, plan: ProbePlan, course: Course, before: Books, middle: Books, after: Books)
    requires AllAnswered(env, plan.Calls(), course, before, middle) && middle.records <= after.records
    ensures CasesOnFile(env, plan, |course.results|, |before.records|, after)
  {
    var n, calls := |before.records|, plan.Calls();
    forall i: nat | i < |course.results| ensures CaseOnFile(env, plan, i, n, after) {
      assert AnsweredIn(env, calls, course, i, n, middle);
      AnswerOnFile(env, plan, i, course.ids[i], course.results[i], n, middle, after);
    }
  }

  lemma AnswerOnFile(env: Setting, plan: ProbePlan, i: nat, id: ActionId, answer: Execution, start: nat,
                     middle: Books, after: Books)
    requires i < |plan.payloads| && AnswerAt(env, plan.Call(i), id, answer, start + i, middle)
    requires middle.records <= after.records
    ensures CaseOnFile(env, plan, i, start, after)
  {
    assert after.records[start + i] == middle.records[start + i];
  }

  /** The exact size of every case, so whether a payload fits can be told from its length alone. */
  lemma CaseSize(plan: ProbePlan, i: nat)
    requires i < |plan.payloads|
    ensures |plan.Body(i)| ==
      Size(plan.template) + Occurrences(plan.template, plan.marker) * (Size(plan.payloads[i]) - Size(plan.marker))
    ensures Contains(plan.template, plan.marker) <==> Occurrences(plan.template, plan.marker) > 0
  {
    SizeOfReplace(plan.template, plan.marker, plan.payloads[i]);
    ContainsExactly(plan.template, plan.marker);
  }
}
