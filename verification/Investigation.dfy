/** The bounded investigation loop (`ReasoningLoop.run_many`) and its persisted log (`InvestigationStateStore`). */
module Investigation {
  import opened Text
  import opened Scope
  import opened Gateway
  import opened Findings
  import opened Evidence
  import opened Accounting
  import opened Executor
  import opened Validator

  datatype TaskProposal = TaskProposal(
    taskKind: string, targetRef: string, reason: string, authProfiles: seq<string>, expectedEvidence: seq<string>,
    riskLevel: RiskLevel, confidence: real, approvalRequired: bool)
  {
    function Key(): (string, string) { (taskKind, targetRef) }
  }

  datatype StepStatus = Planned | Judged(status: Status)

  /** Why a step ended as it did; the messages themselves are library text. */
  datatype LoopReason = ExecutedThroughValidator | NoExecutableAdapter | RepeatedProposal | OutOfSteps

  datatype InvestigationResult = InvestigationResult(
    status: StepStatus, reason: LoopReason, proposal: TaskProposal, validation: Option<AuthorizationValidation>)

  /** The result of a proposal that was executed. */
  function ResultFor(proposal: TaskProposal, v: AuthorizationValidation): InvestigationResult {
    InvestigationResult(Judged(v.verdict.status), ExecutedThroughValidator, proposal, Some(v))
  }

  /** What a step keeps of a validation. */
  datatype StepValidation = StepValidation(
    status: Status, reason: string, endpoint: string, ownerProfile: string, subjectProfile: string,
    impactFields: seq<string>, evidenceIds: seq<EvidenceId>, reported: bool)

  datatype InvestigationStep = InvestigationStep(
    index: nat, observationDigest: string, proposal: TaskProposal, status: StepStatus, reason: string,
    validation: Option<StepValidation>)
  {
    function Key(): (string, string) { proposal.Key() }
  }

  datatype StateLog = StateLog(engagementId: string, policyHash: string, steps: seq<InvestigationStep>)

  /** The state file: not there, not readable as a log, or a log. */
  datatype StateFile = Absent | Unreadable | Present(log: StateLog)

  /** Text functions: messages, the summary told to the planner, the secret scrubber, the digest and the blank test. */
  datatype Texts = Texts(
    message: LoopReason -> string, explain: Reason -> string, summary: AuthorizationValidation -> string,
    scrub: string -> string, digest: string -> string, isBlank: string -> bool)
  {
    /** `_safe_model_text`: one line, cut to length, scrubbed. */
    function Safe(text: string, limit: nat): string { scrub(Cut(OneLine(text), limit)) }
  }

  function Cut<T>(q: seq<T>, limit: nat): seq<T> {
    if |q| > limit then q[..limit] else q
  }

  function OneLine(text: string): string {
    seq(|text|, i requires 0 <= i < |text| => if text[i] == '\r' || text[i] == '\n' then ' ' else text[i])
  }

  const TEXT_LIMIT := 600
  const EVIDENCE_TEXT_LIMIT := 300
  const EVIDENCE_ITEMS := 16
  const REDACTED_ENDPOINT := "[REDACTED_ENDPOINT]"

  function SafeProposal(texts: Texts, proposal: TaskProposal): TaskProposal {
    var expected := Cut(proposal.expectedEvidence, EVIDENCE_ITEMS);
    var safe := seq(|expected|, i requires 0 <= i < |expected| => texts.Safe(expected[i], EVIDENCE_TEXT_LIMIT));
    proposal.(reason := texts.Safe(proposal.reason, TEXT_LIMIT), expectedEvidence := safe)
  }

  function SafeValidation(texts: Texts, v: AuthorizationValidation): StepValidation {
    StepValidation(
      v.verdict.status, texts.Safe(texts.explain(v.verdict.reason), TEXT_LIMIT), REDACTED_ENDPOINT,
      v.ownerProfile, v.subjectProfile, v.verdict.impactFields, v.evidenceIds, v.reported)
  }

  /** The step put on file: model text goes through the scrubber, the observation only as its digest. */
  function StepFor(texts: Texts, index: nat, observation: string, result: InvestigationResult): InvestigationStep {
    InvestigationStep(
      index, texts.digest(observation), SafeProposal(texts, result.proposal), result.status,
      texts.Safe(texts.message(result.reason), TEXT_LIMIT),
      match result.validation
      case Some(v) => Some(SafeValidation(texts, v))
      case None => None)
  }

  /** `stored` is the scrubbed form of the first `limit` characters of `text`, with line breaks turned into spaces. */
  ghost predicate IsSafe(texts: Texts, stored: string, text: string, limit: nat) {
    exists line: string ::
      && stored == texts.scrub(line)
      && |line| == (if |text| < limit then |text| else limit)
      && forall i :: 0 <= i < |line| ==> line[i] == if text[i] in "\r\n" then ' ' else text[i]
  }

  lemma CutExactly<T>(q: seq<T>, limit: nat)
    ensures Cut(q, limit) <= q && |Cut(q, limit)| == if |q| < limit then |q| else limit
  {
  }

  lemma SafeIsSafe(texts: Texts, text: string, limit: nat)
    ensures IsSafe(texts, texts.Safe(text, limit), text, limit)
  {
    var line := Cut(OneLine(text), limit);
    assert forall i :: 0 <= i < |line| ==> line[i] == if text[i] in "\r\n" then ' ' else text[i];
  }

  /** What a filed proposal keeps of the planner's, and what it makes safe. */
  ghost predicate ProposalKept(texts: Texts, proposal: TaskProposal, kept: TaskProposal) {
    && kept.taskKind == proposal.taskKind && kept.targetRef == proposal.targetRef
    && kept.authProfiles == proposal.authProfiles && kept.riskLevel == proposal.riskLevel
    && kept.confidence == proposal.confidence && kept.approvalRequired == proposal.approvalRequired
    && IsSafe(texts, kept.reason, proposal.reason, 600)
    && |kept.expectedEvidence| == (if |proposal.expectedEvidence| < 16 then |proposal.expectedEvidence| else 16)
    && forall i :: 0 <= i < |kept.expectedEvidence| ==>
      IsSafe(texts, kept.expectedEvidence[i], proposal.expectedEvidence[i], 300)
  }

  /** What it keeps of a validation; the address is masked. */
  ghost predicate ValidationKept(texts: Texts, v: AuthorizationValidation, kept: StepValidation) {
    && kept.status == v.verdict.status && kept.impactFields == v.verdict.impactFields
    && kept.ownerProfile == v.ownerProfile && kept.subjectProfile == v.subjectProfile
    && kept.evidenceIds == v.evidenceIds && kept.reported == v.reported
    && kept.endpoint == "[REDACTED_ENDPOINT]"
    && IsSafe(texts, kept.reason, texts.explain(v.verdict.reason), 600)
  }

  lemma SafeProposalKept(texts: Texts, proposal: TaskProposal)
    ensures ProposalKept(texts, proposal, SafeProposal(texts, proposal))
  {
    SafeIsSafe(texts, proposal.reason, 600);
    forall i | 0 <= i < |proposal.expectedEvidence|
      ensures IsSafe(texts, texts.Safe(proposal.expectedEvidence[i], 300), proposal.expectedEvidence[i], 300)
    {
      SafeIsSafe(texts, proposal.expectedEvidence[i], 300);
    }
  }

  /** Just what a filed step says. */
  lemma StepExactly(texts: Texts, index: nat, observation: string, result: InvestigationResult)
    ensures var step := StepFor(texts, index, observation, result);
      && step.index == index && step.observationDigest == texts.digest(observation) && step.status == result.status
      && ProposalKept(texts, result.proposal, step.proposal)
      && IsSafe(texts, step.reason, texts.message(result.reason), 600)
      && (step.validation.Some? <==> result.validation.Some?)
      && (result.validation.Some? ==> ValidationKept(texts, result.validation.value, step.validation.value))
  {
    SafeProposalKept(texts, result.proposal);
    SafeIsSafe(texts, texts.message(result.reason), 600);
    if result.validation.Some? { SafeIsSafe(texts, texts.explain(result.validation.value.verdict.reason), 600); }
  }

  class Disk {
    var content: StateFile
  }

  datatype Owner = Owner(engagementId: string, policyHash: string)

  /** `_read`: the log this configuration may append to. */
  function ReadLog(file: StateFile, owner: Owner): Option<StateLog> {
    match file
    case Absent => Some(StateLog(owner.engagementId, owner.policyHash, []))
    case Unreadable => None
    case Present(log) =>
      if log.engagementId != owner.engagementId || log.policyHash != owner.policyHash then None else Some(log)
  }

  /** Which files a configuration may append to. */
  lemma ReadableExactly(file: StateFile, owner: Owner)
    ensures ReadLog(file, owner).Some? <==>
      || file.Absent?
      || (file.Present? && file.log.engagementId == owner.engagementId && file.log.policyHash == owner.policyHash)
    ensures file.Present? && ReadLog(file, owner).Some? ==> ReadLog(file, owner).value == file.log
    ensures file.Absent? ==> ReadLog(file, owner) == Some(StateLog(owner.engagementId, owner.policyHash, []))
  {
  }

  ghost predicate AppendedTo(owner: Owner, before: StateFile, step: InvestigationStep, after: StateFile) {
    var log := ReadLog(before, owner);
    && log.Some? && step.index == |log.value.steps|
    && after == Present(log.value.(steps := log.value.steps + [step]))
  }

  class InvestigationStateStore {
    const disk: Disk
    const owner: Owner
    const texts: Texts

    constructor (disk: Disk, owner: Owner, texts: Texts)
      ensures this.disk == disk && this.owner == owner && this.texts == texts
    {
      this.disk, this.owner, this.texts := disk, owner, texts;
    }

    /** One step more at the end of the log, or a `ConfigError` that leaves the file alone. */
    method Append(observation: string, result: InvestigationResult) returns (step: Option<InvestigationStep>)
      modifies disk
      ensures var log := ReadLog(old(disk.content), owner);
        if log.None? then step == None && disk.content == old(disk.content)
        else
          && step == Some(StepFor(texts, |log.value.steps|, observation, result))
          && AppendedTo(owner, old(disk.content), step.value, disk.content)
    {
      var current := ReadLog(disk.content, owner);
      if current.None? {
        return None;
      }
      var log := current.value;
      var safeValidation := None;
      if result.validation.Some? {
        safeValidation := Some(SafeValidation(texts, result.validation.value));
      }
      var entry := InvestigationStep(
        |log.steps|, texts.digest(observation), SafeProposal(texts, result.proposal), result.status,
        texts.Safe(texts.message(result.reason), TEXT_LIMIT), safeValidation);
      disk.content := Present(log.(steps := log.steps + [entry]));
      step := Some(entry);
    }
  }

  // ---------------------------------------------------------------- comparisons in a row

  /** What a comparison can come to: its course, the books before, its answer, the books after. */
  type Rule = (Course, Books, Comparison, Books) -> bool

  /** The rule that the validator's contract sets for a trial. */
  ghost function RuleOf(trial: Trial): Rule {
    (course, before, answer, after) => trial.Concluded(course, before, answer, after)
  }

  /** The comparisons of a run: what each came to, its course, and the books before the first and after each of them. */
  datatype Session = Session(answers: seq<Comparison>, courses: seq<Course>, books: seq<Books>)
  {
    function Then(answer: Comparison, course: Course, after: Books): Session {
      Session(answers + [answer], courses + [course], books + [after])
    }
  }

  ghost predicate Held(rule: Rule, session: Session, before: Books, after: Books) {
    var n := |session.answers|;
    && |session.courses| == n && |session.books| == n + 1
    && session.books[0] == before && session.books[n] == after
    && forall i :: 0 <= i < n ==> rule(session.courses[i], session.books[i], session.answers[i], session.books[i + 1])
  }

  lemma HeldThen(rule: Rule, session: Session, before: Books, middle: Books, answer: Comparison, course: Course,
                 after: Books)
    requires Held(rule, session, before, middle) && rule(course, middle, answer, after)
    ensures Held(rule, session.Then(answer, course, after), before, after)
  {
  }

  lemma SessionFront(rule: Rule, session: Session, before: Books, after: Books)
    requires Held(rule, session, before, after) && session.answers != []
    ensures var n := |session.answers| - 1;
      && Held(rule, Session(session.answers[..n], session.courses[..n], session.books[..n + 1]), before,
            session.books[n])
      && rule(session.courses[n], session.books[n], session.answers[n], after)
  {
  }

  /** The limiter's own count: at most four units for each comparison, and none where the credentials are the same. */
  lemma {:induction false} SessionSpends(trial: Trial, session: Session, before: Books, after: Books)
    requires Held(RuleOf(trial), session, before, after)
    ensures before.Spent() <= after.Spent() <= before.Spent() + 4 * |session.answers|
    ensures (forall i :: 0 <= i < |session.answers| ==> session.answers[i].Completed?) ==>
      after.Spent() == before.Spent() + (if trial.SameFingerprint() then 0 else 4 * |session.answers|)
    decreases |session.answers|
  {
    if session.answers != [] {
      var n := |session.answers| - 1;
      var front := Session(session.answers[..n], session.courses[..n], session.books[..n + 1]);
      SessionFront(RuleOf(trial), session, before, after);
      SessionSpends(trial, front, before, session.books[n]);
      ComparisonSpends(trial, session.courses[n], session.books[n], session.answers[n], after);
    }
  }

  // ---------------------------------------------------------------- what a run may do

  const EXECUTABLE_TASKS := { "compare_authorization", "validate_candidate" }

  datatype MultiStepResult =
    | Finished(status: StepStatus, reason: LoopReason, steps: seq<InvestigationStep>, last: InvestigationResult)
    | InvalidArguments
    | PlannerRaised
    | ValidatorRaised
    | StateRefused

  /** The planner decides freely: each plan may depend on the step and on the observation, or raise. */
  type Planner = (nat, string) -> Option<TaskProposal>

  /** No key occurs twice. */
  ghost predicate Distinct(keys: seq<(string, string)>) {
    forall i, j :: 0 <= i < j < |keys| ==> keys[i] != keys[j]
  }

  function Keys(steps: seq<InvestigationStep>): seq<(string, string)> {
    seq(|steps|, i requires 0 <= i < |steps| => steps[i].Key())
  }

  /** A step after which the loop goes on: an executed proposal whose verdict was "candidate". */
  predicate GoesOn(executable: set<string>, step: InvestigationStep) {
    step.status == Judged(Candidate) && step.proposal.taskKind in executable
  }

  ghost predicate AllGoOn(executable: set<string>, steps: seq<InvestigationStep>) {
    forall i :: 0 <= i < |steps| ==> GoesOn(executable, steps[i])
  }

  /** The file after `appended` has been added to the log, if anything was. */
  ghost predicate Extended(owner: Owner, before: StateFile, appended: seq<InvestigationStep>, after: StateFile) {
    if appended == [] then after == before
    else
      var log := ReadLog(before, owner);
      && log.Some?
      && after == Present(log.value.(steps := log.value.steps + appended))
      && forall i :: 0 <= i < |appended| ==> appended[i].index == |log.value.steps| + i
  }

  function FirstIndex(file: StateFile, owner: Owner): nat {
    match ReadLog(file, owner)
    case Some(log) => |log.steps|
    case None => 0
  }

  /** The shape of a finished run: all its steps but the last are executed candidates under distinct keys. */
  ghost predicate WellRun(executable: set<string>, steps: seq<InvestigationStep>, maxSteps: int) {
    && 1 <= |steps| <= maxSteps
    && AllGoOn(executable, steps[..|steps| - 1])
    && Distinct(Keys(steps[..|steps| - 1]))
    && (|steps| < maxSteps ==> !GoesOn(executable, steps[|steps| - 1]))
  }

  /** All that a run depends on: planner, texts, its first observation, and what the validator's calls came to. */
  datatype Cast = Cast(planner: Planner, executable: set<string>, texts: Texts, opening: string,
                       answers: seq<Comparison>)
  {
    /** The validation that call number `n` returned, unless it raised or was not made. */
    function Answer(n: nat): Option<AuthorizationValidation> {
      if n < |answers| && answers[n].Completed? then Some(answers[n].validation) else None
    }

    /** What the planner is told at turn `n`: the opening, then a summary of the previous verdict. */
    function Heard(n: nat): string {
      if n == 0 then opening
      else match Answer(n - 1)
        case Some(validation) => texts.summary(validation)
        case None => opening
    }

    /** What comes of a proposal at turn `n`; nothing when the validator raises. */
    function Outcome(proposal: TaskProposal, repeated: bool, n: nat): Option<InvestigationResult> {
      if repeated then Some(InvestigationResult(Planned, RepeatedProposal, proposal, None))
      else if proposal.taskKind !in executable then
        Some(InvestigationResult(Planned, NoExecutableAdapter, proposal, None))
      else match Answer(n)
        case Some(v) => Some(ResultFor(proposal, v))
        case None => None
    }

    ghost predicate Repeats(steps: seq<InvestigationStep>, key: (string, string)) {
      exists step :: step in steps && step.Key() == key
    }

    /** What comes of turn `n` after these steps. */
    ghost function Turn(steps: seq<InvestigationStep>, n: nat): Option<InvestigationResult> {
      match planner(n, Heard(n))
      case Some(proposal) => Outcome(proposal, Repeats(steps, proposal.Key()), n)
      case None => None
    }

    /** Step `n` is what the planner and the validator make of the steps before it, numbered from `base`. */
    ghost predicate Follows(steps: seq<InvestigationStep>, n: nat, base: nat)
      requires n < |steps|
    {
      var result := Turn(steps[..n], n);
      result.Some? && steps[n] == StepFor(texts, base + n, Heard(n), result.value)
    }

    ghost predicate AllFollow(steps: seq<InvestigationStep>, base: nat) {
      forall n: nat :: n < |steps| ==> Follows(steps, n, base)
    }

    /** The validator calls, by key, that the turn after these steps brings about. */
    ghost function Asks(steps: seq<InvestigationStep>): seq<(string, string)> {
      var n := |steps|;
      match planner(n, Heard(n))
      case Some(p) => if Repeats(steps, p.Key()) || p.taskKind !in executable then [] else [p.Key()]
      case None => []
    }

    /** A run that ended with its last step: its result is that step's, and one call was made for each executed step. */
    ghost predicate Settled(steps: seq<InvestigationStep>, result: MultiStepResult, asked: seq<(string, string)>)
      requires steps != [] && result.Finished?
    {
      var n := |steps| - 1;
      && result.steps == steps && result.status == result.last.status
      && Turn(steps[..n], n) == Some(result.last)
      && result.reason == (if GoesOn(executable, steps[n]) then OutOfSteps else result.last.reason)
      && asked == Keys(steps[..n]) + Asks(steps[..n])
    }

    /** A run that stopped without a result: executed candidates so far, and why the turn after them gave no step. */
    ghost predicate Halted(steps: seq<InvestigationStep>, result: MultiStepResult, asked: seq<(string, string)>,
                           readable: bool) {
      var n := |steps|;
      && AllGoOn(executable, steps)
      && asked == Keys(steps) + Asks(steps)
      && if planner(n, Heard(n)).None? then result == PlannerRaised
         else if Turn(steps, n).None? then result == ValidatorRaised
         else !readable && result == StateRefused
    }
  }

  /**
   * Everything a run can come to: the steps it put on file, the keys on which it called the validator, and its result
   * follow from the cast and from the file.
   */
  ghost predicate Explained(cast: Cast, owner: Owner, maxSteps: int, start: StateFile, result: MultiStepResult,
                            appended: seq<InvestigationStep>, asked: seq<(string, string)>, now: StateFile) {
    && Extended(owner, start, appended, now) && cast.AllFollow(appended, FirstIndex(start, owner))
    && Distinct(asked) && |cast.answers| == |asked| <= maxSteps
    && match result
      case InvalidArguments => false
      case Finished(_, _, _, _) => WellRun(cast.executable, appended, maxSteps) && cast.Settled(appended, result, asked)
      case _ => |appended| < maxSteps && cast.Halted(appended, result, asked, ReadLog(now, owner).Some?)
  }

  /** A loop under way: executed candidates under distinct keys, all of them on file, one validator call for each. */
  ghost predicate Midway(cast: Cast, owner: Owner, steps: seq<InvestigationStep>, start: StateFile, now: StateFile) {
    && Extended(owner, start, steps, now) && cast.AllFollow(steps, FirstIndex(start, owner))
    && AllGoOn(cast.executable, steps) && Distinct(Keys(steps)) && |cast.answers| == |steps|
  }

  /** What a turn that came to `outcome` leaves on file, and how it ended. */
  ghost predicate Taken(texts: Texts, owner: Owner, outcome: Option<InvestigationResult>, observation: string,
                        before: StateFile, failure: Option<MultiStepResult>, last: InvestigationResult,
                        step: Option<InvestigationStep>, after: StateFile) {
    var log := ReadLog(before, owner);
    if outcome.None? then failure == Some(ValidatorRaised) && step.None? && after == before
    else if log.None? then failure == Some(StateRefused) && step.None? && after == before
    else
      && failure.None? && Some(last) == outcome
      && step == Some(StepFor(texts, |log.value.steps|, observation, last))
      && AppendedTo(owner, before, step.value, after)
  }

  /** The loop's decision after a turn: the result, or what the next turn is told. */
  ghost predicate Decided(texts: Texts, maxSteps: int, steps: seq<InvestigationStep>, key: (string, string),
                          failure: Option<MultiStepResult>, last: InvestigationResult, step: Option<InvestigationStep>,
                          done: Option<MultiStepResult>, next: (string, (string, string)),
                          longer: seq<InvestigationStep>) {
    && next.1 == key
    && match failure
      case Some(_) => done == failure && longer == steps
      case None =>
        && step.Some? && longer == steps + [step.value]
        && var goesOn := last.status == Judged(Candidate) && last.validation.Some?;
          if goesOn && |longer| != maxSteps then done.None? && next.0 == texts.summary(last.validation.value)
          else done == Some(Finished(last.status, if goesOn then OutOfSteps else last.reason, longer, last))
  }

  // ---------------------------------------------------------------- the loop

  /** The operator's part of a run: what is compared, whatever the planner proposes. */
  datatype Assignment = Assignment(target: Target, owner: string, subject: string, impactFields: set<string>)

  class ReasoningLoop {
    const planner: Planner
    const validator: AuthorizationValidator
    const executable: set<string>

    constructor (planner: Planner, validator: AuthorizationValidator)
      ensures this.planner == planner && this.validator == validator
      ensures executable == { "compare_authorization", "validate_candidate" }
    {
      this.planner, this.validator := planner, validator;
      this.executable := EXECUTABLE_TASKS;
    }

    function TrialFor(a: Assignment): Trial {
      validator.TrialOf(a.target, a.owner, a.subject, FieldPool(validator.executor.lib, a.impactFields))
    }

    ghost function RuleFor(a: Assignment): Rule { RuleOf(TrialFor(a)) }

    function Ledgers(): Books
      reads validator.executor.gateway, validator.executor.gateway.limiter, validator.executor.evidence
    {
      validator.executor.Ledgers()
    }

    ghost predicate Ready()
      reads validator.executor, validator.executor.gateway
    {
      validator.executor.Ready()
    }

    /** `cast` is this loop's, after the comparisons of `session`. */
    ghost predicate Casts(cast: Cast, session: Session) {
      cast.planner == planner && cast.executable == executable && cast.answers == session.answers
    }

    method ExecuteProposal(world: World, proposal: TaskProposal, a: Assignment, ghost session: Session,
                           ghost before: Books)
      returns (result: Option<InvestigationResult>, ghost longer: Session)
      requires Ready() && Held(RuleFor(a), session, before, Ledgers())
      modifies world, validator.executor.gateway, validator.executor.gateway.limiter, validator.executor.evidence
      ensures Ready() && Held(RuleFor(a), longer, before, Ledgers())
      ensures proposal.taskKind !in executable ==>
        longer == session && result == Some(InvestigationResult(Planned, NoExecutableAdapter, proposal, None))
      ensures proposal.taskKind in executable ==>
        && |longer.answers| == |session.answers| + 1 && session.answers <= longer.answers
        && result == match longer.answers[|session.answers|]
          case Completed(v) =>
            Some(InvestigationResult(Judged(v.verdict.status), ExecutedThroughValidator, proposal, Some(v)))
          case Aborted(_) => None
    {
      if proposal.taskKind !in executable {
        return Some(InvestigationResult(Planned, NoExecutableAdapter, proposal, None)), session;
      }
      ghost var middle := Ledgers();
      var answer, course := validator.Compare(world, a.target, a.owner, a.subject, a.impactFields);
      longer := session.Then(answer, course, Ledgers());
      HeldThen(RuleFor(a), session, before, middle, answer, course, Ledgers());
      if answer.Aborted? {
        return None, longer;
      }
      result := Some(ResultFor(proposal, answer.validation));
    }

    /** One turn of the loop on a proposal: run it unless it is repeated, then put the outcome on file. */
    method TakeTurn(world: World, proposal: TaskProposal, repeated: bool, observation: string, a: Assignment,
                    store: InvestigationStateStore, ghost cast: Cast, ghost session: Session, ghost before: Books)
      returns (failure: Option<MultiStepResult>, last: InvestigationResult, step: Option<InvestigationStep>,
               ghost longer: Session)
      requires Casts(cast, session) && Ready() && Held(RuleFor(a), session, before, Ledgers())
      modifies store.disk, world
      modifies validator.executor.gateway, validator.executor.gateway.limiter, validator.executor.evidence
      ensures Ready() && Held(RuleFor(a), longer, before, Ledgers())
      ensures |longer.answers| == |session.answers| + (if !repeated && proposal.taskKind in executable then 1 else 0)
      ensures session.answers <= longer.answers
      ensures cast.texts == store.texts ==>
        Taken(store.texts, store.owner, cast.(answers := longer.answers).Outcome(proposal, repeated, |session.answers|),
              observation, old(store.disk.content), failure, last, step, store.disk.content)
    {
      step, longer := None, session;
      last := InvestigationResult(Planned, RepeatedProposal, proposal, None);
      if !repeated {
        var outcome;
        outcome, longer := ExecuteProposal(world, proposal, a, session, before);
        if outcome.None? {
          return Some(ValidatorRaised), last, step, longer;
        }
        last := outcome.value;
      }
      step := store.Append(observation, last);
      failure := if step.None? then Some(StateRefused) else None;
    }

    /** One turn: plan, and act on the proposal. */
    method Turn(world: World, current: string, seen: set<(string, string)>, steps: seq<InvestigationStep>,
                maxSteps: int, a: Assignment, store: InvestigationStateStore,
                ghost cast: Cast, ghost session: Session, ghost before: Books, ghost start: StateFile)
      returns (done: Option<MultiStepResult>, next: (string, (string, string)), longer: seq<InvestigationStep>,
               ghost grown: Cast, ghost further: Session)
      requires Ready() && Held(RuleFor(a), session, before, Ledgers())
      requires |steps| < maxSteps && current == cast.Heard(|steps|) && cast.texts == store.texts && Casts(cast, session)
      requires Midway(cast, store.owner, steps, start, store.disk.content)
      requires forall k :: k in seen <==> k in Keys(steps)
      modifies store.disk, world
      modifies validator.executor.gateway, validator.executor.gateway.limiter, validator.executor.evidence
      ensures Ready() && Held(RuleFor(a), further, before, Ledgers()) && grown == cast.(answers := further.answers)
      ensures TurnEnds(cast, grown, store.owner, steps, start, maxSteps, done, next, longer, store.disk.content)
    {
      var proposal := planner(|steps|, current);
      if proposal.None? {
        HaltsMidway(cast, cast, store.owner, steps, start, PlannerRaised, store.disk.content, maxSteps);
        return Some(PlannerRaised), (current, ("", "")), steps, cast, session;
      }
      SeenIsRepeated(cast, steps, proposal.value.Key());
      var repeated := proposal.value.Key() in seen;
      done, next, longer, grown, further :=
        Act(world, proposal.value, repeated, current, steps, maxSteps, a, store, cast, session, before, start);
    }

    /**
     * Run the proposal unless it is repeated, and file the step; then the result, or what the next turn is told and
     * the key now seen.
     */
    method Act(world: World, proposal: TaskProposal, repeated: bool, current: string, steps: seq<InvestigationStep>,
               maxSteps: int, a: Assignment, store: InvestigationStateStore,
               ghost cast: Cast, ghost session: Session, ghost before: Books, ghost start: StateFile)
      returns (done: Option<MultiStepResult>, next: (string, (string, string)), longer: seq<InvestigationStep>,
               ghost grown: Cast, ghost further: Session)
      requires Ready() && Held(RuleFor(a), session, before, Ledgers())
      requires |steps| < maxSteps && current == cast.Heard(|steps|) && cast.texts == store.texts && Casts(cast, session)
      requires Midway(cast, store.owner, steps, start, store.disk.content)
      requires cast.planner(|steps|, current) == Some(proposal) && repeated == cast.Repeats(steps, proposal.Key())
      modifies store.disk, world
      modifies validator.executor.gateway, validator.executor.gateway.limiter, validator.executor.evidence
      ensures Ready() && Held(RuleFor(a), further, before, Ledgers()) && grown == cast.(answers := further.answers)
      ensures TurnEnds(cast, grown, store.owner, steps, start, maxSteps, done, next, longer, store.disk.content)
    {
      ghost var filed := store.disk.content;
      var failure, last, step;
      failure, last, step, further := TakeTurn(world, proposal, repeated, current, a, store, cast, session, before);
      grown := cast.(answers := further.answers);
      TurnIs(cast, grown, steps, proposal);
      done, next, longer := Decide(store.texts, maxSteps, steps, proposal, current, failure, last, step);
      EndsSo(cast, grown, store.owner, steps, start, maxSteps, filed, failure, last, step, done, next, longer,
             store.disk.content);
    }

    /** Stop or go on. */
    method Decide(texts: Texts, maxSteps: int, steps: seq<InvestigationStep>, proposal: TaskProposal, current: string,
                  failure: Option<MultiStepResult>, last: InvestigationResult, step: Option<InvestigationStep>)
      returns (done: Option<MultiStepResult>, next: (string, (string, string)), longer: seq<InvestigationStep>)
      requires failure.None? <==> step.Some?
      ensures Decided(texts, maxSteps, steps, proposal.Key(), failure, last, step, done, next, longer)
    {
      next, longer := (current, proposal.Key()), steps;
      if failure.Some? {
        return failure, next, longer;
      }
      longer := steps + [step.value];
      if last.status != Judged(Candidate) || last.validation.None? {
        return Some(Finished(last.status, last.reason, longer, last)), next, longer;
      }
      if |longer| == maxSteps {
        return Some(Finished(last.status, OutOfSteps, longer, last)), next, longer;
      }
      done, next := None, (texts.summary(last.validation.value), proposal.Key());
    }

    /** The loop itself, for checked arguments. */
    method Loop(world: World, observation: string, maxSteps: int, a: Assignment, store: InvestigationStateStore)
      returns (result: MultiStepResult, ghost cast: Cast, ghost session: Session,
               ghost appended: seq<InvestigationStep>, ghost asked: seq<(string, string)>)
      requires Ready() && maxSteps >= 1
      modifies store.disk, world
      modifies validator.executor.gateway, validator.executor.gateway.limiter, validator.executor.evidence
      ensures Ready() && Held(RuleFor(a), session, old(Ledgers()), Ledgers())
      ensures cast == Cast(planner, executable, store.texts, observation, session.answers)
      ensures Explained(cast, store.owner, maxSteps, old(store.disk.content), result, appended, asked,
        store.disk.content)
    {
      ghost var before, start := Ledgers(), store.disk.content;
      session := Session([], [], [before]);
      cast := Cast(planner, executable, store.texts, observation, []);
      var current, seen, steps := observation, {}, [];
      while true
        invariant Ready() && Held(RuleFor(a), session, before, Ledgers())
        invariant cast == Cast(planner, executable, store.texts, observation, session.answers)
        invariant |steps| < maxSteps && current == cast.Heard(|steps|)
        invariant Midway(cast, store.owner, steps, start, store.disk.content)
        invariant forall k :: k in seen <==> k in Keys(steps)
        decreases maxSteps - |steps|
      {
        var done, next;
        ghost var sofar := steps;
        asked := Keys(steps) + cast.Asks(steps);
        done, next, steps, cast, session :=
          Turn(world, current, seen, steps, maxSteps, a, store, cast, session, before, start);
        if done.Some? {
          return done.value, cast, session, steps, asked;
        }
        KeysOfFront(steps);
        assert steps[..|steps| - 1] == sofar;
        seen := seen + {next.1};
        current := next.0;
      }
    }

    /**
     * `appended` lists the steps that reached the file, `asked` the proposals on which the validator was called, and
     * `session` the comparisons that these calls were.
     */
    method RunMany(world: World, observation: string, maxSteps: int, a: Assignment, store: InvestigationStateStore)
      returns (result: MultiStepResult, ghost cast: Cast, ghost session: Session,
               ghost appended: seq<InvestigationStep>, ghost asked: seq<(string, string)>)
      requires Ready()
      modifies store.disk, world
      modifies validator.executor.gateway, validator.executor.gateway.limiter, validator.executor.evidence
      ensures Ready() && Held(RuleFor(a), session, old(Ledgers()), Ledgers())
      ensures cast == Cast(planner, executable, store.texts, Cut(observation, 16_000), session.answers)
      ensures result == InvalidArguments <==> maxSteps < 1 || maxSteps > 10 || store.texts.isBlank(observation)
      ensures if result.InvalidArguments? then
          appended == [] && asked == [] && session.answers == [] && store.disk.content == old(store.disk.content)
        else Explained(cast, store.owner, maxSteps, old(store.disk.content), result, appended, asked,
          store.disk.content)
      ensures old(Ledgers()).Spent() <= Ledgers().Spent() <= old(Ledgers()).Spent() + 4 * |asked|
    {
      if maxSteps < 1 || maxSteps > 10 || store.texts.isBlank(observation) {
        session := Session([], [], [Ledgers()]);
        cast := Cast(planner, executable, store.texts, Cut(observation, OBSERVATION_LIMIT), []);
        return InvalidArguments, cast, session, [], [];
      }
      ghost var before := Ledgers();
      result, cast, session, appended, asked := Loop(world, Cut(observation, OBSERVATION_LIMIT), maxSteps, a, store);
      SessionSpends(TrialFor(a), session, before, Ledgers());
    }
  }

  const OBSERVATION_LIMIT := 16_000

  // ---------------------------------------------------------------- one turn

  lemma SeenIsRepeated(cast: Cast, steps: seq<InvestigationStep>, key: (string, string))
    ensures key in Keys(steps) <==> cast.Repeats(steps, key)
  {
    if key in Keys(steps) {
      var i :| 0 <= i < |steps| && Keys(steps)[i] == key;
      assert steps[i] in steps;
    }
    if cast.Repeats(steps, key) {
      var i :| 0 <= i < |steps| && steps[i].Key() == key;
      assert Keys(steps)[i] == key;
    }
  }

  /** The same task on the same target. */
  predicate SameTask(a: TaskProposal, b: TaskProposal) {
    a.taskKind == b.taskKind && a.targetRef == b.targetRef
  }

  lemma RepeatsExactly(cast: Cast, steps: seq<InvestigationStep>, proposal: TaskProposal)
    ensures cast.Repeats(steps, proposal.Key()) <==>
      exists step :: step in steps && SameTask(step.proposal, proposal)
  {
    if cast.Repeats(steps, proposal.Key()) {
      var step :| step in steps && step.Key() == proposal.Key();
      assert SameTask(step.proposal, proposal);
    }
    if step :| step in steps && SameTask(step.proposal, proposal) {
      assert step.Key() == proposal.Key();
    }
  }

  /** A run ends on a repetition exactly when an earlier step had the last one's task and target. */
  lemma EndsRepeatedExactly(cast: Cast, owner: Owner, maxSteps: int, start: StateFile, result: MultiStepResult,
                            appended: seq<InvestigationStep>, asked: seq<(string, string)>, now: StateFile)
    requires Explained(cast, owner, maxSteps, start, result, appended, asked, now) && result.Finished?
    ensures result.last.reason == RepeatedProposal <==>
      exists step :: step in appended[..|appended| - 1] && SameTask(step.proposal, appended[|appended| - 1].proposal)
    ensures SameTask(result.last.proposal, appended[|appended| - 1].proposal)
  {
    var n := |appended| - 1;
    var base := FirstIndex(start, owner);
    assert cast.Follows(appended, n, base);
    var proposal := cast.planner(n, cast.Heard(n)).value;
    RepeatsExactly(cast, appended[..n], proposal);
    StepExactly(cast.texts, base + n, cast.Heard(n), result.last);
    assert SameTask(appended[n].proposal, proposal);
  }

  lemma KeysOfFront(steps: seq<InvestigationStep>)
    requires steps != []
    ensures Keys(steps) == Keys(steps[..|steps| - 1]) + [steps[|steps| - 1].Key()]
  {
  }

  /** `grown` is the same cast after further validator calls. */
  ghost predicate Grows(cast: Cast, grown: Cast) {
    cast.answers <= grown.answers && grown == cast.(answers := grown.answers)
  }

  /** What has followed so far still follows, and the next turn hears the same. */
  lemma StillFollows(cast: Cast, grown: Cast, steps: seq<InvestigationStep>, base: nat)
    requires Grows(cast, grown) && cast.AllFollow(steps, base) && |steps| <= |cast.answers|
    ensures grown.AllFollow(steps, base) && grown.Heard(|steps|) == cast.Heard(|steps|)
    ensures grown.Asks(steps) == cast.Asks(steps)
  {
    forall n: nat | n < |steps| ensures grown.Follows(steps, n, base) {
      assert cast.Follows(steps, n, base);
      assert grown.Heard(n) == cast.Heard(n) && grown.Answer(n) == cast.Answer(n);
    }
  }

  lemma ExtendedByOne(owner: Owner, before: StateFile, steps: seq<InvestigationStep>, middle: StateFile,
                      step: InvestigationStep, after: StateFile)
    requires Extended(owner, before, steps, middle) && AppendedTo(owner, middle, step, after)
    ensures Extended(owner, before, steps + [step], after)
    ensures step.index == FirstIndex(before, owner) + |steps|
  {
    if steps != [] {
      var log := ReadLog(before, owner).value;
      assert log.steps + (steps + [step]) == log.steps + steps + [step];
    }
  }

  lemma FollowsOneMore(cast: Cast, steps: seq<InvestigationStep>, step: InvestigationStep, base: nat)
    requires cast.AllFollow(steps, base) && cast.Follows(steps + [step], |steps|, base)
    ensures cast.AllFollow(steps + [step], base)
  {
    forall n: nat | n < |steps| ensures cast.Follows(steps + [step], n, base) {
      assert cast.Follows(steps, n, base);
      assert (steps + [step])[..n] == steps[..n];
    }
  }

  lemma TurnIs(cast: Cast, grown: Cast, steps: seq<InvestigationStep>, proposal: TaskProposal)
    requires Grows(cast, grown) && |steps| <= |cast.answers|
    requires cast.planner(|steps|, cast.Heard(|steps|)) == Some(proposal)
    ensures var repeated := cast.Repeats(steps, proposal.Key());
      && grown.Turn(steps, |steps|) == grown.Outcome(proposal, repeated, |steps|)
      && |cast.Asks(steps)| == (if !repeated && proposal.taskKind in cast.executable then 1 else 0)
  {
    assert grown.Heard(|steps|) == cast.Heard(|steps|);
  }

  lemma AsksFresh(cast: Cast, steps: seq<InvestigationStep>)
    requires Distinct(Keys(steps))
    ensures Distinct(Keys(steps) + cast.Asks(steps))
  {
    if cast.Asks(steps) != [] { SeenIsRepeated(cast, steps, cast.Asks(steps)[0]); }
  }

  /** A loop that stops without a result. */
  lemma HaltsMidway(cast: Cast, grown: Cast, owner: Owner, steps: seq<InvestigationStep>, start: StateFile,
                    result: MultiStepResult, now: StateFile, maxSteps: int)
    requires Midway(cast, owner, steps, start, now) && |steps| < maxSteps && Grows(cast, grown)
    requires |grown.answers| == |steps| + |cast.Asks(steps)|
    requires grown.Halted(steps, result, Keys(steps) + grown.Asks(steps), ReadLog(now, owner).Some?)
    ensures Explained(grown, owner, maxSteps, start, result, steps, Keys(steps) + cast.Asks(steps), now)
  {
    StillFollows(cast, grown, steps, FirstIndex(start, owner));
    AsksFresh(cast, steps);
  }

  /** What a turn put on file follows from the cast. */
  lemma Turned(cast: Cast, grown: Cast, owner: Owner, steps: seq<InvestigationStep>, start: StateFile,
               before: StateFile, last: InvestigationResult, step: InvestigationStep, after: StateFile)
    requires Extended(owner, start, steps, before) && cast.AllFollow(steps, FirstIndex(start, owner))
    requires Grows(cast, grown) && |steps| <= |cast.answers|
    requires grown.Turn(steps, |steps|) == Some(last) && AppendedTo(owner, before, step, after)
    requires step == StepFor(cast.texts, |ReadLog(before, owner).value.steps|, cast.Heard(|steps|), last)
    ensures Extended(owner, start, steps + [step], after)
    ensures grown.AllFollow(steps + [step], FirstIndex(start, owner))
    ensures grown.Asks(steps) == cast.Asks(steps)
  {
    var longer, base, n := steps + [step], FirstIndex(start, owner), |steps|;
    assert longer[..n] == steps;
    StillFollows(cast, grown, steps, base);
    ExtendedByOne(owner, start, steps, before, step, after);
    assert grown.Follows(longer, n, base);
    FollowsOneMore(grown, steps, step, base);
  }

  /** After an executed candidate the loop is still under way. */
  lemma TurnedOn(cast: Cast, grown: Cast, owner: Owner, steps: seq<InvestigationStep>, start: StateFile,
                 before: StateFile, last: InvestigationResult, step: InvestigationStep, after: StateFile)
    requires Midway(cast, owner, steps, start, before) && Grows(cast, grown)
    requires |grown.answers| == |steps| + |cast.Asks(steps)|
    requires grown.Turn(steps, |steps|) == Some(last) && AppendedTo(owner, before, step, after)
    requires step == StepFor(cast.texts, |ReadLog(before, owner).value.steps|, cast.Heard(|steps|), last)
    requires last.status == Judged(Candidate) && last.validation.Some?
    ensures Midway(grown, owner, steps + [step], start, after)
    ensures grown.Heard(|steps| + 1) == cast.texts.summary(last.validation.value)
  {
    var longer := steps + [step];
    Turned(cast, grown, owner, steps, start, before, last, step, after);
    AsksFresh(grown, steps);
    assert grown.Asks(steps) == [step.Key()];
    KeysOfFront(longer);
    assert longer[..|steps|] == steps;
  }

  /** After any other step, and after the last one allowed, the run ends with the result of that step. */
  lemma TurnedLast(cast: Cast, grown: Cast, owner: Owner, steps: seq<InvestigationStep>, start: StateFile,
                   before: StateFile, last: InvestigationResult, step: InvestigationStep, after: StateFile,
                   maxSteps: int)
    requires Midway(cast, owner, steps, start, before) && |steps| < maxSteps && Grows(cast, grown)
    requires |grown.answers| == |steps| + |cast.Asks(steps)|
    requires grown.Turn(steps, |steps|) == Some(last) && AppendedTo(owner, before, step, after)
    requires step == StepFor(cast.texts, |ReadLog(before, owner).value.steps|, cast.Heard(|steps|), last)
    requires last.status != Judged(Candidate) || last.validation.None? || |steps| + 1 == maxSteps
    ensures var goesOn := last.status == Judged(Candidate) && last.validation.Some?;
      var result := Finished(last.status, if goesOn then OutOfSteps else last.reason, steps + [step], last);
      Explained(grown, owner, maxSteps, start, result, steps + [step], Keys(steps) + cast.Asks(steps), after)
  {
    var longer := steps + [step];
    Turned(cast, grown, owner, steps, start, before, last, step, after);
    AsksFresh(grown, steps);
    assert longer[..|steps|] == steps;
    assert GoesOn(grown.executable, step) <==> last.status == Judged(Candidate) && last.validation.Some?;
  }

  /** However a turn ended, what the loop does next is accounted for. */
  ghost predicate TurnEnds(cast: Cast, grown: Cast, owner: Owner, steps: seq<InvestigationStep>, start: StateFile,
                           maxSteps: int, done: Option<MultiStepResult>, next: (string, (string, string)),
                           longer: seq<InvestigationStep>, now: StateFile) {
    match done
    case Some(result) =>
      Explained(grown, owner, maxSteps, start, result, longer, Keys(steps) + cast.Asks(steps), now)
    case None =>
      && |longer| == |steps| + 1 < maxSteps && steps <= longer && next.1 == longer[|steps|].Key()
      && next.0 == grown.Heard(|longer|) && Midway(grown, owner, longer, start, now)
  }

  lemma EndsSo(cast: Cast, grown: Cast, owner: Owner, steps: seq<InvestigationStep>, start: StateFile, maxSteps: int,
               before: StateFile, failure: Option<MultiStepResult>, last: InvestigationResult,
               step: Option<InvestigationStep>, done: Option<MultiStepResult>, next: (string, (string, string)),
               longer: seq<InvestigationStep>, now: StateFile)
    requires Midway(cast, owner, steps, start, before) && |steps| < maxSteps && Grows(cast, grown)
    requires |grown.answers| == |steps| + |cast.Asks(steps)|
    requires Taken(cast.texts, owner, grown.Turn(steps, |steps|), cast.Heard(|steps|), before, failure, last, step, now)
    requires cast.planner(|steps|, cast.Heard(|steps|)).Some?
    requires var key := cast.planner(|steps|, cast.Heard(|steps|)).value.Key();
      Decided(cast.texts, maxSteps, steps, key, failure, last, step, done, next, longer)
    ensures TurnEnds(cast, grown, owner, steps, start, maxSteps, done, next, longer, now)
  {
    if failure.Some? {
      StillFollows(cast, grown, steps, FirstIndex(start, owner));
      HaltsMidway(cast, grown, owner, steps, start, failure.value, before, maxSteps);
    } else if done.Some? {
      TurnedLast(cast, grown, owner, steps, start, before, last, step.value, now, maxSteps);
    } else {
      TurnedOn(cast, grown, owner, steps, start, before, last, step.value, now);
    }
  }

  // ---------------------------------------------------------------- a run is determined

  /** The same planner, texts and opening, and a validator that answers alike wherever both were asked. */
  ghost predicate Agree(c: Cast, d: Cast) {
    && d == c.(answers := d.answers)
    && forall i :: 0 <= i < |c.answers| && i < |d.answers| ==> c.answers[i] == d.answers[i]
  }

  /** An executed step shows that the validator was asked at its turn, and answered. */
  lemma ExecutedIsAnswered(cast: Cast, steps: seq<InvestigationStep>, n: nat, base: nat)
    requires n < |steps| && cast.Follows(steps, n, base) && steps[n].status.Judged?
    ensures cast.Answer(n).Some?
  {
  }

  /** After the same executed steps both planners hear the same. */
  lemma HearAlike(c: Cast, d: Cast, steps: seq<InvestigationStep>, base: nat)
    requires Agree(c, d) && c.AllFollow(steps, base) && d.AllFollow(steps, base) && AllGoOn(c.executable, steps)
    ensures c.Heard(|steps|) == d.Heard(|steps|)
  {
    if steps != [] {
      ExecutedIsAnswered(c, steps, |steps| - 1, base);
      ExecutedIsAnswered(d, steps, |steps| - 1, base);
    }
  }

  lemma FrontFollows(cast: Cast, steps: seq<InvestigationStep>, k: nat, base: nat)
    requires cast.AllFollow(steps, base) && k <= |steps|
    ensures cast.AllFollow(steps[..k], base)
  {
    forall n: nat | n < k ensures cast.Follows(steps[..k], n, base) {
      assert cast.Follows(steps, n, base) && steps[..k][..n] == steps[..n];
    }
  }

  /** As long as the steps before the last are executed candidates, the shorter run is the beginning of the longer. */
  lemma {:induction false} StepsAgree(c: Cast, d: Cast, base: nat, s: seq<InvestigationStep>, t: seq<InvestigationStep>)
    requires Agree(c, d) && c.AllFollow(s, base) && d.AllFollow(t, base) && |s| <= |t|
    requires s != [] ==> AllGoOn(c.executable, s[..|s| - 1])
    ensures s == t[..|s|]
  {
    if s != [] {
      var n := |s| - 1;
      FrontFollows(c, s, n, base);
      FrontFollows(d, t, n, base);
      StepsAgree(c, d, base, s[..n], t);
      HearAlike(c, d, s[..n], base);
      assert c.Follows(s, n, base) && d.Follows(t, n, base);
      assert s == s[..n] + [s[n]] && t[..|s|] == t[..n] + [t[n]];
    }
  }

  /** After the same executed candidates, two runs ask the validator alike and fare alike at the next turn. */
  lemma NextTurnAgrees(c: Cast, d: Cast, steps: seq<InvestigationStep>, base: nat)
    requires Agree(c, d) && c.AllFollow(steps, base) && d.AllFollow(steps, base) && AllGoOn(c.executable, steps)
    requires |c.answers| >= |steps| + |c.Asks(steps)| && |d.answers| >= |steps| + |d.Asks(steps)|
    ensures c.Heard(|steps|) == d.Heard(|steps|) && c.Asks(steps) == d.Asks(steps)
    ensures c.Turn(steps, |steps|) == d.Turn(steps, |steps|)
  {
    HearAlike(c, d, steps, base);
  }

  lemma AllButLastGoOn(cast: Cast, owner: Owner, maxSteps: int, start: StateFile, result: MultiStepResult,
                       steps: seq<InvestigationStep>, asked: seq<(string, string)>, now: StateFile)
    requires Explained(cast, owner, maxSteps, start, result, steps, asked, now) && steps != []
    ensures AllGoOn(cast.executable, steps[..|steps| - 1])
  {
  }

  /** Neither of two such runs files more steps than the other. */
  lemma SameLength(c: Cast, d: Cast, owner: Owner, maxSteps: int, start: StateFile,
                   p: MultiStepResult, s: seq<InvestigationStep>, a: seq<(string, string)>, x: StateFile,
                   q: MultiStepResult, t: seq<InvestigationStep>, b: seq<(string, string)>, y: StateFile)
    requires Agree(c, d) && |s| <= |t|
    requires Explained(c, owner, maxSteps, start, p, s, a, x) && Explained(d, owner, maxSteps, start, q, t, b, y)
    ensures s == t
  {
    var base, m := FirstIndex(start, owner), |s|;
    if s != [] { AllButLastGoOn(c, owner, maxSteps, start, p, s, a, x); }
    StepsAgree(c, d, base, s, t);
    if m < |t| {
      AllButLastGoOn(d, owner, maxSteps, start, q, t, b, y);
      ReadableAfter(owner, start, s, x, t, y);
      FrontFollows(d, t, m, base);
      assert s == t[..|t| - 1][..m];
      AnsweredTo(d, t, m, base);
      StoppedShort(c, owner, maxSteps, start, p, s, a, x);
      NextTurnAgrees(c, d, s, base);
    }
  }

  /** A run that stops after executed candidates with steps to spare does so because its next turn gives no step. */
  lemma StoppedShort(c: Cast, owner: Owner, maxSteps: int, start: StateFile,
                     p: MultiStepResult, s: seq<InvestigationStep>, a: seq<(string, string)>, x: StateFile)
    requires Explained(c, owner, maxSteps, start, p, s, a, x) && ReadLog(x, owner).Some?
    requires AllGoOn(c.executable, s) && |s| < maxSteps
    ensures c.Turn(s, |s|).None? && |c.answers| == |s| + |c.Asks(s)|
  {
  }

  /** At a turn that gave a step, the validator was asked whenever the proposal called for it. */
  lemma AnsweredTo(cast: Cast, steps: seq<InvestigationStep>, m: nat, base: nat)
    requires m < |steps| && cast.AllFollow(steps, base) && AllGoOn(cast.executable, steps[..m])
    ensures |cast.answers| >= m + |cast.Asks(steps[..m])|
    ensures cast.Turn(steps[..m], m).Some?
  {
    assert cast.Follows(steps, m, base);
    if m > 0 {
      assert steps[..m][m - 1] == steps[m - 1];
      ExecutedIsAnswered(cast, steps, m - 1, base);
    }
  }

  /** Where another run could file more, the file was readable. */
  lemma ReadableAfter(owner: Owner, start: StateFile, s: seq<InvestigationStep>, x: StateFile,
                      t: seq<InvestigationStep>, y: StateFile)
    requires Extended(owner, start, s, x) && Extended(owner, start, t, y) && t != []
    ensures ReadLog(x, owner).Some?
  {
  }

  lemma SameEnd(c: Cast, d: Cast, owner: Owner, maxSteps: int, start: StateFile, steps: seq<InvestigationStep>,
                p: MultiStepResult, a: seq<(string, string)>, x: StateFile,
                q: MultiStepResult, b: seq<(string, string)>, y: StateFile)
    requires Agree(c, d)
    requires Explained(c, owner, maxSteps, start, p, steps, a, x)
      && Explained(d, owner, maxSteps, start, q, steps, b, y)
    ensures p == q && a == b && x == y
  {
    var base := FirstIndex(start, owner);
    if p.Finished? || q.Finished? {
      var n := |steps| - 1;
      assert p.Finished? && q.Finished?;
      AllButLastGoOn(c, owner, maxSteps, start, p, steps, a, x);
      FrontFollows(c, steps, n, base);
      FrontFollows(d, steps, n, base);
      NextTurnAgrees(c, d, steps[..n], base);
    } else {
      NextTurnAgrees(c, d, steps, base);
    }
  }

  /**
   * Planner, validator and file determine a run: its result, the steps it files, the calls it makes and the file it
   * leaves.
   */
  lemma RunsAgree(c: Cast, d: Cast, owner: Owner, maxSteps: int, start: StateFile,
                  p: MultiStepResult, s: seq<InvestigationStep>, a: seq<(string, string)>, x: StateFile,
                  q: MultiStepResult, t: seq<InvestigationStep>, b: seq<(string, string)>, y: StateFile)
    requires Agree(c, d)
    requires Explained(c, owner, maxSteps, start, p, s, a, x) && Explained(d, owner, maxSteps, start, q, t, b, y)
    ensures p == q && s == t && a == b && x == y
  {
    if |s| <= |t| {
      SameLength(c, d, owner, maxSteps, start, p, s, a, x, q, t, b, y);
    } else {
      SameLength(d, c, owner, maxSteps, start, q, t, b, y, p, s, a, x);
    }
    SameEnd(c, d, owner, maxSteps, start, s, p, a, x, q, b, y);
  }

  // ---------------------------------------------------------------- many runs on one file

  /** One run as the file saw it: who ran, and the steps it added. */
  datatype Visit = Visit(owner: Owner, appended: seq<InvestigationStep>)

  /** `files[i + 1]` is what the `i`-th run left of `files[i]`; the file starts out absent. */
  ghost predicate History(visits: seq<Visit>, files: seq<StateFile>) {
    && |files| == |visits| + 1 && files[0] == Absent
    && forall i {:trigger visits[i]} :: 0 <= i < |visits| ==>
          Extended(visits[i].owner, files[i], visits[i].appended, files[i + 1])
  }

  function AllAppended(visits: seq<Visit>): seq<InvestigationStep> {
    if visits == [] then [] else AllAppended(visits[..|visits| - 1]) + visits[|visits| - 1].appended
  }

  function StepsOf(file: StateFile): seq<InvestigationStep> {
    if file.Present? then file.log.steps else []
  }

  /** Every run that added a step belongs to the engagement and the policy the log names. */
  ghost predicate SoleOwner(visits: seq<Visit>, file: StateFile) {
    forall i :: 0 <= i < |visits| && visits[i].appended != [] ==>
      file.Present? && visits[i].owner == Owner(file.log.engagementId, file.log.policyHash)
  }

  /** The log is exactly what the runs returned, in order, and step k carries index k. */
  ghost predicate InOrder(visits: seq<Visit>, file: StateFile) {
    && !file.Unreadable?
    && StepsOf(file) == AllAppended(visits)
    && forall k :: 0 <= k < |StepsOf(file)| ==> StepsOf(file)[k].index == k
  }

  lemma OneMoreVisit(front: seq<Visit>, visit: Visit, before: StateFile, after: StateFile)
    requires InOrder(front, before) && SoleOwner(front, before) && Extended(visit.owner, before, visit.appended, after)
    ensures InOrder(front + [visit], after)
  {
    assert (front + [visit])[..|front|] == front;
    assert AllAppended(front + [visit]) == AllAppended(front) + visit.appended;
    if visit.appended == [] {
      assert AllAppended(front) + visit.appended == AllAppended(front);
    } else {
      assert StepsOf(after) == StepsOf(before) + visit.appended;
    }
  }

  lemma OneMoreOwner(front: seq<Visit>, visit: Visit, before: StateFile, after: StateFile)
    requires InOrder(front, before) && SoleOwner(front, before) && Extended(visit.owner, before, visit.appended, after)
    ensures SoleOwner(front + [visit], after)
  {
    var visits := front + [visit];
    forall i | 0 <= i < |visits| && visits[i].appended != []
      ensures after.Present? && visits[i].owner == Owner(after.log.engagementId, after.log.policyHash)
    {
      if i < |front| { assert front[i] == visits[i]; }
    }
  }

  /** Over any sequence of runs on one file, by any configurations. */
  lemma {:induction false} LogIsTheRuns(visits: seq<Visit>, files: seq<StateFile>)
    requires History(visits, files)
    ensures InOrder(visits, files[|visits|]) && SoleOwner(visits, files[|visits|])
  {
    if visits != [] {
      var n := |visits| - 1;
      var front := visits[..n];
      assert forall i :: 0 <= i < n ==> front[i] == visits[i];
      LogIsTheRuns(front, files[..n + 1]);
      assert visits == front + [visits[n]];
      OneMoreVisit(front, visits[n], files[n], files[n + 1]);
      OneMoreOwner(front, visits[n], files[n], files[n + 1]);
    }
  }

  /** What is on file stays on file: an earlier log is a prefix of every later one. */
  lemma {:induction false} LogOnlyGrows(visits: seq<Visit>, files: seq<StateFile>, i: nat, j: nat)
    requires History(visits, files) && i <= j <= |visits|
    ensures StepsOf(files[i]) <= StepsOf(files[j])
    decreases j - i
  {
    if i < j {
      LogOnlyGrows(visits, files, i, j - 1);
      ExtendedGrows(visits[j - 1].owner, files[j - 1], visits[j - 1].appended, files[j]);
    }
  }

  lemma ExtendedGrows(owner: Owner, before: StateFile, appended: seq<InvestigationStep>, after: StateFile)
    requires Extended(owner, before, appended, after)
    ensures StepsOf(before) <= StepsOf(after)
  {
  }
}
