/** `AuthorizationValidator.compare`: four executions in order, one verdict, one validation record. */
module Validator {
  import opened Text
  import opened Scope
  import opened Findings
  import opened Credentials
  import opened Evidence
  import opened Calls
  import opened Accounting
  import opened Executor

  datatype AuthorizationValidation = AuthorizationValidation(
    verdict: Verdict, ownerProfile: string, subjectProfile: string, evidenceIds: seq<EvidenceId>, reported: bool)

  datatype CompareError = SameProfile | NoFingerprint | ExecutionRaised(error: ExecError)

  datatype Comparison = Completed(validation: AuthorizationValidation) | Aborted(error: CompareError)

  function Probe(target: Target, profile: string): HttpCall {
    HttpCall(target, "GET", Some(profile), [], map[], None, None)
  }

  function FourOf(o: seq<HttpObservation>): Four
    requires |o| == 4
  {
    Four(o[0].response, o[1].response, o[2].response, o[3].response)
  }

  function IdsOfFour(o: seq<HttpObservation>): seq<EvidenceId>
    requires |o| == 4
  {
    [o[0].evidenceId, o[1].evidenceId, o[2].evidenceId, o[3].evidenceId]
  }

  predicate FourAnswers(course: Course) {
    |course.results| == 4 && course.AllObserved() && |course.books| == 5
  }

  /** The four answers of a course that was not cut short. */
  function AnswersOf(course: Course): seq<HttpObservation>
    requires FourAnswers(course)
  {
    var r := course.results;
    [r[0].observation, r[1].observation, r[2].observation, r[3].observation]
  }

  /** The record of a validation, and nothing else, is added. */
  ghost predicate Filed(v: AuthorizationValidation, before: Books, after: Books) {
    after == before.(records := before.records +
      [Record(|before.records|, ValidationRecord(v.verdict, v.ownerProfile, v.subjectProfile, v.evidenceIds))])
  }

  /** One question put to the validator: do these two profiles reach the same object at this address? */
  datatype Trial = Trial(
    env: Setting, digest: string -> string, hasReportDir: bool,
    target: Target, owner: string, subject: string, pool: set<string>)
  {
    /** The four calls, in order. */
    function Probes(): seq<HttpCall> {
      [Probe(target, owner), Probe(target, subject), Probe(target, owner), Probe(target, subject)]
    }

    ghost predicate HaveFingerprints() {
      Fingerprint(env.vault, digest, owner).Some? && Fingerprint(env.vault, digest, subject).Some?
    }

    ghost predicate SameFingerprint() {
      Fingerprint(env.vault, digest, owner) == Fingerprint(env.vault, digest, subject)
    }

    /** A probe failed: it is the last one made, and its error is the comparison's. */
    ghost predicate StoppedBy(error: ExecError, course: Course, before: Books, after: Books) {
      Conducted(env, Probes(), course, before, after) && course.results != [] && course.Last() == Raised(error)
    }

    /** Whose validation it is, and that only a verified one is reported. */
    ghost predicate Signed(v: AuthorizationValidation) {
      && v.ownerProfile == owner && v.subjectProfile == subject
      && (v.reported <==> v.verdict.status == Verified && hasReportDir)
    }

    /** A comparison of different credentials was finished: four answers, the verdict on just these, one record. */
    ghost predicate Judged(course: Course, before: Books, v: AuthorizationValidation, after: Books) {
      && FourAnswers(course)
      && Conducted(env, Probes(), course, before, course.books[4]) && Filed(v, course.books[4], after)
      && v.verdict == Judge(env.lib, pool, FourOf(AnswersOf(course)))
      && v.evidenceIds == IdsOfFour(AnswersOf(course))
    }

    /** Everything the four probes can come to. */
    ghost predicate Probed(course: Course, before: Books, result: Comparison, after: Books) {
      match result
      case Completed(v) => Signed(v) && Judged(course, before, v, after)
      case Aborted(ExecutionRaised(error)) => StoppedBy(error, course, before, after)
      case Aborted(_) => false
    }

    /** The credentials are the same: rejected without a probe. */
    ghost predicate TurnedAway(before: Books, result: Comparison, after: Books) {
      && result.Completed? && Signed(result.validation) && Filed(result.validation, before, after)
      && result.validation.verdict == Verdict(Rejected, SameCredentials, []) && result.validation.evidenceIds == []
    }

    /** Everything a comparison can come to. */
    ghost predicate Concluded(course: Course, before: Books, result: Comparison, after: Books) {
      if owner == subject then result == Aborted(SameProfile) && after == before
      else if !HaveFingerprints() then result == Aborted(NoFingerprint) && after == before
      else if SameFingerprint() then TurnedAway(before, result, after)
      else Probed(course, before, result, after)
    }
  }

  /** The results of the course are just these answers. */
  ghost predicate Answered(course: Course, o: seq<HttpObservation>) {
    |course.results| == |o| && forall i :: 0 <= i < |o| ==> course.results[i] == Observed(o[i])
  }

  /** The four probes: plain reads of the one address, owner and subject in turn. */
  lemma ProbesExactly(trial: Trial, i: nat)
    requires i < 4
    ensures |trial.Probes()| == 4
    ensures var call := trial.Probes()[i];
      && call.target == trial.target && call.verb == "GET" && call.body == [] && call.requestHeaders == map[]
      && call.approvalId.None? && call.authProfile == Some(if i % 2 == 0 then trial.owner else trial.subject)
  {
  }

  lemma AnsweredThen(course: Course, o: seq<HttpObservation>, id: nat, result: Execution, after: Books)
    requires Answered(course, o) && result.Observed?
    ensures Answered(course.Then(id, result, after), o + [result.observation])
  {
  }

  lemma ProbeTaken(trial: Trial, course: Course, o: seq<HttpObservation>, id: nat, start: Books, before: Books,
                   result: Execution, after: Books)
    requires |o| < 4 && Answered(course, o) && course.Below(id)
    requires Conducted(trial.env, trial.Probes(), course, start, before)
    requires trial.env.Accounts(trial.Probes()[|o|], id, before, result, after)
    ensures var longer := course.Then(id, result, after);
      && Conducted(trial.env, trial.Probes(), longer, start, after)
      && longer.results != [] && longer.Last() == result && longer.Below(id + 1)
      && (result.Observed? ==> Answered(longer, o + [result.observation]))
  {
    ConductedThen(trial.env, trial.Probes(), course, id, start, before, result, after);
    if result.Observed? { AnsweredThen(course, o, id, result, after); }
  }

  lemma AnswersAre(course: Course, o: seq<HttpObservation>)
    requires |o| == 4 && |course.books| == 5 && Answered(course, o)
    ensures FourAnswers(course) && AnswersOf(course) == o
  {
  }

  lemma JudgedSo(trial: Trial, course: Course, before: Books, middle: Books, o: seq<HttpObservation>,
                 v: AuthorizationValidation, after: Books)
    requires Conducted(trial.env, trial.Probes(), course, before, middle) && |o| == 4 && Answered(course, o)
    requires Filed(v, middle, after) && v.verdict == Judge(trial.env.lib, trial.pool, FourOf(o))
    requires v.evidenceIds == IdsOfFour(o)
    ensures trial.Judged(course, before, v, after)
  {
    AnswersAre(course, o);
  }

  class AuthorizationValidator {
    const executor: HttpExecutor
    const fingerprintDigest: string -> string
    const hasReportDir: bool

    constructor (executor: HttpExecutor, fingerprintDigest: string -> string, hasReportDir: bool)
      ensures this.executor == executor && this.fingerprintDigest == fingerprintDigest
      ensures this.hasReportDir == hasReportDir
    {
      this.executor, this.fingerprintDigest, this.hasReportDir := executor, fingerprintDigest, hasReportDir;
    }

    /** The question that `compare` is asked. */
    function TrialOf(target: Target, owner: string, subject: string, pool: set<string>): Trial {
      Trial(executor.Env(), fingerprintDigest, hasReportDir, target, owner, subject, pool)
    }

    /** The probe after those that gave the answers `o`. */
    method Take(world: World, trial: Trial, o: seq<HttpObservation>, ghost course: Course, ghost start: Books)
      returns (error: Option<ExecError>, answers: seq<HttpObservation>, ghost longer: Course)
      requires trial.env == executor.Env() && |o| < 4 && Answered(course, o) && course.Below(world.actions)
      requires executor.Ready() && Conducted(trial.env, trial.Probes(), course, start, executor.Ledgers())
      modifies world, executor.gateway, executor.gateway.limiter, executor.evidence
      ensures executor.Ready()
      ensures Conducted(trial.env, trial.Probes(), longer, start, executor.Ledgers())
      ensures error.Some? ==> longer.results != [] && longer.Last() == Raised(error.value)
      ensures error.None? ==> |answers| == |o| + 1 && Answered(longer, answers) && longer.Below(world.actions)
    {
      ghost var id, before := world.actions, executor.Ledgers();
      var result := executor.Execute(world, trial.Probes()[|o|]);
      longer := course.Then(id, result, executor.Ledgers());
      ProbeTaken(trial, course, o, id, start, before, result, executor.Ledgers());
      if result.Raised? {
        return Some(result.error), o, longer;
      }
      error, answers := None, o + [result.observation];
    }

    /** Owner, subject, owner again, subject again; stops at the first probe that fails. */
    method FourProbes(world: World, trial: Trial)
      returns (error: Option<ExecError>, o: seq<HttpObservation>, ghost course: Course)
      requires trial.env == executor.Env() && executor.Ready()
      modifies world, executor.gateway, executor.gateway.limiter, executor.evidence
      ensures executor.Ready()
      ensures Conducted(trial.env, trial.Probes(), course, old(executor.Ledgers()), executor.Ledgers())
      ensures error.Some? ==> course.results != [] && course.Last() == Raised(error.value)
      ensures error.None? ==> |o| == 4 && Answered(course, o)
    {
      ghost var start := executor.Ledgers();
      o, course := [], Course([], [], [start]);
      error, o, course := Take(world, trial, o, course, start);
      if error.Some? { return; }
      error, o, course := Take(world, trial, o, course, start);
      if error.Some? { return; }
      error, o, course := Take(world, trial, o, course, start);
      if error.Some? { return; }
      error, o, course := Take(world, trial, o, course, start);
    }

    method Compare(world: World, target: Target, owner: string, subject: string, impactFields: set<string>)
      returns (result: Comparison, ghost course: Course)
      requires executor.Ready()
      modifies world, executor.gateway, executor.gateway.limiter, executor.evidence
      ensures executor.Ready()
      ensures var trial := TrialOf(target, owner, subject, FieldPool(executor.lib, impactFields));
        trial.Concluded(course, old(executor.Ledgers()), result, executor.Ledgers())
    {
      course := Course([], [], []);
      if owner == subject {
        return Aborted(SameProfile), course;
      }
      var ownerPrint := Fingerprint(executor.vault, fingerprintDigest, owner);
      var subjectPrint := Fingerprint(executor.vault, fingerprintDigest, subject);
      if ownerPrint.None? || subjectPrint.None? {
        return Aborted(NoFingerprint), course;
      }
      if ownerPrint == subjectPrint {
        var rejection := Finish(Verdict(Rejected, SameCredentials, []), owner, subject, []);
        return Completed(rejection), course;
      }
      result, course := CompareDistinct(world, target, owner, subject, FieldPool(executor.lib, impactFields));
    }

    /** The comparison of two profiles that hold different credentials. */
    method CompareDistinct(world: World, target: Target, owner: string, subject: string, pool: set<string>)
      returns (result: Comparison, ghost course: Course)
      requires executor.Ready()
      modifies world, executor.gateway, executor.gateway.limiter, executor.evidence
      ensures executor.Ready()
      ensures var trial := TrialOf(target, owner, subject, pool);
        trial.Probed(course, old(executor.Ledgers()), result, executor.Ledgers())
    {
      ghost var before := executor.Ledgers();
      var trial, error, o := TrialOf(target, owner, subject, pool), None, [];
      error, o, course := FourProbes(world, trial);
      if error.Some? {
        return Aborted(ExecutionRaised(error.value)), course;
      }
      ghost var middle := executor.Ledgers();
      var v := Settle(pool, owner, subject, o);
      JudgedSo(trial, course, before, middle, o, v, executor.Ledgers());
      result := Completed(v);
    }

    /** Verdict and record, once the four answers are there. */
    method Settle(pool: set<string>, owner: string, subject: string, o: seq<HttpObservation>)
      returns (v: AuthorizationValidation)
      requires |o| == 4
      modifies executor.evidence
      ensures Filed(v, old(executor.Ledgers()), executor.Ledgers())
      ensures v.verdict == Judge(executor.lib, pool, FourOf(o)) && v.evidenceIds == IdsOfFour(o)
      ensures v.ownerProfile == owner && v.subjectProfile == subject
      ensures v.reported <==> v.verdict.status == Verified && hasReportDir
    {
      var verdict := Conclude(executor.lib, pool, o);
      v := Finish(verdict, owner, subject, IdsOfFour(o));
    }

    /** The verdict on the four signatures. */
    method Conclude(lib: Library, pool: set<string>, o: seq<HttpObservation>) returns (verdict: Verdict)
      requires |o| == 4
      ensures verdict == Judge(lib, pool, FourOf(o))
    {
      var owner := Signature(lib, o[0].response);
      var subject := Signature(lib, o[1].response);
      var ownerAgain := Signature(lib, o[2].response);
      var subjectAgain := Signature(lib, o[3].response);
      verdict := Decide(lib, pool, owner, subject, ownerAgain, subjectAgain);
    }

    /** `_finish`: record the verdict; write a report only for a verified one. */
    method Finish(verdict: Verdict, owner: string, subject: string, evidenceIds: seq<EvidenceId>)
      returns (v: AuthorizationValidation)
      modifies executor.evidence
      ensures Filed(v, old(executor.Ledgers()), executor.Ledgers())
      ensures v.verdict == verdict && v.ownerProfile == owner && v.subjectProfile == subject
      ensures v.evidenceIds == evidenceIds && (v.reported <==> verdict.status == Verified && hasReportDir)
    {
      var record := executor.evidence.Append(ValidationRecord(verdict, owner, subject, evidenceIds));
      v := AuthorizationValidation(verdict, owner, subject, evidenceIds, false);
      if verdict.status == Verified && hasReportDir {
        v := v.(reported := true);
      }
    }
  }

  // ---------------------------------------------------------------- what a comparison costs and shows

  /** A comparison costs nothing or four units of budget when it returns, and never more than four. */
  lemma ComparisonSpends(trial: Trial, course: Course, before: Books, result: Comparison, after: Books)
    requires trial.Concluded(course, before, result, after)
    ensures before.Spent() <= after.Spent() <= before.Spent() + 4 && before.records <= after.records
    ensures result.Completed? ==> after.Spent() == before.Spent() + (if trial.SameFingerprint() then 0 else 4)
  {
    if result.Completed? && !trial.SameFingerprint() {
      JudgedSpends(trial, course, before, result.validation, after);
    } else if result.Aborted? && result.error.ExecutionRaised? {
      CourseIsOnFile(trial.env, trial.Probes(), course, before, after);
    }
  }

  lemma JudgedSpends(trial: Trial, course: Course, before: Books, v: AuthorizationValidation, after: Books)
    requires trial.Judged(course, before, v, after)
    ensures after.Spent() == before.Spent() + 4 && before.records <= after.records
  {
    CourseIsOnFile(trial.env, trial.Probes(), course, before, course.books[4]);
  }

  /** The evidence log shows a successful answer to a probe for `profile`. */
  ghost predicate RecordedSuccess(books: Books, at: nat, profile: string) {
    && at < |books.records| && books.records[at].evidenceId == at
    && books.records[at].payload.HttpExchange?
    && var entry := books.records[at].payload;
      && entry.verb == "GET" && entry.authProfile == Some(profile)
      && entry.response.Some? && 200 <= entry.response.value.status < 300
  }

  lemma AnswerRecorded(env: Setting, target: Target, profile: string, calls: seq<HttpCall>, course: Course, i: nat,
                       start: nat, middle: Books, after: Books)
    requires AnsweredIn(env, calls, course, i, start, middle) && calls[i] == Probe(target, profile)
    requires 200 <= course.results[i].observation.response.status < 300 && middle.records <= after.records
    ensures RecordedSuccess(after, start + i, profile) && course.results[i].observation.evidenceId == start + i
  {
    assert after.records[start + i] == middle.records[start + i];
  }

  /**
   * A verified comparison can be read off the evidence log: the profiles' credentials differ, and the four records it
   * names are successful exchanges about one object, in the order owner, subject, owner, subject.
   */
  lemma VerifiedShowsInLog(trial: Trial, course: Course, before: Books, v: AuthorizationValidation, after: Books)
    requires trial.Concluded(course, before, Completed(v), after) && v.verdict.status == Verified
    requires trial.env.lib.Valid()
    requires FourAnswers(course) ==> NoCollisions(trial.env.lib, FourOf(AnswersOf(course)).All())
    ensures !trial.SameFingerprint()
    ensures FourAnswers(course) && ReachesAllFour(trial.env.lib, FourOf(AnswersOf(course)))
    ensures PlainNames(trial.env.lib) ==> OneIdentifier(trial.env.lib, FourOf(AnswersOf(course)))
    ensures var n := |before.records|;
      && v.evidenceIds == [n, n + 1, n + 2, n + 3]
      && RecordedSuccess(after, n, trial.owner) && RecordedSuccess(after, n + 1, trial.subject)
      && RecordedSuccess(after, n + 2, trial.owner) && RecordedSuccess(after, n + 3, trial.subject)
  {
    VerifiedReachesAllFour(trial.env.lib, trial.pool, FourOf(AnswersOf(course)));
    SuccessesOnFile(trial, course, before, after);
  }

  lemma SuccessesOnFile(trial: Trial, course: Course, before: Books, after: Books)
    requires FourAnswers(course) && Conducted(trial.env, trial.Probes(), course, before, course.books[4])
    requires course.books[4].records <= after.records
    requires forall r :: r in FourOf(AnswersOf(course)).All() ==> 200 <= r.status < 300
    ensures var n := |before.records|;
      && IdsOfFour(AnswersOf(course)) == [n, n + 1, n + 2, n + 3]
      && RecordedSuccess(after, n, trial.owner) && RecordedSuccess(after, n + 1, trial.subject)
      && RecordedSuccess(after, n + 2, trial.owner) && RecordedSuccess(after, n + 3, trial.subject)
  {
    CourseIsOnFile(trial.env, trial.Probes(), course, before, course.books[4]);
    ProbeRecorded(trial, course, 0, before, after);
    ProbeRecorded(trial, course, 1, before, after);
    ProbeRecorded(trial, course, 2, before, after);
    ProbeRecorded(trial, course, 3, before, after);
  }

  lemma ProbeRecorded(trial: Trial, course: Course, i: nat, before: Books, after: Books)
    requires i < 4 && FourAnswers(course) && AllAnswered(trial.env, trial.Probes(), course, before, course.books[4])
    requires course.books[4].records <= after.records && 200 <= course.results[i].observation.response.status < 300
    ensures RecordedSuccess(after, |before.records| + i, if i % 2 == 0 then trial.owner else trial.subject)
    ensures AnswersOf(course)[i].evidenceId == |before.records| + i
  {
    var n, middle := |before.records|, course.books[4];
    var profile := if i % 2 == 0 then trial.owner else trial.subject;
    assert AnsweredIn(trial.env, trial.Probes(), course, i, n, middle);
    AnswerRecorded(trial.env, trial.target, profile, trial.Probes(), course, i, n, middle, after);
  }
}
