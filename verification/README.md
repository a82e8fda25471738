# Verification of Nighwatch's execution boundary

Nighwatch is a policy-gated test runner: every request goes through a scope, approval, kill-switch and rate gate, is
receipted, runs in a bounded slot, and leaves evidence. This project models that boundary and the decisions made on
top of it, and proves what the repository promises of them.

| file | models |
|---|---|
| `Pacing.dfy` | the request budget and pacing gate (`RateLimiter`) |
| `Scope.dfy` | path prefixes and the first-match scope check |
| `Gateway.dfy` | approvals, `ToolGateway.authorize`, receipts |
| `Interleaving.dfy`, `InterleavingSafety.dfy`, `InterleavingProgress.dfy`, `InterleavingSends.dfy` | any number of threads inside `HttpExecutor.execute`, as a step machine over shared state; its invariant; the emergency stop, bounded waiting and deadlock freedom; what is sent |
| `Calls.dfy`, `Accounting.dfy`, `Executor.dfy`, `Evidence.dfy` | one execution, as a class with its loop, against an arbitrary clock, operator and network: its arguments, what it leaves behind, and several in a row |
| `LoneCall.dfy` | the step machine with a single call, against the specification of one execution |
| `Credentials.dfy` | auth profiles and the credential fingerprint |
| `Json.dfy`, `JsonReading.dfy` | the JSON texts of `json.dumps` in both styles in use, and a reader (RFC 8259) that gets every value back from them |
| `Findings.dfy`, `Validator.dfy` | response signatures, the authorization verdict, the four-probe comparison |
| `Redaction.dfy` | body previews and header redaction |
| `PathTemplate.dfy`, `ApplicationMap.dfy` | path templates and the in-place endpoint index |
| `Investigation.dfy` | the bounded investigation loop around the real validator, and its persisted log |
| `Substitution.dfy`, `Probe.dfy` | `str.replace`, UTF-8 and its decoder, and bounded probe runs |
| `Text.dfy`, `Counting.dfy` | strings, sorting, splitting, counting |

How to read it. Time, rates and waits are reals. A class keeps the source's fields and its methods are proved against
functions (`Take`, `Authorize`, `Observed`, ...) or against predicates that relate the books before and after
(`Accounts`, `Conducted`, `Concluded`, `Explains`, `Explained`); the lemmas prove what the source promises about
those. Several executions in a row are a `Course`: the action id and result of each and the books after each; a
comparison and a probe run are specified by the course they conduct, and an investigation by the comparisons it makes
(`Session`) and by what planner and validator answer (`Cast`). The step machine uses the same functions as the
classes, and two of its steps need saying: `authorize` reads the kill switch and only then enters the limiter's lock,
so it is two steps (`ScreenCall`, `AcquireCall`); and a slot is released before the evidence of its request is
written, because the `with` block ends before the `except` clause runs.
Action ids and evidence ids are fresh numbers. Library calls (`str.lower`, `json.loads`, digests, scrubbers) are
parameters, so a result holds whatever they return; where a digest must not collide, the lemma says for which values.

Five promises hold only under a condition of the code's own, and each comes with the exact one and a failing case: the
first-match scope check agrees with the order-free reading exactly for unshadowed policies
(`Scope.FirstMatchIsSomeMatch`, with `Scope.OrderMatters` as an example of the other kind); volatile fields cannot
move a verdict exactly when the impact pool has none of them (`Findings.IgnoresVolatileExactly`); templating keeps the
number of segments exactly for paths that are not empty (`PathTemplate.SegmentCountKept`); previews hide what lies
beneath sensitive keys exactly in bodies that fit, because a longer body is not parsed
(`Redaction.HidesSecretsExactly`, with `Redaction.TruncatedPreviewLeaks`); and filling the references back in restores
a path exactly when it is not empty and has no literal `{id}` behind an identifier (`PathTemplate.FillUndoesTemplate`,
with `/5/{id}` in `PathTemplate.NoUndoForBoth` as the failing input, which no other way of filling in could restore
either). What the surroundings must grant instead, a clock that never runs backwards or digests that do not collide,
stands in the `requires` of the lemma.

## Model

| member | source | states |
|---|---|---|
| Pacing.RateLimiter.Acquire | src/agentsec/security.py:117-131 | the locked section updates last grant and count as `Take` says, for any clock reading |
| Pacing.GrantExactly | src/agentsec/security.py:117-131 | budget is consumed exactly when there is some left and a full interval has passed; any other answer leaves the limiter alone, and a wait ends exactly one interval after the last grant |
| Pacing.GrantsRemembered | src/agentsec/security.py:109-131 | after any readings, the count is the number of grants, never above the budget, and the stored time is that of the last grant |
| Pacing.RateIsBounded | src/agentsec/security.py:117-131 | for every sequence of clock readings, even backwards: grants i < j are (j-i)/rate apart, a window of width W holds at most floor(W*rate)+1, and the total never exceeds `max_requests` |
| Scope.StringTestIsSegmentPrefix | src/agentsec/models.py:60-61 | "equal or continues after a slash" is the segment-wise prefix relation |
| Scope.PathMatchesIsSegmentPrefix | src/agentsec/models.py:52-62 | for absolute paths: some prefix, stripped of trailing slashes, is a segment-wise prefix, or there are no prefixes |
| Scope.PrefixInSegments | src/agentsec/models.py:52-62 | a prefix written as a core with any run of slashes behind it, and with or without one in front, admits an absolute path exactly when the segments of the core are a prefix of those of the path |
| Scope.SlashSpellingIrrelevant | src/agentsec/models.py:56-57 | a leading or trailing slash on a prefix changes nothing |
| Scope.MatchingIsTransitive | src/agentsec/models.py:52-62 | a prefix that admits another admits all that the other admits |
| Scope.FirstOwner | src/agentsec/models.py:329-334 | the position of the entry that decides for a scheme, host and port |
| Scope.FirstOriginDecides | src/agentsec/models.py:329-341 | the scan allows a target exactly when the first entry for its endpoint permits method and path, and its reason says what that entry lacked |
| Scope.CoversIsInclusion | src/agentsec/models.py:335-339 | a check on two entries alone decides whether one permits everything the other does |
| Scope.AllowedIsPermitted | src/agentsec/models.py:309-341 | an allowed target is clean, not on an excluded host, and permitted by some entry |
| Scope.AllowedExactly | src/agentsec/models.py:309-341 | a target is allowed exactly when it is http or https, without user info or fragment, its host is not excluded, and the first entry with its scheme, host and port names its method and a prefix of its path |
| Scope.RefusalReasons | src/agentsec/models.py:312-326 | which of the complaints about the target itself is raised, and in which order they are looked for |
| Scope.FirstMatchIsSomeMatch | src/agentsec/models.py:309-341 | first match equals "some entry permits it", for all targets, exactly when every entry is covered by the first entry for each of its ports |
| Scope.OrderMatters | src/agentsec/models.py:329-341 | a policy with two entries for one endpoint, whose second entry never takes effect |
| Gateway.EvaluateMeansApproved | src/agentsec/security.py:73-88 | approval means: the class of action is enabled, and is waived or carries a registered approval |
| Gateway.ApprovalReasons | src/agentsec/security.py:73-88 | the reason of an approval decision tells apart a disabled class, a waived one, a registered approval and a missing one |
| Gateway.ReadyExactly | src/agentsec/gateway.py:63-107 | ready exactly when scope, kill switch, active-testing flag, approval, budget and pacing all agree; only a ready decision uses budget |
| Gateway.RefusalNamesFirstGate | src/agentsec/gateway.py:63-107 | a refusal names the first gate that said no; the receipt cannot show an approval or a rate that was never asked for |
| Gateway.RateReadyIsReady | src/agentsec/gateway.py:143-160 | the receipt of a decision is `rate_ready` exactly when the decision was ready, whichever gate decided |
| Gateway.ReceiptTells | src/agentsec/gateway.py:130-163 | every field of a receipt, in terms of the request, the policy and the limiter: a gate that was not asked is marked so, and a wait in it ends one interval after the last grant |
| Gateway.ToolGateway.constructor | src/agentsec/gateway.py:47-61 | fresh limiter, all slots free, empty log, approval identifiers stripped and none of them empty |
| Gateway.ToolGateway.AuthorizeRequest | src/agentsec/gateway.py:63-107 | the gates in order, touching nothing but the limiter |
| Gateway.ToolGateway.RecordDecision | src/agentsec/gateway.py:130-163 | appends exactly the receipt of the decision |
| Gateway.ToolGateway.DryRun | src/agentsec/gateway.py:123-128 | one receipt whatever the outcome; raises exactly when not ready |
| Interleaving.UninterruptedAuthorize | src/agentsec/gateway.py:63-107 | the two steps of `authorize` with nothing in between are the gateway's one decision; a call sleeps as long as it was told, and gives up exactly on more than 60 seconds |
| InterleavingSafety.StepInv | src/agentsec/http_executor.py:246-312 | every event of every thread keeps the invariant on slots, budget, receipts, evidence and pacing |
| InterleavingSafety.GrantsWithinRate | src/agentsec/security.py:117-131 | spacing, windowed rate and budget in every interleaving |
| InterleavingSafety.SlotsConserved | src/agentsec/gateway.py:113-121 | free slots plus holders always equal `max_concurrent_requests` |
| InterleavingSafety.GrantsConserved | src/agentsec/http_executor.py:258-312 | grants equal calls in flight plus calls with exactly one evidence record under their own action id plus calls that stopped on credentials |
| InterleavingSafety.ReceiptsTellTheTruth | src/agentsec/http_executor.py:246-258 | a logged receipt is ready exactly when its call was granted, and a call writes at most one |
| InterleavingSafety.ReadyReceiptsAreNumbered | src/agentsec/gateway.py:143-163 | once no granted call owes its receipt, ready receipts carry 1..n, each once |
| InterleavingSafety.AtRest | src/agentsec/http_executor.py:246-329 | when all calls have ended, all slots are free, and each granted call has one receipt and either one evidence record or a credential error, the others no evidence |
| InterleavingSafety.LogOrderMayDiffer | src/agentsec/http_executor.py:247-258 | a run in which the second grant is logged first |
| InterleavingSafety.LogOrderDiffers | src/agentsec/http_executor.py:247-258 | a concrete policy with two reading calls has such a run |
| InterleavingProgress.StopBoundsSends | src/agentsec/http_executor.py:271-273 | once the stop is on and stays on, at most `max_concurrent_requests` further sends begin, and only calls already past the gates may still be granted |
| InterleavingProgress.WaitingAgainMeansGrant | src/agentsec/http_executor.py:246-256 | a repeated wait means that another call was granted in between |
| InterleavingProgress.CallsAreBounded | src/agentsec/http_executor.py:246-256 | with a clock that never runs backwards, a call makes at most `max_requests` attempts and a bounded number of steps |
| InterleavingProgress.NeverStuck | src/agentsec/gateway.py:113-121 | while a call is unfinished, some call can move or wake |
| InterleavingSends.SendsWithinBudget | src/agentsec/http_executor.py:246-312 | in every interleaving: no more sends than grants, no call sends twice, and a finished call has sent unless the stop ended it |
| InterleavingSends.SendsArePermitted | src/agentsec/http_executor.py:246-273 | whenever a send begins, scope, active testing and approval permit it, its credentials were loaded, its ready receipt is on file, its evidence is not yet, and its thread holds one of the slots |
| InterleavingSends.EvidenceTellsTheTruth | src/agentsec/http_executor.py:270-312 | in every run, evidence of a response or of a failed send means one send and one receipt of that call, and that its send ended with just this outcome; evidence of the stop means no send, and that the stop was switched on |
| InterleavingSends.LookExactly | src/agentsec/gateway.py:109-117 | a call in the queue or with a slot in hand is turned away exactly when the stop is on |
| InterleavingSends.CallMayFinish | src/agentsec/http_executor.py:246-312 | for every way a send can end there is a run in which a call gets through all gates and ends so, with one ready receipt, one record and all slots free |
| Credentials.ResolveAuthHeaders | src/agentsec/http_executor.py:60-89 | a resolved profile has only permitted, well-formed headers without line breaks |
| Credentials.ResolvesExactly | src/agentsec/http_executor.py:60-89 | a profile resolves, to just its own headers, exactly when it is declared, holds some, and each has one of the four names, is a token and has no line break in its value; otherwise undeclared and empty profiles are told apart |
| Credentials.CanonicalDecodes | src/agentsec/http_executor.py:198-201 | the canonical text of a valid profile determines its ordered list of lower-cased names and values |
| Credentials.FingerprintIdentifies | src/agentsec/http_executor.py:198-201 | equal fingerprints mean equal credentials, and the other way round |
| Credentials.LineBreakWouldCollide | src/agentsec/http_executor.py:87-88 | without the line-break check any two headers could be packed into one |
| Calls.ForwardHeaders | src/agentsec/http_executor.py:41-50 | returns the caller's headers unchanged, or refuses them all |
| Calls.RefusedArguments | src/agentsec/http_executor.py:215-232 | the first of the argument checks that fails, if any |
| Calls.AcceptedExactly | src/agentsec/http_executor.py:28-50 | arguments are accepted exactly when the method is one of the seven, the body fits and goes with a writing method, and each header has a forwarded name and no line break, and no credential name beside a profile |
| Calls.RefusedExactly | src/agentsec/http_executor.py:215-232 | which error each kind of bad argument gets when several are bad |
| Calls.HeadersExactly | src/agentsec/http_executor.py:259-268 | where every header that is sent comes from: the profile before the caller before the defaults; a content type is added exactly to a body that lacks one |
| Calls.VerbPermittedExactly | src/agentsec/http_executor.py:33-38 | method by method, which switch of the policy and which approval a call needs: DELETE is destructive, POST, PUT and PATCH change state, the rest read |
| Executor.World.Send | src/agentsec/http_executor.py:271-273 | may be called only with a slot held, after a look at the kill switch in that slot found it off |
| Executor.HttpExecutor.AwaitDecision | src/agentsec/http_executor.py:246-254 | the loop ends with the gateway's decision for the last readings of switch and clock, or gives up exactly when asked to wait over a minute; a lone thread sleeps at most once, and just as long as the gateway asked |
| Executor.HttpExecutor.SendInSlot | src/agentsec/http_executor.py:270-273 | takes and returns one slot; sends the request exactly when the live check passes |
| Executor.HttpExecutor.Deliver | src/agentsec/http_executor.py:258-329 | after the receipt: stops on the credentials, or adds one record that says how the send ended |
| Executor.HttpExecutor.Execute | src/agentsec/http_executor.py:203-329 | for every outcome, exactly what is added to limiter, receipts, evidence and network; a pacing answer never blocks; each execution past the argument checks takes one fresh action id |
| Accounting.SentIsPermitted | src/agentsec/http_executor.py:203-273 | what is sent is admitted by some scope entry, has one of the seven methods, and is permitted by the policy for that method, with a registered approval unless waived; it has a body only where active testing is enabled and within bounds; one unit of budget was left and is used, and a ready receipt is on file |
| Accounting.BlockedIsNotPermitted | src/agentsec/http_executor.py:247-256 | what is blocked for want of an approval is not permitted by the policy for its method, and uses no budget |
| Accounting.PacingNeverBlocks | src/agentsec/http_executor.py:246-256 | the refusal that ends an execution is never the pacing one |
| Calls.OnlyTheProfileAuthenticates | src/agentsec/http_executor.py:227-264 | with a profile, the credentials sent are exactly those of the profile |
| Accounting.CourseIsOnFile | src/agentsec/http_executor.py:258-329 | executions in a row cost at most one unit and one record each; answered ones exactly that, each on file at its own place |
| Accounting.ReceiptsPairWithEvidence | src/agentsec/http_executor.py:234-312 | in a row of executions the action ids differ, each one that reached the point of sending has one ready receipt and one record under its id, and there is no other record; a further ready receipt means that the last one stopped on its credentials |
| LoneCall.LoneCallAccounts | src/agentsec/http_executor.py:246-329 | a call of the step machine that runs alone to its end, from any limiter and logs and under any clock and switch, logs exactly one evidence record if it was finished and none otherwise, and with that log read as records accounts for itself as one execution does |
| Accounting.DecisionSpends | src/agentsec/http_executor.py:246-258 | a grant uses one unit of budget and its receipt carries that number; a refusal uses none |
| Accounting.EvidenceHidesCredentials | src/agentsec/evidence.py:146-150 | the evidence of a request is the same whatever the profile's secrets are, and shows each of them redacted |
| Accounting.ExchangeTells | src/agentsec/evidence.py:104-159 | every field of the record of an exchange, in terms of call, policy and response; of the headers only the six sensitive ones are masked, and the others are as sent |
| Accounting.LabelExactly | src/agentsec/evidence.py:158-159 | at most the first 160 characters of a payload label are kept, and an empty one is none |
| Evidence.EvidenceStore.Append | src/agentsec/evidence.py:80-102 | the log grows by exactly the new record |
| JsonReading.StringReadsBack | src/agentsec/findings.py:64-66 | in both styles an escaped string and its closing quote, in front of any text, are read back to the string and that text |
| JsonReading.EscapeSizes | src/agentsec/evidence.py:55 | how much room each character takes in either style, so that nothing is escaped that need not be |
| JsonReading.CompactComma | src/agentsec/findings.py:64-66 | the compact style puts a bare comma between items |
| JsonReading.CompactColon | src/agentsec/findings.py:64-66 | the compact style puts a bare colon behind a name |
| JsonReading.ValueReadsBack | src/agentsec/findings.py:64-66 | the printed text of any well-formed value, in front of anything that cannot go on with a number, is read back to the value and what follows |
| JsonReading.PrintPrefix | src/agentsec/findings.py:64-66 | equal texts, each followed by nothing or a separator, come from equal values and leave equal rests |
| JsonReading.PrintInjective | src/agentsec/findings.py:64-66 | the sorted compact JSON text determines the value |
| Findings.Signature | src/agentsec/findings.py:45-73 | the loop over the items builds the ids and the normal form of the response |
| Findings.SameIdExactly | src/agentsec/findings.py:54-56 | two fields whose names have no equals sign give one object id exactly when they have one name and their values are written alike |
| Findings.SameIdentifierMeans | src/agentsec/findings.py:55-56 | of two values taken for one identifier, integers are equal, strings are equal, booleans are equal, and a string spells the other value |
| Findings.SharedIdExactly | src/agentsec/findings.py:146 | two responses have an object id in common exactly when both are JSON objects that name one identifier in a field of one name |
| Findings.NumberMatchesItsSpelling | src/agentsec/findings.py:56 | the number 5 and the string "5" count as one identifier, and so does every number and its decimal text |
| Findings.FieldNamesExactly | src/agentsec/findings.py:16-33 | the names in use for identifiers, impact and volatile fields |
| Findings.IdNamesArePlain | src/agentsec/findings.py:32 | the identifier names in use have no equals sign, as soon as lower-casing keeps one |
| Findings.FieldPoolExactly | src/agentsec/findings.py:155-156 | the pool is the fields asked for in lower case, or the default names when none are |
| Findings.StableIsSameContent | src/agentsec/findings.py:147-154 | the two-way digest test is equality of status and normal form |
| Findings.SameContentExactly | src/agentsec/findings.py:57-66 | normal forms are equal exactly when neither body is an object, or both are and agree on every field that is not volatile |
| Findings.StableIsEquivalence | src/agentsec/findings.py:147-154 | hence it is reflexive, symmetric and transitive |
| Findings.ReasonIsFirstFailure | src/agentsec/findings.py:159-173 | a verdict that is not "verified" names the first requirement that failed, and is a rejection only without two successful responses |
| Findings.VerifiedExactly | src/agentsec/findings.py:141-173 | "verified" exactly when both succeed, share an object, reproduce their content and show an impact field |
| Findings.VerifiedReachesAllFour | src/agentsec/findings.py:141-173 | then all four responses are successful objects, owner and subject name one identifier in one field and each repeats it there, and non-volatile fields come back with equal values |
| Findings.VerifiedIsReachable | src/agentsec/findings.py:171-173 | some four responses do reach that verdict |
| Findings.VolatileFieldsIrrelevant | src/agentsec/findings.py:57-61 | volatile fields can come, go and change in any of the four bodies without moving status, reason or impact |
| Findings.VolatilePoolLeaks | src/agentsec/findings.py:155-157 | a pool with a volatile field does let one show up in the verdict, for some library |
| Findings.VolatileFieldShows | src/agentsec/findings.py:155-157 | for any library, two responses that differ in one volatile field of the pool get different verdicts: the field is reported for the one only |
| Findings.VolatileFieldVerifies | src/agentsec/findings.py:155-173 | and when they are successful, with an id and no other impact field, the status moves from candidate to verified |
| Findings.IgnoresVolatileExactly | src/agentsec/findings.py:155-173 | the pools for which volatile fields never matter are exactly those without one |
| Findings.FieldNamesAreSeparate | src/agentsec/findings.py:16-33 | the three field sets in use are disjoint, and the default pool is one that ignores volatile fields |
| Validator.AuthorizationValidator.Compare | src/agentsec/findings.py:113-187 | every way it can end: refused at once, no probe for equal credentials, stopped by the first probe that fails, or four answered probes in order and one record with the verdict on just these responses |
| Validator.AuthorizationValidator.FourProbes | src/agentsec/findings.py:136-139 | owner, subject, owner, subject; stops at the first failure |
| Validator.ProbesExactly | src/agentsec/findings.py:136-139 | the four calls are plain GETs of the one address, without body, headers or approval, for owner and subject in turn |
| Validator.AuthorizationValidator.Finish | src/agentsec/findings.py:189-224 | one validation record; a report only for a verified verdict |
| Validator.ComparisonSpends | src/agentsec/findings.py:123-139 | a comparison spends no request or four when it returns, and never more than four |
| Validator.VerifiedShowsInLog | src/agentsec/findings.py:141-187 | a verified comparison is of different credentials, and the four records it names are successful exchanges in order, whose bodies name one identifier |
| Redaction.SensitiveExactly | src/agentsec/evidence.py:38-40 | beneath which keys nothing is shown, in any letter case |
| Redaction.RedactsAlike | src/agentsec/evidence.py:38-45 | two values redact alike exactly when they agree outside sensitive keys, at any depth |
| Redaction.RedactIdempotent | src/agentsec/evidence.py:38-45 | redacting twice is redacting once |
| Redaction.RedactKeepsStructure | src/agentsec/evidence.py:38-45 | every key path survives; what lies under a sensitive key is the marker |
| Redaction.ValueOfRedacted | src/agentsec/evidence.py:38-45 | redacting the entries as they were read is redacting the value they make |
| Redaction.SameValueSameText | src/agentsec/evidence.py:55 | the sorted text depends on the value alone, not on the order of the entries |
| Redaction.DumpReadsBack | src/agentsec/evidence.py:55 | the spaced text of a document is read back to its value |
| Redaction.PreviewExactly | src/agentsec/evidence.py:48-60 | a preview is both scrubbers over a text: the decoded head of a body that does not fit or does not parse, and otherwise a text that reads back as the redacted value |
| Redaction.PreviewHidesSecrets | src/agentsec/evidence.py:48-60 | two untruncated JSON bodies that differ only beneath the sensitive keys, or in key order, give the same preview and flag |
| Redaction.TruncatedPreviewLeaks | src/agentsec/evidence.py:50-53 | past any limit there are two bodies alike but for a token whose previews differ |
| Redaction.HidesSecretsExactly | src/agentsec/evidence.py:48-60 | beneath sensitive keys nothing shows, for every previewer, exactly for bodies within the limit |
| PathTemplate.IdWordExactly | src/agentsec/mapping.py:18 | without a hyphen, the identifiers are numbers and hexadecimal words of sixteen characters or more |
| PathTemplate.IdHyphenExactly | src/agentsec/mapping.py:18 | with a hyphen, they are eight hexadecimal digits, a hyphen, and at least 27 hexadecimal digits or hyphens |
| PathTemplate.IdLineBreak | src/agentsec/mapping.py:18 | one line break at the end is overlooked, and any other refused |
| PathTemplate.Template | src/agentsec/mapping.py:21-31 | the loop computes template and references |
| PathTemplate.TemplateIdempotent | src/agentsec/mapping.py:21-31 | a template is its own template and has no references |
| PathTemplate.SegmentCountKept | src/agentsec/mapping.py:21-31 | the number of segments is kept exactly for paths that are not empty |
| PathTemplate.FillUndoesTemplate | src/agentsec/mapping.py:21-31 | filling the references back in gives the path exactly when it is not empty and no literal `{id}` stands behind an identifier |
| PathTemplate.LiteralTakesTheReference | src/agentsec/mapping.py:21-31 | `/5/{id}` is not restored |
| PathTemplate.NoUndoForBoth | src/agentsec/mapping.py:21-31 | `/5/{id}` and `/{id}/5` have the same template and references, so no way of filling in restores both |
| PathTemplate.SameTemplateExactly | src/agentsec/mapping.py:21-31 | two paths share a template exactly when they agree position by position, up to what shows as a placeholder; the empty path counts as the root |
| ApplicationMap.ApplicationMapStore.Observe | src/agentsec/mapping.py:70-115 | the in-place update merges one observation into its endpoint |
| ApplicationMap.IndexIsGroupedUnion | src/agentsec/mapping.py:89-113 | after any history, a field is the sorted union of what was loaded and of what the observations of its endpoint said; other endpoints are untouched |
| ApplicationMap.OrderIrrelevant | src/agentsec/mapping.py:102-112 | order and repetition of observations do not matter |
| ApplicationMap.FieldsOnlyGrow | src/agentsec/mapping.py:102-112 | fields only grow and are strictly sorted |
| ApplicationMap.ListedExactly | src/agentsec/mapping.py:81-112 | for each of the six lists, a text is listed exactly when it was loaded or an observation there says so in its own terms: a harmless query name, an identifier segment of the path, a profile that is not empty, a status, one of the first hundred harmless names of the body, an evidence id |
| ApplicationMap.StatusListedExactly | src/agentsec/mapping.py:106-112 | a status code is listed exactly when it was loaded or observed at that endpoint |
| ApplicationMap.ObservedHead | src/agentsec/mapping.py:90-113 | an entry is described once, by its first observation, and carries the latest address |
| ApplicationMap.IdentityExactly | src/agentsec/mapping.py:80-88 | observations without a bar in their parts share an identity exactly when method, templated address and query names are the same |
| Investigation.InvestigationStateStore.Append | src/agentsec/state.py:83-127 | one indexed step more at the end of a log of the same engagement and policy, its texts made safe and cut, its evidence list trimmed and its endpoint masked; or no change |
| Investigation.StepExactly | src/agentsec/state.py:93-112 | every field of a filed step: texts on one line, cut to 600 or 300 characters and scrubbed, at most 16 evidence items, the address masked, the rest as it was |
| Investigation.CutExactly | src/agentsec/reasoning.py:131 | cutting keeps the start of a text, and all of it when it is short enough |
| Investigation.ReadableExactly | src/agentsec/state.py:63-81 | a log may be appended to exactly when there is none yet, or it is one of the same engagement and policy |
| Investigation.ReasoningLoop.ExecuteProposal | src/agentsec/reasoning.py:77-105 | the validator compares exactly for executable kinds |
| Investigation.ReasoningLoop.RunMany | src/agentsec/reasoning.py:107-187 | for any planner: at most `max_steps` steps, all but the last executed candidates under distinct keys, and all of them when the run ends without a result; the validator is called exactly for the executed proposals, once per key; each step is what planner and validator make of the ones before it; the returned steps are the suffix put on file; at most 4 units of the limiter's budget per call, also when the run raises |
| Investigation.EndsRepeatedExactly | src/agentsec/reasoning.py:139-146 | a run ends on a repetition exactly when an earlier step had both the task and the target of the last one |
| Investigation.SessionSpends | src/agentsec/reasoning.py:87-105 | comparisons in a row cost at most four units each on the limiter, exactly four each when all return, none with equal credentials |
| Investigation.TurnedOn | src/agentsec/reasoning.py:139-187 | after an executed candidate the loop goes on and the planner hears the summary of the verdict |
| Investigation.TurnedLast | src/agentsec/reasoning.py:165-187 | after any other step, and after the last one allowed, the run ends with the result of that step |
| Investigation.RunsAgree | src/agentsec/reasoning.py:126-187 | planner, the validator's answers and the file determine a run: its result, the steps it files, the calls it makes and the file it leaves |
| Investigation.LogIsTheRuns | src/agentsec/state.py:63-127 | over any sequence of runs on one file, the log is what the runs appended, step k has index k, and one engagement and policy wrote it all |
| Investigation.LogOnlyGrows | src/agentsec/state.py:83-127 | an earlier log is a prefix of every later one |
| Substitution.ReplaceIsWeave | src/agentsec/active.py:85 | replacing is joining the pieces of the template with the payload |
| Substitution.PiecesAreLeftmost | src/agentsec/active.py:85 | each occurrence taken is the leftmost one left |
| Substitution.SizeOfReplace | src/agentsec/active.py:85-87 | exact UTF-8 size of a substituted body |
| Substitution.EncodeReadsBack | src/agentsec/active.py:86 | the bytes of a text decode to the text (UTF-8, section 3 of RFC 3629) |
| Probe.RefusedPlans | src/agentsec/active.py:62-79 | which plans are refused before the first case, and which error they get |
| Probe.CaseExactly | src/agentsec/active.py:85-98 | what case i asks for: its body decodes to the template with the payload at each mark, its label carries its number, and nothing else differs from case to case |
| Probe.CaseSize | src/agentsec/active.py:65-90 | the size of every case follows from the sizes of template, marker and payload |
| Probe.ActiveProbeEngine.CollectPayloads | src/agentsec/active.py:69-77 | the payloads in order, or a refusal exactly when there are more than `max_cases` |
| Probe.ActiveProbeEngine.Run | src/agentsec/active.py:50-111 | every way it can end: on success evidence id, status and hash i belong to payload i and every body fits; otherwise which case was too large or raised, after exactly the cases before it |
| Probe.RunIsOnFile | src/agentsec/active.py:78-111 | at most `max_cases` executions; the cases that were done are on file in order, each with its own body, and no later case left a trace |

## Left out

- Sockets, DNS, TLS, `http.client`: a send has an arbitrary outcome, a response or an exception named in the except clause; an exception outside that clause is not modelled.
- Floating point: clocks, rates and waits are reals; rounding, NaN and infinities in limits are not part of the model.
- Letter case of request methods: they are given in upper case.
- URL parsing, IDNA and `redact_url`: scope checks and observations start from parsed URLs; receipts and evidence do not carry the target text.
- Unicode details: strings hold Unicode scalar values, so lone surrogates are left out; the identifier-segment test knows ASCII digits only; token characters are ASCII as in the source.
- JSON parsing: `json.loads` is an arbitrary function with well-formed results, and the reader in `JsonReading` is a reference for the printer only; a float is represented by the text its `repr` gives it.
- Secret scrubbers, prompt and message texts, `str.strip`, the Ollama client: arbitrary text functions; the planner is an arbitrary function.
- Files: logs, the map and the state file are values with atomic append or replacement; permissions, fsync and unreadable map files are not part of the model.
- Response headers, reason phrases and the optional body preview of an evidence record; `Redaction` models previews on their own.
- Timestamps and elapsed times in receipts, evidence and steps: they take part in no decision.
- The environment-variable names of profile secrets: a profile holds some header set.
- Credentials.ResolveAuthHeaders: one error for any bad header, because which of two bad headers is reported first depends on the order of the dictionary.
- The call of `ApplicationMapStore.observe` inside `execute`: the map is modelled on its own.
- Executor.HttpExecutor.Execute: one thread at a time, so the wait for a slot is only in the step machine.
- The browser and tool adapters and the proxy server: they run the same loop from `authorize` to the receipt; their page, process and socket handling is input and output.
- Report text and the command line.
