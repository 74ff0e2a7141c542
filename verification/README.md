# A model of the compliance gateway

The gateway intercepts the tool calls of agents, records each in a hash-chained audit ledger, queues it,
judges it against compliance and security policies, executes it or hands it to a human reviewer, and
masks personal data on the way. This project models these parts in Dafny and proves what holds of them.

* **The ledger** (`Ledger`, `LedgerProperties`, `TamperEvidence`, `LedgerOperations`, `AuditService`,
  `LedgerConcurrency`, `LedgerRuns`, `LedgerProgress`, `Serialiser`). The table is a list of rows in index order. `AuditService` is the
  service as a class that updates it, one database call after another; `LedgerConcurrency` interleaves any
  number of calls at single database calls, under the promise mutex. SHA-256 is a function from texts to
  64-digit digests. It is never assumed to be injective: theorems say "or these two texts collide", or ask
  that a named finite set of texts is free of collisions. The serialiser is injective and writes an object
  from its opening to its closing brace; `Serialiser` builds one that is, so that the hypothesis can be met
  with any digest function. The text that is hashed is put together from it literally.
* **The life cycle** (`Lifecycle` and the modules named after it, `EndToEnd`, `ExecutedRequests`). A transition system over
  ledger, queue, worker, tickets, reviewers and a log of executions. Each ledger operation is one step,
  which `LedgerRuns` justifies. `LifecycleServices` is the code of the gateway, the worker loop and the
  review service over the same state. Invariants of every run come first, among them which rows of executed
  requests do not read APPROVE, and why (`LifecycleRecord`). "At most once" (`LifecycleOnce`) and "only as
  redacted" (`LifecycleRedacted`) each hold of the runs that avoid certain steps, and each of these steps
  does open the way to a violation: the conditions are exact. `LifecycleApart` says when only a request's own
  failing pass can spoil its record, and `LifecycleSpoils` that this condition is exact too. `LifecycleJudged`
  says why a request was executed, in every run; `LifecycleAgreement` what holds of a request that nothing
  disturbs, whatever fails for the others; `LifecycleSequential` what one pass of the worker and one review
  change, from every reachable state; and `LifecycleRaces` spells out the runs behind the conditions.
* **The policy** (`RuleEngine`, `SecurityValidator`, `ValidationPipeline`, `DecisionEngine`, `Policy`,
  `PolicyProperties`). Loops that push to lists, proved against functions; then laws of the verdict over
  all requests and all answers of the rule evaluators, the scanner and the redactor. Scores are hundredths.
* **Redaction** (`Spans`, `Splice`, `Masks`, `Redaction`, `Enclosure`, `PiiDetector`, `Luhn`, `Framing`,
  `TreeRedaction`, `TreeProperties`, `SensitiveKeys`). The overlap filter, the splice from right to left, the masks, the
  card check, the line framing of the service, and the walk over parameter trees. What the patterns and the
  analyser detect is an arbitrary function that returns spans in bounds.

Where laws fail, the model follows the code and gives the condition. Adding a rule can weaken a verdict unless
the block threshold exceeds 0.85; a configuration lets failures pass exactly when a threshold lies above the
least score they can carry; the redactor's answer matters exactly when a threshold lies within 0.1; behind an
enclosing span as many characters show, or are lost, as the masks inside it have grown or shrunk; a second
execution takes overlapping approvals or a lost reviewer; an unredacted one takes an approval, or a failure
of the worker, between ticket and row.

Where the documentation differs from the code, the code is modelled. `README.md:33` has the worker fetch
the raw parameters from the database; the code queues the whole parsed request and processes that
(`apps/api/src/common/queue/job.queue.service.ts:12-19`,
`apps/api/src/common/queue/job.worker.service.ts:84-90`).

To verify the project with Dafny 4.11, run `dafny verify dfyconfig.toml`.

## Model

| member | source | states |
|---|---|---|
| `AuditService.AuditService.Record` | apps/api/src/audit/audit.service.ts:28-125 | The service's append, with its temporary hash, its reload and the link back from the previous head, leaves exactly the effect of `RecordEffect`: refused untouched on a duplicate, otherwise the table with one linked, hashed row more |
| `AuditService.AuditService.UpdateRecordAndRecalculate` | apps/api/src/audit/audit.service.ts:127-226 | Rewriting one row and re-hashing the suffix write by write ends in `Rewritten`, or stops exactly at the first write that the unique hash column refuses, or reports a missing record |
| `AuditService.AuditService.Recalculate` | apps/api/src/audit/audit.service.ts:170-217 | The loop that carries the last hash completes exactly when no recomputed hash is stored in another row, and leaves the rows re-hashed up to the first that is |
| `AuditService.AuditService.VerifyChain` | apps/api/src/audit/audit.service.ts:236-300 | The loop answers with the first row that fails and the first of its three tests that does, or with "verified" |
| `LedgerOperations.VerifyIsExact` | apps/api/src/audit/audit.service.ts:243-296 | "Verified" if and only if every row is good; index k is reported if and only if k is the first bad row |
| `LedgerProperties.AppendVerification` | apps/api/src/audit/audit.service.ts:41-117 | An append changes no verdict on earlier rows, keeps a valid chain valid and keeps the first bad index |
| `LedgerProperties.RewriteFrame` | apps/api/src/audit/audit.service.ts:140-217 | A rewrite changes one row only, no index, and no hash before it; the row takes decision, execution result and completion time, and validation result and request if given, and keeps its other columns |
| `LedgerProperties.RewriteVerification` | apps/api/src/audit/audit.service.ts:158-217 | After a rewrite of row k the chain verifies if and only if the prefix before k did and the indices from k on are contiguous, whatever hashes the suffix held; a bad row before k stays the one reported |
| `LedgerProperties.PredecessorFound` | apps/api/src/audit/audit.service.ts:203-214 | At every round of the loop, with unique hashes, looking up the last hash finds the row just before |
| `LedgerProperties.HashesStayDistinct` | apps/api/prisma/schema.prisma:25 | At every intermediate write of the recalculation all stored hashes stay distinct, unless two of the texts hashed collide |
| `LedgerProperties.AppendedHashIsFree` | apps/api/src/audit/audit.service.ts:102-109 | The hash of a new row is stored nowhere else, unless texts collide |
| `LedgerProperties.CanonicalIsIntactAndLinked` | apps/api/src/audit/audit.service.ts:112-117 | A table equals the rebuild of its contents from genesis if and only if it verifies and every next-hash is the hash of the following row, none at the head |
| `LedgerProperties.AppendRefinesRebuild` | apps/api/src/audit/audit.service.ts:46-117 | Appending to a rebuilt table gives the rebuild of the longer contents, all hash columns included |
| `LedgerProperties.RewriteRefinesRebuild` | apps/api/src/audit/audit.service.ts:164-217 | Incremental re-hashing of the suffix gives the same table as one rebuild from genesis over the edited contents |
| `LedgerProperties.RebuildIsCanonical` | apps/api/src/audit/audit.service.ts:46-117 | A rebuild keeps the contents, verifies and is doubly linked |
| `LedgerProperties.ColumnsFromContents` | apps/api/src/audit/audit.service.ts:228-234 | Two histories with the same hashed contents have identical hash, previous-hash and next-hash columns |
| `LedgerOperations.ApplyKeepsTable` | apps/api/prisma/schema.prisma:22-35 | Every call, refused or not, keeps request ids and hashes unique and the rows in index order |
| `LedgerOperations.RewriteNeverRefused` | apps/api/src/audit/audit.service.ts:195-201 | On an untampered ledger no write of the recalculation hits the unique column, unless texts collide |
| `TamperEvidence.PreimageDecodable` | apps/api/src/audit/audit.service.ts:228-234 | Previous hash or genesis mark, object text and decimal index, concatenated without separators, can be read back in one way only |
| `TamperEvidence.HashedExactly` | apps/api/src/audit/audit.service.ts:80-100 | Two rows hash the same object if and only if they agree on request, session and agent id, time of receipt, raw request, the eight hashed fields of the parsed request, validation result, decision and execution result |
| `TamperEvidence.IntactExactly` | apps/api/src/audit/audit.service.ts:228-294 | A ledger verifies if and only if every row has its index, the hash of the row before as its link, and as its hash the digest of that hash, or of the genesis mark, followed by the serialised columns and the index in decimal notation |
| `Decimals.DecimalReads` | apps/api/src/audit/audit.service.ts:232 | The decimal notation of an index has its value in base ten |
| `TamperEvidence.SameDigest` | apps/api/src/audit/audit.service.ts:228-234 | Two rows with the same valid hash agree on index, previous hash and all hashed fields, or their texts collide |
| `TamperEvidence.HeadHashDeterminesLedger` | apps/api/src/audit/audit.service.ts:243-294 | Two verified non-empty ledgers with the same head hash have the same length and agree on all hashed columns at every index, or some pair of their texts collides |
| `TamperEvidence.ContentEditIsReported` | apps/api/src/audit/audit.service.ts:284-293 | Editing a hashed column of a verified ledger, such as a verdict, under unchanged hash columns is reported at the smallest edited index |
| `TamperEvidence.ForgeryIsReportedNext` | apps/api/src/audit/audit.service.ts:254-261 | Editing one row and its own hash consistently is reported at the next index, and not at all if the row is the last |
| `TamperEvidence.VerifiedExactlyWhenUnedited` | apps/api/src/audit/audit.service.ts:243-294 | Under unchanged hash columns a verified ledger still verifies if and only if no hashed column was edited, or two texts collide; what is not hashed can be edited unnoticed |
| `Serialiser.FaithfulSerialiser` | apps/api/src/audit/audit.service.ts:102-103 | The hypothesis on the serialiser can be met with any digest function: a concrete one is injective on all that is hashed and writes an object |
| `LedgerConcurrency.EveryRunIsSequential` | apps/api/src/audit/audit.service.ts:7-20 | Every interleaving of any number of calls at single database calls satisfies the invariant that ties it to the sequential execution in order of arrival |
| `LedgerRuns.MutualExclusionInOrder` | apps/api/src/audit/audit.service.ts:10-19 | In every reachable state, when a caller has or had the lock all earlier callers are done: one holder, grants in order of acquisition |
| `LedgerProgress.NoDeadlock` | apps/api/src/audit/audit.service.ts:10-19 | In every reachable state the first caller without an answer can move and each of its moves brings it closer to its answer; no other caller can move |
| `LedgerProgress.EveryCallIsAnswered` | apps/api/src/audit/audit.service.ts:10-300 | From every reachable state, moves of the callers alone lead to one in which every call has its answer, as if the calls had been made one after another in order of arrival |
| `LedgerRuns.QuiescentLedger` | apps/api/src/audit/audit.service.ts:28-300 | Whenever the lock is free the table is what the answered calls, run one after another, leave; each got the answer it would have got then |
| `LedgerRuns.UntamperedRuns` | apps/api/src/audit/audit.service.ts:28-300 | From an untampered ledger, whenever the lock is free the table equals the rebuild of what was written, no call fails part-way, and every check answered "verified", so none ever saw a temporary hash; or texts collide |
| `LifecycleServices.Services.Intercept` | apps/api/src/api/gateway.controller.ts:63-95 | The pending row is appended, then the job is queued at the left; a request id that has a row is refused and nothing changes |
| `LifecycleSequential.InterceptedRow` | apps/api/src/api/gateway.controller.ts:33-60 | The pending row, column by column |
| `LifecycleServices.Services.Escalate` | apps/api/src/workflow/review.service.ts:16-55 | The next ticket number is taken and the ticket created, or refused when the row is missing or the request has a ticket |
| `LifecycleServices.Services.ProcessJob` | apps/api/src/common/queue/job.worker.service.ts:84-199 | One pass, wherever it throws, takes the steps judge, act, write and fall back, and leaves the worker idle |
| `LifecycleServices.Services.StartWorkerLoop` | apps/api/src/common/queue/job.worker.service.ts:64-82 | The loop takes jobs from the right end and processes each completely before the next |
| `LifecycleServices.Services.SubmitDecision` | apps/api/src/workflow/review.service.ts:73-143 | An accepted decision takes the steps of one review; a ticket that is missing or already decided is refused and nothing changes |
| `LifecycleSafety.SuccessMeansApproved` | apps/api/src/common/queue/job.worker.service.ts:114-194 | In every run, whatever fails and however reviewers interleave, a row that reports a successful execution has verdict APPROVE |
| `LifecycleJudged.ExecutedMeansJudged` | apps/api/src/common/queue/job.worker.service.ts:114-139 | In every run: a row reads APPROVE only after an execution; an executed request was judged APPROVE, or was judged ESCALATE, has a ticket and was approved by a reviewer; a ticket means ESCALATE |
| `LifecycleJudged.BlockedIsNotExecuted` | apps/api/src/common/queue/job.worker.service.ts:124-194 | In every run, whatever fails and however reviewers interleave, a request judged BLOCK, or judged ESCALATE without an approving reviewer, is never executed and its row never reads APPROVE |
| `LifecycleConservation.ExactlyOnce` | apps/api/src/api/gateway.controller.ts:63-71 | Each id has a row exactly when it waits at one place: before the queue, lost, or queued once; jobs are taken in queue order and judged at most once, in that order |
| `LifecycleConservation.PendingIsOnItsWay` | apps/api/src/common/queue/job.worker.service.ts:64-198 | A pending row is on its way, lost at the enqueue or abandoned by a failed fallback; with the queue drained only the failures remain |
| `LifecycleConservation.TicketNumbersRun` | apps/api/src/workflow/review.service.ts:20-22 | Ticket numbers are the consecutive run from 1001 in every run |
| `LifecycleOnce.ExecutedAtMostOnce` | apps/api/src/workflow/review.service.ts:88-121 | No request is executed twice in any run in which approving reviews of an open ticket do not overlap and none is lost between execution and ticket, whatever else fails or overlaps |
| `LifecycleOnce.OnceExactly` | apps/api/src/workflow/review.service.ts:88-121 | The condition is exact: after a run that meets it, a step can be continued to a second execution, by steps that meet it, if and only if the step breaks it |
| `LifecycleRedacted.ExecutedAsRedacted` | apps/api/src/workflow/review.service.ts:101-105 | Whatever worker or reviewers execute is the pipeline's redacted request, in any run in which, while a ticket's row is still raw, no approval of the open ticket starts and the worker does not fail |
| `LifecycleRedacted.RedactedExactly` | apps/api/src/common/queue/job.worker.service.ts:127-139 | The condition is exact: after a run that meets it, a step can be continued to an unredacted execution, by steps that meet it, if and only if the step breaks it |
| `LifecycleRedacted.ExecutedOnceAsRedacted` | apps/api/src/workflow/review.service.ts:88-140 | Under both conditions, each request is executed at most once and only as redacted |
| `LifecycleRecord.RecordedExactly` | apps/api/src/common/queue/job.worker.service.ts:124-194 | In every run, for each request by itself, unless its row is still being written: the row reads APPROVE if and only if the request was executed and its record has not lapsed, the lapses being listed by cause |
| `LifecycleApart.OnlyOwnFailureSpoils` | apps/api/src/common/queue/job.worker.service.ts:168-198 | With reviewers kept apart, an executed request's row differs from APPROVE if and only if its own pass failed after the execution and the fallback wrote BLOCK or nothing, whatever fails elsewhere |
| `LifecycleSpoils.ApartExactly` | apps/api/src/workflow/review.service.ts:88-140 | The condition is exact: after a run that meets it, a step can be continued, by steps that meet it, to a second execution, or to an executed request whose settled row differs from APPROVE though its own pass is not the cause, if and only if the step breaks it |
| `LifecycleRaces.EarlyApprovalExecutesUnredacted` | apps/api/src/common/queue/job.worker.service.ts:127-139 | An approval between ticket and row write executes the request as it came in, and the worker then overwrites the approval with ESCALATE |
| `LifecycleRaces.OverlappingApprovalsExecuteTwice` | apps/api/src/workflow/review.service.ts:88-104 | Two approvals that both pass the status check execute the request twice |
| `LifecycleRaces.FailureAfterExecutionReadsBlocked` | apps/api/src/common/queue/job.worker.service.ts:124-194 | A failure after the execution leaves a row that says BLOCK for a request that was executed |
| `LifecycleRaces.FailedEscalationExecutesUnredacted` | apps/api/src/common/queue/job.worker.service.ts:127-194 | A worker that fails between ticket and row, with a fallback that works, leaves an open ticket whose approval executes the request as it came in |
| `LifecycleRaces.LostReviewExecutesAgain` | apps/api/src/workflow/review.service.ts:101-117 | A reviewer lost between execution and ticket leaves the ticket open, and the next approval executes again |
| `LifecycleRaces.RejectionBesideApproval` | apps/api/src/workflow/review.service.ts:88-140 | A rejection beside an approval writes BLOCK over an executed request |
| `LifecycleRaces.LostBetweenTicketAndRow` | apps/api/src/workflow/review.service.ts:107-140 | A reviewer lost between ticket and row leaves an executed request with an approved ticket and a row that says ESCALATE |
| `LifecycleAgreement.TicketsMatchRows` | apps/api/src/workflow/review.service.ts:88-140 | In every run that does not disturb the request, whatever fails for others, its ticket is pending, approved or rejected if and only if its row says ESCALATE, APPROVE or BLOCK, except between the two writes of a review or of the worker |
| `LifecycleAgreement.RowsFollowJudgements` | apps/api/src/common/queue/job.worker.service.ts:114-139 | Undisturbed requests whose row says ESCALATE have a ticket; those without one end with the verdict they were judged with |
| `LifecycleAgreement.PendingExactly` | apps/api/src/api/gateway.controller.ts:45-71 | The row of an undisturbed request is pending exactly while it is between record and enqueue, in the queue or in flight |
| `LifecycleAgreement.ApprovedMeansExecuted` | apps/api/src/common/queue/job.worker.service.ts:124-139 | Unless its row is still being written, the row of an undisturbed request says APPROVE if and only if it was executed, and then once: its record has not lapsed |
| `LifecycleAgreement.PolledStatusMoves` | apps/api/src/api/gateway.controller.ts:99-137 | Polled at any two moments of a run that does not disturb the request, its status stays, leaves PENDING, or moves from ESCALATED to COMPLETED or REJECTED |
| `LifecycleAgreement.PolledStatusMeans` | apps/api/src/api/gateway.controller.ts:99-137 | COMPLETED means executed, in every run; for an undisturbed request PENDING means on its way, ESCALATED that it has a ticket, REJECTED never executed, COMPLETED executed once, and an executed request reads COMPLETED once its row is written |
| `LifecycleSequential.DrainLeavesNothingPending` | apps/api/src/common/queue/job.worker.service.ts:64-198 | With turns enough and a working fallback, whatever else throws, the loop empties the queue in order and leaves no pending row but those lost before |
| `LifecycleSequential.ProcessingEffect` | apps/api/src/common/queue/job.worker.service.ts:84-199 | From every reachable state, wherever the pass throws: the row of the job ends with the decided verdict, with BLOCK, or pending; the job is executed once exactly when the pass acts on an approval, and has a ticket exactly when it acts on an escalation; no other row, execution or ticket changes |
| `LifecycleSequential.ProcessedRow` | apps/api/src/common/queue/job.worker.service.ts:98-194 | The row after a pass, column by column: decision with its score and override mark, validation result, redacted request, execution; or BLOCK at risk 1.0 with a system error; or as before |
| `LifecycleSequential.ProcessingAgrees` | apps/api/src/common/queue/job.worker.service.ts:98-139 | A pass of the worker keeps ticket, row and executions of a request in agreement if it is another's pass, whatever it does, or its own and does not fail before the write nor overwrite it |
| `LifecycleSequential.ReviewingEffect` | apps/api/src/workflow/review.service.ts:73-143 | An uninterrupted review of an open ticket, from every reachable state and whoever else is at work: ticket and row take the decision, an approval executes once more and a rejection does not, and nothing else changes |
| `LifecycleSequential.ReviewedRow` | apps/api/src/workflow/review.service.ts:118-140 | The row after a review: the reviewer's verdict in the decision as it was, and the execution or that there was none |
| `LifecycleSequential.ReviewingAgrees` | apps/api/src/workflow/review.service.ts:84-140 | A review that starts beside no other, and after the worker's write, keeps ticket, row and executions in agreement; an approved request is then executed once, a rejected one never |
| `RuleEngine.EvaluateRule` | apps/api/src/validation/compliance/rule.engine.ts:66-173 | The branches agree with an independent table of which rules apply to which tool, which evaluator answers and which severity a failure carries; an exception gives status ERROR and a HIGH failure |
| `RuleEngine.RegFRule` | apps/api/src/validation/compliance/rule.engine.ts:75-96 | A Regulation F or bankruptcy rule asks its own evaluator, for the dialer only, and fails HIGH |
| `RuleEngine.ConditionRule` | apps/api/src/validation/compliance/rule.engine.ts:97-123 | A rule with conditions asks theirs, an underwriting rule for the underwriter only, and fails HIGH if it blocks, else MEDIUM |
| `RuleEngine.PlainRule` | apps/api/src/validation/compliance/rule.engine.ts:124-173 | QM rules ask theirs for the underwriter only and OFAC rules for every tool, and fail CRITICAL; all others ask the generic evaluator and fail MEDIUM |
| `RuleEngine.Evaluate` | apps/api/src/validation/compliance/rule.engine.ts:66-193 | The loop reports the checks and failures of the enabled rules in order, and passes exactly when there are no failures |
| `RuleEngine.FailuresOfRules` | apps/api/src/validation/compliance/rule.engine.ts:66-193 | A failure is in the list if and only if an enabled rule reports it |
| `SecurityValidator.ParameterScan.ScanParams` | apps/api/src/validation/security/security.validator.ts:71-116 | The recursive closure pushes exactly the issues and failures of the value, subtree by subtree |
| `SecurityValidator.NestingIsReported` | apps/api/src/validation/security/security.validator.ts:72-79 | Excessive nesting is reported if and only if the value reaches deeper than five levels, and scan failures are all HIGH |
| `SecurityValidator.Validate` | apps/api/src/validation/security/security.validator.ts:31-149 | Checks, failures and risk are those of size, signature and content; risk is 1.0 exactly for the critical two |
| `SecurityValidator.ArraySizeIsReported` | apps/api/src/validation/security/security.validator.ts:95-102 | An oversized array is reported if and only if one of more than a hundred items stands within five levels, and the scan reports nothing but nesting and array sizes |
| `SecurityValidator.IssuesExactly` | apps/api/src/validation/security/security.validator.ts:83-112 | The scan finds an issue if and only if, within five levels, a text matches an injection pattern, or a text or key holds a character that is neither printable ASCII nor line feed, carriage return or tab |
| `SecurityValidator.ChecksExactly` | apps/api/src/validation/security/security.validator.ts:41-131 | Each check fails if and only if there is what it looks for, by the size limit given or 10000 bytes |
| `SecurityValidator.RiskExactly` | apps/api/src/validation/security/security.validator.ts:41-149 | Risk 1.0 for size or signature, 0.8 for a violated content boundary, nesting or an oversized array, otherwise none |
| `SecurityValidator.FailureBesidePassingChecks` | apps/api/src/validation/security/security.validator.ts:72-131 | There are failures while every check passes if and only if the scan is on, size, signature and texts are in order, and nesting or an array is beyond its limit |
| `ValidationPipeline.Validate` | apps/api/src/validation/validation.pipeline.ts:15-137 | The staged pushes give the joined result; the redacted request carries the redactor's parameters exactly when redaction is required and there are no parse errors, and is otherwise the request |
| `DecisionEngine.Flags` | apps/api/src/decision/decision.engine.ts:66-79 | The loop's flags are set if and only if some failed check blocks, or escalates, by the first rule with its id or name |
| `DecisionEngine.FirstRuleDecides` | apps/api/src/decision/decision.engine.ts:66-79 | The first rule with the id or the name of a failed check says whether it blocks or escalates; without any, it blocks |
| `DecisionEngine.Decide` | apps/api/src/decision/decision.engine.ts:9-129 | Blocking checks, then escalating checks, then the thresholds over the raised score decide |
| `DecisionEngine.RaisedExactly` | apps/api/src/decision/decision.engine.ts:21-45 | The score is at least the risk of the checks, 0.85 for a CRITICAL tool, 0.7 for a HIGH one, 0.8 for a cost above 5000, and equals one of these |
| `Policy.Judge` | apps/api/src/common/queue/job.worker.service.ts:97-101 | Pipeline and engine together: the verdict and score as functions of configuration, request and world, never PENDING, for the same request id |
| `Policy.VerdictCharacterised` | apps/api/src/decision/decision.engine.ts:57-129 | With uniquely named rules: BLOCK if security fails or a failing enabled rule blocks, else ESCALATE if one escalates, else the thresholds |
| `Policy.ParseErrorsBlock` | apps/api/src/validation/validation.pipeline.ts:25-53 | Parse errors always block |
| `Policy.ComplianceRisk` | apps/api/src/validation/validation.pipeline.ts:90-99 | The rules contribute the weight of the gravest severity any enabled rule reports |
| `Policy.ResultMeans` | apps/api/src/validation/validation.pipeline.ts:25-137 | A request passes if and only if nothing failed, and the redaction check warns if and only if something was redacted; its risk is 1.0 with parse errors, and otherwise the greatest of 0.1 for redactions, 0.95, 0.75 or 0.4 for the rules, and 1.0 or 0.8 for security |
| `Policy.SecurityViolationsBlock` | apps/api/src/decision/decision.engine.ts:66-83 | A request that is too large, lacks a required signature or violates the content boundary is blocked |
| `PolicyProperties.OrderFree` | apps/api/src/validation/compliance/rule.engine.ts:66-193 | Verdict and score depend on the set of enabled rules only, not on order or disabled rules |
| `PolicyProperties.MonotoneExactly` | apps/api/src/decision/decision.engine.ts:57-129 | Enabling more rules never weakens any verdict if and only if the block threshold exceeds 0.85 |
| `PolicyProperties.FailsClosedExactly` | apps/api/src/decision/decision.engine.ts:66-129 | A configuration never approves a request with failures if and only if its thresholds react to every failure that reaches no flag: scan failures, exceptions, and rules that neither block nor escalate |
| `PolicyProperties.BlockingRulesFailClosed` | apps/api/src/validation/compliance/rule.engine.ts:165-173 | With rules that all block or escalate and a threshold at or below 0.75, no failure is approved |
| `PolicyProperties.RedactorIndependentExactly` | apps/api/src/validation/validation.pipeline.ts:57-123 | Any two redactor answers give the same verdict for every request and world if and only if no effective threshold lies within 0.1 |
| `PolicyProperties.DefaultThresholdsSuffice` | apps/api/src/decision/decision.engine.ts:10-13 | The default thresholds meet all three conditions |
| `PolicyProperties.RiskyToolsExactly` | apps/api/src/decision/decision.engine.ts:21-110 | No request for a HIGH tool, for a CRITICAL tool, or with a cost above 5000 is ever approved if and only if a threshold lies at or below 0.7, 0.85 or 0.8 |
| `PolicyProperties.DefaultsReviewRisky` | apps/api/src/decision/decision.engine.ts:10-45 | Under the default thresholds, 0.7 and 0.9, none of these is ever approved |
| `PolicyProperties.FaultsNeedReview` | apps/api/src/validation/compliance/rule.engine.ts:75-173 | With a threshold at or below 0.75, a request for which an enabled sanctions, QM or Regulation F rule finds fault or throws is never approved, whatever the rule asks for |
| `EndToEnd.ViolationsNeedApproval` | apps/api/src/common/queue/job.worker.service.ts:97-139 | In every run in ENFORCE mode under closed configurations, whatever fails and however reviewers interleave, a request with validation failures is executed, or reads APPROVE, only if it has a ticket that a reviewer approved |
| `EndToEnd.ViolationsAreNotExecuted` | apps/api/src/common/queue/job.worker.service.ts:97-198 | In ENFORCE mode under a closed configuration, from every reachable state and wherever the pass throws, a request with failures is not executed by it and its row ends BLOCK or ESCALATE, or pending if the fallback fails too |
| `EndToEnd.ObserveExecutesEverything` | apps/api/src/common/queue/job.worker.service.ts:103-125 | In OBSERVE mode, from every reachable state, a pass that does not throw executes its request once and its row ends APPROVE |
| `ExecutedRequests.ExecutedStems` | apps/api/src/validation/validation.pipeline.ts:55-61 | When the pipeline judges, whatever is executed stems from a request submitted under its id: it is that request, or, where redaction is required, that request with parameters the redactor answered for it |
| `ExecutedRequests.ExecutedSecretsAreMasked` | apps/api/src/validation/pii/pii.redactor.ts:33-64 | When the redactor is the service or the fallback, strings under sensitive keys in which no pattern matches are masked in every executed request whose tool requires redaction |
| `Spans.SortedIsSorted` | pii-service/server.py:86-87 | Sorting by start, descending, permutes the spans |
| `Spans.SortIsStable` | pii-service/server.py:86-87 | Spans with the same start keep their order |
| `Spans.Filter` | pii-service/server.py:89-100 | The nested loop keeps a span exactly when it overlaps none kept before |
| `Spans.KeptApart` | pii-service/server.py:89-100 | A kept span is disjoint from every span kept before, or strictly encloses it |
| `Spans.DroppedOverlaps` | pii-service/server.py:89-100 | Every dropped span overlaps a kept one |
| `Splice.SplicedIsSubstituted` | pii-service/server.py:102-108 | Replacing disjoint patches from right to left in place is one left-to-right substitution into the original |
| `Splice.SplicedLength` | pii-service/server.py:102-108 | The length grows by the masks and shrinks by the spans |
| `Redaction.RedactString` | pii-service/server.py:67-117 | Sort, filter and splice in sequence; one match per kept span |
| `Redaction.MasksOfOriginal` | pii-service/server.py:105-108 | Masks computed from the text under change are those of the original text |
| `Redaction.ServiceSubstitutes` | pii-service/server.py:86-115 | Without enclosure among kept spans the result is the original with each kept span replaced by the mask of what it covered, with exact length |
| `Redaction.ServiceHides` | pii-service/server.py:86-115 | Texts that differ only under kept spans, with equal masks, become the same text |
| `Enclosure.BothAreKept` | pii-service/server.py:89-100 | The filter keeps a span and one that encloses it, in whichever order they are found |
| `Enclosure.KeptAround` | pii-service/server.py:86-100 | Around a kept span that none encloses, the service keeps first spans behind it, then spans inside it, then spans in front of it |
| `Enclosure.EnclosureLeavesText` | pii-service/server.py:102-108 | For every text, masking and enclosing span, any spans behind it, and any inside and in front of it that stay within their part of the text: the mask takes the place of as many characters as the span had, so that as many characters of the inside stay, or of what follows are lost, as the masks inside have grown or shrunk |
| `Enclosure.AnyDepth` | pii-service/server.py:102-108 | However deep spans are nested: the text in front of an enclosing span is intact when it is replaced, and behind its mask stand as many characters as there should be, more or fewer by the growth of everything inside |
| `Enclosure.InsideApart` | pii-service/server.py:102-108 | Spans inside that lie apart stay within, are masked by one substitution, and grow by what their masks grow |
| `Enclosure.EnclosedMaskShifts` | pii-service/server.py:102-108 | One span inside another: with growth d of the inner mask, the text behind the outer mask starts d characters before the end of the outer span, or behind it when d is negative |
| `Enclosure.HarmlessExactly` | pii-service/server.py:86-115 | The service's text around a kept span that none encloses is as it should be if and only if the masks inside kept their length, or shrank with nothing behind |
| `Enclosure.NameInsideAddress` | pii-service/server.py:41-64 | A name shorter than its mask inside an e-mail address leaves the end of the address readable |
| `Masks.MasksAgreeExactly` | apps/api/src/validation/pii/pii.redactor.ts:148-168 | Service and fallback masks agree if and only if the kind is not a person and an e-mail text has a plain domain |
| `Masks.EmailShows` | pii-service/server.py:52-59 | Of an address the service shows the first character and all that follows the first sign, if there is a local part |
| `Masks.EmailShowsLocally` | apps/api/src/validation/pii/pii.redactor.ts:159-162 | The fallback drops what follows a second sign, and shows nothing without a domain |
| `Masks.DigitsDrop` | apps/api/src/validation/pii/pii.redactor.ts:152-154 | Of a card number blanks and dashes are dropped before its last four characters are shown |
| `Masks.SensitiveInside` | pii-service/server.py:163-184 | A key stays sensitive whatever stands around it, such as a list index |
| `Masks.SensitiveWords` | pii-service/server.py:163-184 | A key is sensitive if and only if its letters, in lower case, contain one of the fifteen words |
| `Text.ContainsParts` | apps/api/src/validation/pii/pii.redactor.ts:134-146 | A text contains its parts |
| `Text.ContainedIsPart` | apps/api/src/validation/pii/pii.redactor.ts:134-146 | What a text contains is a part of it |
| `Masks.LettersKept` | pii-service/server.py:183 | Of a key in lower case only the letters from a to z count |
| `Masks.SensitiveIgnores` | pii-service/server.py:183-184 | Capitals and characters that are no letters make no difference to a key |
| `Luhn.LuhnCheck` | apps/api/src/validation/pii/pii.detector.ts:124-137 | The right-to-left loop decides whether the sum of ISO/IEC 7812-1, Annex B, is divisible by ten, for digit strings of any length |
| `Luhn.CheckDigit` | apps/api/src/validation/pii/pii.detector.ts:124-137 | In the sum the last digit counts once, the one before it twice, less nine above nine, and so on in pairs to the left |
| `Luhn.OneCheckDigit` | apps/api/src/validation/pii/pii.detector.ts:124-137 | Every row of digits is completed by exactly one check digit |
| `Luhn.OneWrongDigit` | apps/api/src/validation/pii/pii.detector.ts:124-137 | Changing one digit of a valid string makes it invalid |
| `Luhn.AdjacentSwap` | apps/api/src/validation/pii/pii.detector.ts:124-137 | Swapping adjacent digits of a valid string leaves it valid if and only if they are equal, or 0 and 9 |
| `PiiDetector.Detect` | apps/api/src/validation/pii/pii.detector.ts:20-122 | Joining, card check, bank filter and sort give the specified list |
| `PiiDetector.DetectedExactly` | apps/api/src/validation/pii/pii.detector.ts:20-122 | Every match is reported but card numbers that fail the Luhn check and bank accounts that overlap a reported match |
| `PiiDetector.SameStartInOrder` | apps/api/src/validation/pii/pii.detector.ts:20-122 | Matches that start at the same place come in the order of the kinds |
| `PiiDetector.BankAccountsStandApart` | apps/api/src/validation/pii/pii.detector.ts:87-117 | A reported bank account is disjoint from every other match or encloses it; one not reported overlaps a match |
| `PiiDetector.RedactStringLocal` | apps/api/src/validation/pii/pii.redactor.ts:15-31 | The fallback splices the masks of the detected values |
| `PiiDetector.FallbackSubstitutes` | apps/api/src/validation/pii/pii.redactor.ts:19-25 | For matches that lie apart the fallback's splice is one substitution, with exact length |
| `Framing.HandleClient` | pii-service/server.py:206-246 | The nested loops compute the connection state read by read |
| `Framing.FramingIsChunkIndependent` | pii-service/server.py:206-234 | However the stream is cut into reads, the lines handed on are the payloads among its newline-terminated segments up to the first HTTP line, and an open connection's buffer is the unterminated tail |
| `Framing.PayloadsGrow` | pii-service/server.py:214-234 | A line is handed on if and only if it is not blank, is a payload, and comes behind no HTTP line |
| `Framing.LinesMakeUpTheStream` | pii-service/server.py:212-213 | Segments with their newlines, and the tail, are the stream |
| `Framing.LinesHoldNoNewline` | pii-service/server.py:212-213 | No segment and no tail holds a newline |
| `TreeRedaction.RedactValue` | pii-service/server.py:120-160 | The recursion with its local lists gives the redacted tree and its matches |
| `TreeRedaction.RedactParametersLocal` | apps/api/src/validation/pii/pii.redactor.ts:66-113 | The recursion over shared counters gives the same walk, and its count is the number of matches |
| `TreeProperties.WalkIsPointwise` | pii-service/server.py:120-160 | The strings of the redacted tree, with their paths, are the strings of the tree with the policy applied to each; the matches are theirs in order |
| `TreeProperties.ChangesAreReported` | pii-service/server.py:120-160 | Keys, list lengths and other leaves are unchanged at any depth; a changed string has its path among the matches, and every match the path of a string |
| `TreeProperties.ServiceIsHonest` | pii-service/server.py:124-138 | The service's treatment of a string reports every change, at its path |
| `TreeProperties.LocalIsHonest` | apps/api/src/validation/pii/pii.redactor.ts:77-92 | The fallback's treatment of a string reports every change, at its path |
| `TreeProperties.SensitiveKeysAreReported` | apps/api/src/validation/pii/pii.redactor.ts:85-91 | A string under a sensitive key is reported by both, whatever is detected in it |
| `SensitiveKeys.KeysOfPaths` | pii-service/server.py:126-151 | The key of a string is the name of its field, or what follows the last dot of it, with the indices of lists behind it |
| `SensitiveKeys.SensitiveStringsAreMasked` | pii-service/server.py:124-136 | In the service a string under a sensitive key, at any depth and whatever is found in it, becomes the mask of the kind its key names: for a social security number `XXX-XX-` and its last four characters, and so on per kind |
| `SensitiveKeys.SensitiveStringsAreMaskedLocally` | apps/api/src/validation/pii/pii.redactor.ts:77-92 | In the fallback too, when nothing is detected in it |
| `SensitiveKeys.SensitiveKinds` | pii-service/server.py:187-199 | Such a string is reported at its path with the kind its key names |
| `SensitiveKeys.DetectedStringsAreMasked` | pii-service/server.py:86-138 | Under other keys the service replaces each span it keeps by the mask of what it covered, and nothing else, when no kept span encloses another |
| `SensitiveKeys.DetectedStringsAreMaskedLocally` | apps/api/src/validation/pii/pii.redactor.ts:77-95 | The fallback replaces what it detects under any key, when the matches lie apart, and leaves a string alone if it detects nothing and the key is not sensitive |
| `SensitiveKeys.SecretsStayHidden` | pii-service/server.py:120-160 | Trees that differ only in strings under sensitive keys with equal masks become the same tree with the same matches |
| `SensitiveKeys.SecretsStayHiddenLocally` | apps/api/src/validation/pii/pii.redactor.ts:66-113 | So they do in the fallback, where nothing is detected in the strings that differ |

## Left out

- LedgerRuns.UntamperedRuns: asks that the texts hashed before and after each call are free of collisions, because a digest of fixed length cannot be injective on all texts.
- LedgerProperties.RewriteVerification: asks for strictly increasing indices, because the order in which the database returns rows with equal indices is not specified.
- PiiDetector.FallbackSubstitutes: asks that the matches lie apart, because the fallback filters only bank accounts.
- Redaction.ServiceSubstitutes: asks that no kept span encloses another; `Enclosure` says what happens around one that does.
- Enclosure.EnclosureLeavesText: asks that no span inside reaches, by masks that shrink within it, beyond the end of the enclosing one; `Enclosure.AnyDepth` needs no such condition, and spans inside that lie apart meet it.
- LifecycleOnce.ExecutedAtMostOnce: holds of the runs that avoid two steps, because the code lets them happen; `LifecycleOnce.OnceExactly` shows that neither can be allowed.
- LifecycleRedacted.ExecutedAsRedacted: holds of the runs that avoid two steps, because the code lets them happen; `LifecycleRedacted.RedactedExactly` shows that neither can be allowed.
- SensitiveKeys.SensitiveStringsAreMaskedLocally: asks that nothing is detected in the string, because in the fallback detection decides first.
- ExecutedRequests.ExecutedSecretsAreMasked: holds of the runs of `LifecycleRedacted.ExecutedAsRedacted`, outside which requests are executed as they came in.
- LifecycleApart.OnlyOwnFailureSpoils: holds of the runs that avoid certain steps, because the code lets them happen; `LifecycleSpoils.ApartExactly` shows that none of them can be allowed, and `LifecycleRecord.RecordedExactly` needs no condition.
- LifecycleServices.Services.SubmitDecision: is the undisturbed call; its interleavings are the reviewer steps of `Lifecycle.Step`.
- Failures of the database between the writes of one ledger operation, other than the refusal of a duplicate hash.
- More than one worker process; two gateways that number tickets at the same time.
- `system/reset` and the deletion of rows outside the mutex.
- Time stamps of creation, ticket priority and deadline, reasoning texts, factors, recommendations, metrics and notifications.
- The additions to the parameters that the rule engine and the AI classification make in place; with redaction switched off they also reach the recorded request.
- The patterns, the analyser and the rule evaluators themselves, which are arbitrary functions, and the internals of JSON texts, whose serialiser is injective.
- A later answer of a rule evaluator that differs from an earlier one for the same rule and request.
- Case folding outside the letters A to Z.
- Thresholds and scores finer than hundredths.
- Dashboard, configuration cache, request parser, classifier and network clients.
