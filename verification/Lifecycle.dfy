/** A request from the gateway to its final verdict: intercepted, recorded as pending, queued, judged by
  the worker, executed or escalated, and decided by a reviewer.

  The ledger is the list of contents of the audit table; its operations are single steps here because
  the mutex makes them so (module LedgerRuns). Everything else interleaves freely: the gateway, one
  worker, and any number of reviewers. */
module Lifecycle {
  import opened Types
  import opened Ledger
  import opened LedgerOperations
  import opened LedgerRuns

  // ---------------------------------------------------------------- state

  /** The worker's place in `processJob`. */
  datatype Worker =
    | Idle
    | Popped(request: ParsedRequest)
    | Judged(request: ParsedRequest, judgement: Judgement)
    | Executed(request: ParsedRequest, judgement: Judgement, result: Execution)
    | Ticketed(request: ParsedRequest, judgement: Judgement)
    | Written(request: ParsedRequest)
    | Failing(request: ParsedRequest, written: bool)

  /** What the pipeline and the decision engine made of a request. */
  datatype Judgement = Judgement(decision: Decision, validation: ValidationResult, redacted: ParsedRequest)

  datatype TicketStatus = TicketPending | InReview | Approved | Rejected | Expired | Cancelled

  datatype Ticket = Ticket(number: nat, requestId: string, status: TicketStatus)

  /** A reviewer's place in `submitDecision`; `seen` is the audit row loaded with the ticket. */
  datatype ReviewPc =
    | ReviewChecked
    | ReviewExecuted(result: Execution)
    | TicketWritten(result: Execution)
    | ReviewClosed

  datatype Review = Review(ticket: nat, approve: bool, seen: Columns, pc: ReviewPc)

  datatype ExecutionEntry = ExecutionEntry(requestId: string, request: ParsedRequest)

  /** `entering` are intercepts between the ledger row and the queue; `lost` are those whose enqueue
    failed, `abandoned` the jobs that failed and whose fallback write failed too. The three logs record
    the order in which requests were queued, taken and judged. */
  datatype State = State(
    ledger: seq<Columns>,
    entering: map<string, ParsedRequest>,
    queue: seq<ParsedRequest>,
    worker: Worker,
    tickets: seq<Ticket>,
    reviews: seq<Review>,
    executions: seq<ExecutionEntry>,
    judgements: map<string, Judgement>,
    enqueued: seq<string>,
    taken: seq<string>,
    judged: seq<string>,
    lost: set<string>,
    abandoned: set<string>)

  datatype Event =
    | Intercept(request: ParsedRequest, raw: Json, receivedAt: int)
    | Enqueue(id: string)
    | EnqueueFails(id: string)
    | Pop
    | Judge(judgement: Judgement, observe: bool)
    | Execute(success: bool, response: Json)
    | CreateTicket
    | WriteVerdict(now: int)
    | Finish
    | Fail
    | FallbackWrite(validation: ValidationResult, now: int)
    | FallbackFails
    | ReviewStart(ticket: nat, approve: bool)
    | ReviewExecute(review: nat, success: bool, response: Json)
    | ReviewWriteTicket(review: nat)
    | ReviewWriteLedger(review: nat, now: int)
    | ReviewDies(review: nat)

  const EMPTY: State := State([], map[], [], Idle, [], [], [], map[], [], [], [], {}, {})

  // ---------------------------------------------------------------- the ledger

  /** The content of the row of a request. */
  function RowOf(ledger: seq<Columns>, id: string): Option<Columns> {
    match FindContent(ledger, id)
    case None => None
    case Some(k) => Some(ledger[k])
  }

  function AddRow(ledger: seq<Columns>, data: Columns): seq<Columns> {
    ContentStep(ledger, RecordCall(data, ""))
  }

  function RewriteRow(ledger: seq<Columns>, id: string, edit: Edit): seq<Columns> {
    ContentStep(ledger, RewriteCall(id, edit))
  }

  const INITIAL_RESULT := ValidationResult(false, [], 0, [])
  const INITIAL_DECISION := Decision(Pending, 0, false)

  function InitialRow(request: ParsedRequest, raw: Json, receivedAt: int): Columns {
    Columns(request.id, request.sessionId, request.agentId, receivedAt, receivedAt, raw, request,
            INITIAL_RESULT, INITIAL_DECISION, None)
  }

  // ---------------------------------------------------------------- gateway

  function InterceptStep(s: State, request: ParsedRequest, raw: Json, receivedAt: int): State {
    if RowOf(s.ledger, request.id).Some? then s  // the unique column refuses the row: answered with an error
    else s.(ledger := AddRow(s.ledger, InitialRow(request, raw, receivedAt)),
            entering := s.entering[request.id := request])
  }

  /** `lpush`. */
  function EnqueueStep(s: State, id: string): State {
    if id !in s.entering then s
    else s.(entering := s.entering - {id}, queue := [s.entering[id]] + s.queue, enqueued := s.enqueued + [id])
  }

  function EnqueueFailsStep(s: State, id: string): State {
    if id !in s.entering then s else s.(entering := s.entering - {id}, lost := s.lost + {id})
  }

  // ---------------------------------------------------------------- worker

  /** `brpop`. */
  function PopStep(s: State): State {
    if !s.worker.Idle? || s.queue == [] then s
    else
      var job := s.queue[|s.queue| - 1];
      s.(queue := s.queue[..|s.queue| - 1], worker := Popped(job), taken := s.taken + [job.id])
  }

  /** In OBSERVE mode every verdict becomes an approval. */
  function Override(decision: Decision, observe: bool): Decision {
    if observe && decision.verdict != Approve then decision.(verdict := Approve, observeOverride := true) else decision
  }

  function JudgeStep(s: State, judgement: Judgement, observe: bool): State {
    if !s.worker.Popped? || judgement.redacted.id != s.worker.request.id || judgement.decision.verdict == Pending then s
    else
      var final := judgement.(decision := Override(judgement.decision, observe));
      s.(worker := Judged(s.worker.request, final),
         judgements := s.judgements[s.worker.request.id := final],
         judged := s.judged + [s.worker.request.id])
  }

  function ExecuteStep(s: State, success: bool, response: Json): State {
    if !s.worker.Judged? || s.worker.judgement.decision.verdict != Approve then s
    else
      var redacted := s.worker.judgement.redacted;
      s.(worker := Executed(s.worker.request, s.worker.judgement, Execution(redacted.id, success, response)),
         executions := s.executions + [ExecutionEntry(s.worker.request.id, redacted)])
  }

  function TicketNumber(count: nat): nat {
    1000 + count + 1
  }

  function HasTicket(tickets: seq<Ticket>, id: string): bool {
    exists t :: 0 <= t < |tickets| && tickets[t].requestId == id
  }

  /** `escalate`: refused when the row is missing or the request has a ticket already. */
  function CreateTicketStep(s: State): State {
    if !s.worker.Judged? || s.worker.judgement.decision.verdict != Escalate then s
    else
      var id := s.worker.judgement.redacted.id;
      if RowOf(s.ledger, id).None? || HasTicket(s.tickets, id)
      then s.(worker := Failing(s.worker.request, false))
      else s.(worker := Ticketed(s.worker.request, s.worker.judgement),
              tickets := s.tickets + [Ticket(TicketNumber(|s.tickets|), id, TicketPending)])
  }

  function VerdictEdit(judgement: Judgement, result: Option<Execution>, now: int): Edit {
    Edit(judgement.decision, result, Some(judgement.validation), Some(judgement.redacted), now)
  }

  /** The ledger write after execution, after the ticket, or, for a blocked request, straight away. */
  function WriteVerdictStep(s: State, now: int): State {
    var w := s.worker;
    if w.Executed? || w.Ticketed? || (w.Judged? && w.judgement.decision.verdict == Block) then
      var result := if w.Executed? then Some(w.result) else None;
      s.(worker := Written(w.request),
         ledger := RewriteRow(s.ledger, w.request.id, VerdictEdit(w.judgement, result, now)))
    else s
  }

  function FinishStep(s: State): State {
    if s.worker.Written? then s.(worker := Idle) else s
  }

  /** Any step of `processJob` may throw. */
  function FailStep(s: State): State {
    if s.worker.Idle? || s.worker.Failing? then s
    else s.(worker := Failing(s.worker.request, s.worker.Written?))
  }

  function FallbackEdit(validation: ValidationResult, now: int): Edit {
    Edit(Decision(Block, 100, false), None, Some(validation), None, now)
  }

  function FallbackWriteStep(s: State, validation: ValidationResult, now: int): State {
    if !s.worker.Failing? then s
    else s.(worker := Idle, ledger := RewriteRow(s.ledger, s.worker.request.id, FallbackEdit(validation, now)))
  }

  function FallbackFailsStep(s: State): State {
    if !s.worker.Failing? then s
    else s.(worker := Idle, abandoned := if s.worker.written then s.abandoned else s.abandoned + {s.worker.request.id})
  }

  // ---------------------------------------------------------------- reviewers

  predicate Open(status: TicketStatus) {
    status.TicketPending? || status.InReview?
  }

  /** The ticket and its audit row are read and the status is checked. */
  function ReviewStartStep(s: State, ticket: nat, approve: bool): State {
    if ticket >= |s.tickets| || !Open(s.tickets[ticket].status) then s
    else
      match RowOf(s.ledger, s.tickets[ticket].requestId)
      case None => s
      case Some(seen) => s.(reviews := s.reviews + [Review(ticket, approve, seen, ReviewChecked)])
  }

  function ReviewExecuteStep(s: State, i: nat, success: bool, response: Json): State {
    if i >= |s.reviews| || s.reviews[i].pc != ReviewChecked || !s.reviews[i].approve then s
    else
      var r := s.reviews[i];
      var request := r.seen.parsedRequest;
      s.(reviews := s.reviews[i := r.(pc := ReviewExecuted(Execution(request.id, success, response)))],
         executions := s.executions + [ExecutionEntry(r.seen.requestId, request)])
  }

  function ReviewWriteTicketStep(s: State, i: nat): State {
    if i >= |s.reviews| || s.reviews[i].ticket >= |s.tickets| then s
    else
      var r := s.reviews[i];
      var ready := if r.approve then r.pc.ReviewExecuted? else r.pc.ReviewChecked?;
      if !ready then s
      else
        var result := if r.approve then r.pc.result else Execution(r.seen.requestId, false, JNull);
        s.(reviews := s.reviews[i := r.(pc := TicketWritten(result))],
           tickets := s.tickets[r.ticket := s.tickets[r.ticket].(status := if r.approve then Approved else Rejected)])
  }

  function ReviewEdit(r: Review, result: Execution, now: int): Edit {
    Edit(r.seen.decisionRecord.(verdict := if r.approve then Approve else Block), Some(result), None, None, now)
  }

  function ReviewWriteLedgerStep(s: State, i: nat, now: int): State {
    if i >= |s.reviews| || !s.reviews[i].pc.TicketWritten? then s
    else
      var r := s.reviews[i];
      s.(reviews := s.reviews[i := r.(pc := ReviewClosed)],
         ledger := RewriteRow(s.ledger, r.seen.requestId, ReviewEdit(r, r.pc.result, now)))
  }

  function ReviewDiesStep(s: State, i: nat): State {
    if i >= |s.reviews| then s else s.(reviews := s.reviews[i := s.reviews[i].(pc := ReviewClosed)])
  }

  // ---------------------------------------------------------------- runs

  function Step(s: State, e: Event): State {
    match e
    case Intercept(request, raw, receivedAt) => InterceptStep(s, request, raw, receivedAt)
    case Enqueue(id) => EnqueueStep(s, id)
    case EnqueueFails(id) => EnqueueFailsStep(s, id)
    case Pop => PopStep(s)
    case Judge(judgement, observe) => JudgeStep(s, judgement, observe)
    case Execute(success, response) => ExecuteStep(s, success, response)
    case CreateTicket => CreateTicketStep(s)
    case WriteVerdict(now) => WriteVerdictStep(s, now)
    case Finish => FinishStep(s)
    case Fail => FailStep(s)
    case FallbackWrite(validation, now) => FallbackWriteStep(s, validation, now)
    case FallbackFails => FallbackFailsStep(s)
    case ReviewStart(ticket, approve) => ReviewStartStep(s, ticket, approve)
    case ReviewExecute(i, success, response) => ReviewExecuteStep(s, i, success, response)
    case ReviewWriteTicket(i) => ReviewWriteTicketStep(s, i)
    case ReviewWriteLedger(i, now) => ReviewWriteLedgerStep(s, i, now)
    case ReviewDies(i) => ReviewDiesStep(s, i)
  }

  function Run(s: State, events: seq<Event>): State {
    if events == [] then s else Step(Run(s, events[..|events| - 1]), events[|events| - 1])
  }

  // ---------------------------------------------------------------- polling

  datatype Status = StatusPending | StatusEscalated | StatusRejected | StatusCompleted

  /** `getStatus`. */
  function StatusOf(verdict: Verdict): Status {
    match verdict
    case Pending => StatusPending
    case Escalate => StatusEscalated
    case Block => StatusRejected
    case Approve => StatusCompleted
  }
}
