/** The gateway, the worker loop and the review service as code that updates queue, tickets and ledger,
  each method tied to the steps of the life cycle it takes when nothing comes between them. */
module LifecycleServices {
  import opened Types
  import opened Ledger
  import opened Lifecycle

  // ---------------------------------------------------------------- what the outside world contributes

  /** Where `processJob` throws, if it does. */
  datatype Failure = NoFailure | InPipeline | InAction | InWrite | InNotify

  /** One pass of the worker: what the pipeline and the decision engine answer, how the execution ends,
    what throws, and whether the fallback write succeeds. */
  datatype Turn = Turn(
    decision: Decision,
    validation: ValidationResult,
    redactedParameters: Json,
    observe: bool,
    success: bool,
    response: Json,
    failure: Failure,
    fallbackWorks: bool,
    now: int)

  const SYSTEM_ERROR := ValidationResult(false, [ValidationFailure("SYSTEM_ERROR", SevCritical)], 100, [])

  function JudgementOf(job: ParsedRequest, turn: Turn): Judgement {
    Judgement(turn.decision, turn.validation, job.(parameters := turn.redactedParameters))
  }

  // ---------------------------------------------------------------- the steps of one pass

  function Throwing(s: State, turn: Turn, at: Failure): State {
    if turn.failure == at then FailStep(s) else s
  }

  function Judging(s: State, turn: Turn, job: ParsedRequest): State {
    JudgeStep(Throwing(s, turn, InPipeline), JudgementOf(job, turn), turn.observe)
  }

  function Acting(s: State, turn: Turn): State {
    CreateTicketStep(ExecuteStep(Throwing(s, turn, InAction), turn.success, turn.response))
  }

  function Writing(s: State, turn: Turn): State {
    FinishStep(Throwing(WriteVerdictStep(Throwing(s, turn, InWrite), turn.now), turn, InNotify))
  }

  function Recovering(s: State, turn: Turn): State {
    if turn.fallbackWorks then FallbackWriteStep(s, SYSTEM_ERROR, turn.now) else FallbackFailsStep(s)
  }

  function Processing(s: State, turn: Turn, job: ParsedRequest): State {
    Recovering(Writing(Acting(Judging(s, turn, job), turn), turn), turn)
  }

  predicate Decided(turns: seq<Turn>) {
    forall k :: 0 <= k < |turns| ==> turns[k].decision.verdict != Pending
  }

  /** The worker takes jobs while it has turns and the queue has jobs. */
  function Draining(s: State, turns: seq<Turn>): State
    decreases |turns|
  {
    if turns == [] || s.queue == [] then s
    else Draining(Processing(PopStep(s), turns[0], s.queue[|s.queue| - 1]), turns[1..])
  }

  function Reviewing(s: State, ticket: nat, approve: bool, success: bool, response: Json, now: int): State {
    var i := |s.reviews|;
    ReviewWriteLedgerStep(
      ReviewWriteTicketStep(ReviewExecuteStep(ReviewStartStep(s, ticket, approve), i, success, response), i), i, now)
  }

  /** What the worker holds when it comes to the ledger write. */
  predicate ReadyToWrite(worker: Worker, job: ParsedRequest, judgement: Judgement, result: Option<Execution>) {
    && (worker.Executed? || worker.Ticketed? || (worker.Judged? && worker.judgement.decision.verdict == Block))
    && worker.request == job && worker.judgement == judgement
    && result == if worker.Executed? then Some(worker.result) else None
  }

  // ---------------------------------------------------------------- the services

  datatype Answer = Accepted | Refused

  class Services {
    var ledger: seq<Columns>
    var queue: seq<ParsedRequest>
    var tickets: seq<Ticket>
    var executions: seq<ExecutionEntry>
    /** The rest of the state the runs speak of: who is where, and the logs. */
    ghost var rest: State

    ghost function Now(): State
      reads this
    {
      rest.(ledger := ledger, queue := queue, tickets := tickets, executions := executions)
    }

    constructor ()
      ensures Now() == EMPTY
    {
      ledger, queue, tickets, executions := [], [], [], [];
      rest := EMPTY;
    }

    method FindRow(id: string) returns (row: Option<Columns>)
      ensures row == RowOf(ledger, id)
    {
      row := None;
      for k := 0 to |ledger|
        invariant row == RowOf(ledger[..k], id)
      {
        assert ledger[..k + 1][..k] == ledger[..k];
        if ledger[k].requestId == id {
          row := Some(ledger[k]);
        }
      }
      assert ledger[..|ledger|] == ledger;
    }

    /** `intercept`: the pending row, then the queue. */
    method Intercept(request: ParsedRequest, raw: Json, receivedAt: int, enqueueWorks: bool) returns (answer: Answer)
      modifies this
      ensures answer.Accepted? <==> RowOf(old(ledger), request.id).None? && enqueueWorks
      ensures RowOf(old(ledger), request.id).Some? ==> Now() == old(Now())
      ensures RowOf(old(ledger), request.id).None? ==>
                var recorded := InterceptStep(old(Now()), request, raw, receivedAt);
                Now() == if enqueueWorks then EnqueueStep(recorded, request.id) else EnqueueFailsStep(recorded,
                    request.id)
    {
      ghost var s := Now();
      var row := FindRow(request.id);
      if row.Some? {
        return Refused;
      }
      ledger := AddRow(ledger, InitialRow(request, raw, receivedAt));
      s := InterceptStep(s, request, raw, receivedAt);
      if !enqueueWorks {
        rest := EnqueueFailsStep(s, request.id);
        return Refused;
      }
      queue := [request] + queue;
      rest := EnqueueStep(s, request.id);
      return Accepted;
    }

    /** `escalate`: throws when the request has no row, or has a ticket already. */
    method Escalate(id: string) returns (answer: Answer)
      requires Now().worker.Judged? && Now().worker.judgement.decision.verdict.Escalate?
      requires Now().worker.judgement.redacted.id == id
      modifies `tickets, `rest
      ensures Now() == CreateTicketStep(old(Now()))
      ensures answer.Accepted? <==> Now().worker.Ticketed?
      ensures answer.Accepted? <==>
                RowOf(ledger, id).Some? && forall t :: 0 <= t < |old(tickets)| ==> old(tickets)[t].requestId != id
      ensures tickets == if answer.Accepted? then old(tickets) + [Ticket(1001 + |old(tickets)|, id, TicketPending)]
                         else old(tickets)
    {
      ghost var s := Now();
      var row := FindRow(id);
      var taken := false;
      for t := 0 to |tickets|
        invariant taken <==> exists u :: 0 <= u < t && tickets[u].requestId == id
      {
        taken := taken || tickets[t].requestId == id;
      }
      rest := CreateTicketStep(s);
      if row.None? || taken {
        return Refused;
      }
      tickets := tickets + [Ticket(TicketNumber(|tickets|), id, TicketPending)];
      return Accepted;
    }

    /** The `try` block of `processJob` up to the ledger write: the verdict, and what it asks for. */
    method Act(job: ParsedRequest, turn: Turn) returns (judgement: Judgement, result: Option<Execution>, failed: bool)
      requires Now().worker == Popped(job) && turn.decision.verdict != Pending
      modifies `tickets, `executions, `rest
      ensures Now() == Acting(Judging(old(Now()), turn, job), turn)
      ensures failed <==> Now().worker.Failing?
      ensures !failed ==> ReadyToWrite(Now().worker, job, judgement, result)
    {
      ghost var s := Now();
      result := None;
      judgement := JudgementOf(job, turn);
      rest := Judging(s, turn, job);
      if turn.failure == InPipeline {
        failed := true;
        return;
      }
      if turn.observe && judgement.decision.verdict != Approve {
        judgement := judgement.(decision := judgement.decision.(verdict := Approve, observeOverride := true));
      }
      s := Now();
      rest := Throwing(s, turn, InAction);
      if turn.failure == InAction {
        failed := true;
        return;
      }
      failed := false;
      if judgement.decision.verdict == Approve {
        result := Some(Execution(judgement.redacted.id, turn.success, turn.response));
        executions := executions + [ExecutionEntry(job.id, judgement.redacted)];
        rest := ExecuteStep(s, turn.success, turn.response);
      } else if judgement.decision.verdict == Verdict.Escalate {
        var answer := Escalate(judgement.redacted.id);
        failed := answer.Refused?;
      }
    }

    /** The rest of the `try` block: the ledger write and the notifications. */
    method Write(job: ParsedRequest, judgement: Judgement, result: Option<Execution>, turn: Turn) returns (failed: bool)
      requires ReadyToWrite(Now().worker, job, judgement, result)
      modifies `ledger, `rest
      ensures Now() == Writing(old(Now()), turn)
      ensures if failed then Now().worker.Failing? && Now().worker.request == job else Now().worker.Idle?
    {
      ghost var s := Now();
      rest := Writing(s, turn);
      if turn.failure == InWrite {
        return true;
      }
      ledger := RewriteRow(ledger, job.id, VerdictEdit(judgement, result, turn.now));
      return turn.failure == InNotify;
    }

    /** `processJob`. */
    method ProcessJob(job: ParsedRequest, turn: Turn)
      requires Now().worker == Popped(job) && turn.decision.verdict != Pending
      modifies `ledger, `tickets, `executions, `rest
      ensures Now() == Processing(old(Now()), turn, job)
      ensures Now().worker.Idle?
    {
      var judgement, result, failed := Act(job, turn);
      ghost var s := Now();
      if failed {
        FailingPassesWriting(s, turn);
      } else {
        failed := Write(job, judgement, result, turn);
      }
      s := Now();
      rest := Recovering(s, turn);
      if failed && turn.fallbackWorks {
        ledger := RewriteRow(ledger, job.id, FallbackEdit(SYSTEM_ERROR, turn.now));
      }
    }

    /** `brpop`. */
    method TakeJob() returns (job: ParsedRequest)
      requires Now().worker.Idle? && queue != []
      modifies `queue, `rest
      ensures job == old(queue[|queue| - 1]) && queue == old(queue[..|queue| - 1])
      ensures Now() == PopStep(old(Now())) && Now().worker == Popped(job)
    {
      rest := PopStep(Now());
      job := queue[|queue| - 1];
      queue := queue[..|queue| - 1];
    }

    /** One pass of the worker loop. */
    method ProcessNext(turns: seq<Turn>, k: nat)
      requires Now().worker.Idle? && queue != [] && k < |turns| && turns[k].decision.verdict != Pending
      modifies this
      ensures Draining(Now(), turns[k + 1..]) == Draining(old(Now()), turns[k..])
      ensures Now().worker.Idle? && queue == old(queue[..|queue| - 1])
    {
      DrainOne(Now(), turns, k);
      var job := TakeJob();
      ProcessJob(job, turns[k]);
    }

    /** `startWorkerLoop`, for as long as jobs and turns last. */
    method StartWorkerLoop(turns: seq<Turn>)
      requires Now().worker.Idle? && Decided(turns)
      modifies this
      ensures Now() == Draining(old(Now()), turns)
      ensures Now().worker.Idle?
    {
      ghost var s := Now();
      var k := 0;
      while k < |turns| && queue != []
        invariant k <= |turns| && Now().worker.Idle?
        invariant Draining(s, turns) == Draining(Now(), turns[k..])
        decreases |turns| - k
      {
        ProcessNext(turns, k);
        k := k + 1;
      }
    }

    /** `submitDecision`, with nothing between its steps. */
    method SubmitDecision(ticket: nat, approve: bool, success: bool, response: Json, now: int) returns (answer: Answer)
      modifies `ledger, `tickets, `executions, `rest
      ensures Now() == Reviewing(old(Now()), ticket, approve, success, response, now)
      ensures answer.Accepted? <==>
                && ticket < |old(tickets)|
                && (old(tickets)[ticket].status == TicketPending || old(tickets)[ticket].status == InReview)
                && RowOf(old(ledger), old(tickets)[ticket].requestId).Some?
      ensures answer.Refused? ==> Now() == old(Now())
    {
      if ticket >= |tickets| || !Open(tickets[ticket].status) {
        return Refused;
      }
      var row := FindRow(tickets[ticket].requestId);
      if row.None? {
        return Refused;
      }
      ghost var s := Now();
      ghost var i := |s.reviews|;
      rest := Reviewing(s, ticket, approve, success, response, now);
      var seen := row.value;
      var result := Execution(seen.requestId, false, JNull);
      if approve {
        result := Execution(seen.parsedRequest.id, success, response);
        executions := executions + [ExecutionEntry(seen.requestId, seen.parsedRequest)];
      }
      tickets := tickets[ticket := tickets[ticket].(status := if approve then Approved else Rejected)];
      var verdict := if approve then Approve else Block;
      ledger := RewriteRow(ledger, seen.requestId,
                           Edit(seen.decisionRecord.(verdict := verdict), Some(result), None, None, now));
      return Accepted;
    }
  }

  lemma {:induction false} DrainOne(s: State, turns: seq<Turn>, k: nat)
    requires k < |turns| && s.queue != []
    ensures Draining(s, turns[k..])
              == Draining(Processing(PopStep(s), turns[k], s.queue[|s.queue| - 1]), turns[k + 1..])
  {
    assert turns[k..][1..] == turns[k + 1..];
  }

  lemma {:induction false} FailingPassesWriting(s: State, turn: Turn)
    requires s.worker.Failing?
    ensures Writing(s, turn) == s
  {
  }
}
