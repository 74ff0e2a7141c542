/** What the services do when nothing comes between their steps: what a pass of the worker, wherever it throws,
  and a review change and what they leave alone, and how the worker drains the queue. */
module LifecycleSequential {
  import opened Types
  import opened Ledger
  import opened Lifecycle
  import opened LifecycleSafety
  import opened LifecycleConservation
  import opened LifecycleOnce
  import opened LifecycleJudged
  import opened LifecycleAgreement
  import opened LifecycleServices

  // ---------------------------------------------------------------- draining the queue

  lemma {:induction false} ThrowingInv(s: State, turn: Turn, at: Failure)
    requires Inv(s)
    ensures Inv(Throwing(s, turn, at))
  {
    FailInv(s);
  }

  lemma {:induction false} ActingInv(s: State, turn: Turn, job: ParsedRequest)
    requires Inv(s)
    ensures Inv(Acting(Judging(s, turn, job), turn))
  {
    ThrowingInv(s, turn, InPipeline);
    JudgeInv(Throwing(s, turn, InPipeline), JudgementOf(job, turn), turn.observe);
    var s1 := Judging(s, turn, job);
    ThrowingInv(s1, turn, InAction);
    var s2 := Throwing(s1, turn, InAction);
    ExecuteInv(s2, turn.success, turn.response);
    CreateTicketInv(ExecuteStep(s2, turn.success, turn.response));
  }

  lemma {:induction false} RecoveringInv(s: State, turn: Turn)
    requires Inv(s)
    ensures Inv(Recovering(Writing(s, turn), turn))
  {
    ThrowingInv(s, turn, InWrite);
    var s1 := Throwing(s, turn, InWrite);
    WriteVerdictInv(s1, turn.now);
    ThrowingInv(WriteVerdictStep(s1, turn.now), turn, InNotify);
    FinishInv(Throwing(WriteVerdictStep(s1, turn.now), turn, InNotify));
    FallbackWriteInv(Writing(s, turn), SYSTEM_ERROR, turn.now);
    FallbackFailsInv(Writing(s, turn));
  }

  /** The parts of the state a pass of the worker leaves alone, once the job is taken. */
  predicate SameQueues(s: State, t: State) {
    && t.queue == s.queue && t.entering == s.entering && t.lost == s.lost
    && t.enqueued == s.enqueued && t.taken == s.taken
  }

  lemma {:induction false} JudgingReady(s: State, turn: Turn, job: ParsedRequest)
    requires s.worker == Popped(job) && turn.decision.verdict != Pending
    ensures var t := Judging(s, turn, job);
            && t.worker.request == job && SameQueues(s, t) && t.abandoned == s.abandoned
            && (t.worker.Failing? ||
                (t.worker.Judged? && t.worker.judgement.decision.verdict != Pending))
            && (turn.failure == NoFailure ==>
                t.worker.Judged? && t.worker.judgement.decision == Override(turn.decision, turn.observe))
  {
  }

  lemma {:induction false} ActingReady(s: State, turn: Turn)
    requires s.worker.Failing? || (s.worker.Judged? && s.worker.judgement.decision.verdict != Pending)
    ensures var t := Acting(s, turn);
            && t.worker.request == s.worker.request && SameQueues(s, t) && t.abandoned == s.abandoned
            && (t.worker.Failing? ||
                (s.worker.Judged? && ReadyToWrite(t.worker, s.worker.request, s.worker.judgement,
                                                  if t.worker.Executed? then Some(t.worker.result) else None)))
  {
    var s1 := Throwing(s, turn, InAction);
    ExecutingReady(s1, turn);
    TicketingReady(ExecuteStep(s1, turn.success, turn.response));
  }

  lemma {:induction false} ExecutingReady(s: State, turn: Turn)
    requires s.worker.Failing? || (s.worker.Judged? && s.worker.judgement.decision.verdict != Pending)
    ensures var t := ExecuteStep(s, turn.success, turn.response);
            && t.worker.request == s.worker.request && SameQueues(s, t) && t.abandoned == s.abandoned
            && if s.worker.Judged? && s.worker.judgement.decision.verdict == Approve
               then t.worker.Executed? && t.worker.judgement == s.worker.judgement
               else t == s
  {
  }

  lemma {:induction false} TicketingReady(s: State)
    requires s.worker.Failing? || s.worker.Executed? ||
             (s.worker.Judged? &&
              (s.worker.judgement.decision.verdict == Escalate || s.worker.judgement.decision.verdict == Block))
    ensures var t := CreateTicketStep(s);
            && t.worker.request == s.worker.request && SameQueues(s, t) && t.abandoned == s.abandoned
            && (t.worker.Failing? || t.worker == s.worker || t.worker == Ticketed(s.worker.request, s.worker.judgement))
            && (s.worker.Judged? && t.worker == s.worker ==> s.worker.judgement.decision.verdict == Block)
  {
  }

  lemma {:induction false} WritingEnds(s: State, turn: Turn)
    requires s.worker.Executed? || s.worker.Ticketed? || s.worker.Failing? ||
             (s.worker.Judged? && s.worker.judgement.decision.verdict == Block)
    ensures var t := Recovering(Writing(s, turn), turn);
            && t.worker.Idle? && SameQueues(s, t)
            && (turn.fallbackWorks ==> t.abandoned == s.abandoned)
  {
    WritingStops(s, turn);
    var t := Writing(s, turn);
    assert SameQueues(s, t) && t.abandoned == s.abandoned;
  }

  lemma {:induction false} WritingStops(s: State, turn: Turn)
    requires s.worker.Executed? || s.worker.Ticketed? || s.worker.Failing? ||
             (s.worker.Judged? && s.worker.judgement.decision.verdict == Block)
    ensures Writing(s, turn).worker.Idle? || Writing(s, turn).worker.Failing?
    ensures Writing(s, turn) == s.(worker := Writing(s, turn).worker, ledger := Writing(s, turn).ledger)
  {
    var s1 := Throwing(s, turn, InWrite);
    var s2 := WriteVerdictStep(s1, turn.now);
    assert s2.worker.Failing? || s2.worker.Written?;
  }

  lemma {:induction false} ProcessingEnds(s: State, turn: Turn, job: ParsedRequest)
    requires s.worker == Popped(job) && turn.decision.verdict != Pending
    ensures var t := Processing(s, turn, job);
            && t.worker.Idle? && SameQueues(s, t)
            && (turn.fallbackWorks ==> t.abandoned == s.abandoned)
  {
    JudgingReady(s, turn, job);
    var s1 := Judging(s, turn, job);
    ActingReady(s1, turn);
    WritingEnds(Acting(s1, turn), turn);
  }

  lemma {:induction false} ProcessingInv(s: State, turn: Turn, job: ParsedRequest)
    requires Inv(s)
    ensures Inv(Processing(s, turn, job))
  {
    ActingInv(s, turn, job);
    RecoveringInv(Acting(Judging(s, turn, job), turn), turn);
  }

  /** With turns enough and a fallback that works, the worker empties the queue, takes the jobs in the
    order in which they were queued, and leaves no row pending but those that never reached the queue or
    were abandoned before. */
  lemma {:induction false} DrainLeavesNothingPending(s: State, turns: seq<Turn>)
    requires Inv(s) && s.worker.Idle? && Decided(turns) && |turns| >= |s.queue|
    requires forall k :: 0 <= k < |turns| ==> turns[k].fallbackWorks
    ensures var t := Draining(s, turns);
            && t.queue == [] && t.worker.Idle? && t.taken == s.taken + Oldest(s.queue)
            && forall id :: PendingRow(t.ledger, id) ==> id in s.entering || id in s.lost || id in s.abandoned
    decreases |turns|
  {
    if s.queue == [] {
      forall id | PendingRow(s.ledger, id)
        ensures id in s.entering || id in s.lost || id in s.abandoned
      {
        assert IdInv(s, id);
      }
    } else {
      var job := s.queue[|s.queue| - 1];
      PopInv(s);
      PopOldest(s.queue);
      var s1 := PopStep(s);
      ProcessingEnds(s1, turns[0], job);
      ProcessingInv(s1, turns[0], job);
      DrainLeavesNothingPending(Processing(s1, turns[0], job), turns[1..]);
    }
  }

  // ---------------------------------------------------------------- one pass of the worker

  /** The verdict the row ends with. */
  function EndVerdict(turn: Turn): Verdict {
    if turn.failure == NoFailure || (turn.failure == InNotify && !turn.fallbackWorks)
    then Override(turn.decision, turn.observe).verdict
    else if turn.fallbackWorks then Block
    else Pending
  }

  /** The pass comes as far as executing the request or creating its ticket. */
  predicate ActsOn(turn: Turn, verdict: Verdict) {
    turn.failure != InPipeline && turn.failure != InAction && Override(turn.decision, turn.observe).verdict == verdict
  }

  function FinalJudgement(job: ParsedRequest, turn: Turn): Judgement {
    JudgementOf(job, turn).(decision := Override(turn.decision, turn.observe))
  }

  lemma {:induction false} JudgingEffect(s: State, turn: Turn, job: ParsedRequest)
    requires s.worker == Popped(job) && turn.decision.verdict != Pending
    ensures var t := Judging(s, turn, job);
            && t == s.(worker := t.worker, judgements := t.judgements, judged := t.judged)
            && t.worker == if turn.failure == InPipeline then Failing(job, false)
                           else Judged(job, FinalJudgement(job, turn))
  {
  }

  lemma {:induction false} ActingEffect(s: State, turn: Turn)
    requires Consistent(s) && s.worker.Judged? && turn.failure != InAction
    ensures var job, j, t := s.worker.request, s.worker.judgement, Acting(s, turn);
            if j.decision.verdict == Approve then
              t == s.(worker := Executed(job, j, Execution(j.redacted.id, turn.success, turn.response)),
                      executions := s.executions + [ExecutionEntry(job.id, j.redacted)])
            else if j.decision.verdict == Escalate then
              t == s.(worker := Ticketed(job, j),
                      tickets := s.tickets + [Ticket(TicketNumber(|s.tickets|), job.id, TicketPending)])
            else t == s
  {
    if s.worker.judgement.decision.verdict == Escalate {
      TicketIsAccepted(s);
    }
  }

  lemma {:induction false} FailedActing(s: State, turn: Turn)
    requires s.worker.Failing? || (s.worker.Judged? && turn.failure == InAction)
    ensures Acting(s, turn) == s.(worker := Failing(s.worker.request, s.worker.Failing? && s.worker.written))
  {
  }

  /** A pass that has failed before the write ends with the fallback. */
  lemma {:induction false} FailedWriting(s: State, turn: Turn, id: string)
    requires s.worker.Failing? && VerdictIn(s.ledger, s.worker.request.id) == Some(Pending)
    requires turn.failure != NoFailure && (turn.failure == InNotify ==> turn.fallbackWorks)
    ensures var t := Recovering(Writing(s, turn), turn);
            && t == s.(worker := Idle, ledger := t.ledger, abandoned := t.abandoned)
            && VerdictIn(t.ledger, id)
               == if id == s.worker.request.id then Some(EndVerdict(turn)) else VerdictIn(s.ledger, id)
  {
    FailingPassesWriting(s, turn);
    VerdictAfterRewrite(s.ledger, s.worker.request.id, FallbackEdit(SYSTEM_ERROR, turn.now), id);
  }

  predicate AboutToWrite(worker: Worker) {
    worker.Executed? || worker.Ticketed? || (worker.Judged? && worker.judgement.decision.verdict == Block)
  }

  lemma {:induction false} VerdictWritten(s: State, now: int, id: string)
    requires AboutToWrite(s.worker) && VerdictIn(s.ledger, s.worker.request.id).Some?
    ensures var t := WriteVerdictStep(s, now);
            && t == s.(worker := Written(s.worker.request), ledger := t.ledger)
            && VerdictIn(t.ledger, id)
               == if id == s.worker.request.id then Some(s.worker.judgement.decision.verdict)
                  else VerdictIn(s.ledger, id)
  {
    var w := s.worker;
    VerdictAfterRewrite(s.ledger, w.request.id,
                        VerdictEdit(w.judgement, if w.Executed? then Some(w.result) else None, now), id);
  }

  /** The notifications come last; if they throw, the fallback overwrites the row. */
  lemma {:induction false} WrittenEnds(s: State, turn: Turn, id: string)
    requires s.worker.Written? && VerdictIn(s.ledger, s.worker.request.id).Some?
    ensures var t := Recovering(FinishStep(Throwing(s, turn, InNotify)), turn);
            && t == s.(worker := Idle, ledger := t.ledger, abandoned := t.abandoned)
            && VerdictIn(t.ledger, id)
               == if id == s.worker.request.id && turn.failure == InNotify && turn.fallbackWorks then Some(Block)
                  else VerdictIn(s.ledger, id)
  {
    VerdictAfterRewrite(s.ledger, s.worker.request.id, FallbackEdit(SYSTEM_ERROR, turn.now), id);
  }

  lemma {:induction false} WritingEffect(s: State, turn: Turn, id: string)
    requires AboutToWrite(s.worker) && VerdictIn(s.ledger, s.worker.request.id) == Some(Pending)
    requires turn.failure != InPipeline && turn.failure != InAction
    requires s.worker.judgement.decision == Override(turn.decision, turn.observe)
    ensures var t := Recovering(Writing(s, turn), turn);
            && t == s.(worker := Idle, ledger := t.ledger, abandoned := t.abandoned)
            && VerdictIn(t.ledger, id)
               == if id == s.worker.request.id then Some(EndVerdict(turn)) else VerdictIn(s.ledger, id)
  {
    if turn.failure == InWrite {
      FailedWriting(FailStep(s), turn, id);
      assert Writing(s, turn) == Writing(FailStep(s), turn);
    } else {
      var u := WriteVerdictStep(s, turn.now);
      VerdictWritten(s, turn.now, id);
      VerdictWritten(s, turn.now, s.worker.request.id);
      WrittenEnds(u, turn, id);
    }
  }

  /** The rest of a pass, from the verdict on. */
  lemma {:induction false} JudgedEffect(s: State, turn: Turn, id: string)
    requires Consistent(s) && s.worker.Judged? && VerdictIn(s.ledger, s.worker.request.id) == Some(Pending)
    requires s.worker.judgement.decision == Override(turn.decision, turn.observe) && turn.failure != InPipeline
    ensures var me := s.worker.request.id;
            var t := Recovering(Writing(Acting(s, turn), turn), turn);
            && t.worker.Idle? && t.reviews == s.reviews
            && VerdictIn(t.ledger, id) == (if id == me then Some(EndVerdict(turn)) else VerdictIn(s.ledger, id))
            && Count(t.executions, id) == Count(s.executions, id) + (if id == me && ActsOn(turn, Approve) then 1 else 0)
            && (HasTicket(t.tickets, id) <==> HasTicket(s.tickets, id) || (id == me && ActsOn(turn, Escalate)))
  {
    if turn.failure == InAction {
      FailedActing(s, turn);
      FailedWriting(Acting(s, turn), turn, id);
    } else {
      var j := s.worker.judgement;
      ActingEffect(s, turn);
      WritingEffect(Acting(s, turn), turn, id);
      CountGrows(s.executions, ExecutionEntry(s.worker.request.id, j.redacted), id);
      MoreTickets(s.tickets, Ticket(TicketNumber(|s.tickets|), s.worker.request.id, TicketPending), id);
    }
  }

  /** One pass of the worker, whatever happened before, whoever is reviewing, and wherever it throws: the row of
    the job ends with the decided verdict, with BLOCK, or pending; the job is executed once exactly when the
    pass acts on an approval, and gets a ticket exactly when it acts on an escalation; no other request is
    touched. */
  lemma {:induction false} ProcessingEffect(s: State, turn: Turn, id: string)
    requires Consistent(s) && s.worker.Idle? && s.queue != [] && turn.decision.verdict != Pending
    ensures var me := s.queue[|s.queue| - 1].id;
            var t := Processing(PopStep(s), turn, s.queue[|s.queue| - 1]);
            && t.worker.Idle? && t.reviews == s.reviews
            && VerdictIn(t.ledger, id) == (if id == me then Some(EndVerdict(turn)) else VerdictIn(s.ledger, id))
            && Count(t.executions, id)
               == (if id != me then Count(s.executions, id) else if ActsOn(turn, Approve) then 1 else 0)
            && (HasTicket(t.tickets, id) <==>
                  if id != me then HasTicket(s.tickets, id) else ActsOn(turn, Escalate))
  {
    TakenJob(s);
    PoppedEffect(PopStep(s), turn, s.queue[|s.queue| - 1], id);
  }

  lemma {:induction false} PoppedEffect(s: State, turn: Turn, job: ParsedRequest, id: string)
    requires Consistent(s) && s.worker == Popped(job) && turn.decision.verdict != Pending
    requires VerdictIn(s.ledger, job.id) == Some(Pending)
    ensures var t := Processing(s, turn, job);
            && t.worker.Idle? && t.reviews == s.reviews
            && VerdictIn(t.ledger, id) == (if id == job.id then Some(EndVerdict(turn)) else VerdictIn(s.ledger, id))
            && Count(t.executions, id)
               == Count(s.executions, id) + (if id == job.id && ActsOn(turn, Approve) then 1 else 0)
            && (HasTicket(t.tickets, id) <==> HasTicket(s.tickets, id) || (id == job.id && ActsOn(turn, Escalate)))
  {
    JudgingEffect(s, turn, job);
    var s1 := Judging(s, turn, job);
    if turn.failure == InPipeline {
      FailedActing(s1, turn);
      FailedWriting(s1, turn, id);
    } else {
      JudgingConsistent(s, turn, job);
      JudgedEffect(s1, turn, id);
    }
  }

  lemma {:induction false} JudgingConsistent(s: State, turn: Turn, job: ParsedRequest)
    requires Consistent(s) && turn.failure != InPipeline
    ensures Consistent(Judging(s, turn, job))
  {
    JudgedConsistent(s, JudgementOf(job, turn), turn.observe);
  }

  lemma {:induction false} JudgedConsistent(s: State, judgement: Judgement, observe: bool)
    requires Consistent(s)
    ensures Consistent(JudgeStep(s, judgement, observe))
  {
    JudgeInv(s, judgement, observe);
    JudgeFounded(s, judgement, observe);
  }

  lemma {:induction false} StepConsistent(s: State, e: Event)
    requires Consistent(s)
    ensures Consistent(Step(s, e))
  {
    StepInv(s, e);
    StepFounded(s, e);
  }

  lemma {:induction false} TakenJob(s: State)
    requires Consistent(s) && s.worker.Idle? && s.queue != []
    ensures var job, t := s.queue[|s.queue| - 1], PopStep(s);
            && Consistent(t) && t.worker == Popped(job)
            && t == s.(worker := t.worker, queue := t.queue, taken := t.taken)
            && VerdictIn(s.ledger, job.id) == Some(Pending)
            && Count(s.executions, job.id) == 0 && !HasTicket(s.tickets, job.id)
  {
    var job := s.queue[|s.queue| - 1];
    PopOldest(s.queue);
    assert job.id in Oldest(s.queue) && IdInv(s, job.id);
    StepConsistent(s, Pop);
    NothingYetOf(Step(s, Pop));
  }

  // ---------------------------------------------------------------- what the rows hold

  /** The row the gateway writes. */
  lemma {:induction false} InterceptedRow(s: State, request: ParsedRequest, raw: Json, receivedAt: int)
    requires RowOf(s.ledger, request.id).None?
    ensures RowOf(InterceptStep(s, request, raw, receivedAt).ledger, request.id)
            == Some(Columns(request.id, request.sessionId, request.agentId, receivedAt, receivedAt, raw, request,
                            ValidationResult(false, [], 0, []), Decision(Pending, 0, false), None))
  {
    RowAfterRecord(s.ledger, InitialRow(request, raw, receivedAt), request.id);
  }

  /** The row with the outcome of an undisturbed pass: decision, validation result, redacted request, execution. */
  function DecidedRow(row: Columns, job: ParsedRequest, turn: Turn): Columns {
    var overridden := turn.observe && turn.decision.verdict != Approve;
    var decision := Decision(if overridden then Approve else turn.decision.verdict, turn.decision.riskScore,
                             overridden || turn.decision.observeOverride);
    row.(decisionRecord := decision, validationResult := turn.validation,
         parsedRequest := job.(parameters := turn.redactedParameters),
         executionResult := if decision.verdict == Approve then Some(Execution(job.id, turn.success, turn.response))
                            else None,
         completedAt := turn.now)
  }

  /** The row after the fallback write. */
  function BlockedRow(row: Columns, now: int): Columns {
    row.(decisionRecord := Decision(Block, 100, false),
         validationResult := ValidationResult(false, [ValidationFailure("SYSTEM_ERROR", SevCritical)], 100, []),
         executionResult := None, completedAt := now)
  }

  lemma {:induction false} FallbackRow(s: State, turn: Turn, row: Columns)
    requires s.worker.Failing? && RowOf(s.ledger, s.worker.request.id) == Some(row)
    ensures RowOf(Recovering(s, turn).ledger, s.worker.request.id)
            == Some(if turn.fallbackWorks then BlockedRow(row, turn.now) else row)
  {
    RowAfterRewrite(s.ledger, s.worker.request.id, FallbackEdit(SYSTEM_ERROR, turn.now), s.worker.request.id);
  }

  lemma {:induction false} WrittenRow(s: State, turn: Turn, row: Columns)
    requires AboutToWrite(s.worker) && RowOf(s.ledger, s.worker.request.id) == Some(row)
    requires s.worker.judgement == FinalJudgement(s.worker.request, turn)
    requires s.worker.Executed? <==> s.worker.judgement.decision.verdict == Approve
    requires s.worker.Executed? ==> s.worker.result == Execution(s.worker.request.id, turn.success, turn.response)
    ensures RowOf(WriteVerdictStep(s, turn.now).ledger, s.worker.request.id)
            == Some(DecidedRow(row, s.worker.request, turn))
    ensures WriteVerdictStep(s, turn.now).worker == Written(s.worker.request)
  {
    var w := s.worker;
    var edit := VerdictEdit(w.judgement, if w.Executed? then Some(w.result) else None, turn.now);
    RowAfterRewrite(s.ledger, w.request.id, edit, w.request.id);
  }

  lemma {:induction false} RowAfterWriting(s: State, turn: Turn, row: Columns)
    requires AboutToWrite(s.worker) && RowOf(s.ledger, s.worker.request.id) == Some(row)
    requires turn.failure != InPipeline && turn.failure != InAction
    requires s.worker.judgement == FinalJudgement(s.worker.request, turn)
    requires s.worker.Executed? <==> s.worker.judgement.decision.verdict == Approve
    requires s.worker.Executed? ==> s.worker.result == Execution(s.worker.request.id, turn.success, turn.response)
    ensures RowOf(Recovering(Writing(s, turn), turn).ledger, s.worker.request.id)
            == Some(EndRow(row, s.worker.request, turn))
  {
    var job := s.worker.request;
    if turn.failure == InWrite {
      FallbackRow(FailStep(s), turn, row);
      assert Writing(s, turn) == FailStep(s);
    } else {
      WrittenRow(s, turn, row);
      var u := WriteVerdictStep(s, turn.now);
      if turn.failure == InNotify {
        FallbackRow(FailStep(u), turn, DecidedRow(row, job, turn));
        assert Writing(s, turn) == FailStep(u);
      } else {
        assert Writing(s, turn) == FinishStep(u);
      }
    }
  }

  /** What the row of the job holds in the end. */
  function EndRow(row: Columns, job: ParsedRequest, turn: Turn): Columns {
    var reached := turn.failure == NoFailure || turn.failure == InNotify;
    var written := if reached then DecidedRow(row, job, turn) else row;
    if turn.failure != NoFailure && turn.fallbackWorks then BlockedRow(written, turn.now) else written
  }

  /** One pass of the worker, column by column: decision, validation result, redacted request and execution of
    the pass; or BLOCK and a system error; or nothing, if the fallback fails too. */
  lemma {:induction false} ProcessedRow(s: State, turn: Turn, row: Columns)
    requires Consistent(s) && s.worker.Idle? && s.queue != [] && turn.decision.verdict != Pending
    requires RowOf(s.ledger, s.queue[|s.queue| - 1].id) == Some(row)
    ensures var job := s.queue[|s.queue| - 1];
            RowOf(Processing(PopStep(s), turn, job).ledger, job.id) == Some(EndRow(row, job, turn))
  {
    TakenJob(s);
    RowAfterPopped(PopStep(s), turn, s.queue[|s.queue| - 1], row);
  }

  lemma {:induction false} RowAfterPopped(s: State, turn: Turn, job: ParsedRequest, row: Columns)
    requires Consistent(s) && s.worker == Popped(job) && turn.decision.verdict != Pending
    requires RowOf(s.ledger, job.id) == Some(row)
    ensures RowOf(Processing(s, turn, job).ledger, job.id) == Some(EndRow(row, job, turn))
  {
    var s1 := Judging(s, turn, job);
    JudgingEffect(s, turn, job);
    if turn.failure == InPipeline || turn.failure == InAction {
      FailedActing(s1, turn);
      FailingPassesWriting(Acting(s1, turn), turn);
      FallbackRow(Acting(s1, turn), turn, row);
    } else {
      JudgingConsistent(s, turn, job);
      ActingEffect(s1, turn);
      RowAfterWriting(Acting(s1, turn), turn, row);
    }
  }

  // ---------------------------------------------------------------- a pass and everybody else

  /** The pass does not disturb the request: it is another one's, or it does not fail before the row is
    written, nor overwrites it. */
  predicate Spares(turn: Turn, job: ParsedRequest, id: string) {
    id != job.id || turn.failure == NoFailure || (turn.failure == InNotify && !turn.fallbackWorks)
  }

  lemma {:induction false} StepsAgree(s: State, e: Event, id: string)
    requires Consistent(s) && Agree(s, id) && !Disturbs(s, e, id)
    ensures Consistent(Step(s, e)) && Agree(Step(s, e), id)
  {
    StepConsistent(s, e);
    StepAgree(s, e, id);
  }

  lemma {:induction false} ThrowingAgrees(s: State, turn: Turn, at: Failure, id: string)
    requires Consistent(s) && Agree(s, id) && (turn.failure == at ==> !InFlight(s.worker, id))
    ensures Consistent(Throwing(s, turn, at)) && Agree(Throwing(s, turn, at), id)
  {
    if turn.failure == at {
      StepsAgree(s, Fail, id);
    }
  }

  lemma {:induction false} JudgingAgrees(s: State, turn: Turn, job: ParsedRequest, id: string)
    requires Consistent(s) && Agree(s, id) && s.worker == Popped(job) && turn.decision.verdict != Pending
    requires Spares(turn, job, id)
    ensures var t := Judging(s, turn, job); Consistent(t) && Agree(t, id)
  {
    ThrowingAgrees(s, turn, InPipeline, id);
    StepsAgree(Throwing(s, turn, InPipeline), Judge(JudgementOf(job, turn), turn.observe), id);
  }

  lemma {:induction false} ActingAgrees(s: State, turn: Turn, id: string)
    requires Consistent(s) && Agree(s, id) && !s.worker.Idle? && Spares(turn, s.worker.request, id)
    ensures var t := Acting(s, turn); Consistent(t) && Agree(t, id)
  {
    ThrowingAgrees(s, turn, InAction, id);
    ExecuteAgrees(Throwing(s, turn, InAction), turn, id);
    TicketAgrees(ExecuteStep(Throwing(s, turn, InAction), turn.success, turn.response), id);
  }

  lemma {:induction false} ExecuteAgrees(s: State, turn: Turn, id: string)
    requires Consistent(s) && Agree(s, id)
    ensures var t := ExecuteStep(s, turn.success, turn.response); Consistent(t) && Agree(t, id)
  {
    StepsAgree(s, Execute(turn.success, turn.response), id);
  }

  lemma {:induction false} TicketAgrees(s: State, id: string)
    requires Consistent(s) && Agree(s, id)
    ensures Consistent(CreateTicketStep(s)) && Agree(CreateTicketStep(s), id)
  {
    StepsAgree(s, CreateTicket, id);
  }

  lemma {:induction false} WritingAgrees(s: State, turn: Turn, id: string)
    requires Consistent(s) && Agree(s, id) && !s.worker.Idle? && Spares(turn, s.worker.request, id)
    requires s.worker.request.id == id ==> AboutToWrite(s.worker)
    ensures var t := Recovering(Writing(s, turn), turn); Consistent(t) && Agree(t, id)
  {
    ThrowingAgrees(s, turn, InWrite, id);
    var s1 := Throwing(s, turn, InWrite);
    WriteAgrees(s1, turn, id);
    WrittenAgrees(WriteVerdictStep(s1, turn.now), turn, id);
  }

  lemma {:induction false} WriteAgrees(s: State, turn: Turn, id: string)
    requires Consistent(s) && Agree(s, id)
    ensures var t := WriteVerdictStep(s, turn.now); Consistent(t) && Agree(t, id)
  {
    StepsAgree(s, WriteVerdict(turn.now), id);
  }

  lemma {:induction false} WrittenAgrees(s: State, turn: Turn, id: string)
    requires Consistent(s) && Agree(s, id) && !s.worker.Idle? && Spares(turn, s.worker.request, id)
    requires s.worker.request.id == id ==> s.worker.Written?
    ensures var t := Recovering(FinishStep(Throwing(s, turn, InNotify)), turn); Consistent(t) && Agree(t, id)
  {
    ThrowingAgrees(s, turn, InNotify, id);
    var s1 := Throwing(s, turn, InNotify);
    FinishAgrees(s1, id);
    RecoveringAgrees(FinishStep(s1), turn, id);
  }

  lemma {:induction false} FinishAgrees(s: State, id: string)
    requires Consistent(s) && Agree(s, id)
    ensures Consistent(FinishStep(s)) && Agree(FinishStep(s), id)
  {
    StepsAgree(s, Finish, id);
  }

  lemma {:induction false} RecoveringAgrees(s: State, turn: Turn, id: string)
    requires Consistent(s) && Agree(s, id)
    requires s.worker.Failing? && turn.fallbackWorks ==> s.worker.request.id != id
    ensures Consistent(Recovering(s, turn)) && Agree(Recovering(s, turn), id)
  {
    StepsAgree(s, if turn.fallbackWorks then FallbackWrite(SYSTEM_ERROR, turn.now) else FallbackFails, id);
  }

  /** A pass of the worker keeps ticket, row and executions of every request in agreement that it does not
    disturb by failing: all others, whatever it does. */
  lemma {:induction false} ProcessingAgrees(s: State, turn: Turn, id: string)
    requires Consistent(s) && Agree(s, id) && s.worker.Idle? && s.queue != [] && turn.decision.verdict != Pending
    requires Spares(turn, s.queue[|s.queue| - 1], id)
    ensures var t := Processing(PopStep(s), turn, s.queue[|s.queue| - 1]); Consistent(t) && Agree(t, id)
  {
    var job := s.queue[|s.queue| - 1];
    StepsAgree(s, Pop, id);
    var s0 := PopStep(s);
    JudgingAgrees(s0, turn, job, id);
    JudgingReady(s0, turn, job);
    JudgedAgrees(Judging(s0, turn, job), turn, id);
  }

  lemma {:induction false} JudgedAgrees(s: State, turn: Turn, id: string)
    requires Consistent(s) && Agree(s, id) && !s.worker.Idle? && Spares(turn, s.worker.request, id)
    requires s.worker.Failing? || (s.worker.Judged? && s.worker.judgement.decision.verdict != Pending)
    requires turn.failure == NoFailure || turn.failure == InNotify ==> s.worker.Judged?
    ensures var t := Recovering(Writing(Acting(s, turn), turn), turn); Consistent(t) && Agree(t, id)
  {
    ActingAgrees(s, turn, id);
    ActingReady(s, turn);
    if id == s.worker.request.id {
      ActingEffect(s, turn);
    }
    WritingAgrees(Acting(s, turn), turn, id);
  }

  // ---------------------------------------------------------------- one review

  /** A review of an open ticket that nothing interrupts, whatever happened before and whoever else is at work:
    ticket and row take the decision, an approval executes the request once more and a rejection does not, and
    no other ticket, row or execution is touched. */
  lemma {:induction false} ReviewingEffect(s: State, ticket: nat, approve: bool, success: bool, response: Json,
                                           now: int, id: string)
    requires Inv(s) && OpenTicket(s, ticket)
    ensures var t := Reviewing(s, ticket, approve, success, response, now);
            var me := s.tickets[ticket].requestId;
            && t.worker == s.worker
            && t.tickets == s.tickets[ticket := s.tickets[ticket].(status := if approve then Approved else Rejected)]
            && |t.reviews| == |s.reviews| + 1 && t.reviews[..|s.reviews|] == s.reviews
            && t.reviews[|s.reviews|].pc.ReviewClosed?
            && VerdictIn(t.ledger, id)
               == (if id == me then Some(if approve then Approve else Block) else VerdictIn(s.ledger, id))
            && Count(t.executions, id) == Count(s.executions, id) + if id == me && approve then 1 else 0
  {
    var i := |s.reviews|;
    TicketHasRow(s, ticket);
    var seen := RowOf(s.ledger, s.tickets[ticket].requestId).value;
    var s1 := ReviewStartStep(s, ticket, approve);
    var s2 := ReviewExecuteStep(s1, i, success, response);
    CountGrows(s.executions, ExecutionEntry(seen.requestId, seen.parsedRequest), id);
    var r := s2.reviews[i];
    assert s2 == s.(reviews := s2.reviews, executions := s2.executions) && s2.reviews[..i] == s.reviews;
    assert r.ticket == ticket && r.approve == approve && r.seen == seen;
    ClosingEffect(s2, i, now, id);
  }

  lemma {:induction false} ClosingEffect(s: State, i: nat, now: int, id: string)
    requires i < |s.reviews| && s.reviews[i].ticket < |s.tickets|
    requires if s.reviews[i].approve then s.reviews[i].pc.ReviewExecuted? else s.reviews[i].pc.ReviewChecked?
    requires VerdictIn(s.ledger, s.reviews[i].seen.requestId).Some?
    ensures var r := s.reviews[i];
            var t := ReviewWriteLedgerStep(ReviewWriteTicketStep(s, i), i, now);
            && t == s.(ledger := t.ledger, tickets := t.tickets, reviews := s.reviews[i := r.(pc := ReviewClosed)])
            && t.tickets
               == s.tickets[r.ticket := s.tickets[r.ticket].(status := if r.approve then Approved else Rejected)]
            && VerdictIn(t.ledger, id) == if id == r.seen.requestId then Some(if r.approve then Approve else Block)
                                          else VerdictIn(s.ledger, id)
  {
    var t := ReviewWriteTicketStep(s, i);
    var r := t.reviews[i];
    assert t.ledger == s.ledger && r.pc.TicketWritten? && r.seen == s.reviews[i].seen;
    VerdictAfterRewrite(s.ledger, r.seen.requestId, ReviewEdit(r, r.pc.result, now), id);
  }

  /** The row after a review: the reviewer's verdict and the execution, or that there was none; the rest of the
    decision, the validation result and the request stay. */
  lemma {:induction false} ReviewedRow(s: State, ticket: nat, approve: bool, success: bool, response: Json, now: int,
                                       row: Columns)
    requires Inv(s) && OpenTicket(s, ticket) && RowOf(s.ledger, s.tickets[ticket].requestId) == Some(row)
    ensures RowOf(Reviewing(s, ticket, approve, success, response, now).ledger, s.tickets[ticket].requestId)
            == Some(row.(decisionRecord := row.decisionRecord.(verdict := if approve then Approve else Block),
                         executionResult := Some(if approve then Execution(row.parsedRequest.id, success, response)
                                                 else Execution(row.requestId, false, JNull)),
                         completedAt := now))
  {
    var i := |s.reviews|;
    TicketHasRow(s, ticket);
    var s2 := ReviewExecuteStep(ReviewStartStep(s, ticket, approve), i, success, response);
    var result := if approve then Execution(row.parsedRequest.id, success, response)
                  else Execution(row.requestId, false, JNull);
    assert s2.ledger == s.ledger && s2.tickets == s.tickets && i < |s2.reviews|;
    assert s2.reviews[i]
        == Review(ticket, approve, row, if approve then ReviewExecuted(result) else ReviewChecked);
    ClosedRow(s2, i, now, result);
  }

  lemma {:induction false} ClosedRow(s: State, i: nat, now: int, result: Execution)
    requires i < |s.reviews| && s.reviews[i].ticket < |s.tickets|
    requires var r := s.reviews[i];
             && r.pc == (if r.approve then ReviewExecuted(result) else ReviewChecked)
             && (!r.approve ==> result == Execution(r.seen.requestId, false, JNull))
             && RowOf(s.ledger, r.seen.requestId) == Some(r.seen)
    ensures var r := s.reviews[i];
            RowOf(ReviewWriteLedgerStep(ReviewWriteTicketStep(s, i), i, now).ledger, r.seen.requestId)
            == Some(r.seen.(decisionRecord := r.seen.decisionRecord.(verdict := if r.approve then Approve else Block),
                            executionResult := Some(result), completedAt := now))
  {
    var r := s.reviews[i];
    var t := ReviewWriteTicketStep(s, i);
    assert t.ledger == s.ledger && t.reviews[i] == r.(pc := TicketWritten(result));
    RowAfterRewrite(s.ledger, r.seen.requestId, ReviewEdit(r, result, now), r.seen.requestId);
  }

  /** A review that does not start beside another one, nor before the row of its ticket is written, keeps every
    undisturbed request in agreement, and leaves its own executed once or never. */
  lemma {:induction false} ReviewingAgrees(s: State, ticket: nat, approve: bool, success: bool, response: Json,
                                           now: int, id: string)
    requires Consistent(s) && Agree(s, id) && OpenTicket(s, ticket)
    requires id == s.tickets[ticket].requestId ==> !TicketedNow(s.worker, id) && !ReviewUnderWay(s, ticket)
    ensures var t := Reviewing(s, ticket, approve, success, response, now);
            && Consistent(t) && Agree(t, id)
            && (id == s.tickets[ticket].requestId ==> Count(t.executions, id) == if approve then 1 else 0)
  {
    var i := |s.reviews|;
    StartAgrees(s, ticket, approve, id);
    EndAgrees(ReviewStartStep(s, ticket, approve), i, success, response, now, id);
    ReviewingEffect(s, ticket, approve, success, response, now, id);
    NotExecutedYet(s, ticket, id);
  }

  lemma {:induction false} StartAgrees(s: State, ticket: nat, approve: bool, id: string)
    requires Consistent(s) && Agree(s, id) && !Disturbs(s, ReviewStart(ticket, approve), id)
    ensures var t := ReviewStartStep(s, ticket, approve); Consistent(t) && Agree(t, id)
  {
    StepsAgree(s, ReviewStart(ticket, approve), id);
  }

  lemma {:induction false} EndAgrees(s: State, i: nat, success: bool, response: Json, now: int, id: string)
    requires Consistent(s) && Agree(s, id)
    ensures var t := ReviewWriteLedgerStep(ReviewWriteTicketStep(ReviewExecuteStep(s, i, success, response), i), i,
              now);
            Consistent(t) && Agree(t, id)
  {
    ExecutionAgrees(s, i, success, response, id);
    ClosingAgrees(ReviewExecuteStep(s, i, success, response), i, now, id);
  }

  lemma {:induction false} ExecutionAgrees(s: State, i: nat, success: bool, response: Json, id: string)
    requires Consistent(s) && Agree(s, id)
    ensures var t := ReviewExecuteStep(s, i, success, response); Consistent(t) && Agree(t, id)
  {
    StepsAgree(s, ReviewExecute(i, success, response), id);
  }

  lemma {:induction false} ClosingAgrees(s: State, i: nat, now: int, id: string)
    requires Consistent(s) && Agree(s, id)
    ensures var t := ReviewWriteLedgerStep(ReviewWriteTicketStep(s, i), i, now); Consistent(t) && Agree(t, id)
  {
    TicketWriteAgrees(s, i, id);
    LedgerWriteAgrees(ReviewWriteTicketStep(s, i), i, now, id);
  }

  lemma {:induction false} TicketWriteAgrees(s: State, i: nat, id: string)
    requires Consistent(s) && Agree(s, id)
    ensures var t := ReviewWriteTicketStep(s, i); Consistent(t) && Agree(t, id)
  {
    StepsAgree(s, ReviewWriteTicket(i), id);
  }

  lemma {:induction false} LedgerWriteAgrees(s: State, i: nat, now: int, id: string)
    requires Consistent(s) && Agree(s, id)
    ensures var t := ReviewWriteLedgerStep(s, i, now); Consistent(t) && Agree(t, id)
  {
    StepsAgree(s, ReviewWriteLedger(i, now), id);
  }

  lemma {:induction false} NotExecutedYet(s: State, ticket: nat, id: string)
    requires Consistent(s) && Agree(s, id) && OpenTicket(s, ticket)
    ensures id == s.tickets[ticket].requestId && !TicketedNow(s.worker, id) && !ReviewUnderWay(s, ticket) ==>
              Count(s.executions, id) == 0
  {
    if id == s.tickets[ticket].requestId && !TicketedNow(s.worker, id) && !ReviewUnderWay(s, ticket) {
      assert TicketAgree(s, ticket);
      forall i: nat | i < |s.reviews| && Of(s.reviews[i], id)
        ensures !s.reviews[i].pc.ReviewExecuted?
      {
        assert ReviewInv(s, i);
        SameTicket(s, s.reviews[i].ticket, ticket);
      }
      assert !ReviewExecuting(s, id);
    }
  }
}
