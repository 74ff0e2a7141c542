/** The runs behind the conditions: how a request comes to be executed twice, or as it was before redaction,
  and how an execution comes to be recorded as blocked. */
module LifecycleRaces {
  import opened Types
  import opened Ledger
  import opened Lifecycle
  import opened LifecycleSafety
  import opened LifecycleRuns
  import opened LifecycleOnce

  lemma {:induction false} Played(events: seq<Event>, n: nat, s: State)
    requires n < |events| && Run(EMPTY, events[..n]) == s
    ensures Run(EMPTY, events[..n + 1]) == Step(s, events[n])
  {
    assert events[..n + 1][..n] == events[..n];
  }

  // ---------------------------------------------------------------- a judged request

  function ToJudged(request: ParsedRequest, raw: Json, at: int, judgement: Judgement): seq<Event> {
    [Intercept(request, raw, at), Enqueue(request.id), Pop, Judge(judgement, false)]
  }

  function AtJudged(request: ParsedRequest, raw: Json, at: int, judgement: Judgement): State {
    State([InitialRow(request, raw, at)], map[], [], Judged(request, judgement), [], [], [],
          map[request.id := judgement], [request.id], [request.id], [request.id], {}, {})
  }

  function AtRecorded(request: ParsedRequest, raw: Json, at: int): State {
    EMPTY.(ledger := [InitialRow(request, raw, at)], entering := map[request.id := request])
  }

  lemma {:induction false} RunToJudged(request: ParsedRequest, raw: Json, at: int, judgement: Judgement)
    requires judgement.redacted.id == request.id && judgement.decision.verdict != Pending
    ensures Run(EMPTY, ToJudged(request, raw, at, judgement)) == AtJudged(request, raw, at, judgement)
  {
    var events := ToJudged(request, raw, at, judgement);
    var s1 := AtRecorded(request, raw, at);
    assert AddRow([], InitialRow(request, raw, at)) == s1.ledger;
    Played(events, 0, EMPTY);
    Played(events, 1, s1);
    var s2 := Step(s1, events[1]);
    assert s2.entering == map[] && s2.queue == [request] && s2.enqueued == [request.id];
    Played(events, 2, s2);
    Played(events, 3, Step(s2, events[2]));
    assert events[..4] == events;
  }

  function AtTicketed(request: ParsedRequest, raw: Json, at: int, judgement: Judgement): State {
    AtJudged(request, raw, at, judgement).(
      worker := Ticketed(request, judgement), tickets := [Ticket(1001, request.id, TicketPending)])
  }

  lemma {:induction false} RunToTicketed(request: ParsedRequest, raw: Json, at: int, judgement: Judgement)
    requires judgement.redacted.id == request.id && judgement.decision.verdict == Escalate
    ensures Run(EMPTY, ToJudged(request, raw, at, judgement) + [CreateTicket])
              == AtTicketed(request, raw, at, judgement)
    ensures RowOf(AtTicketed(request, raw, at, judgement).ledger, request.id) == Some(InitialRow(request, raw, at))
  {
    RunToJudged(request, raw, at, judgement);
    RunExtends(EMPTY, ToJudged(request, raw, at, judgement), CreateTicket);
    assert RowOf([InitialRow(request, raw, at)], request.id) == Some(InitialRow(request, raw, at));
  }

  /** The request has its ticket, and its row says ESCALATE. */
  function ToEscalated(request: ParsedRequest, raw: Json, at: int, judgement: Judgement): seq<Event> {
    ToJudged(request, raw, at, judgement) + [CreateTicket] + [WriteVerdict(at)]
  }

  lemma {:induction false} RunToEscalated(request: ParsedRequest, raw: Json, at: int, judgement: Judgement)
    requires judgement.redacted.id == request.id && judgement.decision.verdict == Escalate
    ensures var s := Run(EMPTY, ToEscalated(request, raw, at, judgement));
            && s.reviews == [] && s.executions == [] && s.tickets == [Ticket(1001, request.id, TicketPending)]
            && RowOf(s.ledger, request.id).Some? && RowOf(s.ledger, request.id).value.requestId == request.id
            && VerdictIn(s.ledger, request.id) == Some(Escalate)
  {
    RunToTicketed(request, raw, at, judgement);
    RunExtends(EMPTY, ToJudged(request, raw, at, judgement) + [CreateTicket], WriteVerdict(at));
    RowAfterRewrite(AtTicketed(request, raw, at, judgement).ledger, request.id, VerdictEdit(judgement, None, at),
                    request.id);
  }

  // ---------------------------------------------------------------- races

  lemma {:induction false} StartStep(s: State, row: Columns)
    requires s.tickets == [Ticket(1001, row.requestId, TicketPending)] && RowOf(s.ledger, row.requestId) == Some(row)
    ensures Step(s, ReviewStart(0, true)) == s.(reviews := s.reviews + [Review(0, true, row, ReviewChecked)])
  {
  }

  lemma {:induction false} ExecuteStepOf(s: State, i: nat, row: Columns, response: Json)
    requires i < |s.reviews| && s.reviews[i] == Review(0, true, row, ReviewChecked)
    ensures Step(s, ReviewExecute(i, true, response))
            == s.(reviews := s.reviews[i := Review(0, true, row, ReviewExecuted(Execution(row.parsedRequest.id, true,
                response)))],
                  executions := s.executions + [ExecutionEntry(row.requestId, row.parsedRequest)])
  {
  }

  function ApprovalSteps(response: Json, at: int): seq<Event> {
    [ReviewStart(0, true)] + [ReviewExecute(0, true, response)] + [ReviewWriteTicket(0)] + [ReviewWriteLedger(0, at)]
  }

  function ExecutedReview(row: Columns, response: Json): Review {
    Review(0, true, row, ReviewExecuted(Execution(row.parsedRequest.id, true, response)))
  }

  lemma {:induction false} RunToExecuted(before: seq<Event>, s: State, row: Columns, response: Json)
    requires s == Run(EMPTY, before) && s.reviews == []
    requires s.tickets == [Ticket(1001, row.requestId, TicketPending)] && RowOf(s.ledger, row.requestId) == Some(row)
    ensures Run(EMPTY, before + [ReviewStart(0, true)] + [ReviewExecute(0, true, response)])
            == s.(reviews := [ExecutedReview(row, response)],
                  executions := s.executions + [ExecutionEntry(row.requestId, row.parsedRequest)])
  {
    StartStep(s, row);
    RunExtends(EMPTY, before, ReviewStart(0, true));
    var s1 := s.(reviews := [Review(0, true, row, ReviewChecked)]);
    ExecuteStepOf(s1, 0, row, response);
    RunExtends(EMPTY, before + [ReviewStart(0, true)], ReviewExecute(0, true, response));
  }

  lemma {:induction false} ClosingSteps(s: State, row: Columns, response: Json, at: int)
    requires s.reviews == [ExecutedReview(row, response)]
    requires s.tickets == [Ticket(1001, row.requestId, TicketPending)] && RowOf(s.ledger, row.requestId) == Some(row)
    ensures var t := Step(Step(s, ReviewWriteTicket(0)), ReviewWriteLedger(0, at));
            && t.executions == s.executions && t.worker == s.worker
            && t.tickets == [Ticket(1001, row.requestId, Approved)] && RowOf(t.ledger, row.requestId).Some?
  {
    var s1 := ReviewWriteTicketStep(s, 0);
    RowAfterRewrite(s.ledger, row.requestId, ReviewEdit(s1.reviews[0], s1.reviews[0].pc.result, at), row.requestId);
  }

  /** One review, from its start to its ledger write. */
  lemma {:induction false} RunApproval(before: seq<Event>, s: State, row: Columns, response: Json, at: int)
    requires s == Run(EMPTY, before) && s.reviews == []
    requires s.tickets == [Ticket(1001, row.requestId, TicketPending)] && RowOf(s.ledger, row.requestId) == Some(row)
    ensures var t := Run(EMPTY, before + ApprovalSteps(response, at));
            && t.executions == s.executions + [ExecutionEntry(row.requestId, row.parsedRequest)]
            && t.tickets == [Ticket(1001, row.requestId, Approved)]
            && t.worker == s.worker && RowOf(t.ledger, row.requestId).Some?
  {
    RunToExecuted(before, s, row, response);
    var done := before + [ReviewStart(0, true)] + [ReviewExecute(0, true, response)];
    ClosingSteps(Run(EMPTY, done), row, response, at);
    RunExtends(EMPTY, done, ReviewWriteTicket(0));
    RunExtends(EMPTY, done + [ReviewWriteTicket(0)], ReviewWriteLedger(0, at));
    assert before + ApprovalSteps(response, at) == done + [ReviewWriteTicket(0)] + [ReviewWriteLedger(0, at)];
  }

  /** A reviewer who approves between the ticket and the row executes the request as it came in, and the
    worker then overwrites the approval with ESCALATE. */
  lemma {:induction false} EarlyApprovalExecutesUnredacted(request: ParsedRequest, raw: Json, at: int,
                                                           judgement: Judgement, response: Json)
    requires judgement.redacted.id == request.id && judgement.decision.verdict == Escalate
    ensures var s := Run(EMPTY, ToJudged(request, raw, at, judgement) + [CreateTicket]
                                + ApprovalSteps(response, at) + [WriteVerdict(at)]);
            && s.executions == [ExecutionEntry(request.id, request)]
            && s.tickets == [Ticket(1001, request.id, Approved)]
            && VerdictIn(s.ledger, request.id) == Some(Escalate)
  {
    var before := ToJudged(request, raw, at, judgement) + [CreateTicket];
    RunToTicketed(request, raw, at, judgement);
    RunApproval(before, AtTicketed(request, raw, at, judgement), InitialRow(request, raw, at), response, at);
    var t := Run(EMPTY, before + ApprovalSteps(response, at));
    RunExtends(EMPTY, before + ApprovalSteps(response, at), WriteVerdict(at));
    VerdictAfterRewrite(t.ledger, request.id, VerdictEdit(judgement, None, at), request.id);
  }

  /** Two reviewers who both read the ticket while it is open execute the request twice. */
  lemma {:induction false} OverlappingApprovalsExecuteTwice(request: ParsedRequest, raw: Json, at: int,
                                                            judgement: Judgement, response: Json)
    requires judgement.redacted.id == request.id && judgement.decision.verdict == Escalate
    ensures Count(Run(EMPTY, ToEscalated(request, raw, at, judgement)
                             + [ReviewStart(0, true)] + [ReviewStart(0, true)]
                             + [ReviewExecute(0, true, response)] + [ReviewExecute(1, true, response)]).executions,
                  request.id) == 2
  {
    var before := ToEscalated(request, raw, at, judgement);
    RunToEscalated(request, raw, at, judgement);
    var s := Run(EMPTY, before);
    TwiceFrom(before, s, RowOf(s.ledger, request.id).value, response);
  }

  lemma {:induction false} TwiceFrom(before: seq<Event>, s: State, row: Columns, response: Json)
    requires s == Run(EMPTY, before) && s.reviews == [] && s.executions == []
    requires s.tickets == [Ticket(1001, row.requestId, TicketPending)] && RowOf(s.ledger, row.requestId) == Some(row)
    ensures Count(Run(EMPTY, before + [ReviewStart(0, true)] + [ReviewStart(0, true)]
                             + [ReviewExecute(0, true, response)] + [ReviewExecute(1, true, response)]).executions,
                  row.requestId) == 2
  {
    StartStep(s, row);
    RunExtends(EMPTY, before, ReviewStart(0, true));
    var r := Review(0, true, row, ReviewChecked);
    var s1 := s.(reviews := [r]);
    StartStep(s1, row);
    RunExtends(EMPTY, before + [ReviewStart(0, true)], ReviewStart(0, true));
    var s2 := s.(reviews := [r, r]);
    assert s1.reviews + [r] == s2.reviews;
    ExecuteBoth(before + [ReviewStart(0, true)] + [ReviewStart(0, true)], s2, row, response);
  }

  lemma {:induction false} ExecuteBoth(before: seq<Event>, s: State, row: Columns, response: Json)
    requires s == Run(EMPTY, before) && s.executions == []
    requires s.reviews == [Review(0, true, row, ReviewChecked), Review(0, true, row, ReviewChecked)]
    ensures Count(Run(EMPTY, before + [ReviewExecute(0, true, response)] + [ReviewExecute(1, true,
              response)]).executions,
                  row.requestId) == 2
  {
    ExecuteStepOf(s, 0, row, response);
    RunExtends(EMPTY, before, ReviewExecute(0, true, response));
    var s3 := Step(s, ReviewExecute(0, true, response));
    ExecuteStepOf(s3, 1, row, response);
    RunExtends(EMPTY, before + [ReviewExecute(0, true, response)], ReviewExecute(1, true, response));
    var entry := ExecutionEntry(row.requestId, row.parsedRequest);
    CountGrows([], entry, row.requestId);
    CountGrows([entry], entry, row.requestId);
    assert s3.executions == [] + [entry] == [entry];
  }

  /** A failure after the execution, say of the ledger write itself: the request has been executed and its
    row says it was blocked. */
  lemma {:induction false} FailureAfterExecutionReadsBlocked(request: ParsedRequest, raw: Json, at: int,
                                                             judgement: Judgement, response: Json)
    requires judgement.redacted.id == request.id && judgement.decision.verdict == Approve
    ensures var s := Run(EMPTY, ToJudged(request, raw, at, judgement) + [Execute(true, response)] + [Fail]
                                + [FallbackWrite(judgement.validation, at)]);
            Count(s.executions, request.id) == 1 && VerdictIn(s.ledger, request.id) == Some(Block)
  {
    var before := ToJudged(request, raw, at, judgement);
    RunToJudged(request, raw, at, judgement);
    var s := AtJudged(request, raw, at, judgement);
    assert RowOf(s.ledger, request.id) == Some(InitialRow(request, raw, at));
    RunExtends(EMPTY, before, Execute(true, response));
    RunExtends(EMPTY, before + [Execute(true, response)], Fail);
    RunExtends(EMPTY, before + [Execute(true, response)] + [Fail], FallbackWrite(judgement.validation, at));
    VerdictAfterRewrite(s.ledger, request.id, FallbackEdit(judgement.validation, at), request.id);
    CountGrows([], ExecutionEntry(request.id, judgement.redacted), request.id);
  }

  /** The worker fails between ticket and row and its fallback writes BLOCK, but the ticket stays open: its
    approval executes the request as it came in. */
  lemma {:induction false} FailedEscalationExecutesUnredacted(request: ParsedRequest, raw: Json, at: int,
                                                              judgement: Judgement, response: Json)
    requires judgement.redacted.id == request.id && judgement.decision.verdict == Escalate
    ensures var s := Run(EMPTY, ToJudged(request, raw, at, judgement) + [CreateTicket] + [Fail]
                                + [FallbackWrite(judgement.validation, at)] + ApprovalSteps(response, at));
            s.executions == [ExecutionEntry(request.id, request)]
  {
    var before := ToJudged(request, raw, at, judgement) + [CreateTicket];
    RunToTicketed(request, raw, at, judgement);
    RunExtends(EMPTY, before, Fail);
    RunExtends(EMPTY, before + [Fail], FallbackWrite(judgement.validation, at));
    var s := Run(EMPTY, before + [Fail] + [FallbackWrite(judgement.validation, at)]);
    RowAfterRewrite(AtTicketed(request, raw, at, judgement).ledger, request.id,
                    FallbackEdit(judgement.validation, at), request.id);
    RunApproval(before + [Fail] + [FallbackWrite(judgement.validation, at)], s,
                RowOf(s.ledger, request.id).value, response, at);
  }

  /** A reviewer who is lost between the execution and the ticket leaves the ticket open: the next approval
    executes the request again. */
  lemma {:induction false} LostReviewExecutesAgain(request: ParsedRequest, raw: Json, at: int,
                                                   judgement: Judgement, response: Json)
    requires judgement.redacted.id == request.id && judgement.decision.verdict == Escalate
    ensures Count(Run(EMPTY, ToEscalated(request, raw, at, judgement)
                             + [ReviewStart(0, true)] + [ReviewExecute(0, true, response)] + [ReviewDies(0)]
                             + [ReviewStart(0, true)] + [ReviewExecute(1, true, response)]).executions,
                  request.id) == 2
  {
    var before := ToEscalated(request, raw, at, judgement);
    RunToEscalated(request, raw, at, judgement);
    var s := Run(EMPTY, before);
    AgainFrom(before, s, RowOf(s.ledger, request.id).value, response);
  }

  lemma {:induction false} AgainFrom(before: seq<Event>, s: State, row: Columns, response: Json)
    requires s == Run(EMPTY, before) && s.reviews == [] && s.executions == []
    requires s.tickets == [Ticket(1001, row.requestId, TicketPending)] && RowOf(s.ledger, row.requestId) == Some(row)
    ensures Count(Run(EMPTY, before + [ReviewStart(0, true)] + [ReviewExecute(0, true, response)] + [ReviewDies(0)]
                             + [ReviewStart(0, true)] + [ReviewExecute(1, true, response)]).executions,
                  row.requestId) == 2
  {
    RunToExecuted(before, s, row, response);
    var done := before + [ReviewStart(0, true)] + [ReviewExecute(0, true, response)];
    var entry := ExecutionEntry(row.requestId, row.parsedRequest);
    RunExtends(EMPTY, done, ReviewDies(0));
    assert [] + [entry] == [entry];
    SecondExecution(done + [ReviewDies(0)], s.(reviews := [Review(0, true, row, ReviewClosed)], executions := [entry]),
                    row, response);
  }

  lemma {:induction false} SecondExecution(before: seq<Event>, s: State, row: Columns, response: Json)
    requires s == Run(EMPTY, before) && s.reviews == [Review(0, true, row, ReviewClosed)]
    requires s.executions == [ExecutionEntry(row.requestId, row.parsedRequest)]
    requires s.tickets == [Ticket(1001, row.requestId, TicketPending)] && RowOf(s.ledger, row.requestId) == Some(row)
    ensures Count(Run(EMPTY, before + [ReviewStart(0, true)] + [ReviewExecute(1, true, response)]).executions,
                  row.requestId) == 2
  {
    StartStep(s, row);
    RunExtends(EMPTY, before, ReviewStart(0, true));
    ExecuteStepOf(Step(s, ReviewStart(0, true)), 1, row, response);
    RunExtends(EMPTY, before + [ReviewStart(0, true)], ReviewExecute(1, true, response));
    var entry := ExecutionEntry(row.requestId, row.parsedRequest);
    CountGrows([], entry, row.requestId);
    CountGrows([entry], entry, row.requestId);
    assert [] + [entry] == [entry];
  }

  // ---------------------------------------------------------------- records that lapse

  /** The two writes of a review that is about to close its ticket. */
  lemma {:induction false} BothWrites(before: seq<Event>, s: State, i: nat, at: int)
    requires s == Run(EMPTY, before) && i < |s.reviews| && s.reviews[i].ticket == 0 && |s.tickets| == 1
    requires if s.reviews[i].approve then s.reviews[i].pc.ReviewExecuted? else s.reviews[i].pc.ReviewChecked?
    requires RowOf(s.ledger, s.reviews[i].seen.requestId).Some?
    ensures var t := Run(EMPTY, before + [ReviewWriteTicket(i)] + [ReviewWriteLedger(i, at)]);
            && t.executions == s.executions && |t.tickets| == 1
            && |t.reviews| == |s.reviews| && t.reviews[i].pc.ReviewClosed?
            && (forall j :: 0 <= j < |s.reviews| && j != i ==> t.reviews[j] == s.reviews[j])
            && VerdictIn(t.ledger, s.reviews[i].seen.requestId) == Some(if s.reviews[i].approve then Approve else Block)
  {
    var r := s.reviews[i];
    RunExtends(EMPTY, before, ReviewWriteTicket(i));
    var s1 := ReviewWriteTicketStep(s, i);
    RunExtends(EMPTY, before + [ReviewWriteTicket(i)], ReviewWriteLedger(i, at));
    VerdictAfterRewrite(s1.ledger, r.seen.requestId, ReviewEdit(s1.reviews[i], s1.reviews[i].pc.result, at),
        r.seen.requestId);
  }

  /** An approval and, beside it, a rejection: the request is executed, and the last write says BLOCK. */
  lemma {:induction false} RejectionBesideApproval(request: ParsedRequest, raw: Json, at: int, judgement: Judgement,
                                                   response: Json)
    requires judgement.redacted.id == request.id && judgement.decision.verdict == Escalate
    ensures var t := Run(EMPTY, ToEscalated(request, raw, at, judgement)
                                + [ReviewStart(0, true)] + [ReviewStart(0, false)]
                                + [ReviewExecute(0, true, response)]
                                + [ReviewWriteTicket(0)] + [ReviewWriteLedger(0, at)]
                                + [ReviewWriteTicket(1)] + [ReviewWriteLedger(1, at)]);
            Count(t.executions, request.id) == 1 && VerdictIn(t.ledger, request.id) == Some(Block)
  {
    var before := ToEscalated(request, raw, at, judgement);
    RunToEscalated(request, raw, at, judgement);
    var s := Run(EMPTY, before);
    RejectedFrom(before, s, RowOf(s.ledger, request.id).value, response, at);
  }

  lemma {:induction false} RejectedFrom(before: seq<Event>, s: State, row: Columns, response: Json, at: int)
    requires s == Run(EMPTY, before) && s.reviews == [] && s.executions == []
    requires s.tickets == [Ticket(1001, row.requestId, TicketPending)] && RowOf(s.ledger, row.requestId) == Some(row)
    ensures var t := Run(EMPTY, before + [ReviewStart(0, true)] + [ReviewStart(0, false)]
                                + [ReviewExecute(0, true, response)]
                                + [ReviewWriteTicket(0)] + [ReviewWriteLedger(0, at)]
                                + [ReviewWriteTicket(1)] + [ReviewWriteLedger(1, at)]);
            Count(t.executions, row.requestId) == 1 && VerdictIn(t.ledger, row.requestId) == Some(Block)
  {
    var done := before + [ReviewStart(0, true)] + [ReviewStart(0, false)] + [ReviewExecute(0, true, response)];
    BesideExecuted(before, s, row, response);
    var s1 := Run(EMPTY, done);
    BothWrites(done, s1, 0, at);
    var closed := done + [ReviewWriteTicket(0)] + [ReviewWriteLedger(0, at)];
    BothWrites(closed, Run(EMPTY, closed), 1, at);
    var entry := ExecutionEntry(row.requestId, row.parsedRequest);
    CountGrows([], entry, row.requestId);
    assert [] + [entry] == [entry];
  }

  lemma {:induction false} BesideExecuted(before: seq<Event>, s: State, row: Columns, response: Json)
    requires s == Run(EMPTY, before) && s.reviews == [] && s.executions == []
    requires s.tickets == [Ticket(1001, row.requestId, TicketPending)] && RowOf(s.ledger, row.requestId) == Some(row)
    ensures Run(EMPTY, before + [ReviewStart(0, true)] + [ReviewStart(0, false)] + [ReviewExecute(0, true, response)])
            == s.(reviews := [ExecutedReview(row, response), Review(0, false, row, ReviewChecked)],
                  executions := [ExecutionEntry(row.requestId, row.parsedRequest)])
  {
    BothStart(before, s, row);
    var s2 := s.(reviews := [Review(0, true, row, ReviewChecked), Review(0, false, row, ReviewChecked)]);
    ExecuteStepOf(s2, 0, row, response);
    RunExtends(EMPTY, before + [ReviewStart(0, true)] + [ReviewStart(0, false)], ReviewExecute(0, true, response));
  }

  lemma {:induction false} BothStart(before: seq<Event>, s: State, row: Columns)
    requires s == Run(EMPTY, before) && s.reviews == []
    requires s.tickets == [Ticket(1001, row.requestId, TicketPending)] && RowOf(s.ledger, row.requestId) == Some(row)
    ensures Run(EMPTY, before + [ReviewStart(0, true)] + [ReviewStart(0, false)])
            == s.(reviews := [Review(0, true, row, ReviewChecked), Review(0, false, row, ReviewChecked)])
  {
    StartStep(s, row);
    RunExtends(EMPTY, before, ReviewStart(0, true));
    RunExtends(EMPTY, before + [ReviewStart(0, true)], ReviewStart(0, false));
  }

  /** A reviewer who is lost between the ticket and the row: executed, the ticket approved, and the row still says
    ESCALATE. */
  lemma {:induction false} LostBetweenTicketAndRow(request: ParsedRequest, raw: Json, at: int, judgement: Judgement,
                                                   response: Json)
    requires judgement.redacted.id == request.id && judgement.decision.verdict == Escalate
    ensures var t := Run(EMPTY, ToEscalated(request, raw, at, judgement)
                                + [ReviewStart(0, true)] + [ReviewExecute(0, true, response)]
                                + [ReviewWriteTicket(0)] + [ReviewDies(0)]);
            && Count(t.executions, request.id) == 1 && t.tickets == [Ticket(1001, request.id, Approved)]
            && VerdictIn(t.ledger, request.id) == Some(Escalate)
  {
    var before := ToEscalated(request, raw, at, judgement);
    RunToEscalated(request, raw, at, judgement);
    var s := Run(EMPTY, before);
    LostFrom(before, s, RowOf(s.ledger, request.id).value, response);
  }

  lemma {:induction false} LostFrom(before: seq<Event>, s: State, row: Columns, response: Json)
    requires s == Run(EMPTY, before) && s.reviews == [] && s.executions == []
    requires s.tickets == [Ticket(1001, row.requestId, TicketPending)] && RowOf(s.ledger, row.requestId) == Some(row)
    ensures var t := Run(EMPTY, before + [ReviewStart(0, true)] + [ReviewExecute(0, true, response)]
                                + [ReviewWriteTicket(0)] + [ReviewDies(0)]);
            && Count(t.executions, row.requestId) == 1 && t.ledger == s.ledger
            && t.tickets == [Ticket(1001, row.requestId, Approved)]
  {
    var done := before + [ReviewStart(0, true)] + [ReviewExecute(0, true, response)] + [ReviewWriteTicket(0)];
    RunToTicketWritten(before, s, row, response);
    RunExtends(EMPTY, done, ReviewDies(0));
    DiesStep(Run(EMPTY, done), 0);
    CountGrows([], ExecutionEntry(row.requestId, row.parsedRequest), row.requestId);
  }

  lemma {:induction false} DiesStep(s: State, i: nat)
    requires i < |s.reviews|
    ensures Step(s, ReviewDies(i)) == s.(reviews := s.reviews[i := s.reviews[i].(pc := ReviewClosed)])
  {
  }

  lemma {:induction false} RunToTicketWritten(before: seq<Event>, s: State, row: Columns, response: Json)
    requires s == Run(EMPTY, before) && s.reviews == [] && s.executions == []
    requires s.tickets == [Ticket(1001, row.requestId, TicketPending)] && RowOf(s.ledger, row.requestId) == Some(row)
    ensures var t := Run(EMPTY, before + [ReviewStart(0, true)] + [ReviewExecute(0, true, response)]
                                + [ReviewWriteTicket(0)]);
            && t == s.(reviews := t.reviews, tickets := [Ticket(1001, row.requestId, Approved)],
                       executions := [] + [ExecutionEntry(row.requestId, row.parsedRequest)])
            && |t.reviews| == 1
  {
    RunToExecuted(before, s, row, response);
    RunExtends(EMPTY, before + [ReviewStart(0, true)] + [ReviewExecute(0, true, response)], ReviewWriteTicket(0));
  }
}
