/** Executed only as redacted: in every run in which nobody approves a ticket whose row still holds the
  request as it came in, whatever fails otherwise and however reviews overlap. No weaker condition will
  do. */
module LifecycleRedacted {
  import opened Types
  import opened Ledger
  import opened Lifecycle
  import opened LifecycleRuns
  import opened LifecycleSafety
  import opened LifecycleConservation
  import opened LifecycleOnce

  // ---------------------------------------------------------------- the condition

  predicate OpenTicketOf(s: State, id: string) {
    exists t :: 0 <= t < |s.tickets| && s.tickets[t].requestId == id && Open(s.tickets[t].status)
  }

  /** The ticket is created, its row not yet written, and the request was changed by redaction. */
  predicate RowStillRaw(worker: Worker) {
    worker.Ticketed? && worker.request != worker.judgement.redacted
  }

  /** While the row of a ticket is still raw, an approving review of the ticket starts, or the worker fails
    and leaves the ticket open. */
  predicate BreaksRedaction(s: State, e: Event) {
    RowStillRaw(s.worker) &&
    (|| (e.Fail? && OpenTicketOf(s, s.worker.request.id))
     || (e.ReviewStart? && e.approve && OpenTicket(s, e.ticket)
         && s.tickets[e.ticket].requestId == s.worker.request.id))
  }

  // ---------------------------------------------------------------- rows before the verdict

  /** The row of a request holds it as it came in. */
  predicate RawRow(ledger: seq<Columns>, request: ParsedRequest) {
    RowOf(ledger, request.id).Some? && RowOf(ledger, request.id).value.parsedRequest == request
  }

  predicate BeforeWrite(worker: Worker) {
    worker.Popped? || worker.Judged? || worker.Executed? || worker.Ticketed?
  }

  ghost predicate Raw(s: State) {
    && (forall id :: id in s.entering ==> RawRow(s.ledger, s.entering[id]))
    && (forall k: nat :: k < |s.queue| ==> RawRow(s.ledger, s.queue[k]))
    && (BeforeWrite(s.worker) ==> RawRow(s.ledger, s.worker.request))
  }

  lemma {:induction false} QueuedIsOldest(queue: seq<ParsedRequest>, k: nat)
    requires k < |queue|
    ensures queue[k].id in Oldest(queue)
  {
    if k > 0 {
      QueuedIsOldest(queue[1..], k - 1);
    }
  }

  lemma {:induction false} RewriteKeepsRaw(ledger: seq<Columns>, id: string, edit: Edit, request: ParsedRequest)
    requires RawRow(ledger, request) && (edit.parsedRequest.None? || request.id != id)
    ensures RawRow(RewriteRow(ledger, id, edit), request)
  {
    RowAfterRewrite(ledger, id, edit, request.id);
  }

  lemma {:induction false} InterceptRaw(s: State, request: ParsedRequest, raw: Json, receivedAt: int)
    requires Raw(s)
    ensures Raw(InterceptStep(s, request, raw, receivedAt))
  {
    var t := InterceptStep(s, request, raw, receivedAt);
    if t != s {
      forall r: ParsedRequest | RawRow(s.ledger, r) || r == request
        ensures RawRow(t.ledger, r)
      {
        RowAfterRecord(s.ledger, InitialRow(request, raw, receivedAt), r.id);
      }
    }
  }

  /** A ledger write that leaves the request alone, or concerns a request the worker is done with. */
  lemma {:induction false} RewriteRaw(s: State, t: State, id: string, edit: Edit)
    requires Inv(s) && Raw(s) && id in s.taken && t.ledger == RewriteRow(s.ledger, id, edit)
    requires t.entering == s.entering && t.queue == s.queue
    requires BeforeWrite(t.worker) ==> t.worker == s.worker && edit.parsedRequest.None?
    ensures Raw(t)
  {
    TakenIsNotQueued(s, id);
    assert IdInv(s, id);
    forall other | other in s.entering
      ensures RawRow(t.ledger, s.entering[other])
    {
      assert IdInv(s, other);
      RewriteKeepsRaw(s.ledger, id, edit, s.entering[other]);
    }
    forall k: nat | k < |s.queue|
      ensures RawRow(t.ledger, s.queue[k])
    {
      QueuedIsOldest(s.queue, k);
      RewriteKeepsRaw(s.ledger, id, edit, s.queue[k]);
    }
    if BeforeWrite(t.worker) {
      RewriteKeepsRaw(s.ledger, id, edit, s.worker.request);
    }
  }

  lemma {:induction false} WorkerWriteRaw(s: State, e: Event)
    requires Inv(s) && Raw(s) && (e.WriteVerdict? || e.FallbackWrite?)
    ensures Raw(Step(s, e))
  {
    var w := s.worker;
    if Step(s, e) != s {
      if e.WriteVerdict? {
        RewriteRaw(s, Step(s, e), w.request.id,
                   VerdictEdit(w.judgement, if w.Executed? then Some(w.result) else None, e.now));
      } else {
        RewriteRaw(s, Step(s, e), w.request.id, FallbackEdit(e.validation, e.now));
      }
    }
  }

  lemma {:induction false} ReviewWriteRaw(s: State, i: nat, now: int)
    requires Inv(s) && Raw(s)
    ensures Raw(ReviewWriteLedgerStep(s, i, now))
  {
    var t := ReviewWriteLedgerStep(s, i, now);
    if t != s {
      var r := s.reviews[i];
      assert ReviewInv(s, i) && TicketInv(s, r.ticket);
      RewriteRaw(s, t, r.seen.requestId, ReviewEdit(r, r.pc.result, now));
    }
  }

  lemma {:induction false} EnqueueRaw(s: State, id: string)
    requires Raw(s)
    ensures Raw(EnqueueStep(s, id))
  {
    var t := EnqueueStep(s, id);
    if id in s.entering {
      forall k: nat | k < |t.queue|
        ensures RawRow(t.ledger, t.queue[k])
      {
        assert k > 0 ==> t.queue[k] == s.queue[k - 1];
      }
    }
  }

  lemma {:induction false} WorkerStepRaw(s: State, e: Event)
    requires Raw(s) && (e.Pop? || e.Judge? || e.Execute? || e.CreateTicket? || e.Finish? || e.Fail? || e.FallbackFails?)
    ensures Raw(Step(s, e))
  {
    if e.Pop? && s.worker.Idle? && s.queue != [] {
      assert Raw(PopStep(s));
    }
  }

  lemma {:induction false} QuietStepRaw(s: State, e: Event)
    requires Raw(s) && (e.EnqueueFails? || e.ReviewStart? || e.ReviewExecute? || e.ReviewWriteTicket? || e.ReviewDies?)
    ensures Raw(Step(s, e))
  {
  }

  lemma {:induction false} StepRaw(s: State, e: Event)
    requires Inv(s) && Raw(s)
    ensures Raw(Step(s, e))
  {
    if e.Intercept? {
      InterceptRaw(s, e.request, e.raw, e.receivedAt);
    } else if e.Enqueue? {
      EnqueueRaw(s, e.id);
    } else if e.WriteVerdict? || e.FallbackWrite? {
      WorkerWriteRaw(s, e);
    } else if e.ReviewWriteLedger? {
      ReviewWriteRaw(s, e.review, e.now);
    } else if e.EnqueueFails? || e.ReviewStart? || e.ReviewExecute? || e.ReviewWriteTicket? || e.ReviewDies? {
      QuietStepRaw(s, e);
    } else {
      WorkerStepRaw(s, e);
    }
  }

  // ---------------------------------------------------------------- invariant

  ghost predicate IdRedacted(s: State, id: string) {
    id in s.judgements <==> id in s.judged
  }

  ghost predicate WorkerRedacted(s: State) {
    s.worker.Judged? || s.worker.Executed? || s.worker.Ticketed? ==>
      s.worker.request.id in s.judgements && s.judgements[s.worker.request.id] == s.worker.judgement
  }

  ghost predicate LogRedacted(s: State, k: nat)
    requires k < |s.executions|
  {
    var e := s.executions[k];
    e.requestId in s.judgements && e.request == s.judgements[e.requestId].redacted
  }

  ghost predicate RowRedacted(s: State, id: string)
    requires id in s.judgements
  {
    && RowOf(s.ledger, id).Some?
    && (RowOf(s.ledger, id).value.parsedRequest == s.judgements[id].redacted || TicketedNow(s.worker, id))
  }

  ghost predicate TicketRedacted(s: State, t: nat)
    requires t < |s.tickets|
  {
    var id := s.tickets[t].requestId;
    id in s.judgements && (Open(s.tickets[t].status) ==> RowRedacted(s, id))
  }

  ghost predicate ReviewRedacted(s: State, i: nat)
    requires i < |s.reviews|
  {
    var r := s.reviews[i];
    Approving(r) ==>
      r.seen.requestId in s.judgements && r.seen.parsedRequest == s.judgements[r.seen.requestId].redacted
  }

  ghost predicate AsRedacted(s: State) {
    && Raw(s) && WorkerRedacted(s)
    && (forall id :: IdRedacted(s, id))
    && (forall k: nat :: k < |s.executions| ==> LogRedacted(s, k))
    && (forall t: nat :: t < |s.tickets| ==> TicketRedacted(s, t))
    && (forall i: nat :: i < |s.reviews| ==> ReviewRedacted(s, i))
  }

  // ---------------------------------------------------------------- steps

  /** What stays of the invariant when judgements and executions stay and reviews only move on. */
  lemma {:induction false} OthersRedacted(s: State, t: State)
    requires AsRedacted(s) && t.executions == s.executions
    requires t.judgements == s.judgements && t.judged == s.judged && |t.reviews| <= |s.reviews|
    requires forall i: nat :: i < |t.reviews| ==>
               (Approving(t.reviews[i]) ==> t.reviews[i].seen == s.reviews[i].seen && Approving(s.reviews[i]))
    ensures forall id :: IdRedacted(t, id)
    ensures forall k: nat :: k < |t.executions| ==> LogRedacted(t, k)
    ensures forall i: nat :: i < |t.reviews| ==> ReviewRedacted(t, i)
  {
    forall id
      ensures IdRedacted(t, id)
    {
      assert IdRedacted(s, id);
    }
    forall k: nat | k < |t.executions|
      ensures LogRedacted(t, k)
    {
      assert LogRedacted(s, k);
    }
    forall i: nat | i < |t.reviews|
      ensures ReviewRedacted(t, i)
    {
      assert ReviewRedacted(s, i);
    }
  }

  /** Steps that leave the requests in the rows of open tickets alone, or put the redacted ones there. */
  lemma {:induction false} RowsRedacted(s: State, t: State)
    requires AsRedacted(s) && Raw(t) && WorkerRedacted(t)
    requires t.executions == s.executions && t.judgements == s.judgements && t.judged == s.judged
    requires |t.reviews| <= |s.reviews| && |t.tickets| == |s.tickets|
    requires forall i: nat :: i < |t.reviews| ==>
               (Approving(t.reviews[i]) ==> t.reviews[i].seen == s.reviews[i].seen && Approving(s.reviews[i]))
    requires forall k: nat :: k < |s.tickets| ==>
               t.tickets[k].requestId == s.tickets[k].requestId && (Open(t.tickets[k].status) ==>
                   Open(s.tickets[k].status))
    requires forall k: nat :: k < |s.tickets| && Open(t.tickets[k].status) ==>
               (s.tickets[k].requestId in s.judgements && RowRedacted(s, s.tickets[k].requestId) ==>
                  RowRedacted(t, s.tickets[k].requestId))
    ensures AsRedacted(t)
  {
    OthersRedacted(s, t);
    forall k: nat | k < |t.tickets|
      ensures TicketRedacted(t, k)
    {
      assert TicketRedacted(s, k);
    }
  }

  lemma {:induction false} InterceptRedacted(s: State, request: ParsedRequest, raw: Json, receivedAt: int)
    requires Inv(s) && AsRedacted(s)
    ensures AsRedacted(InterceptStep(s, request, raw, receivedAt))
  {
    var t := InterceptStep(s, request, raw, receivedAt);
    InterceptRaw(s, request, raw, receivedAt);
    if t != s {
      forall id | id in s.judgements && RowRedacted(s, id)
        ensures RowRedacted(t, id)
      {
        RowAfterRecord(s.ledger, InitialRow(request, raw, receivedAt), id);
      }
      RowsRedacted(s, t);
    }
  }

  /** A step that leaves the ledger, the judgements and what has to do with tickets alone. */
  lemma {:induction false} LeaveRowsRedacted(s: State, t: State)
    requires AsRedacted(s) && Raw(t) && WorkerRedacted(t) && !s.worker.Ticketed?
    requires t.ledger == s.ledger && t.tickets == s.tickets && t.reviews == s.reviews
    requires t.executions == s.executions && t.judgements == s.judgements && t.judged == s.judged
    ensures AsRedacted(t)
  {
    RowsRedacted(s, t);
  }

  lemma {:induction false} QuietRedacted(s: State, e: Event)
    requires Inv(s) && AsRedacted(s) && (e.Pop? || e.Finish? || e.FallbackFails?)
    ensures AsRedacted(Step(s, e))
  {
    StepRaw(s, e);
    if Step(s, e) != s {
      LeaveRowsRedacted(s, Step(s, e));
    }
  }

  lemma {:induction false} QueueRedacted(s: State, e: Event)
    requires Inv(s) && AsRedacted(s) && (e.Enqueue? || e.EnqueueFails?)
    ensures AsRedacted(Step(s, e))
  {
    StepRaw(s, e);
    RowsRedacted(s, Step(s, e));
  }

  lemma {:induction false} FailRedacted(s: State)
    requires Inv(s) && AsRedacted(s) && !BreaksRedaction(s, Fail)
    ensures AsRedacted(FailStep(s))
  {
    var t := FailStep(s);
    StepRaw(s, Fail);
    forall k: nat | k < |s.tickets| && Open(t.tickets[k].status)
      ensures s.tickets[k].requestId in s.judgements && RowRedacted(s, s.tickets[k].requestId) ==>
                RowRedacted(t, s.tickets[k].requestId)
    {
      if TicketedNow(s.worker, s.tickets[k].requestId) {
        assert OpenTicketOf(s, s.worker.request.id);
      }
    }
    RowsRedacted(s, t);
  }

  lemma {:induction false} JudgeRedacted(s: State, judgement: Judgement, observe: bool)
    requires Inv(s) && AsRedacted(s)
    ensures AsRedacted(JudgeStep(s, judgement, observe))
  {
    var t := JudgeStep(s, judgement, observe);
    if t != s {
      PoppedIsNew(s);
      var me := s.worker.request.id;
      assert IdRedacted(s, me);
      forall id
        ensures IdRedacted(t, id)
      {
        assert IdRedacted(s, id);
      }
      forall k: nat | k < |t.executions|
        ensures LogRedacted(t, k)
      {
        assert LogRedacted(s, k);
      }
      forall k: nat | k < |t.tickets|
        ensures TicketRedacted(t, k)
      {
        assert TicketRedacted(s, k);
      }
      forall i: nat | i < |t.reviews|
        ensures ReviewRedacted(t, i)
      {
        assert ReviewRedacted(s, i);
      }
    }
  }

  /** One more execution, as redacted. */
  lemma {:induction false} LogGrowsRedacted(s: State, t: State, entry: ExecutionEntry)
    requires AsRedacted(s) && t.executions == s.executions + [entry] && t.judgements == s.judgements
    requires entry.requestId in s.judgements && entry.request == s.judgements[entry.requestId].redacted
    ensures forall k: nat :: k < |t.executions| ==> LogRedacted(t, k)
  {
    forall k: nat | k < |t.executions|
      ensures LogRedacted(t, k)
    {
      if k < |s.executions| {
        assert LogRedacted(s, k);
      }
    }
  }

  lemma {:induction false} ExecuteRedacted(s: State, success: bool, response: Json)
    requires Inv(s) && AsRedacted(s)
    ensures AsRedacted(ExecuteStep(s, success, response))
  {
    var t := ExecuteStep(s, success, response);
    if t != s {
      LogGrowsRedacted(s, t, ExecutionEntry(s.worker.request.id, s.worker.judgement.redacted));
      var u := t.(executions := s.executions);
      RowsRedacted(s, u);
      SameButLog(u, t);
    }
  }

  /** The log apart, the invariant does not speak of the log. */
  lemma {:induction false} SameButLog(u: State, t: State)
    requires AsRedacted(u) && t == u.(executions := t.executions)
    requires forall k: nat :: k < |t.executions| ==> LogRedacted(t, k)
    ensures AsRedacted(t)
  {
    forall id
      ensures IdRedacted(t, id)
    {
      assert IdRedacted(u, id);
    }
    forall k: nat | k < |t.tickets|
      ensures TicketRedacted(t, k)
    {
      assert TicketRedacted(u, k);
    }
    forall i: nat | i < |t.reviews|
      ensures ReviewRedacted(t, i)
    {
      assert ReviewRedacted(u, i);
    }
  }

  lemma {:induction false} CreateTicketRedacted(s: State)
    requires Inv(s) && AsRedacted(s)
    ensures AsRedacted(CreateTicketStep(s))
  {
    var t := CreateTicketStep(s);
    if t != s {
      StepRaw(s, CreateTicket);
      OthersRedacted(s, t);
      forall k: nat | k < |t.tickets|
        ensures TicketRedacted(t, k)
      {
        if k < |s.tickets| {
          assert TicketRedacted(s, k);
        }
      }
    }
  }

  lemma {:induction false} WriteVerdictRedacted(s: State, now: int)
    requires Inv(s) && AsRedacted(s)
    ensures AsRedacted(WriteVerdictStep(s, now))
  {
    var t := WriteVerdictStep(s, now);
    var w := s.worker;
    if t != s {
      WorkerWriteRaw(s, WriteVerdict(now));
      var edit := VerdictEdit(w.judgement, if w.Executed? then Some(w.result) else None, now);
      forall id | id in s.judgements && RowRedacted(s, id)
        ensures RowRedacted(t, id)
      {
        RowAfterRewrite(s.ledger, w.request.id, edit, id);
      }
      RowsRedacted(s, t);
    }
  }

  /** A ledger write that leaves the request alone. */
  lemma {:induction false} LeaveRequestRedacted(s: State, t: State, me: string, edit: Edit)
    requires Inv(s) && AsRedacted(s) && Raw(t) && WorkerRedacted(t) && edit.parsedRequest.None?
    requires t == s.(worker := t.worker, ledger := RewriteRow(s.ledger, me, edit), reviews := t.reviews)
    requires s.worker.Ticketed? ==> t.worker == s.worker
    requires |t.reviews| == |s.reviews| && forall i: nat :: i < |t.reviews| ==>
               (Approving(t.reviews[i]) ==> t.reviews[i].seen == s.reviews[i].seen && Approving(s.reviews[i]))
    ensures AsRedacted(t)
  {
    forall id | id in s.judgements && RowRedacted(s, id)
      ensures RowRedacted(t, id)
    {
      RowAfterRewrite(s.ledger, me, edit, id);
    }
    RowsRedacted(s, t);
  }

  lemma {:induction false} ReviewStartRedacted(s: State, ticket: nat, approve: bool)
    requires Inv(s) && AsRedacted(s) && !BreaksRedaction(s, ReviewStart(ticket, approve))
    ensures AsRedacted(ReviewStartStep(s, ticket, approve))
  {
    var t := ReviewStartStep(s, ticket, approve);
    if t != s {
      var n := |s.reviews|;
      TicketHasRow(s, ticket);
      assert TicketRedacted(s, ticket);
      forall id
        ensures IdRedacted(t, id)
      {
        assert IdRedacted(s, id);
      }
      forall k: nat | k < |t.executions|
        ensures LogRedacted(t, k)
      {
        assert LogRedacted(s, k);
      }
      forall k: nat | k < |t.tickets|
        ensures TicketRedacted(t, k)
      {
        assert TicketRedacted(s, k);
      }
      forall i: nat | i < |t.reviews|
        ensures ReviewRedacted(t, i)
      {
        assert i < n ==> ReviewRedacted(s, i);
      }
    }
  }

  lemma {:induction false} ReviewExecuteRedacted(s: State, i: nat, success: bool, response: Json)
    requires Inv(s) && AsRedacted(s)
    ensures AsRedacted(ReviewExecuteStep(s, i, success, response))
  {
    var t := ReviewExecuteStep(s, i, success, response);
    if t != s {
      var r := s.reviews[i];
      assert ReviewRedacted(s, i);
      LogGrowsRedacted(s, t, ExecutionEntry(r.seen.requestId, r.seen.parsedRequest));
      var u := t.(executions := s.executions);
      RowsRedacted(s, u);
      SameButLog(u, t);
    }
  }

  lemma {:induction false} ReviewMovesRedacted(s: State, e: Event)
    requires Inv(s) && AsRedacted(s) && (e.ReviewWriteTicket? || e.ReviewDies?)
    ensures AsRedacted(Step(s, e))
  {
    StepRaw(s, e);
    if Step(s, e) != s {
      RowsRedacted(s, Step(s, e));
    }
  }

  lemma {:induction false} ReviewWriteRedacted(s: State, i: nat, now: int)
    requires Inv(s) && AsRedacted(s)
    ensures AsRedacted(ReviewWriteLedgerStep(s, i, now))
  {
    var t := ReviewWriteLedgerStep(s, i, now);
    ReviewWriteRaw(s, i, now);
    if t != s {
      var r := s.reviews[i];
      LeaveRequestRedacted(s, t, r.seen.requestId, ReviewEdit(r, r.pc.result, now));
    }
  }

  // ---------------------------------------------------------------- every run that avoids the two steps

  lemma {:induction false} ReviewerStepRedacted(s: State, e: Event)
    requires Inv(s) && AsRedacted(s) && !BreaksRedaction(s, e)
    requires e.ReviewStart? || e.ReviewExecute? || e.ReviewWriteTicket? || e.ReviewWriteLedger? || e.ReviewDies?
    ensures AsRedacted(Step(s, e))
  {
    if e.ReviewStart? {
      ReviewStartRedacted(s, e.ticket, e.approve);
    } else if e.ReviewExecute? {
      ReviewExecuteRedacted(s, e.review, e.success, e.response);
    } else if e.ReviewWriteLedger? {
      ReviewWriteRedacted(s, e.review, e.now);
    } else {
      ReviewMovesRedacted(s, e);
    }
  }

  lemma {:induction false} WorkerStepRedacted(s: State, e: Event)
    requires Inv(s) && AsRedacted(s) && !BreaksRedaction(s, e)
    requires e.Judge? || e.Execute? || e.CreateTicket? || e.WriteVerdict? || e.Fail? || e.FallbackWrite?
    ensures AsRedacted(Step(s, e))
  {
    if e.Judge? {
      JudgeRedacted(s, e.judgement, e.observe);
    } else if e.Execute? {
      ExecuteRedacted(s, e.success, e.response);
    } else if e.CreateTicket? {
      CreateTicketRedacted(s);
    } else if e.WriteVerdict? {
      WriteVerdictRedacted(s, e.now);
    } else if e.Fail? {
      FailRedacted(s);
    } else if s.worker.Failing? {
      WorkerWriteRaw(s, e);
      LeaveRequestRedacted(s, Step(s, e), s.worker.request.id, FallbackEdit(e.validation, e.now));
    }
  }

  lemma {:induction false} StepRedacted(s: State, e: Event)
    requires Inv(s) && AsRedacted(s) && !BreaksRedaction(s, e)
    ensures AsRedacted(Step(s, e))
  {
    if e.Intercept? {
      InterceptRedacted(s, e.request, e.raw, e.receivedAt);
    } else if e.Enqueue? || e.EnqueueFails? {
      QueueRedacted(s, e);
    } else if e.Pop? || e.Finish? || e.FallbackFails? {
      QuietRedacted(s, e);
    } else if e.ReviewStart? || e.ReviewExecute? || e.ReviewWriteTicket? || e.ReviewWriteLedger? || e.ReviewDies? {
      ReviewerStepRedacted(s, e);
    } else {
      WorkerStepRedacted(s, e);
    }
  }

  lemma {:induction false} RunRedacted(events: seq<Event>)
    requires Avoids(BreaksRedaction, EMPTY, events)
    ensures Inv(Run(EMPTY, events)) && AsRedacted(Run(EMPTY, events))
  {
    RunInv(events);
    if events == [] {
      assert forall id :: IdRedacted(EMPTY, id);
    } else {
      var before := events[..|events| - 1];
      RunRedacted(before);
      StepRedacted(Run(EMPTY, before), events[|events| - 1]);
    }
  }

  /** Whatever is executed, by the worker or by a reviewer, is the request as the pipeline redacted it. */
  lemma {:induction false} ExecutedAsRedacted(events: seq<Event>, k: nat)
    requires Avoids(BreaksRedaction, EMPTY, events) && k < |Run(EMPTY, events).executions|
    ensures var s := Run(EMPTY, events);
            var e := s.executions[k];
            e.requestId in s.judgements && e.request == s.judgements[e.requestId].redacted
  {
    RunRedacted(events);
    assert LogRedacted(Run(EMPTY, events), k);
  }

  /** Both together, under both conditions. */
  lemma {:induction false} ExecutedOnceAsRedacted(events: seq<Event>, id: string)
    requires Avoids(BreaksOnce, EMPTY, events) && Avoids(BreaksRedaction, EMPTY, events)
    ensures var s := Run(EMPTY, events);
            && Count(s.executions, id) <= 1
            && forall k: nat :: k < |s.executions| && s.executions[k].requestId == id ==>
                 id in s.judgements && s.executions[k].request == s.judgements[id].redacted
  {
    var s := Run(EMPTY, events);
    ExecutedAtMostOnce(events, id);
    forall k: nat | k < |s.executions| && s.executions[k].requestId == id
      ensures id in s.judgements && s.executions[k].request == s.judgements[id].redacted
    {
      ExecutedAsRedacted(events, k);
    }
  }

  // ---------------------------------------------------------------- and no other

  ghost predicate Unredacted(s: State) {
    exists k: nat :: k < |s.executions| && !LogRedacted(s, k)
  }

  ghost predicate UnredactedBy(s: State, more: seq<Event>) {
    Avoids(BreaksRedaction, s, more) && Unredacted(Run(s, more))
  }

  /** Further steps, none of them such a one, lead to an execution of something else. */
  ghost predicate LeadsToUnredacted(s: State) {
    exists more :: UnredactedBy(s, more)
  }

  lemma {:induction false} OneStep(breaks: (State, Event) -> bool, s: State, e: Event)
    requires !breaks(s, e)
    ensures Avoids(breaks, s, [e]) && Run(s, [e]) == Step(s, e)
  {
    assert [e][..0] == [];
  }

  /** An approving review that has seen the raw row. */
  lemma {:induction false} SeenRaw(s: State, i: nat)
    requires i < |s.reviews| && s.reviews[i].approve && s.reviews[i].pc.ReviewChecked?
    requires var r := s.reviews[i];
             r.seen.requestId in s.judgements && r.seen.parsedRequest != s.judgements[r.seen.requestId].redacted
    ensures LeadsToUnredacted(s)
  {
    var e := ReviewExecute(i, true, JNull);
    OneStep(BreaksRedaction, s, e);
    assert !LogRedacted(Run(s, [e]), |s.executions|);
    assert UnredactedBy(s, [e]);
  }

  /** The first steps of a continuation. */
  lemma {:induction false} StepFirst(s: State, e: Event)
    requires !BreaksRedaction(s, e) && LeadsToUnredacted(Step(s, e))
    ensures LeadsToUnredacted(s)
  {
    var more :| UnredactedBy(Step(s, e), more);
    OneStep(BreaksRedaction, s, e);
    AvoidsJoins(BreaksRedaction, s, [e], more);
    RunJoins(s, [e], more);
    assert UnredactedBy(s, [e] + more);
  }

  /** An approval started now sees the raw row. */
  lemma {:induction false} StartSeesRaw(s: State, t: nat, request: ParsedRequest)
    requires Inv(s) && OpenTicket(s, t) && s.tickets[t].requestId == request.id && RawRow(s.ledger, request)
    requires request.id in s.judgements && request != s.judgements[request.id].redacted
    ensures LeadsToUnredacted(Step(s, ReviewStart(t, true)))
  {
    TicketHasRow(s, t);
    SeenRaw(Step(s, ReviewStart(t, true)), |s.reviews|);
  }

  lemma {:induction false} FailureLeavesRaw(s: State)
    requires Inv(s) && AsRedacted(s) && BreaksRedaction(s, Fail)
    ensures LeadsToUnredacted(Step(s, Fail))
  {
    var f := Step(s, Fail);
    var idle := Step(f, FallbackFails);
    StepInv(s, Fail);
    StepInv(f, FallbackFails);
    var t: nat :| t < |s.tickets| && s.tickets[t].requestId == s.worker.request.id && Open(s.tickets[t].status);
    StartSeesRaw(idle, t, s.worker.request);
    StepFirst(idle, ReviewStart(t, true));
    StepFirst(f, FallbackFails);
  }

  lemma {:induction false} NeverUnredacted(events: seq<Event>, e: Event)
    requires Avoids(BreaksRedaction, EMPTY, events) && !BreaksRedaction(Run(EMPTY, events), e)
    ensures !LeadsToUnredacted(Step(Run(EMPTY, events), e))
  {
    var s := Run(EMPTY, events);
    forall more
      ensures !UnredactedBy(Step(s, e), more)
    {
      if Avoids(BreaksRedaction, Step(s, e), more) {
        AvoidsStep(BreaksRedaction, EMPTY, events, e, more);
        RunRedacted(events + [e] + more);
      }
    }
  }

  /** The condition is exact: after a run that meets it, a step opens the way to an execution of something
    other than the redacted request, by steps that meet it again, if and only if the step breaks it. */
  lemma {:induction false} RedactedExactly(events: seq<Event>, e: Event)
    requires Avoids(BreaksRedaction, EMPTY, events)
    ensures BreaksRedaction(Run(EMPTY, events), e) <==> LeadsToUnredacted(Step(Run(EMPTY, events), e))
  {
    var s := Run(EMPTY, events);
    RunRedacted(events);
    if !BreaksRedaction(s, e) {
      NeverUnredacted(events, e);
    } else if e.Fail? {
      FailureLeavesRaw(s);
    } else {
      assert e == ReviewStart(e.ticket, true);
      StartSeesRaw(s, e.ticket, s.worker.request);
    }
  }
}
