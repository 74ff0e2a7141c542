/** For a request that nothing disturbs, ticket, ledger row and executions tell the same story, whatever fails
  for the others. */
module LifecycleAgreement {
  import opened Types
  import opened Lifecycle
  import opened LifecycleSafety
  import opened LifecycleConservation
  import opened LifecycleOnce
  import opened LifecycleRecord
  import opened LifecycleJudged

  // ---------------------------------------------------------------- the runs

  predicate ReviewUnderWay(s: State, t: nat) {
    exists i :: 0 <= i < |s.reviews| && s.reviews[i].ticket == t && Active(s.reviews[i].pc)
  }

  /** The review has acted and not yet ended. */
  predicate HalfDone(r: Review) {
    r.pc.ReviewExecuted? || r.pc.TicketWritten?
  }

  /** The step disturbs the request: its enqueue fails, its pass fails before the row is written or its
    fallback write succeeds, a review of it is lost half-way, or one starts beside another or before the
    worker has written the row of the ticket. */
  predicate Disturbs(s: State, e: Event, id: string) {
    || (e.EnqueueFails? && e.id == id)
    || (e.Fail? && InFlight(s.worker, id))
    || (e.FallbackWrite? && s.worker.Failing? && s.worker.request.id == id)
    || (e.ReviewDies? && e.review < |s.reviews| && s.reviews[e.review].seen.requestId == id
        && HalfDone(s.reviews[e.review]))
    || (e.ReviewStart? && OpenTicket(s, e.ticket) && s.tickets[e.ticket].requestId == id
        && (TicketedNow(s.worker, id) || ReviewUnderWay(s, e.ticket)))
  }

  predicate Undisturbed(s: State, events: seq<Event>, id: string) {
    events == [] ||
    (Undisturbed(s, events[..|events| - 1], id)
     && !Disturbs(Run(s, events[..|events| - 1]), events[|events| - 1], id))
  }

  // ---------------------------------------------------------------- invariant

  predicate Of(r: Review, id: string) {
    r.seen.requestId == id
  }

  /** A review has executed the request and not yet closed the ticket. */
  predicate ReviewExecuting(s: State, id: string) {
    exists i :: 0 <= i < |s.reviews| && Of(s.reviews[i], id) && s.reviews[i].pc.ReviewExecuted?
  }

  /** A review has closed the ticket of the request and not yet written the row. */
  predicate Closing(s: State, id: string) {
    exists i :: 0 <= i < |s.reviews| && Of(s.reviews[i], id) && s.reviews[i].pc.TicketWritten?
  }

  /** The row of a request without a ticket carries the verdict it was judged with. */
  predicate PlainAgree(s: State, id: string) {
    var v := VerdictIn(s.ledger, id);
    && v != Some(Escalate)
    && Count(s.executions, id) == (if v == Some(Approve) || ExecutedNow(s.worker, id) then 1 else 0)
    && (v == Some(Approve) || v == Some(Block) ==> JudgedAs(s, id, v.value))
  }

  predicate StatusAgree(s: State, id: string, status: TicketStatus) {
    var v := VerdictIn(s.ledger, id);
    var count := Count(s.executions, id);
    if TicketedNow(s.worker, id) then status.TicketPending? && count == 0
    else
      match status
      case TicketPending => v == Some(Escalate) && count == if ReviewExecuting(s, id) then 1 else 0
      case Approved => v == Some(if Closing(s, id) then Escalate else Approve) && count == 1
      case Rejected => v == Some(if Closing(s, id) then Escalate else Block) && count == 0
      case InReview => false
      case Expired => false
      case Cancelled => false
  }

  ghost predicate TicketAgree(s: State, t: nat)
    requires t < |s.tickets|
  {
    StatusAgree(s, s.tickets[t].requestId, s.tickets[t].status)
  }

  ghost predicate ReviewAgree(s: State, i: nat)
    requires i < |s.reviews|
  {
    var r := s.reviews[i];
    && !TicketedNow(s.worker, r.seen.requestId)
    && (Active(r.pc) ==> OpenTicket(s, r.ticket))
    && (r.pc.ReviewExecuted? ==> r.approve)
    && (r.pc.TicketWritten? ==>
          r.ticket < |s.tickets| && s.tickets[r.ticket].status == if r.approve then Approved else Rejected)
  }

  /** At most one review of the request has not ended. */
  ghost predicate OneUnfinished(s: State, i: nat, j: nat)
    requires i < |s.reviews| && j < |s.reviews|
  {
    s.reviews[i].pc.ReviewClosed? || s.reviews[j].pc.ReviewClosed?
  }

  ghost predicate RowAgrees(s: State, id: string) {
    && id !in s.lost && id !in s.abandoned
    && (s.worker.Failing? && s.worker.request.id == id ==> s.worker.written)
    && (InFlight(s.worker, id) ==> VerdictIn(s.ledger, id) == Some(Pending))
    && (!HasTicket(s.tickets, id) ==> PlainAgree(s, id))
  }

  ghost predicate TicketsAgree(s: State, id: string) {
    forall t: nat :: t < |s.tickets| && s.tickets[t].requestId == id ==> TicketAgree(s, t)
  }

  ghost predicate ReviewsAgree(s: State, id: string) {
    && (forall i: nat :: i < |s.reviews| && Of(s.reviews[i], id) ==> ReviewAgree(s, i))
    && (forall i: nat, j: nat :: i < j < |s.reviews| && Of(s.reviews[i], id) && Of(s.reviews[j], id) ==>
        OneUnfinished(s, i, j))
  }

  ghost predicate Agree(s: State, id: string) {
    RowAgrees(s, id) && TicketsAgree(s, id) && ReviewsAgree(s, id)
  }

  /** What holds in every run, whatever fails. */
  ghost predicate Consistent(s: State) {
    Inv(s) && AllFounded(s)
  }

  // ---------------------------------------------------------------- gateway and worker steps

  /** Tickets and reviews of the request stay as they are, and so does what they are compared with. */
  lemma {:induction false} QuietAgree(s: State, t: State, id: string)
    requires Agree(s, id) && RowAgrees(t, id)
    requires t.reviews == s.reviews && |t.tickets| >= |s.tickets|
    requires forall k :: 0 <= k < |s.tickets| ==> t.tickets[k] == s.tickets[k]
    requires forall k :: |s.tickets| <= k < |t.tickets| ==> t.tickets[k].requestId != id
    requires HasTicket(s.tickets, id) ==>
               VerdictIn(t.ledger, id) == VerdictIn(s.ledger, id) && Count(t.executions, id) == Count(s.executions, id)
    requires TicketedNow(t.worker, id) == TicketedNow(s.worker, id)
    ensures Agree(t, id)
  {
    assert ReviewExecuting(t, id) == ReviewExecuting(s, id) && Closing(t, id) == Closing(s, id);
    forall k: nat | k < |t.tickets| && t.tickets[k].requestId == id
      ensures TicketAgree(t, k)
    {
      assert TicketAgree(s, k) && HasTicket(s.tickets, id);
    }
    forall i: nat | i < |t.reviews| && Of(t.reviews[i], id)
      ensures ReviewAgree(t, i)
    {
      assert Of(s.reviews[i], id) && ReviewAgree(s, i);
    }
    forall i: nat, j: nat | i < j < |t.reviews| && Of(t.reviews[i], id) && Of(t.reviews[j], id)
      ensures OneUnfinished(t, i, j)
    {
      assert Of(s.reviews[i], id) && Of(s.reviews[j], id) && OneUnfinished(s, i, j);
    }
  }

  lemma {:induction false} InterceptAgree(s: State, e: Event, id: string)
    requires Consistent(s) && Agree(s, id) && e.Intercept?
    ensures Agree(Step(s, e), id)
  {
    var t := Step(s, e);
    if RowOf(s.ledger, e.request.id).None? {
      RowAfterRecord(s.ledger, InitialRow(e.request, e.raw, e.receivedAt), id);
      assert IdInv(s, id);
      if HasTicket(s.tickets, id) {
        TicketsAreTaken(s, id);
        TakenIsNotQueued(s, id);
      }
      QuietAgree(s, t, id);
    }
  }

  lemma {:induction false} PopAgree(s: State, id: string)
    requires Consistent(s) && Agree(s, id)
    ensures Agree(PopStep(s), id)
  {
    if s.worker.Idle? && s.queue != [] {
      PopOldest(s.queue);
      assert IdInv(s, id);
      assert id == s.queue[|s.queue| - 1].id ==> id in Oldest(s.queue);
      QuietAgree(s, PopStep(s), id);
    }
  }

  lemma {:induction false} JudgeAgree(s: State, judgement: Judgement, observe: bool, id: string)
    requires Consistent(s) && Agree(s, id)
    ensures Agree(JudgeStep(s, judgement, observe), id)
  {
    var t := JudgeStep(s, judgement, observe);
    if t != s {
      QuietAgree(s, t, id);
    }
  }

  lemma {:induction false} ExecuteAgree(s: State, success: bool, response: Json, id: string)
    requires Consistent(s) && Agree(s, id)
    ensures Agree(ExecuteStep(s, success, response), id)
  {
    var t := ExecuteStep(s, success, response);
    if t != s {
      CountGrows(s.executions, ExecutionEntry(s.worker.request.id, s.worker.judgement.redacted), id);
      QuietAgree(s, t, id);
    }
  }

  /** The worker's ticket is never refused. */
  lemma {:induction false} TicketIsAccepted(s: State)
    requires Consistent(s) && s.worker.Judged? && s.worker.judgement.decision.verdict == Escalate
    ensures var me := s.worker.request.id;
            CreateTicketStep(s)
              == s.(worker := Ticketed(s.worker.request, s.worker.judgement),
                    tickets := s.tickets + [Ticket(TicketNumber(|s.tickets|), me, TicketPending)])
  {
    var me := s.worker.request.id;
    assert me in s.taken;
    TakenIsNotQueued(s, me);
    assert IdInv(s, me);
  }

  lemma {:induction false} CreateTicketAgree(s: State, id: string)
    requires Consistent(s) && Agree(s, id)
    ensures Agree(CreateTicketStep(s), id)
  {
    var t := CreateTicketStep(s);
    if s.worker.Judged? && s.worker.judgement.decision.verdict == Escalate {
      TicketIsAccepted(s);
      MoreTickets(s.tickets, t.tickets[|s.tickets|], id);
      if id != s.worker.request.id {
        QuietAgree(s, t, id);
      } else {
        NoReviewsYet(s, id);
        assert forall k: nat :: k < |s.tickets| ==> t.tickets[k] == s.tickets[k];
      }
    }
  }

  lemma {:induction false} NoReviewsYet(s: State, id: string)
    requires Inv(s) && !HasTicket(s.tickets, id)
    ensures forall i: nat :: i < |s.reviews| ==> !Of(s.reviews[i], id)
  {
    forall i: nat | i < |s.reviews|
      ensures !Of(s.reviews[i], id)
    {
      assert ReviewInv(s, i);
    }
  }

  lemma {:induction false} WriteVerdictAgree(s: State, now: int, id: string)
    requires Consistent(s) && Agree(s, id)
    ensures Agree(WriteVerdictStep(s, now), id)
  {
    var w := s.worker;
    var t := WriteVerdictStep(s, now);
    if t != s {
      var me := w.request.id;
      VerdictAfterRewrite(s.ledger, me, VerdictEdit(w.judgement, if w.Executed? then Some(w.result) else None, now),
                          id);
      if id != me || !w.Ticketed? {
        assert Founded(s, me);
        QuietAgree(s, t, id);
      } else {
        EscalatedAgree(s, t, id);
      }
    }
  }

  /** The row of a new ticket is written. */
  lemma {:induction false} EscalatedAgree(s: State, t: State, id: string)
    requires Consistent(s) && Agree(s, id) && TicketedNow(s.worker, id)
    requires t == s.(worker := Written(s.worker.request), ledger := t.ledger)
    requires VerdictIn(t.ledger, id) == Some(s.worker.judgement.decision.verdict)
    ensures Agree(t, id)
  {
    assert Founded(s, id);
    forall i: nat | i < |s.reviews|
      ensures !Of(s.reviews[i], id)
    {
      assert Of(s.reviews[i], id) ==> ReviewAgree(s, i);
    }
    assert !ReviewExecuting(t, id) && !Closing(t, id);
    forall k: nat | k < |t.tickets| && t.tickets[k].requestId == id
      ensures TicketAgree(t, k)
    {
      assert TicketAgree(s, k);
    }
    assert forall i: nat :: i < |t.reviews| ==> !Of(t.reviews[i], id);
  }

  lemma {:induction false} FallbackAgree(s: State, e: Event, id: string)
    requires Consistent(s) && Agree(s, id) && (e.FallbackWrite? || e.FallbackFails?) && !Disturbs(s, e, id)
    ensures Agree(Step(s, e), id)
  {
    if s.worker.Failing? {
      if e.FallbackWrite? {
        VerdictAfterRewrite(s.ledger, s.worker.request.id, FallbackEdit(e.validation, e.now), id);
      }
      QuietAgree(s, Step(s, e), id);
    }
  }

  lemma {:induction false} MoveAgree(s: State, e: Event, id: string)
    requires Agree(s, id) && !Disturbs(s, e, id) && (e.Enqueue? || e.EnqueueFails? || e.Finish? || e.Fail?)
    ensures Agree(Step(s, e), id)
  {
    QuietAgree(s, Step(s, e), id);
  }

  // ---------------------------------------------------------------- reviewer steps

  /** While a review of the request has not ended, it alone says whether a review is executing or closing. */
  lemma {:induction false} OnlyReview(s: State, i: nat, id: string)
    requires i < |s.reviews| && Of(s.reviews[i], id) && !s.reviews[i].pc.ReviewClosed? && ReviewsAgree(s, id)
    ensures ReviewExecuting(s, id) == s.reviews[i].pc.ReviewExecuted?
    ensures Closing(s, id) == s.reviews[i].pc.TicketWritten?
    ensures forall j: nat :: j < |s.reviews| && j != i && Of(s.reviews[j], id) ==> s.reviews[j].pc.ReviewClosed?
  {
    forall j: nat | j < |s.reviews| && j != i && Of(s.reviews[j], id)
      ensures s.reviews[j].pc.ReviewClosed?
    {
      assert if i < j then OneUnfinished(s, i, j) else OneUnfinished(s, j, i);
    }
    assert ReviewExecuting(s, id) ==>
        exists j: nat :: j < |s.reviews| && Of(s.reviews[j], id) && s.reviews[j].pc.ReviewExecuted?;
    assert Closing(s, id) ==>
        exists j: nat :: j < |s.reviews| && Of(s.reviews[j], id) && s.reviews[j].pc.TicketWritten?;
  }

  /** A step of a review of another request. */
  lemma {:induction false} OtherReviewAgree(s: State, t: State, i: nat, id: string)
    requires Agree(s, id) && i < |t.reviews|
    requires t == s.(ledger := t.ledger, tickets := t.tickets, reviews := t.reviews, executions := t.executions)
    requires |t.reviews| == |s.reviews| || (i == |s.reviews| && |t.reviews| == i + 1)
    requires forall j: nat :: j < |s.reviews| && j != i ==> t.reviews[j] == s.reviews[j]
    requires !Of(t.reviews[i], id) && (i < |s.reviews| ==> !Of(s.reviews[i], id))
    requires |t.tickets| == |s.tickets|
    requires forall k :: 0 <= k < |s.tickets| ==>
               t.tickets[k].requestId == s.tickets[k].requestId
               && (t.tickets[k].requestId == id ==> t.tickets[k] == s.tickets[k])
    requires forall j: nat :: j < |s.reviews| && Of(s.reviews[j], id) ==> OwnTicket(s, j, id)
    requires VerdictIn(t.ledger, id) == VerdictIn(s.ledger, id) && Count(t.executions, id) == Count(s.executions, id)
    ensures Agree(t, id)
  {
    SameTickets(s, t);
    assert ReviewExecuting(t, id) == ReviewExecuting(s, id) && Closing(t, id) == Closing(s, id) by {
      SameFor(s, t, i, id);
    }
    forall k: nat | k < |t.tickets| && t.tickets[k].requestId == id
      ensures TicketAgree(t, k)
    {
      assert TicketAgree(s, k);
    }
    forall j: nat | j < |t.reviews| && Of(t.reviews[j], id)
      ensures ReviewAgree(t, j)
    {
      assert Of(s.reviews[j], id) && ReviewAgree(s, j) && OwnTicket(s, j, id);
    }
    forall a: nat, b: nat | a < b < |t.reviews| && Of(t.reviews[a], id) && Of(t.reviews[b], id)
      ensures OneUnfinished(t, a, b)
    {
      assert Of(s.reviews[a], id) && Of(s.reviews[b], id) && OneUnfinished(s, a, b);
    }
  }

  predicate OwnTicket(s: State, j: nat, id: string)
    requires j < |s.reviews|
  {
    s.reviews[j].ticket < |s.tickets| && s.tickets[s.reviews[j].ticket].requestId == id
  }

  lemma {:induction false} OwnTickets(s: State, id: string)
    requires Inv(s)
    ensures forall j: nat :: j < |s.reviews| && Of(s.reviews[j], id) ==> OwnTicket(s, j, id)
  {
    forall j: nat | j < |s.reviews| && Of(s.reviews[j], id)
      ensures OwnTicket(s, j, id)
    {
      assert ReviewInv(s, j);
    }
  }

  lemma {:induction false} SameFor(s: State, t: State, i: nat, id: string)
    requires i < |t.reviews|
    requires |t.reviews| == |s.reviews| || (i == |s.reviews| && |t.reviews| == i + 1)
    requires forall j: nat :: j < |s.reviews| && j != i ==> t.reviews[j] == s.reviews[j]
    requires !Of(t.reviews[i], id) && (i < |s.reviews| ==> !Of(s.reviews[i], id))
    ensures ReviewExecuting(t, id) == ReviewExecuting(s, id) && Closing(t, id) == Closing(s, id)
  {
    if ReviewExecuting(s, id) {
      var j: nat :| j < |s.reviews| && Of(s.reviews[j], id) && s.reviews[j].pc.ReviewExecuted?;
      assert t.reviews[j] == s.reviews[j] && t.reviews[j].seen.requestId == id;
    }
    if Closing(s, id) {
      var j: nat :| j < |s.reviews| && Of(s.reviews[j], id) && s.reviews[j].pc.TicketWritten?;
      assert t.reviews[j] == s.reviews[j] && t.reviews[j].seen.requestId == id;
    }
    if ReviewExecuting(t, id) {
      var j: nat :| j < |t.reviews| && Of(t.reviews[j], id) && t.reviews[j].pc.ReviewExecuted?;
      assert s.reviews[j] == t.reviews[j] && s.reviews[j].seen.requestId == id;
    }
    if Closing(t, id) {
      var j: nat :| j < |t.reviews| && Of(t.reviews[j], id) && t.reviews[j].pc.TicketWritten?;
      assert s.reviews[j] == t.reviews[j] && s.reviews[j].seen.requestId == id;
    }
  }

  lemma {:induction false} ReviewStartAgree(s: State, ticket: nat, approve: bool, id: string)
    requires Consistent(s) && Agree(s, id) && !Disturbs(s, ReviewStart(ticket, approve), id)
    ensures Agree(ReviewStartStep(s, ticket, approve), id)
  {
    var t := ReviewStartStep(s, ticket, approve);
    if t != s {
      var n := |s.reviews|;
      TicketHasRow(s, ticket);
      OwnTickets(s, id);
      if s.tickets[ticket].requestId != id {
        OtherReviewAgree(s, t, n, id);
      } else {
        OwnStartAgree(s, t, ticket, id);
      }
    }
  }

  /** No review of the request is unfinished when one starts. */
  lemma {:induction false} OwnStartAgree(s: State, t: State, ticket: nat, id: string)
    requires Consistent(s) && Agree(s, id) && OpenTicket(s, ticket) && s.tickets[ticket].requestId == id
    requires !TicketedNow(s.worker, id) && !ReviewUnderWay(s, ticket)
    requires t == s.(reviews := t.reviews) && |t.reviews| == |s.reviews| + 1
    requires forall j: nat :: j < |s.reviews| ==> t.reviews[j] == s.reviews[j]
    requires var r := t.reviews[|s.reviews|];
             r.ticket == ticket && r.pc.ReviewChecked? && r.seen.requestId == id
    ensures Agree(t, id)
  {
    var n := |s.reviews|;
    forall j: nat | j < n && Of(s.reviews[j], id)
      ensures s.reviews[j].pc.ReviewClosed?
    {
      assert ReviewAgree(s, j) && ReviewInv(s, j);
      SameTicket(s, s.reviews[j].ticket, ticket);
    }
    assert !ReviewExecuting(t, id) && !Closing(t, id) && !ReviewExecuting(s, id) && !Closing(s, id) by {
      assert forall j: nat :: j < n && s.reviews[j].seen.requestId == id ==> Of(s.reviews[j], id);
      assert forall j: nat :: j < n ==> t.reviews[j] == s.reviews[j];
    }
    forall k: nat | k < |t.tickets| && t.tickets[k].requestId == id
      ensures TicketAgree(t, k)
    {
      assert TicketAgree(s, k);
    }
    forall j: nat | j < |t.reviews| && Of(t.reviews[j], id)
      ensures ReviewAgree(t, j)
    {
      assert j < n ==> Of(s.reviews[j], id) && ReviewAgree(s, j);
    }
    forall a: nat, b: nat | a < b < |t.reviews| && Of(t.reviews[a], id) && Of(t.reviews[b], id)
      ensures OneUnfinished(t, a, b)
    {
      assert Of(s.reviews[a], id);
    }
  }

  /** A review of the request moves on: it alone counts. */
  lemma {:induction false} OwnReviewAgree(s: State, t: State, i: nat, id: string)
    requires Consistent(s) && Agree(s, id) && i < |s.reviews| && Of(s.reviews[i], id) && !s.reviews[i].pc.ReviewClosed?
    requires t == s.(ledger := t.ledger, tickets := t.tickets, reviews := t.reviews, executions := t.executions)
    requires |t.reviews| == |s.reviews| && t.reviews[i] == s.reviews[i].(pc := t.reviews[i].pc)
    requires forall j: nat :: j < |t.reviews| && j != i ==> t.reviews[j] == s.reviews[j]
    requires |t.tickets| == |s.tickets|
    requires forall k :: 0 <= k < |s.tickets| ==> t.tickets[k].requestId == s.tickets[k].requestId
    requires ReviewAgree(t, i)
    requires var u := s.reviews[i].ticket;
             u < |t.tickets| && StatusWith(t, id, t.tickets[u].status, t.reviews[i].pc)
    ensures Agree(t, id)
  {
    SameTickets(s, t);
    OnlyReview(s, i, id);
    assert ReviewInv(s, i) && ReviewAgree(s, i);
    forall j: nat | j < |t.reviews| && Of(t.reviews[j], id)
      ensures ReviewAgree(t, j) && (j == i || t.reviews[j].pc.ReviewClosed?)
    {
      assert Of(s.reviews[j], id) && ReviewAgree(s, j);
    }
    assert ReviewExecuting(t, id) == t.reviews[i].pc.ReviewExecuted? && Closing(t, id) == t.reviews[i].pc.TicketWritten?
    by {
      assert forall j: nat :: j < |t.reviews| && t.reviews[j].seen.requestId == id ==> Of(t.reviews[j], id);
      assert t.reviews[i].seen.requestId == id;
    }
    forall k: nat | k < |t.tickets| && t.tickets[k].requestId == id
      ensures TicketAgree(t, k)
    {
      SameTicket(s, k, s.reviews[i].ticket);
    }
    assert HasTicket(s.tickets, id);
  }

  /** `StatusAgree` outside the worker's writes, the review being the only one. */
  predicate StatusWith(s: State, id: string, status: TicketStatus, pc: ReviewPc) {
    var v := VerdictIn(s.ledger, id);
    var count := Count(s.executions, id);
    || (status.TicketPending? && v == Some(Escalate) && count == if pc.ReviewExecuted? then 1 else 0)
    || (status.Approved? && v == Some(if pc.TicketWritten? then Escalate else Approve) && count == 1)
    || (status.Rejected? && v == Some(if pc.TicketWritten? then Escalate else Block) && count == 0)
  }

  lemma {:induction false} StatusBefore(s: State, i: nat, id: string)
    requires Consistent(s) && Agree(s, id) && i < |s.reviews| && Of(s.reviews[i], id) && !s.reviews[i].pc.ReviewClosed?
    ensures OwnTicket(s, i, id) && ReviewAgree(s, i)
    ensures StatusWith(s, id, s.tickets[s.reviews[i].ticket].status, s.reviews[i].pc)
  {
    OnlyReview(s, i, id);
    assert ReviewInv(s, i) && ReviewAgree(s, i) && TicketAgree(s, s.reviews[i].ticket);
  }

  lemma {:induction false} ReviewExecuteAgree(s: State, i: nat, success: bool, response: Json, id: string)
    requires Consistent(s) && Agree(s, id)
    ensures Agree(ReviewExecuteStep(s, i, success, response), id)
  {
    var t := ReviewExecuteStep(s, i, success, response);
    if t != s {
      var r := s.reviews[i];
      CountGrows(s.executions, ExecutionEntry(r.seen.requestId, r.seen.parsedRequest), id);
      if Of(s.reviews[i], id) {
        OwnExecutionAgrees(s, t, i, id);
      } else {
        OwnTickets(s, id);
        OtherReviewAgree(s, t, i, id);
      }
    }
  }

  lemma {:induction false} OwnExecutionAgrees(s: State, t: State, i: nat, id: string)
    requires Consistent(s) && Agree(s, id) && i < |s.reviews| && Of(s.reviews[i], id)
    requires s.reviews[i].pc.ReviewChecked? && s.reviews[i].approve
    requires t == s.(reviews := t.reviews, executions := t.executions)
    requires |t.reviews| == |s.reviews| && t.reviews[i] == s.reviews[i].(pc := t.reviews[i].pc)
    requires t.reviews[i].pc.ReviewExecuted? && forall j: nat :: j < |t.reviews| && j != i ==>
              t.reviews[j] == s.reviews[j]
    requires Count(t.executions, id) == Count(s.executions, id) + 1
    ensures Agree(t, id)
  {
    StatusBefore(s, i, id);
    OwnReviewAgree(s, t, i, id);
  }

  lemma {:induction false} ReviewWriteTicketAgree(s: State, i: nat, id: string)
    requires Consistent(s) && Agree(s, id)
    ensures Agree(ReviewWriteTicketStep(s, i), id)
  {
    var t := ReviewWriteTicketStep(s, i);
    if t != s {
      if Of(s.reviews[i], id) {
        StatusBefore(s, i, id);
        OwnReviewAgree(s, t, i, id);
      } else {
        assert ReviewInv(s, i);
        OwnTickets(s, id);
        OtherReviewAgree(s, t, i, id);
      }
    }
  }

  lemma {:induction false} ReviewWriteLedgerAgree(s: State, i: nat, now: int, id: string)
    requires Consistent(s) && Agree(s, id)
    ensures Agree(ReviewWriteLedgerStep(s, i, now), id)
  {
    var t := ReviewWriteLedgerStep(s, i, now);
    if t != s {
      var r := s.reviews[i];
      VerdictAfterRewrite(s.ledger, r.seen.requestId, ReviewEdit(r, r.pc.result, now), id);
      if Of(s.reviews[i], id) {
        StatusBefore(s, i, id);
        OwnReviewAgree(s, t, i, id);
      } else {
        OwnTickets(s, id);
        OtherReviewAgree(s, t, i, id);
      }
    }
  }

  lemma {:induction false} ReviewDiesAgree(s: State, i: nat, id: string)
    requires Consistent(s) && Agree(s, id) && !Disturbs(s, ReviewDies(i), id)
    ensures Agree(ReviewDiesStep(s, i), id)
  {
    var t := ReviewDiesStep(s, i);
    if t != s {
      if Of(s.reviews[i], id) {
        StatusBefore(s, i, id);
        OwnReviewAgree(s, t, i, id);
      } else {
        OwnTickets(s, id);
        OtherReviewAgree(s, t, i, id);
      }
    }
  }

  // ---------------------------------------------------------------- every run

  lemma {:induction false} StepAgree(s: State, e: Event, id: string)
    requires Consistent(s) && Agree(s, id) && !Disturbs(s, e, id)
    ensures Agree(Step(s, e), id)
  {
    if e.ReviewStart? {
      ReviewStartAgree(s, e.ticket, e.approve, id);
    } else if e.ReviewExecute? {
      ReviewExecuteAgree(s, e.review, e.success, e.response, id);
    } else if e.ReviewWriteTicket? {
      ReviewWriteTicketAgree(s, e.review, id);
    } else if e.ReviewWriteLedger? {
      ReviewWriteLedgerAgree(s, e.review, e.now, id);
    } else if e.ReviewDies? {
      assert e == ReviewDies(e.review);
      ReviewDiesAgree(s, e.review, id);
    } else {
      OtherStepAgree(s, e, id);
    }
  }

  lemma {:induction false} OtherStepAgree(s: State, e: Event, id: string)
    requires Consistent(s) && Agree(s, id) && !Disturbs(s, e, id)
    requires !e.ReviewStart? && !e.ReviewExecute? && !e.ReviewWriteTicket? && !e.ReviewWriteLedger? && !e.ReviewDies?
    ensures Agree(Step(s, e), id)
  {
    if e.Intercept? {
      InterceptAgree(s, e, id);
    } else if e.Pop? {
      PopAgree(s, id);
    } else if e.Judge? {
      JudgeAgree(s, e.judgement, e.observe, id);
    } else if e.Execute? {
      ExecuteAgree(s, e.success, e.response, id);
    } else if e.CreateTicket? {
      CreateTicketAgree(s, id);
    } else if e.WriteVerdict? {
      WriteVerdictAgree(s, e.now, id);
    } else if e.FallbackWrite? || e.FallbackFails? {
      FallbackAgree(s, e, id);
    } else {
      MoveAgree(s, e, id);
    }
  }

  lemma {:induction false} RunAgree(events: seq<Event>, id: string)
    requires Undisturbed(EMPTY, events, id)
    ensures Consistent(Run(EMPTY, events)) && Agree(Run(EMPTY, events), id)
  {
    RunFounded(events);
    if events != [] {
      var before := events[..|events| - 1];
      RunAgree(before, id);
      StepAgree(Run(EMPTY, before), events[|events| - 1], id);
    }
  }

  // ---------------------------------------------------------------- what agrees

  /** For a request that nothing has disturbed, ticket and row agree, except between the two writes of a review,
    or of the worker. */
  lemma {:induction false} TicketsMatchRows(events: seq<Event>, t: nat)
    requires t < |Run(EMPTY, events).tickets|
    requires Undisturbed(EMPTY, events, Run(EMPTY, events).tickets[t].requestId)
    ensures var s := Run(EMPTY, events);
            var ticket := s.tickets[t];
            var id := ticket.requestId;
            var v := VerdictIn(s.ledger, id);
            && (ticket.status.TicketPending? || ticket.status.Approved? || ticket.status.Rejected?)
            && (TicketedNow(s.worker, id) ==> ticket.status.TicketPending? && v == Some(Pending))
            && (Closing(s, id) ==> !ticket.status.TicketPending? && v == Some(Escalate))
            && (!TicketedNow(s.worker, id) && !Closing(s, id) ==>
                  && (ticket.status.TicketPending? <==> v == Some(Escalate))
                  && (ticket.status.Approved? <==> v == Some(Approve))
                  && (ticket.status.Rejected? <==> v == Some(Block)))
  {
    var s := Run(EMPTY, events);
    var id := s.tickets[t].requestId;
    RunAgree(events, id);
    assert TicketAgree(s, t);
    if Closing(s, id) {
      var i: nat :| i < |s.reviews| && Of(s.reviews[i], id) && s.reviews[i].pc.TicketWritten?;
      StatusBefore(s, i, id);
      SameTicket(s, s.reviews[i].ticket, t);
    }
  }

  /** Undisturbed requests that reach ESCALATE have a ticket; the others end as they were judged. */
  lemma {:induction false} RowsFollowJudgements(events: seq<Event>, id: string)
    requires Undisturbed(EMPTY, events, id)
    ensures var s := Run(EMPTY, events);
            var v := VerdictIn(s.ledger, id);
            && (v == Some(Escalate) ==> HasTicket(s.tickets, id))
            && (v.Some? && v.value != Pending && !HasTicket(s.tickets, id) ==>
                  id in s.judgements && v == Some(s.judgements[id].decision.verdict))
  {
    RunAgree(events, id);
  }

  /** The row of an undisturbed request is pending exactly as long as the request is on its way. */
  lemma {:induction false} PendingExactly(events: seq<Event>, id: string)
    requires Undisturbed(EMPTY, events, id)
    ensures var s := Run(EMPTY, events);
            PendingRow(s.ledger, id) <==> id in s.entering || id in Oldest(s.queue) || InFlight(s.worker, id)
  {
    RunAgree(events, id);
    assert IdInv(Run(EMPTY, events), id);
  }

  /** Unless its row is still being written, the row of an undisturbed request reads APPROVE if and only if the
    request was executed, and then it was executed once: no record lapses. */
  lemma {:induction false} ApprovedMeansExecuted(events: seq<Event>, id: string)
    requires Undisturbed(EMPTY, events, id) && !UnderWay(Run(EMPTY, events), id)
    ensures var s := Run(EMPTY, events);
            Count(s.executions, id) == if VerdictIn(s.ledger, id) == Some(Approve) then 1 else 0
    ensures id !in Lapses(events)
  {
    var s := Run(EMPTY, events);
    RunAgree(events, id);
    RecordedExactly(events, id);
    if HasTicket(s.tickets, id) {
      var t: nat :| t < |s.tickets| && s.tickets[t].requestId == id;
      assert TicketAgree(s, t) && Founded(s, id);
      NothingOwed(s, t, id);
    }
  }

  lemma {:induction false} NothingOwed(s: State, t: nat, id: string)
    requires Consistent(s) && Agree(s, id) && t < |s.tickets| && s.tickets[t].requestId == id && !UnderWay(s, id)
    ensures !ReviewExecuting(s, id) && (Closing(s, id) ==> s.tickets[t].status.Rejected?)
  {
    forall i: nat | i < |s.reviews| && s.reviews[i].seen.requestId == id
      ensures !s.reviews[i].pc.ReviewExecuted?
      ensures s.reviews[i].pc.TicketWritten? ==> s.tickets[t].status.Rejected?
    {
      assert !OwesRow(s.reviews[i]);
      assert Of(s.reviews[i], id) && ReviewAgree(s, i) && ReviewInv(s, i);
      SameTicket(s, s.reviews[i].ticket, t);
    }
  }

  // ---------------------------------------------------------------- polling

  predicate Moves(before: Status, after: Status) {
    || before == after
    || before == StatusPending
    || (before == StatusEscalated && (after == StatusCompleted || after == StatusRejected))
  }

  lemma {:induction false} StepMoves(s: State, e: Event, id: string)
    requires Consistent(s) && Agree(s, id) && !Disturbs(s, e, id) && VerdictIn(s.ledger, id).Some?
    ensures VerdictIn(Step(s, e).ledger, id).Some?
    ensures Moves(StatusOf(VerdictIn(s.ledger, id).value), StatusOf(VerdictIn(Step(s, e).ledger, id).value))
  {
    if e.Intercept? {
      if RowOf(s.ledger, e.request.id).None? {
        RowAfterRecord(s.ledger, InitialRow(e.request, e.raw, e.receivedAt), id);
      }
    } else if e.WriteVerdict? {
      WorkerMovesStatus(s, e.now, id);
    } else if e.FallbackWrite? {
      if s.worker.Failing? {
        VerdictAfterRewrite(s.ledger, s.worker.request.id, FallbackEdit(e.validation, e.now), id);
      }
    } else if e.ReviewWriteLedger? {
      ReviewMovesStatus(s, e.review, e.now, id);
    }
  }

  lemma {:induction false} WorkerMovesStatus(s: State, now: int, id: string)
    requires Agree(s, id) && VerdictIn(s.ledger, id).Some?
    ensures VerdictIn(WriteVerdictStep(s, now).ledger, id).Some?
    ensures Moves(StatusOf(VerdictIn(s.ledger, id).value),
                  StatusOf(VerdictIn(WriteVerdictStep(s, now).ledger, id).value))
  {
    var w := s.worker;
    if WriteVerdictStep(s, now) != s {
      VerdictAfterRewrite(s.ledger, w.request.id,
                          VerdictEdit(w.judgement, if w.Executed? then Some(w.result) else None, now), id);
    }
  }

  lemma {:induction false} ReviewMovesStatus(s: State, i: nat, now: int, id: string)
    requires Consistent(s) && Agree(s, id) && VerdictIn(s.ledger, id).Some?
    ensures VerdictIn(ReviewWriteLedgerStep(s, i, now).ledger, id).Some?
    ensures Moves(StatusOf(VerdictIn(s.ledger, id).value),
                  StatusOf(VerdictIn(ReviewWriteLedgerStep(s, i, now).ledger, id).value))
  {
    if i < |s.reviews| && s.reviews[i].pc.TicketWritten? {
      var r := s.reviews[i];
      VerdictAfterRewrite(s.ledger, r.seen.requestId, ReviewEdit(r, r.pc.result, now), id);
      if Of(s.reviews[i], id) {
        StatusBefore(s, i, id);
      }
    }
  }

  /** What a polled status means. In every run, COMPLETED means executed. For a request that is not disturbed,
    PENDING means on its way, ESCALATED that there is a ticket, REJECTED never executed, COMPLETED executed once;
    and once its row is written, executed means COMPLETED. */
  lemma {:induction false} PolledStatusMeans(events: seq<Event>, id: string)
    requires VerdictIn(Run(EMPTY, events).ledger, id).Some?
    ensures var s := Run(EMPTY, events);
            var status, count := StatusOf(VerdictIn(s.ledger, id).value), Count(s.executions, id);
            && (status == StatusCompleted ==> count > 0)
            && (Undisturbed(EMPTY, events, id) ==>
                  && (status == StatusPending <==> id in s.entering || id in Oldest(s.queue) || InFlight(s.worker, id))
                  && (status == StatusEscalated ==> HasTicket(s.tickets, id))
                  && (status == StatusRejected ==> count == 0)
                  && (status == StatusCompleted ==> count == 1)
                  && (!UnderWay(s, id) && count > 0 ==> status == StatusCompleted))
  {
    ExecutedMeansJudged(events, id);
    if Undisturbed(EMPTY, events, id) {
      RunAgree(events, id);
      PendingExactly(events, id);
      FinalCounts(Run(EMPTY, events), id);
      if !UnderWay(Run(EMPTY, events), id) {
        ApprovedMeansExecuted(events, id);
      }
    }
  }

  lemma {:induction false} FinalCounts(s: State, id: string)
    requires Consistent(s) && Agree(s, id)
    ensures VerdictIn(s.ledger, id) == Some(Approve) ==> Count(s.executions, id) == 1
    ensures VerdictIn(s.ledger, id) == Some(Block) ==> Count(s.executions, id) == 0
    ensures VerdictIn(s.ledger, id) == Some(Escalate) ==> HasTicket(s.tickets, id)
  {
    if HasTicket(s.tickets, id) {
      var t: nat :| t < |s.tickets| && s.tickets[t].requestId == id;
      assert TicketAgree(s, t);
    }
  }

  /** Polled at any two moments of a run that does not disturb the request, its status has stayed the same, left
    PENDING, or gone from ESCALATED to COMPLETED or REJECTED. */
  lemma {:induction false} PolledStatusMoves(events: seq<Event>, n: nat, id: string)
    requires Undisturbed(EMPTY, events, id) && n <= |events|
    requires VerdictIn(Run(EMPTY, events[..n]).ledger, id).Some?
    ensures VerdictIn(Run(EMPTY, events).ledger, id).Some?
    ensures Moves(StatusOf(VerdictIn(Run(EMPTY, events[..n]).ledger, id).value),
                  StatusOf(VerdictIn(Run(EMPTY, events).ledger, id).value))
    decreases |events|
  {
    if n == |events| {
      assert events[..n] == events;
    } else {
      var before := events[..|events| - 1];
      assert before[..n] == events[..n];
      PolledStatusMoves(before, n, id);
      RunAgree(before, id);
      StepMoves(Run(EMPTY, before), events[|events| - 1], id);
    }
  }
}
