/** Executed at most once: in every run in which approving reviews of a ticket do not overlap and none is lost
  between the execution and the ticket, whatever fails otherwise. No weaker condition will do. */
module LifecycleOnce {
  import opened Types
  import opened Lifecycle
  import opened LifecycleRuns
  import opened LifecycleSafety
  import opened LifecycleConservation

  // ---------------------------------------------------------------- the condition

  predicate Active(pc: ReviewPc) {
    pc.ReviewChecked? || pc.ReviewExecuted?
  }

  predicate Approving(r: Review) {
    r.approve && Active(r.pc)
  }

  predicate ApprovalUnderWay(s: State, t: nat) {
    exists i :: 0 <= i < |s.reviews| && s.reviews[i].ticket == t && Approving(s.reviews[i])
  }

  predicate OpenTicket(s: State, t: nat) {
    t < |s.tickets| && Open(s.tickets[t].status)
  }

  /** A second approving review of an open ticket starts, or the one that has executed is lost before it
    has closed the ticket. */
  predicate BreaksOnce(s: State, e: Event) {
    || (e.ReviewStart? && e.approve && OpenTicket(s, e.ticket) && ApprovalUnderWay(s, e.ticket))
    || (e.ReviewDies? && e.review < |s.reviews| && s.reviews[e.review].pc.ReviewExecuted?
        && OpenTicket(s, s.reviews[e.review].ticket))
  }

  // ---------------------------------------------------------------- invariant

  function Count(log: seq<ExecutionEntry>, id: string): nat {
    if log == [] then 0
    else Count(log[..|log| - 1], id) + if log[|log| - 1].requestId == id then 1 else 0
  }

  ghost predicate IdOnce(s: State, id: string) {
    && Count(s.executions, id) <= 1
    && (id !in s.judged ==> Count(s.executions, id) == 0 && !HasTicket(s.tickets, id))
  }

  ghost predicate WorkerOnce(s: State) {
    && (s.worker.Judged? || s.worker.Executed? || s.worker.Ticketed? ==> s.worker.request.id in s.judged)
    && (s.worker.Judged? ==> Count(s.executions, s.worker.request.id) == 0)
    && (s.worker.Judged? || s.worker.Executed? ==> !HasTicket(s.tickets, s.worker.request.id))
  }

  /** A review of ticket `t` has executed and not yet closed the ticket. */
  ghost predicate Executing(s: State, t: nat) {
    exists i: nat :: i < |s.reviews| && s.reviews[i].ticket == t && s.reviews[i].pc.ReviewExecuted?
  }

  ghost predicate TicketOnce(s: State, t: nat)
    requires t < |s.tickets|
  {
    Open(s.tickets[t].status) ==> Count(s.executions, s.tickets[t].requestId) == 0 || Executing(s, t)
  }

  ghost predicate DistinctTickets(s: State) {
    forall t: nat, u: nat :: t < u < |s.tickets| ==> s.tickets[t].requestId != s.tickets[u].requestId
  }

  ghost predicate ReviewOnce(s: State, i: nat)
    requires i < |s.reviews|
  {
    var r := s.reviews[i];
    && (r.pc.ReviewExecuted? ==> r.approve && Count(s.executions, r.seen.requestId) == 1)
    && (r.pc.ReviewChecked? && r.approve ==> Count(s.executions, r.seen.requestId) == 0)
  }

  /** At most one approving review of a ticket is under way. */
  ghost predicate AloneOnTicket(s: State, i: nat, j: nat)
    requires i < |s.reviews| && j < |s.reviews|
  {
    s.reviews[i].ticket == s.reviews[j].ticket ==> !Approving(s.reviews[i]) || !Approving(s.reviews[j])
  }

  ghost predicate Once(s: State) {
    && WorkerOnce(s) && DistinctTickets(s)
    && (forall id :: IdOnce(s, id))
    && (forall t: nat :: t < |s.tickets| ==> TicketOnce(s, t))
    && (forall i: nat :: i < |s.reviews| ==> ReviewOnce(s, i))
    && (forall i: nat, j: nat :: i < j < |s.reviews| ==> AloneOnTicket(s, i, j))
  }

  // ---------------------------------------------------------------- gateway and worker steps

  /** The job the worker has just taken has never been judged. */
  lemma {:induction false} PoppedIsNew(s: State)
    requires Inv(s) && s.worker.Popped?
    ensures s.worker.request.id !in s.judged
  {
    var n := |s.taken| - 1;
    var id := s.worker.request.id;
    forall i | 0 <= i < n
      ensures s.taken[..n][i] != id
    {
      assert s.enqueued[i] == s.taken[i] && s.enqueued[n] == s.taken[n];
    }
    NotJudged(s.judged, s.taken[..n], id);
  }

  lemma {:induction false} NotJudged(judged: seq<string>, taken: seq<string>, id: string)
    requires Subsequence(judged, taken) && id !in taken
    ensures id !in judged
  {
    if taken != [] {
      if judged != [] && judged[|judged| - 1] == taken[|taken| - 1] {
        NotJudged(judged[..|judged| - 1], taken[..|taken| - 1], id);
      } else {
        NotJudged(judged, taken[..|taken| - 1], id);
      }
    }
  }

  lemma {:induction false} CountGrows(log: seq<ExecutionEntry>, e: ExecutionEntry, id: string)
    ensures Count(log + [e], id) == Count(log, id) + if e.requestId == id then 1 else 0
  {
    assert (log + [e])[..|log|] == log;
  }

  /** Steps that touch neither tickets, reviews, executions nor judgements. */
  lemma {:induction false} QuietOnce(s: State, t: State)
    requires Once(s) && WorkerOnce(t)
    requires t.tickets == s.tickets && t.reviews == s.reviews && t.executions == s.executions && t.judged == s.judged
    ensures Once(t)
  {
    forall id
      ensures IdOnce(t, id)
    {
      assert IdOnce(s, id);
    }
    TicketsOnce(s, t);
    ReviewsOnce(s, t);
  }

  lemma {:induction false} TicketsOnce(s: State, t: State)
    requires Once(s) && t.tickets == s.tickets && t.reviews == s.reviews
    requires forall k: nat :: k < |s.tickets| ==>
               Count(t.executions, s.tickets[k].requestId) == Count(s.executions, s.tickets[k].requestId)
    ensures forall k: nat :: k < |t.tickets| ==> TicketOnce(t, k)
  {
    forall k: nat | k < |t.tickets|
      ensures TicketOnce(t, k)
    {
      assert TicketOnce(s, k);
      assert Executing(s, k) == Executing(t, k);
    }
  }

  lemma {:induction false} ReviewsOnce(s: State, t: State)
    requires Once(s) && t.reviews == s.reviews
    requires forall i: nat :: i < |s.reviews| ==>
               Count(t.executions, s.reviews[i].seen.requestId) == Count(s.executions, s.reviews[i].seen.requestId)
    ensures forall i: nat :: i < |t.reviews| ==> ReviewOnce(t, i)
    ensures forall i: nat, j: nat :: i < j < |t.reviews| ==> AloneOnTicket(t, i, j)
  {
    forall i: nat | i < |t.reviews|
      ensures ReviewOnce(t, i)
    {
      assert ReviewOnce(s, i);
    }
    forall i: nat, j: nat | i < j < |t.reviews|
      ensures AloneOnTicket(t, i, j)
    {
      assert AloneOnTicket(s, i, j);
    }
  }

  lemma {:induction false} JudgeOnce(s: State, judgement: Judgement, observe: bool)
    requires Inv(s) && Once(s)
    ensures Once(JudgeStep(s, judgement, observe))
  {
    var t := JudgeStep(s, judgement, observe);
    if t != s {
      PoppedIsNew(s);
      assert IdOnce(s, s.worker.request.id);
      forall id
        ensures IdOnce(t, id)
      {
        assert IdOnce(s, id);
      }
      TicketsOnce(s, t);
      ReviewsOnce(s, t);
    }
  }

  /** One more execution, of a request that had none. */
  lemma {:induction false} LogGrows(s: State, t: State, entry: ExecutionEntry)
    requires Once(s) && t.executions == s.executions + [entry]
    requires entry.requestId in s.judged && Count(s.executions, entry.requestId) == 0
    ensures forall id :: Count(t.executions, id) == Count(s.executions, id) + if id == entry.requestId then 1 else 0
    ensures t.judged == s.judged && t.tickets == s.tickets ==> forall id :: IdOnce(t, id)
  {
    forall id
      ensures Count(t.executions, id) == Count(s.executions, id) + if id == entry.requestId then 1 else 0
      ensures t.judged == s.judged && t.tickets == s.tickets ==> IdOnce(t, id)
    {
      assert IdOnce(s, id);
      CountGrows(s.executions, entry, id);
    }
  }

  lemma {:induction false} ExecuteOnce(s: State, success: bool, response: Json)
    requires Inv(s) && Once(s)
    ensures Once(ExecuteStep(s, success, response))
  {
    var t := ExecuteStep(s, success, response);
    if t != s {
      LogGrows(s, t, ExecutionEntry(s.worker.request.id, s.worker.judgement.redacted));
      forall k: nat | k < |s.tickets|
        ensures s.tickets[k].requestId != s.worker.request.id
      {
        assert HasTicket(s.tickets, s.tickets[k].requestId);
      }
      forall i: nat | i < |s.reviews|
        ensures s.reviews[i].seen.requestId != s.worker.request.id
      {
        assert ReviewInv(s, i);
      }
      TicketsOnce(s, t);
      ReviewsOnce(s, t);
    }
  }

  lemma {:induction false} NewTicketOnce(s: State, ticket: Ticket)
    requires Inv(s) && Once(s) && s.worker.Judged? && ticket.requestId == s.worker.request.id
    ensures Once(s.(worker := Ticketed(s.worker.request, s.worker.judgement), tickets := s.tickets + [ticket]))
  {
    var t := s.(worker := Ticketed(s.worker.request, s.worker.judgement), tickets := s.tickets + [ticket]);
    var n := |s.tickets|;
    forall id
      ensures IdOnce(t, id)
    {
      assert IdOnce(s, id);
      MoreTickets(s.tickets, ticket, id);
    }
    forall k: nat | k < |t.tickets|
      ensures TicketOnce(t, k)
    {
      if k < n {
        assert TicketOnce(s, k);
        assert Executing(s, k) ==> Executing(t, k);
      }
    }
    forall k: nat, u: nat | k < u < |t.tickets|
      ensures t.tickets[k].requestId != t.tickets[u].requestId
    {
      if u == n {
        assert s.tickets[k].requestId == t.tickets[k].requestId;
      }
    }
    ReviewsOnce(s, t);
  }

  lemma {:induction false} MoreTickets(tickets: seq<Ticket>, ticket: Ticket, id: string)
    ensures HasTicket(tickets + [ticket], id) <==> HasTicket(tickets, id) || id == ticket.requestId
  {
    var more := tickets + [ticket];
    if HasTicket(tickets, id) {
      var k :| 0 <= k < |tickets| && tickets[k].requestId == id;
      assert more[k].requestId == id;
    }
    assert more[|tickets|] == ticket;
  }

  /** The worker's row exists, and it has no ticket yet: the escalation is not refused. */
  lemma {:induction false} EscalationIsAccepted(s: State)
    requires Inv(s) && Once(s) && s.worker.Judged? && s.worker.judgement.decision.verdict == Escalate
    ensures CreateTicketStep(s) ==
              s.(worker := Ticketed(s.worker.request, s.worker.judgement),
                 tickets := s.tickets + [Ticket(TicketNumber(|s.tickets|), s.worker.request.id, TicketPending)])
  {
    var id := s.worker.request.id;
    assert IdInv(s, id);
    assert s.enqueued[|s.taken| - 1] == id;
  }

  lemma {:induction false} CreateTicketOnce(s: State)
    requires Inv(s) && Once(s)
    ensures Once(CreateTicketStep(s))
  {
    if s.worker.Judged? && s.worker.judgement.decision.verdict == Escalate {
      EscalationIsAccepted(s);
      NewTicketOnce(s, Ticket(TicketNumber(|s.tickets|), s.worker.request.id, TicketPending));
    }
  }

  // ---------------------------------------------------------------- reviewer steps

  lemma {:induction false} SameTicket(s: State, t: nat, u: nat)
    requires DistinctTickets(s) && t < |s.tickets| && u < |s.tickets|
    requires s.tickets[t].requestId == s.tickets[u].requestId
    ensures t == u
  {
  }

  lemma {:induction false} SameTickets(s: State, t: State)
    requires |t.tickets| == |s.tickets|
    requires forall k: nat :: k < |s.tickets| ==> t.tickets[k].requestId == s.tickets[k].requestId
    ensures forall id :: HasTicket(t.tickets, id) <==> HasTicket(s.tickets, id)
  {
    forall id
      ensures HasTicket(t.tickets, id) <==> HasTicket(s.tickets, id)
    {
      if HasTicket(s.tickets, id) {
        var k :| 0 <= k < |s.tickets| && s.tickets[k].requestId == id;
        assert t.tickets[k].requestId == id;
      }
      if HasTicket(t.tickets, id) {
        var k :| 0 <= k < |t.tickets| && t.tickets[k].requestId == id;
        assert s.tickets[k].requestId == id;
      }
    }
  }

  /** What a step of a reviewer that executes nothing leaves alone. */
  lemma {:induction false} ReviewsChange(s: State, t: State)
    requires Once(s) && t == s.(reviews := t.reviews, tickets := t.tickets, ledger := t.ledger)
    requires |t.tickets| == |s.tickets|
    requires forall k: nat :: k < |s.tickets| ==> t.tickets[k].requestId == s.tickets[k].requestId
    ensures WorkerOnce(t) && DistinctTickets(t)
    ensures forall id :: IdOnce(t, id)
  {
    SameTickets(s, t);
    forall id
      ensures IdOnce(t, id)
    {
      assert IdOnce(s, id);
    }
  }

  /** A review other than `i` that is executing still is, once `i` has moved. */
  lemma {:induction false} StillExecuting(s: State, t: State, i: nat, k: nat)
    requires Executing(s, k) && i < |s.reviews| && !s.reviews[i].pc.ReviewExecuted? && |s.reviews| <= |t.reviews|
    requires forall j: nat :: j < |s.reviews| && j != i ==> t.reviews[j] == s.reviews[j]
    ensures Executing(t, k)
  {
    var j: nat :| j < |s.reviews| && s.reviews[j].ticket == k && s.reviews[j].pc.ReviewExecuted?;
    assert t.reviews[j] == s.reviews[j];
  }

  lemma {:induction false} ReviewStartOnce(s: State, ticket: nat, approve: bool)
    requires Inv(s) && Once(s) && !BreaksOnce(s, ReviewStart(ticket, approve))
    ensures Once(ReviewStartStep(s, ticket, approve))
  {
    var t := ReviewStartStep(s, ticket, approve);
    if t != s {
      var n := |s.reviews|;
      assert TicketOnce(s, ticket);
      FoundRow(s.ledger, s.tickets[ticket].requestId);
      assert t.reviews[n].seen.requestId == s.tickets[ticket].requestId;
      assert approve && Executing(s, ticket) ==> ApprovalUnderWay(s, ticket) by {
        if Executing(s, ticket) {
          var i: nat :| i < n && s.reviews[i].ticket == ticket && s.reviews[i].pc.ReviewExecuted?;
          assert ReviewOnce(s, i) && Approving(s.reviews[i]);
        }
      }
      ReviewsChange(s, t);
      StartedReviews(s, t);
    }
  }

  lemma {:induction false} StartedReviews(s: State, t: State)
    requires Once(s) && t == s.(reviews := t.reviews)
    requires |t.reviews| == |s.reviews| + 1 && t.reviews[..|s.reviews|] == s.reviews
    requires var r := t.reviews[|s.reviews|];
             && r.pc.ReviewChecked?
             && (r.approve ==> !ApprovalUnderWay(s, r.ticket) && Count(s.executions, r.seen.requestId) == 0)
    ensures forall k: nat :: k < |t.tickets| ==> TicketOnce(t, k)
    ensures forall i: nat :: i < |t.reviews| ==> ReviewOnce(t, i)
    ensures forall i: nat, j: nat :: i < j < |t.reviews| ==> AloneOnTicket(t, i, j)
  {
    var n := |s.reviews|;
    assert forall j: nat :: j < n ==> t.reviews[j] == t.reviews[..n][j] == s.reviews[j];
    forall k: nat | k < |t.tickets|
      ensures TicketOnce(t, k)
    {
      assert TicketOnce(s, k);
      if Executing(s, k) {
        var j: nat :| j < n && s.reviews[j].ticket == k && s.reviews[j].pc.ReviewExecuted?;
        assert t.reviews[j] == s.reviews[j];
      }
    }
    forall i: nat | i < |t.reviews|
      ensures ReviewOnce(t, i)
    {
      assert i < n ==> ReviewOnce(s, i);
    }
    forall i: nat, j: nat | i < j < |t.reviews|
      ensures AloneOnTicket(t, i, j)
    {
      assert j < n ==> AloneOnTicket(s, i, j);
      assert t.reviews[i] == s.reviews[i];
    }
  }

  lemma {:induction false} ReviewExecuteOnce(s: State, i: nat, success: bool, response: Json)
    requires Inv(s) && Once(s)
    ensures Once(ReviewExecuteStep(s, i, success, response))
  {
    var t := ReviewExecuteStep(s, i, success, response);
    if t != s {
      var r := s.reviews[i];
      var me := r.seen.requestId;
      assert ReviewOnce(s, i) && ReviewInv(s, i) && IdOnce(s, me);
      assert HasTicket(s.tickets, me);
      LogGrows(s, t, ExecutionEntry(me, r.seen.parsedRequest));
      assert t.reviews[i].pc.ReviewExecuted?;
      forall k: nat | k < |t.tickets|
        ensures TicketOnce(t, k)
      {
        assert TicketOnce(s, k);
        if s.tickets[k].requestId == me {
          SameTicket(s, k, r.ticket);
          assert Executing(t, k);
        } else if Executing(s, k) {
          StillExecuting(s, t, i, k);
        }
      }
      ExecutedReviews(s, t, i);
    }
  }

  lemma {:induction false} ExecutedReviews(s: State, t: State, i: nat)
    requires Inv(s) && Once(s) && i < |s.reviews| && s.reviews[i].approve && s.reviews[i].pc.ReviewChecked?
    requires |t.reviews| == |s.reviews|
    requires t.reviews == s.reviews[i := s.reviews[i].(pc := t.reviews[i].pc)] && t.reviews[i].pc.ReviewExecuted?
    requires forall id :: Count(t.executions, id) == Count(s.executions, id) + if id
              == s.reviews[i].seen.requestId then 1 else 0
    requires Count(s.executions, s.reviews[i].seen.requestId) == 0
    ensures forall j: nat :: j < |t.reviews| ==> ReviewOnce(t, j)
    ensures forall a: nat, b: nat :: a < b < |t.reviews| ==> AloneOnTicket(t, a, b)
  {
    var r := s.reviews[i];
    forall j: nat | j < |t.reviews|
      ensures ReviewOnce(t, j)
    {
      assert ReviewOnce(s, j) && ReviewInv(s, j) && ReviewInv(s, i);
      if j != i && s.reviews[j].seen.requestId == r.seen.requestId {
        SameTicket(s, s.reviews[j].ticket, r.ticket);
        assert if i < j then AloneOnTicket(s, i, j) else AloneOnTicket(s, j, i);
      }
    }
    forall a: nat, b: nat | a < b < |t.reviews|
      ensures AloneOnTicket(t, a, b)
    {
      assert AloneOnTicket(s, a, b);
    }
  }

  /** A review moves on and executes nothing: it closes the ticket, or it had nothing to close. */
  lemma {:induction false} ReviewMovesOnce(s: State, t: State, i: nat)
    requires Inv(s) && Once(s) && i < |s.reviews|
    requires t == s.(reviews := t.reviews, tickets := t.tickets, ledger := t.ledger)
    requires |t.reviews| == |s.reviews|
    requires t.reviews == s.reviews[i := s.reviews[i].(pc := t.reviews[i].pc)] && !Active(t.reviews[i].pc)
    requires |t.tickets| == |s.tickets| && forall k: nat :: k < |s.tickets| ==>
               t.tickets[k].requestId == s.tickets[k].requestId && (Open(t.tickets[k].status) ==>
                   Open(s.tickets[k].status))
    requires s.reviews[i].pc.ReviewExecuted? ==> !OpenTicket(t, s.reviews[i].ticket)
    ensures Once(t)
  {
    ReviewsChange(s, t);
    forall k: nat | k < |t.tickets|
      ensures TicketOnce(t, k)
    {
      assert TicketOnce(s, k);
      if Executing(s, k) && Open(t.tickets[k].status) {
        var j: nat :| j < |s.reviews| && s.reviews[j].ticket == k && s.reviews[j].pc.ReviewExecuted?;
        assert t.reviews[j] == s.reviews[j];
      }
    }
    forall j: nat | j < |t.reviews|
      ensures ReviewOnce(t, j)
    {
      assert ReviewOnce(s, j);
    }
    forall a: nat, b: nat | a < b < |t.reviews|
      ensures AloneOnTicket(t, a, b)
    {
      assert AloneOnTicket(s, a, b);
    }
  }

  // ---------------------------------------------------------------- every run that avoids the two steps

  lemma {:induction false} ReviewerStepOnce(s: State, e: Event)
    requires Inv(s) && Once(s) && !BreaksOnce(s, e)
    requires e.ReviewStart? || e.ReviewExecute? || e.ReviewWriteTicket? || e.ReviewWriteLedger? || e.ReviewDies?
    ensures Once(Step(s, e))
  {
    if e.ReviewStart? {
      ReviewStartOnce(s, e.ticket, e.approve);
    } else if e.ReviewExecute? {
      ReviewExecuteOnce(s, e.review, e.success, e.response);
    } else if Step(s, e) != s {
      assert ReviewInv(s, e.review);
      ReviewMovesOnce(s, Step(s, e), e.review);
    }
  }

  lemma {:induction false} StepOnce(s: State, e: Event)
    requires Inv(s) && Once(s) && !BreaksOnce(s, e)
    ensures Once(Step(s, e))
  {
    if e.ReviewStart? || e.ReviewExecute? || e.ReviewWriteTicket? || e.ReviewWriteLedger? || e.ReviewDies? {
      ReviewerStepOnce(s, e);
    } else if e.Judge? {
      JudgeOnce(s, e.judgement, e.observe);
    } else if e.Execute? {
      ExecuteOnce(s, e.success, e.response);
    } else if e.CreateTicket? {
      CreateTicketOnce(s);
    } else {
      OtherStepOnce(s, e);
    }
  }

  lemma {:induction false} OtherStepOnce(s: State, e: Event)
    requires Inv(s) && Once(s)
    requires e.Intercept? || e.Enqueue? || e.EnqueueFails? || e.Pop? || e.WriteVerdict? || e.Finish? || e.Fail?
             || e.FallbackWrite? || e.FallbackFails?
    ensures Once(Step(s, e))
  {
    QuietOnce(s, Step(s, e));
  }

  lemma {:induction false} RunOnce(events: seq<Event>)
    requires Avoids(BreaksOnce, EMPTY, events)
    ensures Inv(Run(EMPTY, events)) && Once(Run(EMPTY, events))
  {
    RunInv(events);
    if events == [] {
      assert forall id :: IdOnce(EMPTY, id);
    } else {
      var before := events[..|events| - 1];
      RunOnce(before);
      StepOnce(Run(EMPTY, before), events[|events| - 1]);
    }
  }

  /** No request is executed twice: neither failures, nor reviews of a ticket that is being created, nor
    rejections that overlap can make it so. */
  lemma {:induction false} ExecutedAtMostOnce(events: seq<Event>, id: string)
    requires Avoids(BreaksOnce, EMPTY, events)
    ensures Count(Run(EMPTY, events).executions, id) <= 1
  {
    RunOnce(events);
    assert IdOnce(Run(EMPTY, events), id);
  }

  // ---------------------------------------------------------------- and no other

  ghost predicate ExecutedTwice(s: State) {
    exists id :: Count(s.executions, id) >= 2
  }

  lemma {:induction false} TicketHasRow(s: State, t: nat)
    requires Inv(s) && t < |s.tickets|
    ensures RowOf(s.ledger, s.tickets[t].requestId).Some?
    ensures RowOf(s.ledger, s.tickets[t].requestId).value.requestId == s.tickets[t].requestId
  {
    assert TicketInv(s, t);
    TakenIsNotQueued(s, s.tickets[t].requestId);
    assert IdInv(s, s.tickets[t].requestId);
    FoundRow(s.ledger, s.tickets[t].requestId);
  }

  /** Starting and executing one more approving review of an open ticket. */
  lemma {:induction false} ApprovesOnceMore(s: State, t: nat)
    requires Inv(s) && OpenTicket(s, t)
    ensures var id := s.tickets[t].requestId;
            var u := ReviewExecuteStep(ReviewStartStep(s, t, true), |s.reviews|, true, JNull);
            Count(u.executions, id) == Count(s.executions, id) + 1
  {
    TicketHasRow(s, t);
    var row := RowOf(s.ledger, s.tickets[t].requestId).value;
    CountGrows(s.executions, ExecutionEntry(row.requestId, row.parsedRequest), row.requestId);
  }

  lemma {:induction false} TwoSteps(breaks: (State, Event) -> bool, s: State, e0: Event, e1: Event)
    requires !breaks(s, e0) && !breaks(Step(s, e0), e1)
    ensures Avoids(breaks, s, [e0, e1]) && Run(s, [e0, e1]) == Step(Step(s, e0), e1)
  {
    assert [e0, e1][..1] == [e0] && [e0][..0] == [];
    assert Run(s, []) == s && Run(s, [e0]) == Step(s, e0);
  }

  /** A ticket that is open, not under approval, and already executed, can be approved once more. */
  lemma {:induction false} ApprovedAgain(s: State, t: nat) returns (more: seq<Event>)
    requires Inv(s) && OpenTicket(s, t) && !ApprovalUnderWay(s, t)
    requires Count(s.executions, s.tickets[t].requestId) >= 1
    ensures Avoids(BreaksOnce, s, more) && ExecutedTwice(Run(s, more))
  {
    ApprovesOnceMore(s, t);
    var e0 := ReviewStart(t, true);
    more := [e0, ReviewExecute(|s.reviews|, true, JNull)];
    assert !BreaksOnce(s, e0);
    TwoSteps(BreaksOnce, s, e0, more[1]);
    assert Step(s, e0) == ReviewStartStep(s, t, true);
    assert Count(Run(s, more).executions, s.tickets[t].requestId) >= 2;
  }

  lemma {:induction false} LostReviewExecutesTwice(s: State, i: nat) returns (more: seq<Event>)
    requires Inv(s) && Once(s) && BreaksOnce(s, ReviewDies(i))
    ensures Avoids(BreaksOnce, Step(s, ReviewDies(i)), more) && ExecutedTwice(Run(Step(s, ReviewDies(i)), more))
  {
    var t := s.reviews[i].ticket;
    var d := Step(s, ReviewDies(i));
    StepInv(s, ReviewDies(i));
    assert ReviewOnce(s, i) && ReviewInv(s, i);
    forall j | 0 <= j < |d.reviews| && d.reviews[j].ticket == t
      ensures !Approving(d.reviews[j])
    {
      assert j == i || if i < j then AloneOnTicket(s, i, j) else AloneOnTicket(s, j, i);
    }
    more := ApprovedAgain(d, t);
  }

  /** Two approving reviews of one request, the first executed or about to. */
  lemma {:induction false} BothExecute(s: State, i: nat, n: nat) returns (more: seq<Event>)
    requires i < n < |s.reviews| && s.reviews[i].seen.requestId == s.reviews[n].seen.requestId
    requires Approving(s.reviews[i]) && s.reviews[n].approve && s.reviews[n].pc.ReviewChecked?
    requires s.reviews[i].pc.ReviewExecuted? ==> Count(s.executions, s.reviews[i].seen.requestId) >= 1
    ensures Avoids(BreaksOnce, s, more) && ExecutedTwice(Run(s, more))
    ensures forall k :: 0 <= k < |more| ==> more[k].ReviewExecute?
  {
    var id := s.reviews[i].seen.requestId;
    var e0, e1 := ReviewExecute(i, true, JNull), ReviewExecute(n, true, JNull);
    TwoSteps(BreaksOnce, s, e0, e1);
    more := [e0, e1];
    CountGrows(s.executions, ExecutionEntry(id, s.reviews[i].seen.parsedRequest), id);
    var u := Step(s, e0);
    assert Count(u.executions, id) >= 1;
    CountGrows(u.executions, ExecutionEntry(id, s.reviews[n].seen.parsedRequest), id);
    assert Count(Run(s, more).executions, id) >= 2;
  }

  lemma {:induction false} OverlapExecutesTwice(s: State, t: nat) returns (more: seq<Event>)
    requires Inv(s) && Once(s) && BreaksOnce(s, ReviewStart(t, true))
    ensures Avoids(BreaksOnce, Step(s, ReviewStart(t, true)), more)
    ensures ExecutedTwice(Run(Step(s, ReviewStart(t, true)), more))
    ensures forall k :: 0 <= k < |more| ==> more[k].ReviewExecute?
  {
    var i: nat :| i < |s.reviews| && s.reviews[i].ticket == t && Approving(s.reviews[i]);
    assert ReviewOnce(s, i) && ReviewInv(s, i);
    TicketHasRow(s, t);
    more := BothExecute(Step(s, ReviewStart(t, true)), i, |s.reviews|);
  }

  ghost predicate TwiceBy(s: State, more: seq<Event>) {
    Avoids(BreaksOnce, s, more) && ExecutedTwice(Run(s, more))
  }

  /** Further steps, none of them such a one, lead to a second execution. */
  ghost predicate LeadsToTwice(s: State) {
    exists more :: TwiceBy(s, more)
  }

  lemma {:induction false} NeverTwice(events: seq<Event>, e: Event)
    requires Avoids(BreaksOnce, EMPTY, events) && !BreaksOnce(Run(EMPTY, events), e)
    ensures !LeadsToTwice(Step(Run(EMPTY, events), e))
  {
    var s := Run(EMPTY, events);
    forall more
      ensures !TwiceBy(Step(s, e), more)
    {
      if Avoids(BreaksOnce, Step(s, e), more) {
        AvoidsStep(BreaksOnce, EMPTY, events, e, more);
        forall id
          ensures Count(Run(Step(s, e), more).executions, id) <= 1
        {
          ExecutedAtMostOnce(events + [e] + more, id);
        }
      }
    }
  }

  /** The condition is exact: after a run that meets it, a step opens the way to a second execution, by
    steps that meet it again, if and only if the step breaks it. */
  lemma {:induction false} OnceExactly(events: seq<Event>, e: Event)
    requires Avoids(BreaksOnce, EMPTY, events)
    ensures BreaksOnce(Run(EMPTY, events), e) <==> LeadsToTwice(Step(Run(EMPTY, events), e))
  {
    var s := Run(EMPTY, events);
    RunOnce(events);
    if !BreaksOnce(s, e) {
      NeverTwice(events, e);
    } else if e.ReviewDies? {
      var more := LostReviewExecutesTwice(s, e.review);
      assert TwiceBy(Step(s, e), more);
    } else {
      assert e == ReviewStart(e.ticket, true);
      var more := OverlapExecutesTwice(s, e.ticket);
      assert TwiceBy(Step(s, e), more);
    }
  }
}
