/** Exactly once: where every accepted request is, in every run of the life cycle, whatever fails. */
module LifecycleConservation {
  import opened Types
  import opened Ledger
  import opened Lifecycle
  import opened LifecycleSafety

  /** The ids in the queue, the one to be popped next first. */
  function Oldest(queue: seq<ParsedRequest>): seq<string> {
    if queue == [] then [] else Oldest(queue[1..]) + [queue[0].id]
  }

  ghost predicate NoDuplicates(ids: seq<string>) {
    forall i: nat, j: nat :: i < j < |ids| ==> ids[i] != ids[j]
  }

  /** `a` is `b` with some elements left out. */
  predicate Subsequence(a: seq<string>, b: seq<string>) {
    if a == [] then true
    else if b == [] then false
    else if a[|a| - 1] == b[|b| - 1] then Subsequence(a[..|a| - 1], b[..|b| - 1])
    else Subsequence(a, b[..|b| - 1])
  }

  /** The worker has taken the request and not yet written its verdict. */
  predicate InFlight(worker: Worker, id: string) {
    && !worker.Idle? && !worker.Written? && !(worker.Failing? && worker.written)
    && worker.request.id == id
  }

  predicate ExecutedNow(worker: Worker, id: string) {
    worker.Executed? && worker.request.id == id
  }

  /** The worker has created the ticket of the request and not yet written its row. */
  predicate TicketedNow(worker: Worker, id: string) {
    worker.Ticketed? && worker.request.id == id
  }

  predicate PendingRow(ledger: seq<Columns>, id: string) {
    RowOf(ledger, id).Some? && RowOf(ledger, id).value.decisionRecord.verdict == Pending
  }

  ghost predicate IdInv(s: State, id: string) {
    && (RowOf(s.ledger, id).Some? <==> id in s.entering || id in s.lost || id in s.enqueued)
    && !(id in s.entering && (id in s.lost || id in s.enqueued)) && !(id in s.lost && id in s.enqueued)
    && (id in s.entering ==> s.entering[id].id == id)
    && (id in s.abandoned ==> id in s.taken)
    && (id in s.entering || id in s.lost || id in Oldest(s.queue) ==> PendingRow(s.ledger, id))
    && (PendingRow(s.ledger, id) ==>
          id in s.entering || id in s.lost || id in Oldest(s.queue) || id in s.abandoned || InFlight(s.worker, id))
  }

  ghost predicate TicketInv(s: State, t: nat)
    requires t < |s.tickets|
  {
    s.tickets[t].number == 1001 + t && s.tickets[t].requestId in s.taken
  }

  ghost predicate ReviewInv(s: State, i: nat)
    requires i < |s.reviews|
  {
    s.reviews[i].ticket < |s.tickets| && s.reviews[i].seen.requestId == s.tickets[s.reviews[i].ticket].requestId
  }

  ghost predicate WorkerInv(s: State) {
    && (!s.worker.Idle? ==> s.taken != [] && s.worker.request.id == s.taken[|s.taken| - 1])
    && (s.worker.Judged? || s.worker.Executed? || s.worker.Ticketed? ==>
          s.worker.judgement.decision.verdict != Pending && s.worker.judgement.redacted.id == s.worker.request.id)
    && Subsequence(s.judged, if s.worker.Popped? then s.taken[..|s.taken| - 1] else s.taken)
  }

  ghost predicate QueueInv(s: State) {
    s.enqueued == s.taken + Oldest(s.queue) && NoDuplicates(s.enqueued)
  }

  ghost predicate Inv(s: State) {
    && QueueInv(s) && WorkerInv(s)
    && (forall id :: IdInv(s, id))
    && (forall t: nat :: t < |s.tickets| ==> TicketInv(s, t))
    && (forall i: nat :: i < |s.reviews| ==> ReviewInv(s, i))
  }

  // ---------------------------------------------------------------- queue

  lemma {:induction false} PushOldest(x: ParsedRequest, queue: seq<ParsedRequest>)
    ensures Oldest([x] + queue) == Oldest(queue) + [x.id]
  {
    assert ([x] + queue)[1..] == queue;
  }

  lemma {:induction false} PopOldest(queue: seq<ParsedRequest>)
    requires queue != []
    ensures Oldest(queue) == [queue[|queue| - 1].id] + Oldest(queue[..|queue| - 1])
  {
    if |queue| > 1 {
      PopOldest(queue[1..]);
      assert queue[1..][..|queue| - 2] == queue[..|queue| - 1][1..];
    }
  }

  lemma {:induction false} SubsequenceGrows(a: seq<string>, b: seq<string>, x: string)
    requires Subsequence(a, b)
    ensures Subsequence(a + [x], b + [x])
    ensures Subsequence(a, b + [x])
    decreases |b|, 1
  {
    assert (a + [x])[..|a|] == a && (b + [x])[..|b|] == b;
    if a != [] && a[|a| - 1] == x {
      DropLast(a, b);
    }
  }

  lemma {:induction false} DropLast(a: seq<string>, b: seq<string>)
    requires a != [] && Subsequence(a, b)
    ensures Subsequence(a[..|a| - 1], b)
    decreases |b|, 0
  {
    var a' := a[..|a| - 1];
    if a[|a| - 1] == b[|b| - 1] {
      SubsequenceGrows(a', b[..|b| - 1], b[|b| - 1]);
      assert b[..|b| - 1] + [b[|b| - 1]] == b;
    } else {
      DropLast(a, b[..|b| - 1]);
      SubsequenceGrows(a', b[..|b| - 1], b[|b| - 1]);
      assert b[..|b| - 1] + [b[|b| - 1]] == b;
    }
  }

  lemma {:induction false} GrowsByLast(a: seq<string>, b: seq<string>)
    requires b != [] && Subsequence(a, b[..|b| - 1])
    ensures Subsequence(a, b) && Subsequence(a + [b[|b| - 1]], b)
  {
    SubsequenceGrows(a, b[..|b| - 1], b[|b| - 1]);
    assert b[..|b| - 1] + [b[|b| - 1]] == b;
  }

  lemma {:induction false} TakenIsNotQueued(s: State, id: string)
    requires QueueInv(s) && id in s.taken
    ensures id in s.enqueued && id !in Oldest(s.queue)
  {
    var i :| 0 <= i < |s.taken| && s.taken[i] == id;
    assert s.enqueued[i] == id;
    forall j | 0 <= j < |Oldest(s.queue)|
      ensures Oldest(s.queue)[j] != id
    {
      assert s.enqueued[|s.taken| + j] == Oldest(s.queue)[j];
    }
  }

  lemma {:induction false} TicketsAreTaken(s: State, id: string)
    requires Inv(s) && HasTicket(s.tickets, id)
    ensures id in s.taken
  {
    var t :| 0 <= t < |s.tickets| && s.tickets[t].requestId == id;
    assert TicketInv(s, t);
  }

  // ---------------------------------------------------------------- gateway steps

  lemma {:induction false} InterceptInv(s: State, request: ParsedRequest, raw: Json, receivedAt: int)
    requires Inv(s)
    ensures Inv(InterceptStep(s, request, raw, receivedAt))
  {
    var t := InterceptStep(s, request, raw, receivedAt);
    assert IdInv(s, request.id);
    forall id
      ensures IdInv(t, id)
    {
      assert IdInv(s, id);
      if RowOf(s.ledger, request.id).None? {
        RowAfterRecord(s.ledger, InitialRow(request, raw, receivedAt), id);
      }
    }
    OthersKeep(s, t);
  }

  /** Tickets and reviews do not notice a step that leaves them alone and takes no job back. */
  lemma {:induction false} OthersKeep(s: State, t: State)
    requires Inv(s) && t.tickets == s.tickets && t.reviews == s.reviews
    requires forall id :: id in s.taken ==> id in t.taken
    ensures forall k: nat :: k < |t.tickets| ==> TicketInv(t, k)
    ensures forall i: nat :: i < |t.reviews| ==> ReviewInv(t, i)
  {
    forall k: nat | k < |t.tickets|
      ensures TicketInv(t, k)
    {
      assert TicketInv(s, k);
    }
    forall i: nat | i < |t.reviews|
      ensures ReviewInv(t, i)
    {
      assert ReviewInv(s, i);
    }
  }

  lemma {:induction false} EnqueueInv(s: State, id: string)
    requires Inv(s)
    ensures Inv(EnqueueStep(s, id))
  {
    var t := EnqueueStep(s, id);
    if id in s.entering {
      assert IdInv(s, id);
      PushOldest(s.entering[id], s.queue);
      assert t.enqueued == s.taken + Oldest(t.queue);
      forall other
        ensures IdInv(t, other)
      {
        assert IdInv(s, other);
      }
      OthersKeep(s, t);
    }
  }

  lemma {:induction false} EnqueueFailsInv(s: State, id: string)
    requires Inv(s)
    ensures Inv(EnqueueFailsStep(s, id))
  {
    var t := EnqueueFailsStep(s, id);
    forall other
      ensures IdInv(t, other)
    {
      assert IdInv(s, other);
    }
    OthersKeep(s, t);
  }

  // ---------------------------------------------------------------- worker steps

  lemma {:induction false} PopInv(s: State)
    requires Inv(s)
    ensures Inv(PopStep(s))
  {
    var t := PopStep(s);
    if s.worker.Idle? && s.queue != [] {
      PopOldest(s.queue);
      assert t.taken + Oldest(t.queue) == s.enqueued;
      assert t.taken[..|t.taken| - 1] == s.taken;
      forall id
        ensures IdInv(t, id)
      {
        assert IdInv(s, id);
      }
      OthersKeep(s, t);
    }
  }

  /** A step of the worker that writes no ledger row. */
  lemma {:induction false} WorkerMoveInv(s: State, t: State, added: seq<Ticket> := [])
    requires Inv(s) && WorkerInv(t)
    requires t.ledger == s.ledger && t.entering == s.entering && t.queue == s.queue && t.lost == s.lost
    requires t.enqueued == s.enqueued && t.taken == s.taken && t.reviews == s.reviews
    requires t.tickets == s.tickets + added && |added| <= 1
    requires |added| == 1 ==> added[0].number == 1001 + |s.tickets| && added[0].requestId in s.taken
    requires s.abandoned <= t.abandoned && forall id :: id in t.abandoned - s.abandoned ==> id in s.taken
    requires forall id :: InFlight(s.worker, id) ==>
              InFlight(t.worker, id) || id in t.abandoned || !PendingRow(s.ledger, id)
    ensures Inv(t)
  {
    forall id
      ensures IdInv(t, id)
    {
      assert IdInv(s, id);
    }
    forall k: nat | k < |t.tickets|
      ensures TicketInv(t, k)
    {
      assert k < |s.tickets| ==> TicketInv(s, k);
    }
    forall i: nat | i < |t.reviews|
      ensures ReviewInv(t, i)
    {
      assert ReviewInv(s, i);
    }
  }

  lemma {:induction false} JudgeInv(s: State, judgement: Judgement, observe: bool)
    requires Inv(s)
    ensures Inv(JudgeStep(s, judgement, observe))
  {
    var t := JudgeStep(s, judgement, observe);
    if t != s {
      GrowsByLast(s.judged, s.taken);
      WorkerMoveInv(s, t);
    }
  }

  lemma {:induction false} NotPopped(s: State)
    requires WorkerInv(s)
    ensures Subsequence(s.judged, s.taken)
  {
    if s.worker.Popped? {
      GrowsByLast(s.judged, s.taken);
    }
  }

  lemma {:induction false} FailInv(s: State)
    requires Inv(s)
    ensures Inv(FailStep(s))
  {
    NotPopped(s);
    if !s.worker.Idle? && !s.worker.Failing? {
      WorkerMoveInv(s, FailStep(s));
    }
  }

  lemma {:induction false} FallbackFailsInv(s: State)
    requires Inv(s)
    ensures Inv(FallbackFailsStep(s))
  {
    if s.worker.Failing? {
      WorkerMoveInv(s, FallbackFailsStep(s));
    }
  }

  lemma {:induction false} ExecuteInv(s: State, success: bool, response: Json)
    requires Inv(s)
    ensures Inv(ExecuteStep(s, success, response))
  {
    WorkerMoveInv(s, ExecuteStep(s, success, response));
  }

  lemma {:induction false} NewTicketInv(s: State, ticket: Ticket)
    requires Inv(s) && s.worker.Judged?
    requires ticket.number == 1001 + |s.tickets| && ticket.requestId == s.worker.request.id
    ensures Inv(s.(worker := Ticketed(s.worker.request, s.worker.judgement), tickets := s.tickets + [ticket]))
  {
    WorkerMoveInv(s, s.(worker := Ticketed(s.worker.request, s.worker.judgement), tickets := s.tickets + [ticket]),
                  [ticket]);
  }

  lemma {:induction false} CreateTicketInv(s: State)
    requires Inv(s)
    ensures Inv(CreateTicketStep(s))
  {
    if s.worker.Judged? && s.worker.judgement.decision.verdict == Escalate {
      FailInv(s);
      NewTicketInv(s, Ticket(TicketNumber(|s.tickets|), s.worker.judgement.redacted.id, TicketPending));
    }
  }

  /** A row of a request already taken gets a final verdict. */
  lemma {:induction false} WriteInv(s: State, t: State, id: string, edit: Edit)
    requires Inv(s) && WorkerInv(t) && id in s.taken && edit.decisionRecord.verdict != Pending
    requires t.ledger == RewriteRow(s.ledger, id, edit) && t.entering == s.entering && t.queue == s.queue
    requires t.lost == s.lost && t.enqueued == s.enqueued && t.taken == s.taken && t.abandoned == s.abandoned
    requires t.tickets == s.tickets && |t.reviews| == |s.reviews|
    requires forall i: nat :: i < |s.reviews| ==>
               t.reviews[i].ticket == s.reviews[i].ticket && t.reviews[i].seen == s.reviews[i].seen
    requires forall other :: InFlight(s.worker, other) ==> InFlight(t.worker, other) || other == id
    ensures Inv(t)
  {
    TakenIsNotQueued(s, id);
    assert IdInv(s, id);
    forall other
      ensures IdInv(t, other)
    {
      assert IdInv(s, other);
      RowAfterRewrite(s.ledger, id, edit, other);
    }
    forall k: nat | k < |t.tickets|
      ensures TicketInv(t, k)
    {
      assert TicketInv(s, k);
    }
    forall i: nat | i < |t.reviews|
      ensures ReviewInv(t, i)
    {
      assert ReviewInv(s, i);
    }
  }

  lemma {:induction false} WriteVerdictInv(s: State, now: int)
    requires Inv(s)
    ensures Inv(WriteVerdictStep(s, now))
  {
    var t := WriteVerdictStep(s, now);
    if t != s {
      var w := s.worker;
      WriteInv(s, t, w.request.id, VerdictEdit(w.judgement, if w.Executed? then Some(w.result) else None, now));
    }
  }

  lemma {:induction false} FallbackWriteInv(s: State, validation: ValidationResult, now: int)
    requires Inv(s)
    ensures Inv(FallbackWriteStep(s, validation, now))
  {
    if s.worker.Failing? {
      WriteInv(s, FallbackWriteStep(s, validation, now), s.worker.request.id, FallbackEdit(validation, now));
    }
  }

  // ---------------------------------------------------------------- reviewer steps

  /** A step of a reviewer that writes no ledger row. */
  lemma {:induction false} ReviewMoveInv(s: State, t: State)
    requires Inv(s)
    requires t == s.(tickets := t.tickets, reviews := t.reviews, executions := t.executions)
    requires |t.tickets| == |s.tickets|
    requires forall k: nat :: k < |s.tickets| ==>
               t.tickets[k].number == s.tickets[k].number && t.tickets[k].requestId == s.tickets[k].requestId
    requires |s.reviews| <= |t.reviews|
    requires forall i: nat :: i < |s.reviews| ==>
               t.reviews[i].ticket == s.reviews[i].ticket && t.reviews[i].seen == s.reviews[i].seen
    requires forall i: nat :: |s.reviews| <= i < |t.reviews| ==> ReviewInv(t, i)
    ensures Inv(t)
  {
    forall id
      ensures IdInv(t, id)
    {
      assert IdInv(s, id);
    }
    forall k: nat | k < |t.tickets|
      ensures TicketInv(t, k)
    {
      assert TicketInv(s, k);
    }
    forall i: nat | i < |t.reviews|
      ensures ReviewInv(t, i)
    {
      assert i < |s.reviews| ==> ReviewInv(s, i);
    }
  }

  lemma {:induction false} ReviewStartInv(s: State, ticket: nat, approve: bool)
    requires Inv(s)
    ensures Inv(ReviewStartStep(s, ticket, approve))
  {
    if ticket < |s.tickets| {
      FoundRow(s.ledger, s.tickets[ticket].requestId);
    }
    ReviewMoveInv(s, ReviewStartStep(s, ticket, approve));
  }

  lemma {:induction false} ReviewWriteLedgerInv(s: State, i: nat, now: int)
    requires Inv(s)
    ensures Inv(ReviewWriteLedgerStep(s, i, now))
  {
    var t := ReviewWriteLedgerStep(s, i, now);
    if i < |s.reviews| && s.reviews[i].pc.TicketWritten? {
      var r := s.reviews[i];
      assert ReviewInv(s, i);
      assert TicketInv(s, r.ticket);
      WriteInv(s, t, r.seen.requestId, ReviewEdit(r, r.pc.result, now));
    }
  }

  // ---------------------------------------------------------------- every run

  lemma {:induction false} StepInv(s: State, e: Event)
    requires Inv(s)
    ensures Inv(Step(s, e))
  {
    if e.Intercept? {
      InterceptInv(s, e.request, e.raw, e.receivedAt);
    } else if e.Enqueue? {
      EnqueueInv(s, e.id);
    } else if e.EnqueueFails? {
      EnqueueFailsInv(s, e.id);
    } else if e.ReviewStart? {
      ReviewStartInv(s, e.ticket, e.approve);
    } else if e.ReviewExecute? || e.ReviewWriteTicket? || e.ReviewDies? {
      ReviewMoveInv(s, Step(s, e));
    } else if e.ReviewWriteLedger? {
      ReviewWriteLedgerInv(s, e.review, e.now);
    } else {
      WorkerStepInv(s, e);
    }
  }

  lemma {:induction false} WorkerStepInv(s: State, e: Event)
    requires Inv(s)
    requires e.Pop? || e.Judge? || e.Execute? || e.CreateTicket? || e.WriteVerdict? || e.Finish? || e.Fail?
             || e.FallbackWrite? || e.FallbackFails?
    ensures Inv(Step(s, e))
  {
    if e.Pop? {
      PopInv(s);
    } else if e.Judge? {
      JudgeInv(s, e.judgement, e.observe);
    } else if e.Execute? {
      ExecuteInv(s, e.success, e.response);
    } else if e.CreateTicket? {
      CreateTicketInv(s);
    } else if e.WriteVerdict? {
      WriteVerdictInv(s, e.now);
    } else if e.Finish? {
      FinishInv(s);
    } else if e.Fail? {
      FailInv(s);
    } else if e.FallbackWrite? {
      FallbackWriteInv(s, e.validation, e.now);
    } else {
      FallbackFailsInv(s);
    }
  }

  lemma {:induction false} FinishInv(s: State)
    requires Inv(s)
    ensures Inv(FinishStep(s))
  {
    WorkerMoveInv(s, FinishStep(s));
  }

  lemma {:induction false} RunInv(events: seq<Event>)
    ensures Inv(Run(EMPTY, events))
  {
    if events == [] {
      assert forall id :: IdInv(EMPTY, id);
    } else {
      RunInv(events[..|events| - 1]);
      StepInv(Run(EMPTY, events[..|events| - 1]), events[|events| - 1]);
    }
  }

  /** Each request id has one row and stands in exactly one place: between record and enqueue, lost at
    the enqueue, or queued once. The worker takes the queued ids in the order in which they were
    queued, and judges each at most once, in that order. */
  lemma {:induction false} ExactlyOnce(events: seq<Event>, id: string)
    ensures var s := Run(EMPTY, events);
            && (RowOf(s.ledger, id).Some? <==> id in s.entering || id in s.lost || id in s.enqueued)
            && !(id in s.entering && (id in s.lost || id in s.enqueued)) && !(id in s.lost && id in s.enqueued)
            && NoDuplicates(s.enqueued)
            && s.enqueued == s.taken + Oldest(s.queue)
            && Subsequence(s.judged, s.taken)
  {
    RunInv(events);
    assert IdInv(Run(EMPTY, events), id);
    NotPopped(Run(EMPTY, events));
  }

  /** A pending row is accounted for: it is still on its way, or its enqueue or its last write failed.
    Once the queue is drained only the failures are left. */
  lemma {:induction false} PendingIsOnItsWay(events: seq<Event>, id: string)
    ensures var s := Run(EMPTY, events);
            && (id in s.entering || id in s.lost || id in Oldest(s.queue) ==> PendingRow(s.ledger, id))
            && (PendingRow(s.ledger, id) ==>
                  id in s.entering || id in s.lost || id in Oldest(s.queue) || id in s.abandoned
                      || InFlight(s.worker, id))
            && (s.entering == map[] && s.queue == [] && s.worker.Idle? && PendingRow(s.ledger, id) ==>
                  id in s.lost || id in s.abandoned)
  {
    RunInv(events);
    assert IdInv(Run(EMPTY, events), id);
  }

  /** Ticket numbers are the consecutive run from 1001. */
  lemma {:induction false} TicketNumbersRun(events: seq<Event>, t: nat)
    requires t < |Run(EMPTY, events).tickets|
    ensures Run(EMPTY, events).tickets[t].number == 1001 + t
  {
    RunInv(events);
    assert TicketInv(Run(EMPTY, events), t);
  }
}
