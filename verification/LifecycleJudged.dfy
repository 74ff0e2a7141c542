/** Why a request was executed: in every run, whatever fails and however reviewers interleave, either it was
  judged APPROVE, or it was judged ESCALATE and a reviewer approved it. */
module LifecycleJudged {
  import opened Types
  import opened Lifecycle
  import opened LifecycleSafety
  import opened LifecycleConservation
  import opened LifecycleOnce
  import opened LifecycleRecord

  // ---------------------------------------------------------------- invariant

  predicate JudgedAs(s: State, id: string, verdict: Verdict) {
    id in s.judgements && s.judgements[id].decision.verdict == verdict
  }

  /** A reviewer has decided to approve the request. */
  predicate ApprovedBy(s: State, id: string) {
    exists i :: 0 <= i < |s.reviews| && s.reviews[i].approve && s.reviews[i].seen.requestId == id
  }

  ghost predicate Founded(s: State, id: string) {
    && (id in s.judgements <==> id in s.judged)
    && (HasTicket(s.tickets, id) ==> JudgedAs(s, id, Escalate))
    && (HasExecuted(s, id) ==> JudgedAs(s, id, Approve) || (JudgedAs(s, id, Escalate) && ApprovedBy(s, id)))
  }

  ghost predicate WorkerFounded(s: State) {
    && (s.worker.Judged? || s.worker.Executed? || s.worker.Ticketed? ==>
          s.worker.request.id in s.judgements && s.judgements[s.worker.request.id] == s.worker.judgement)
    && (s.worker.Judged? ==> !HasExecuted(s, s.worker.request.id))
    && (s.worker.Judged? || s.worker.Executed? ==> !HasTicket(s.tickets, s.worker.request.id))
    && (s.worker.Executed? ==>
          s.worker.judgement.decision.verdict == Approve && HasExecuted(s, s.worker.request.id))
    && (s.worker.Ticketed? ==> HasTicket(s.tickets, s.worker.request.id))
  }

  ghost predicate AllFounded(s: State) {
    WorkerFounded(s) && DistinctTickets(s) && forall id :: Founded(s, id)
  }

  // ---------------------------------------------------------------- steps

  /** Steps that judge, execute and create nothing. */
  lemma {:induction false} QuietFounded(s: State, t: State)
    requires AllFounded(s) && WorkerFounded(t)
    requires t.executions == s.executions && t.judgements == s.judgements && t.judged == s.judged
    requires |t.tickets| == |s.tickets| && |t.reviews| >= |s.reviews|
    requires forall k :: 0 <= k < |s.tickets| ==> t.tickets[k].requestId == s.tickets[k].requestId
    requires forall i :: 0 <= i < |s.reviews| ==>
               t.reviews[i].approve == s.reviews[i].approve && t.reviews[i].seen == s.reviews[i].seen
    ensures AllFounded(t)
  {
    SameTickets(s, t);
    forall id
      ensures Founded(t, id)
    {
      assert Founded(s, id);
      ApprovalStays(s, t, id);
    }
  }

  lemma {:induction false} ApprovalStays(s: State, t: State, id: string)
    requires |t.reviews| >= |s.reviews|
    requires forall i :: 0 <= i < |s.reviews| ==>
               t.reviews[i].approve == s.reviews[i].approve && t.reviews[i].seen == s.reviews[i].seen
    ensures ApprovedBy(s, id) ==> ApprovedBy(t, id)
  {
    if ApprovedBy(s, id) {
      var i :| 0 <= i < |s.reviews| && s.reviews[i].approve && s.reviews[i].seen.requestId == id;
      assert t.reviews[i].approve && t.reviews[i].seen.requestId == id;
    }
  }

  /** A job that has just been taken leaves no trace yet. */
  lemma {:induction false} NothingYetOf(s: State)
    requires Inv(s) && AllFounded(s) && s.worker.Popped?
    ensures var id := s.worker.request.id;
            !HasExecuted(s, id) && !HasTicket(s.tickets, id) && id !in s.judgements && id !in s.judged
  {
    PoppedIsNew(s);
    assert Founded(s, s.worker.request.id);
  }

  lemma {:induction false} JudgeFounded(s: State, judgement: Judgement, observe: bool)
    requires Inv(s) && AllFounded(s)
    ensures AllFounded(JudgeStep(s, judgement, observe))
  {
    var t := JudgeStep(s, judgement, observe);
    if t != s {
      NothingYetOf(s);
      forall id
        ensures Founded(t, id)
      {
        assert Founded(s, id);
        ApprovalStays(s, t, id);
      }
    }
  }

  lemma {:induction false} ExecuteFounded(s: State, success: bool, response: Json)
    requires AllFounded(s)
    ensures AllFounded(ExecuteStep(s, success, response))
  {
    var t := ExecuteStep(s, success, response);
    if t != s {
      OneMoreExecution(s, t, ExecutionEntry(s.worker.request.id, s.worker.judgement.redacted));
    }
  }

  lemma {:induction false} OneMoreExecution(s: State, t: State, entry: ExecutionEntry)
    requires AllFounded(s) && t.executions == s.executions + [entry]
    requires t.judgements == s.judgements && t.judged == s.judged && t.tickets == s.tickets
    requires |t.reviews| == |s.reviews| && forall i :: 0 <= i < |s.reviews| ==>
               t.reviews[i].approve == s.reviews[i].approve && t.reviews[i].seen == s.reviews[i].seen
    requires var id := entry.requestId;
             JudgedAs(s, id, Approve) || (JudgedAs(s, id, Escalate) && ApprovedBy(s, id))
    ensures HasExecuted(t, entry.requestId) && forall id :: Founded(t, id)
    ensures forall id :: id != entry.requestId ==> HasExecuted(t, id) == HasExecuted(s, id)
    ensures forall id :: HasExecuted(s, id) ==> HasExecuted(t, id)
  {
    forall id
      ensures Founded(t, id)
      ensures HasExecuted(t, id) <==> HasExecuted(s, id) || id == entry.requestId
    {
      assert Founded(s, id);
      CountGrows(s.executions, entry, id);
      ApprovalStays(s, t, id);
    }
  }

  lemma {:induction false} CreateTicketFounded(s: State)
    requires Inv(s) && AllFounded(s)
    ensures AllFounded(CreateTicketStep(s))
  {
    var t := CreateTicketStep(s);
    if t.worker.Ticketed? && t != s {
      var me := s.worker.request.id;
      forall id
        ensures HasTicket(t.tickets, id) <==> HasTicket(s.tickets, id) || id == me
        ensures Founded(t, id)
      {
        assert Founded(s, id);
        MoreTickets(s.tickets, t.tickets[|s.tickets|], id);
        ApprovalStays(s, t, id);
      }
      forall k: nat | k < |s.tickets|
        ensures s.tickets[k].requestId != me
      {
      }
    } else if t != s {
      QuietFounded(s, t);
    }
  }

  lemma {:induction false} ReviewExecuteFounded(s: State, i: nat, success: bool, response: Json)
    requires Inv(s) && AllFounded(s)
    ensures AllFounded(ReviewExecuteStep(s, i, success, response))
  {
    var t := ReviewExecuteStep(s, i, success, response);
    if t != s {
      var r := s.reviews[i];
      var id := r.seen.requestId;
      assert ReviewInv(s, i);
      assert HasTicket(s.tickets, id);
      assert Founded(s, id) && ApprovedBy(s, id);
      OneMoreExecution(s, t, ExecutionEntry(id, r.seen.parsedRequest));
    }
  }

  lemma {:induction false} ReviewStepFounded(s: State, e: Event)
    requires AllFounded(s)
    requires e.ReviewStart? || e.ReviewWriteTicket? || e.ReviewWriteLedger? || e.ReviewDies?
    ensures AllFounded(Step(s, e))
  {
    var t := Step(s, e);
    if t != s {
      TicketsOfWorker(s, t);
      QuietFounded(s, t);
    }
  }

  lemma {:induction false} TicketsOfWorker(s: State, t: State)
    requires WorkerFounded(s) && t.worker == s.worker && t.executions == s.executions && t.judgements == s.judgements
    requires |t.tickets| == |s.tickets|
    requires forall k :: 0 <= k < |s.tickets| ==> t.tickets[k].requestId == s.tickets[k].requestId
    ensures WorkerFounded(t)
  {
    SameTickets(s, t);
  }

  lemma {:induction false} StepFounded(s: State, e: Event)
    requires Inv(s) && AllFounded(s)
    ensures AllFounded(Step(s, e))
  {
    if e.Judge? {
      JudgeFounded(s, e.judgement, e.observe);
    } else if e.Execute? {
      ExecuteFounded(s, e.success, e.response);
    } else if e.CreateTicket? {
      CreateTicketFounded(s);
    } else if e.ReviewExecute? {
      ReviewExecuteFounded(s, e.review, e.success, e.response);
    } else if e.ReviewStart? || e.ReviewWriteTicket? || e.ReviewWriteLedger? || e.ReviewDies? {
      ReviewStepFounded(s, e);
    } else {
      QuietFounded(s, Step(s, e));
    }
  }

  // ---------------------------------------------------------------- every run

  lemma {:induction false} RunFounded(events: seq<Event>)
    ensures Inv(Run(EMPTY, events)) && AllFounded(Run(EMPTY, events))
  {
    RunInv(events);
    if events == [] {
      assert forall id :: Founded(EMPTY, id);
    } else {
      var before := events[..|events| - 1];
      RunFounded(before);
      StepFounded(Run(EMPTY, before), events[|events| - 1]);
    }
  }

  /** In every run: a row reads APPROVE only after an execution; an executed request was judged APPROVE, or
    ESCALATE and then approved by a reviewer; a ticket means ESCALATE. */
  lemma {:induction false} ExecutedMeansJudged(events: seq<Event>, id: string)
    ensures var s := Run(EMPTY, events);
            && (VerdictIn(s.ledger, id) == Some(Approve) ==> Count(s.executions, id) > 0)
            && (Count(s.executions, id) > 0 ==>
                  || JudgedAs(s, id, Approve)
                  || (JudgedAs(s, id, Escalate) && HasTicket(s.tickets, id) && ApprovedBy(s, id)))
            && (HasTicket(s.tickets, id) ==> JudgedAs(s, id, Escalate))
  {
    var s := Run(EMPTY, events);
    RunRecorded(events);
    RunFounded(events);
    assert RecordAt(s, Lapses(events), id) && Founded(s, id);
    if ApprovedBy(s, id) {
      ApprovedHasTicket(s, id);
    }
  }

  lemma {:induction false} ApprovedHasTicket(s: State, id: string)
    requires Inv(s) && ApprovedBy(s, id)
    ensures HasTicket(s.tickets, id)
  {
    var i :| 0 <= i < |s.reviews| && s.reviews[i].approve && s.reviews[i].seen.requestId == id;
    assert ReviewInv(s, i);
  }

  /** Whatever fails and however reviewers interleave, a request judged BLOCK is never executed, never gets a
    ticket, and its row never reads APPROVE; nor does one judged ESCALATE without an approving reviewer. */
  lemma {:induction false} BlockedIsNotExecuted(events: seq<Event>, id: string)
    requires var s := Run(EMPTY, events); JudgedAs(s, id, Block) || (JudgedAs(s, id, Escalate) && !ApprovedBy(s, id))
    ensures var s := Run(EMPTY, events);
            && Count(s.executions, id) == 0 && VerdictIn(s.ledger, id) != Some(Approve)
            && (JudgedAs(s, id, Block) ==> !HasTicket(s.tickets, id))
  {
    ExecutedMeansJudged(events, id);
  }
}
