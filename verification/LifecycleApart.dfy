/** When reviewers keep apart, nothing but a request's own failing pass can spoil its record. */
module LifecycleApart {
  import opened Types
  import opened Lifecycle
  import opened LifecycleRuns
  import opened LifecycleSafety
  import opened LifecycleConservation
  import opened LifecycleOnce
  import opened LifecycleRecord

  // ---------------------------------------------------------------- the condition

  /** A review of the ticket with the other decision is under way. */
  predicate OppositeUnderWay(s: State, t: nat, approve: bool) {
    exists i :: 0 <= i < |s.reviews| && s.reviews[i].ticket == t && Active(s.reviews[i].pc)
                && s.reviews[i].approve != approve
  }

  /** Beside what opens the way to a second execution: a review starts beside one with the other decision, an
    approval starts before the row of the ticket is written, or a review that has executed is lost. */
  predicate BreaksRecord(s: State, e: Event) {
    || BreaksOnce(s, e)
    || (e.ReviewStart? && OpenTicket(s, e.ticket)
        && (OppositeUnderWay(s, e.ticket, e.approve)
            || (e.approve && TicketedNow(s.worker, s.tickets[e.ticket].requestId))))
    || (e.ReviewDies? && e.review < |s.reviews| && OwesRow(s.reviews[e.review]))
  }

  // ---------------------------------------------------------------- invariant

  ghost predicate TicketApart(s: State, t: nat)
    requires t < |s.tickets|
  {
    TicketedNow(s.worker, s.tickets[t].requestId) ==>
      Count(s.executions, s.tickets[t].requestId) == 0 && !ApprovalUnderWay(s, t)
  }

  ghost predicate ReviewApart(s: State, i: nat)
    requires i < |s.reviews|
  {
    var r := s.reviews[i];
    && (r.pc.TicketWritten? ==> !OpenTicket(s, r.ticket))
    && (!r.approve && !r.pc.ReviewClosed? ==>
          Count(s.executions, r.seen.requestId) == 0 && !ApprovalUnderWay(s, r.ticket))
  }

  ghost predicate Apart(s: State) {
    && (s.worker.Ticketed? ==> HasTicket(s.tickets, s.worker.request.id))
    && (forall t: nat :: t < |s.tickets| ==> TicketApart(s, t))
    && (forall i: nat :: i < |s.reviews| ==> ReviewApart(s, i))
  }

  // ---------------------------------------------------------------- gateway and worker steps

  lemma {:induction false} QuietApart(s: State, t: State)
    requires Apart(s) && t.tickets == s.tickets && t.reviews == s.reviews && (t.worker.Ticketed? ==>
              t.worker == s.worker)
    requires forall k: nat :: k < |s.tickets| ==>
               Count(t.executions, s.tickets[k].requestId) == Count(s.executions, s.tickets[k].requestId)
    requires forall i: nat :: i < |s.reviews| ==>
               Count(t.executions, s.reviews[i].seen.requestId) == Count(s.executions, s.reviews[i].seen.requestId)
    ensures Apart(t)
  {
    forall k: nat | k < |t.tickets|
      ensures TicketApart(t, k)
    {
      assert TicketApart(s, k);
      assert ApprovalUnderWay(t, k) == ApprovalUnderWay(s, k);
    }
    forall i: nat | i < |t.reviews|
      ensures ReviewApart(t, i)
    {
      assert ReviewApart(s, i);
      assert ApprovalUnderWay(t, t.reviews[i].ticket) == ApprovalUnderWay(s, s.reviews[i].ticket);
    }
  }

  lemma {:induction false} ExecuteApart(s: State, success: bool, response: Json)
    requires Inv(s) && Once(s) && Apart(s)
    ensures Apart(ExecuteStep(s, success, response))
  {
    var t := ExecuteStep(s, success, response);
    if t != s {
      LogGrows(s, t, ExecutionEntry(s.worker.request.id, s.worker.judgement.redacted));
      forall k: nat | k < |s.tickets|
        ensures s.tickets[k].requestId != s.worker.request.id
      {
        assert HasTicket(s.tickets, s.tickets[k].requestId);
      }
      forall i: nat | i < |s.reviews|
        ensures s.reviews[i].seen.requestId != s.worker.request.id
      {
        assert ReviewInv(s, i);
      }
      QuietApart(s, t);
    }
  }

  lemma {:induction false} CreateTicketApart(s: State)
    requires Inv(s) && Once(s) && Apart(s)
    ensures Apart(CreateTicketStep(s))
  {
    var t := CreateTicketStep(s);
    if t != s {
      EscalationIsAccepted(s);
      var n := |s.tickets|;
      forall k: nat | k < |t.tickets|
        ensures TicketApart(t, k)
      {
        if k < n {
          assert HasTicket(s.tickets, s.tickets[k].requestId);
        } else {
          forall i | 0 <= i < |s.reviews|
            ensures s.reviews[i].ticket != n
          {
            assert ReviewInv(s, i);
          }
        }
      }
      forall i: nat | i < |t.reviews|
        ensures ReviewApart(t, i)
      {
        assert ReviewApart(s, i) && ReviewInv(s, i);
        assert ApprovalUnderWay(t, t.reviews[i].ticket) == ApprovalUnderWay(s, s.reviews[i].ticket);
      }
      assert t.tickets[n].requestId == s.worker.request.id;
    }
  }

  // ---------------------------------------------------------------- reviewer steps

  lemma {:induction false} ReviewStartApart(s: State, ticket: nat, approve: bool)
    requires Inv(s) && Once(s) && Apart(s) && !BreaksRecord(s, ReviewStart(ticket, approve))
    ensures Apart(ReviewStartStep(s, ticket, approve))
  {
    var t := ReviewStartStep(s, ticket, approve);
    if t != s {
      var n := |s.reviews|;
      TicketHasRow(s, ticket);
      assert forall j: nat :: j < n ==> t.reviews[j] == s.reviews[j];
      NothingYet(s, ticket, approve);
      forall k: nat | k < |t.tickets|
        ensures TicketApart(t, k)
      {
        assert TicketApart(s, k);
        UnderWayAfterStart(s, t, k);
        if k != ticket && s.tickets[k].requestId == s.tickets[ticket].requestId {
          SameTicket(s, k, ticket);
        }
      }
      forall i: nat | i < |t.reviews|
        ensures ReviewApart(t, i)
      {
        if i < n {
          assert ReviewApart(s, i);
          UnderWayAfterStart(s, t, s.reviews[i].ticket);
        } else {
          UnderWayAfterStart(s, t, ticket);
        }
      }
    }
  }

  /** When a rejection of an open ticket starts alone, the request has not been executed. */
  lemma {:induction false} NothingYet(s: State, ticket: nat, approve: bool)
    requires Inv(s) && Once(s) && OpenTicket(s, ticket) && !BreaksRecord(s, ReviewStart(ticket, approve))
    ensures !approve ==> Count(s.executions, s.tickets[ticket].requestId) == 0 && !ApprovalUnderWay(s, ticket)
  {
    assert TicketOnce(s, ticket);
    if !approve && Executing(s, ticket) {
      var i: nat :| i < |s.reviews| && s.reviews[i].ticket == ticket && s.reviews[i].pc.ReviewExecuted?;
      assert ReviewOnce(s, i) && Active(s.reviews[i].pc);
      assert OppositeUnderWay(s, ticket, approve);
    }
  }

  lemma {:induction false} UnderWayAfterStart(s: State, t: State, k: nat)
    requires |t.reviews| == |s.reviews| + 1 && forall j: nat :: j < |s.reviews| ==> t.reviews[j] == s.reviews[j]
    requires t.reviews[|s.reviews|].pc.ReviewChecked?
    ensures ApprovalUnderWay(t, k) <==>
              ApprovalUnderWay(s, k) || (t.reviews[|s.reviews|].approve && t.reviews[|s.reviews|].ticket == k)
  {
    var n := |s.reviews|;
    if ApprovalUnderWay(s, k) {
      var j :| 0 <= j < n && s.reviews[j].ticket == k && Approving(s.reviews[j]);
      assert t.reviews[j].ticket == k && Approving(t.reviews[j]);
    }
    assert t.reviews[n].approve && t.reviews[n].ticket == k ==> Approving(t.reviews[n]);
  }

  /** When a review moves on, approvals that are under way were so before. */
  lemma {:induction false} UnderWayShrinks(s: State, t: State, i: nat, k: nat)
    requires i < |s.reviews| == |t.reviews| && t.reviews[i] == s.reviews[i].(pc := t.reviews[i].pc)
    requires Active(t.reviews[i].pc) ==> Active(s.reviews[i].pc)
    requires forall j: nat :: j < |s.reviews| && j != i ==> t.reviews[j] == s.reviews[j]
    ensures ApprovalUnderWay(t, k) ==> ApprovalUnderWay(s, k)
  {
    if ApprovalUnderWay(t, k) {
      var j :| 0 <= j < |t.reviews| && t.reviews[j].ticket == k && Approving(t.reviews[j]);
      assert s.reviews[j].ticket == k && Approving(s.reviews[j]);
    }
  }

  lemma {:induction false} ReviewExecuteApart(s: State, i: nat, success: bool, response: Json)
    requires Inv(s) && Once(s) && Apart(s)
    ensures Apart(ReviewExecuteStep(s, i, success, response))
  {
    var t := ReviewExecuteStep(s, i, success, response);
    if t != s {
      var r := s.reviews[i];
      var me := r.seen.requestId;
      assert ReviewOnce(s, i) && ReviewInv(s, i) && IdOnce(s, me) && HasTicket(s.tickets, me);
      assert Approving(r) && ApprovalUnderWay(s, r.ticket);
      LogGrows(s, t, ExecutionEntry(me, r.seen.parsedRequest));
      forall k: nat | k < |t.tickets|
        ensures TicketApart(t, k)
      {
        assert TicketApart(s, k);
        UnderWayShrinks(s, t, i, k);
        if s.tickets[k].requestId == me {
          SameTicket(s, k, r.ticket);
        }
      }
      forall j: nat | j < |t.reviews|
        ensures ReviewApart(t, j)
      {
        assert ReviewApart(s, j) && ReviewInv(s, j);
        UnderWayShrinks(s, t, i, s.reviews[j].ticket);
        if s.reviews[j].seen.requestId == me {
          SameTicket(s, s.reviews[j].ticket, r.ticket);
        }
      }
    }
  }

  /** A review moves on without executing. */
  lemma {:induction false} ReviewMovesApart(s: State, t: State, i: nat)
    requires Inv(s) && Apart(s) && i < |s.reviews| == |t.reviews|
    requires t == s.(reviews := t.reviews, tickets := t.tickets, ledger := t.ledger)
    requires t.reviews[i] == s.reviews[i].(pc := t.reviews[i].pc) && !Active(t.reviews[i].pc)
    requires s.reviews[i].pc.ReviewClosed? ==> t.reviews[i].pc.ReviewClosed?
    requires forall j: nat :: j < |s.reviews| && j != i ==> t.reviews[j] == s.reviews[j]
    requires |t.tickets| == |s.tickets| && forall k: nat :: k < |s.tickets| ==>
               t.tickets[k].requestId == s.tickets[k].requestId && (Open(t.tickets[k].status) ==>
                   Open(s.tickets[k].status))
    requires t.reviews[i].pc.TicketWritten? ==> !OpenTicket(t, s.reviews[i].ticket)
    ensures Apart(t)
  {
    SameTickets(s, t);
    forall k: nat | k < |t.tickets|
      ensures TicketApart(t, k)
    {
      assert TicketApart(s, k);
      UnderWayShrinks(s, t, i, k);
    }
    forall j: nat | j < |t.reviews|
      ensures ReviewApart(t, j)
    {
      assert ReviewApart(s, j);
      UnderWayShrinks(s, t, i, s.reviews[j].ticket);
    }
  }

  // ---------------------------------------------------------------- every such run

  lemma {:induction false} ReviewerStepApart(s: State, e: Event)
    requires Inv(s) && Once(s) && Apart(s) && !BreaksRecord(s, e)
    requires e.ReviewStart? || e.ReviewExecute? || e.ReviewWriteTicket? || e.ReviewWriteLedger? || e.ReviewDies?
    ensures Apart(Step(s, e))
  {
    if e.ReviewStart? {
      ReviewStartApart(s, e.ticket, e.approve);
    } else if e.ReviewExecute? {
      ReviewExecuteApart(s, e.review, e.success, e.response);
    } else if Step(s, e) != s {
      ReviewMovesApart(s, Step(s, e), e.review);
    }
  }

  lemma {:induction false} StepApart(s: State, e: Event)
    requires Inv(s) && Once(s) && Apart(s) && !BreaksRecord(s, e)
    ensures Apart(Step(s, e))
  {
    if e.ReviewStart? || e.ReviewExecute? || e.ReviewWriteTicket? || e.ReviewWriteLedger? || e.ReviewDies? {
      ReviewerStepApart(s, e);
    } else if e.Execute? {
      ExecuteApart(s, e.success, e.response);
    } else if e.CreateTicket? {
      CreateTicketApart(s);
    } else {
      OtherStepApart(s, e);
    }
  }

  lemma {:induction false} OtherStepApart(s: State, e: Event)
    requires Apart(s)
    requires e.Intercept? || e.Enqueue? || e.EnqueueFails? || e.Pop? || e.Judge? || e.WriteVerdict? || e.Finish?
             || e.Fail? || e.FallbackWrite? || e.FallbackFails?
    ensures Apart(Step(s, e))
  {
    QuietApart(s, Step(s, e));
  }

  /** The request's own pass failed after the execution. */
  predicate OwnPass(cause: Cause) {
    cause.FallbackBlocked? || cause.NeverWritten?
  }

  ghost predicate OnlyOwnPass(m: map<string, Cause>) {
    forall id :: id in m ==> OwnPass(m[id])
  }

  lemma {:induction false} StepLapses(s: State, m: map<string, Cause>, e: Event)
    requires Inv(s) && Once(s) && Apart(s) && RecordHolds(s, m) && OnlyOwnPass(m) && !BreaksRecord(s, e)
    ensures OnlyOwnPass(Lapsed(m, s, e))
  {
    if e.WriteVerdict? && s.worker.Ticketed? {
      var t: nat :| t < |s.tickets| && s.tickets[t].requestId == s.worker.request.id;
      assert TicketApart(s, t);
    } else if e.ReviewWriteLedger? && e.review < |s.reviews| {
      assert ReviewApart(s, e.review);
    }
  }

  lemma {:induction false} OnceIsWider(events: seq<Event>)
    requires Avoids(BreaksRecord, EMPTY, events)
    ensures Avoids(BreaksOnce, EMPTY, events)
  {
    AvoidsMore(BreaksRecord, BreaksOnce, EMPTY, events);
  }

  lemma {:induction false} RunApart(events: seq<Event>)
    requires Avoids(BreaksRecord, EMPTY, events)
    ensures Apart(Run(EMPTY, events)) && OnlyOwnPass(Lapses(events))
  {
    if events != [] {
      var before, e := events[..|events| - 1], events[|events| - 1];
      var s := Run(EMPTY, before);
      RunApart(before);
      OnceIsWider(before);
      RunOnce(before);
      RunRecorded(before);
      StepApart(s, e);
      StepLapses(s, Lapses(before), e);
    }
  }

  /** When reviewers keep apart: unless its row is still being written, an executed request's row differs
    from APPROVE if and only if the request's own pass failed, after the execution, and the fallback wrote
    BLOCK or nothing. Whatever fails for other requests, or before the execution, does not matter. */
  lemma {:induction false} OnlyOwnFailureSpoils(events: seq<Event>, id: string)
    requires Avoids(BreaksRecord, EMPTY, events) && !UnderWay(Run(EMPTY, events), id)
    requires Count(Run(EMPTY, events).executions, id) > 0
    ensures var v := VerdictIn(Run(EMPTY, events).ledger, id);
            var lapses := Lapses(events);
            && (v != Some(Approve) <==> id in lapses && OwnPass(lapses[id]))
            && (id in lapses && lapses[id].FallbackBlocked? ==> v == Some(Block))
  {
    RunApart(events);
    RecordedExactly(events, id);
    RunRecorded(events);
    assert RecordAt(Run(EMPTY, events), Lapses(events), id);
  }
}
