/** The condition under which reviewers keep apart is exact: each step it excludes opens the way to a second
  execution, or to a record spoiled by something else than the request's own pass. */
module LifecycleSpoils {
  import opened Types
  import opened Lifecycle
  import opened LifecycleRuns
  import opened LifecycleSafety
  import opened LifecycleConservation
  import opened LifecycleOnce
  import opened LifecycleRecord
  import opened LifecycleApart

  // ---------------------------------------------------------------- what goes wrong

  function LapsesFrom(m: map<string, Cause>, s: State, events: seq<Event>): map<string, Cause> {
    if events == [] then m
    else
      var before := events[..|events| - 1];
      Lapsed(LapsesFrom(m, s, before), Run(s, before), events[|events| - 1])
  }

  lemma {:induction false} LapsesJoin(events: seq<Event>, more: seq<Event>)
    ensures Lapses(events + more) == LapsesFrom(Lapses(events), Run(EMPTY, events), more)
  {
    var all := events + more;
    if more == [] {
      assert all == events;
    } else {
      var front := more[..|more| - 1];
      assert all[..|all| - 1] == events + front && all[|all| - 1] == more[|more| - 1];
      LapsesJoin(events, front);
      RunJoins(EMPTY, events, front);
      LapsesFromStart(all);
      LapsesLast(Lapses(events), Run(EMPTY, events), more);
    }
  }

  lemma {:induction false} LapsesFromStart(events: seq<Event>)
    requires events != []
    ensures var before := events[..|events| - 1];
            Lapses(events) == Lapsed(Lapses(before), Run(EMPTY, before), events[|events| - 1])
  {
  }

  lemma {:induction false} LapsesStep(m: map<string, Cause>, s: State, e: Event, more: seq<Event>)
    ensures LapsesFrom(m, s, [e] + more) == LapsesFrom(Lapsed(m, s, e), Step(s, e), more)
  {
    var events := [e] + more;
    var before := events[..|more|];
    assert events[..|events| - 1] == before;
    if more == [] {
      assert before == [] && events[|events| - 1] == e;
      assert LapsesFrom(m, s, before) == m && Run(s, before) == s;
    } else {
      var front := more[..|more| - 1];
      var last := more[|more| - 1];
      assert before == [e] + front && events[|events| - 1] == last;
      LapsesStep(m, s, e, front);
      RunFirst(s, e, front);
      LapsesLast(Lapsed(m, s, e), Step(s, e), more);
    }
    LapsesLast(m, s, events);
  }

  lemma {:induction false} LapsesLast(m: map<string, Cause>, s: State, events: seq<Event>)
    requires events != []
    ensures var before := events[..|events| - 1];
            LapsesFrom(m, s, events) == Lapsed(LapsesFrom(m, s, before), Run(s, before), events[|events| - 1])
  {
  }

  lemma {:induction false} RunFirst(s: State, e: Event, more: seq<Event>)
    ensures Run(s, [e] + more) == Run(Step(s, e), more)
  {
    RunJoins(s, [e], more);
    assert [e][..0] == [];
  }

  /** The row of an executed request does not read APPROVE, for good, and its own pass is not the cause. */
  ghost predicate SpoiledAt(s: State, m: map<string, Cause>, id: string) {
    !UnderWay(s, id) && HasExecuted(s, id) && id in m && !OwnPass(m[id])
  }

  ghost predicate Spoiled(s: State, m: map<string, Cause>) {
    ExecutedTwice(s) || exists id :: SpoiledAt(s, m, id)
  }

  ghost predicate SpoiledBy(s: State, m: map<string, Cause>, more: seq<Event>) {
    Avoids(BreaksRecord, s, more) && Spoiled(Run(s, more), LapsesFrom(m, s, more))
  }

  /** Further steps, none of them excluded, spoil a record. */
  ghost predicate LeadsToSpoiled(s: State, m: map<string, Cause>) {
    exists more :: SpoiledBy(s, m, more)
  }

  lemma {:induction false} SpoiledNow(s: State, m: map<string, Cause>, id: string)
    requires SpoiledAt(s, m, id)
    ensures LeadsToSpoiled(s, m)
  {
    assert SpoiledBy(s, m, []);
  }

  lemma {:induction false} Onwards(s: State, m: map<string, Cause>, e: Event)
    requires !BreaksRecord(s, e) && LeadsToSpoiled(Step(s, e), Lapsed(m, s, e))
    ensures LeadsToSpoiled(s, m)
  {
    var more :| SpoiledBy(Step(s, e), Lapsed(m, s, e), more);
    LapsesStep(m, s, e, more);
    RunFirst(s, e, more);
    assert Avoids(BreaksRecord, s, [e]) by {
      assert [e][..0] == [];
    }
    RunFirst(s, e, []);
    assert [e] + [] == [e];
    AvoidsJoins(BreaksRecord, s, [e], more);
    assert SpoiledBy(s, m, [e] + more);
  }

  // ---------------------------------------------------------------- the last word is not APPROVE

  /** No review but `i` has executed the request and owes its row. */
  predicate NoOtherDebt(s: State, id: string, i: nat) {
    forall k :: 0 <= k < |s.reviews| && k != i ==> !(s.reviews[k].seen.requestId == id && OwesRow(s.reviews[k]))
  }

  predicate NoDebt(s: State, id: string) {
    forall k :: 0 <= k < |s.reviews| ==> !(s.reviews[k].seen.requestId == id && OwesRow(s.reviews[k]))
  }

  /** Nothing is owed any more, but for a fallback that can fail. */
  lemma {:induction false} Settled(s: State, m: map<string, Cause>, id: string)
    requires HasExecuted(s, id) && id in m && !OwnPass(m[id]) && NoDebt(s, id) && !ExecutedNow(s.worker, id)
    ensures LeadsToSpoiled(s, m)
  {
    if s.worker.Failing? && s.worker.request.id == id {
      var t := Step(s, FallbackFails);
      assert t.reviews == s.reviews && t.executions == s.executions && t.worker.Idle?;
      assert Lapsed(m, s, FallbackFails) == m;
      SpoiledNow(t, m, id);
      Onwards(s, m, FallbackFails);
    } else {
      SpoiledNow(s, m, id);
    }
  }

  /** A rejection that has closed the ticket has still to write the row. */
  lemma {:induction false} RejectionWritesLast(s: State, m: map<string, Cause>, j: nat)
    requires j < |s.reviews| && !s.reviews[j].approve && s.reviews[j].pc.TicketWritten?
    requires var id := s.reviews[j].seen.requestId;
             HasExecuted(s, id) && NoDebt(s, id) && !ExecutedNow(s.worker, id)
    ensures LeadsToSpoiled(s, m)
  {
    var id := s.reviews[j].seen.requestId;
    var e := ReviewWriteLedger(j, 0);
    var t := ReviewWriteLedgerStep(s, j, 0);
    Settled(t, m[id := RejectedOver], id);
    assert Step(s, e) == t && Lapsed(m, s, e) == m[id := RejectedOver];
    Onwards(s, m, e);
  }

  lemma {:induction false} ClosesTicket(s: State, m: map<string, Cause>, i: nat)
    requires i < |s.reviews| && s.reviews[i].ticket < |s.tickets|
    requires if s.reviews[i].approve then s.reviews[i].pc.ReviewExecuted? else s.reviews[i].pc.ReviewChecked?
    ensures Lapsed(m, s, ReviewWriteTicket(i)) == m
    ensures var t := Step(s, ReviewWriteTicket(i));
            && t.worker == s.worker && t.executions == s.executions
            && |t.tickets| == |s.tickets| && |t.reviews| == |s.reviews|
            && (forall k :: 0 <= k < |s.reviews| && k != i ==> t.reviews[k] == s.reviews[k])
            && t.reviews[i] == s.reviews[i].(pc := t.reviews[i].pc) && t.reviews[i].pc.TicketWritten?
  {
  }

  lemma {:induction false} RejectionGoesOn(s: State, m: map<string, Cause>, j: nat)
    requires j < |s.reviews| && !s.reviews[j].approve && s.reviews[j].pc.ReviewChecked?
    requires s.reviews[j].ticket < |s.tickets|
    requires var id := s.reviews[j].seen.requestId;
             HasExecuted(s, id) && NoDebt(s, id) && !ExecutedNow(s.worker, id)
    ensures LeadsToSpoiled(s, m)
  {
    var e := ReviewWriteTicket(j);
    ClosesTicket(s, m, j);
    RejectionWritesLast(Step(s, e), m, j);
    Onwards(s, m, e);
  }

  /** The worker has created the ticket and has still to write ESCALATE. */
  lemma {:induction false} WorkerWritesLast(s: State, m: map<string, Cause>, id: string)
    requires TicketedNow(s.worker, id) && s.worker.judgement.decision.verdict == Escalate
    requires HasExecuted(s, id) && NoDebt(s, id)
    ensures LeadsToSpoiled(s, m)
  {
    var e := WriteVerdict(0);
    var t := WriteVerdictStep(s, 0);
    Settled(t, m[id := EscalatedOver], id);
    assert Step(s, e) == t && Lapsed(m, s, e) == m[id := EscalatedOver];
    Onwards(s, m, e);
  }

  predicate WaitingRejection(s: State, id: string, j: nat) {
    && j < |s.reviews| && s.reviews[j].seen.requestId == id && s.reviews[j].ticket < |s.tickets|
    && !s.reviews[j].approve && s.reviews[j].pc.ReviewChecked?
  }

  /** Someone else has still to have the last word on the row. */
  predicate Culprit(s: State, id: string, j: nat) {
    || WaitingRejection(s, id, j)
    || (TicketedNow(s.worker, id) && s.worker.judgement.decision.verdict == Escalate)
  }

  lemma {:induction false} CulpritSpoils(s: State, m: map<string, Cause>, id: string, j: nat)
    requires Culprit(s, id, j) && HasExecuted(s, id) && NoDebt(s, id) && !ExecutedNow(s.worker, id)
    ensures LeadsToSpoiled(s, m)
  {
    if WaitingRejection(s, id, j) {
      RejectionGoesOn(s, m, j);
    } else {
      WorkerWritesLast(s, m, id);
    }
  }

  /** An approval comes to its end beside a culprit. */
  lemma {:induction false} ApprovalWrites(s: State, m: map<string, Cause>, i: nat, j: nat)
    requires i < |s.reviews| && s.reviews[i].approve && s.reviews[i].pc.TicketWritten? && i != j
    requires var id := s.reviews[i].seen.requestId;
             Culprit(s, id, j) && HasExecuted(s, id) && NoOtherDebt(s, id, i) && !ExecutedNow(s.worker, id)
    ensures LeadsToSpoiled(s, m)
  {
    var id := s.reviews[i].seen.requestId;
    var e := ReviewWriteLedger(i, 0);
    var t := ReviewWriteLedgerStep(s, i, 0);
    assert Culprit(t, id, j) && NoDebt(t, id);
    CulpritSpoils(t, m - {id}, id, j);
    assert Step(s, e) == t && Lapsed(m, s, e) == m - {id};
    Onwards(s, m, e);
  }

  lemma {:induction false} ApprovalCloses(s: State, m: map<string, Cause>, i: nat, j: nat)
    requires i < |s.reviews| && s.reviews[i].approve && s.reviews[i].pc.ReviewExecuted? && i != j
    requires s.reviews[i].ticket < |s.tickets|
    requires var id := s.reviews[i].seen.requestId;
             Culprit(s, id, j) && HasExecuted(s, id) && NoOtherDebt(s, id, i) && !ExecutedNow(s.worker, id)
    ensures LeadsToSpoiled(s, m)
  {
    var e := ReviewWriteTicket(i);
    ClosesTicket(s, m, i);
    SceneStays(s, Step(s, e), s.reviews[i].seen.requestId, i, j);
    ApprovalWrites(Step(s, e), m, i, j);
    Onwards(s, m, e);
  }

  lemma {:induction false} ApprovalExecutes(s: State, m: map<string, Cause>, i: nat, j: nat)
    requires i < |s.reviews| && s.reviews[i].approve && s.reviews[i].pc.ReviewChecked? && i != j
    requires s.reviews[i].ticket < |s.tickets|
    requires var id := s.reviews[i].seen.requestId;
             Culprit(s, id, j) && NoOtherDebt(s, id, i) && !ExecutedNow(s.worker, id)
    ensures LeadsToSpoiled(s, m)
  {
    var e := ReviewExecute(i, true, JNull);
    ExecutesNow(s, i);
    SceneStays(s, Step(s, e), s.reviews[i].seen.requestId, i, j);
    ApprovalCloses(Step(s, e), m, i, j);
    Onwards(s, m, e);
  }

  lemma {:induction false} ExecutesNow(s: State, i: nat)
    requires i < |s.reviews| && s.reviews[i].approve && s.reviews[i].pc.ReviewChecked?
    ensures var t := Step(s, ReviewExecute(i, true, JNull));
            && t.worker == s.worker && t.tickets == s.tickets && |t.reviews| == |s.reviews|
            && (forall k :: 0 <= k < |s.reviews| && k != i ==> t.reviews[k] == s.reviews[k])
            && t.reviews[i] == s.reviews[i].(pc := t.reviews[i].pc) && t.reviews[i].pc.ReviewExecuted?
            && HasExecuted(t, s.reviews[i].seen.requestId)
  {
    var r := s.reviews[i];
    CountGrows(s.executions, ExecutionEntry(r.seen.requestId, r.seen.parsedRequest), r.seen.requestId);
  }

  lemma {:induction false} SceneStays(s: State, t: State, id: string, i: nat, j: nat)
    requires Culprit(s, id, j) && NoOtherDebt(s, id, i) && i != j && i < |s.reviews|
    requires t.worker == s.worker && |t.tickets| == |s.tickets| && |t.reviews| == |s.reviews|
    requires forall k :: 0 <= k < |s.reviews| && k != i ==> t.reviews[k] == s.reviews[k]
    ensures Culprit(t, id, j) && NoOtherDebt(t, id, i)
  {
  }

  lemma {:induction false} ApprovalGoesOn(s: State, m: map<string, Cause>, i: nat, j: nat)
    requires i < |s.reviews| && Approving(s.reviews[i]) && i != j && s.reviews[i].ticket < |s.tickets|
    requires var id := s.reviews[i].seen.requestId;
             && Culprit(s, id, j) && NoOtherDebt(s, id, i) && !ExecutedNow(s.worker, id)
             && (s.reviews[i].pc.ReviewExecuted? ==> HasExecuted(s, id))
    ensures LeadsToSpoiled(s, m)
  {
    if s.reviews[i].pc.ReviewExecuted? {
      ApprovalCloses(s, m, i, j);
    } else {
      ApprovalExecutes(s, m, i, j);
    }
  }

  // ---------------------------------------------------------------- approvals one at a time

  /** At most one approval of a ticket has not ended. */
  ghost predicate OneApproval(s: State, i: nat, j: nat)
    requires i < |s.reviews| && j < |s.reviews|
  {
    s.reviews[i].ticket == s.reviews[j].ticket && s.reviews[i].approve && s.reviews[j].approve ==>
      s.reviews[i].pc.ReviewClosed? || s.reviews[j].pc.ReviewClosed?
  }

  /** Until an approval has ended, the row does not read APPROVE. */
  ghost predicate StillPending(s: State, i: nat)
    requires i < |s.reviews|
  {
    s.reviews[i].approve && !s.reviews[i].pc.ReviewClosed? ==> !SaysApprove(s, s.reviews[i].seen.requestId)
  }

  ghost predicate OneByOne(s: State) {
    && (forall i: nat, j: nat :: i < j < |s.reviews| ==> OneApproval(s, i, j))
    && (forall i: nat :: i < |s.reviews| ==> StillPending(s, i))
  }

  /** Everything that is known of a run that meets the condition. */
  ghost predicate Known(s: State, m: map<string, Cause>) {
    Inv(s) && Once(s) && Apart(s) && RecordHolds(s, m) && OneByOne(s)
  }

  /** Reviews only move on, and no row that matters comes to read APPROVE. */
  lemma {:induction false} MovesOneByOne(s: State, t: State)
    requires OneByOne(s) && |t.reviews| == |s.reviews|
    requires forall i: nat :: i < |s.reviews| ==>
               && t.reviews[i] == s.reviews[i].(pc := t.reviews[i].pc)
               && (s.reviews[i].pc.ReviewClosed? ==> t.reviews[i].pc.ReviewClosed?)
    requires forall i: nat :: i < |s.reviews| && t.reviews[i].approve && !t.reviews[i].pc.ReviewClosed? ==>
               (SaysApprove(t, s.reviews[i].seen.requestId) ==> SaysApprove(s, s.reviews[i].seen.requestId))
    ensures OneByOne(t)
  {
    forall i: nat, j: nat | i < j < |t.reviews|
      ensures OneApproval(t, i, j)
    {
      assert OneApproval(s, i, j);
    }
    forall i: nat | i < |t.reviews|
      ensures StillPending(t, i)
    {
      assert StillPending(s, i);
    }
  }

  lemma {:induction false} WorkerWriteOneByOne(s: State, m: map<string, Cause>, e: Event)
    requires Known(s, m) && (e.WriteVerdict? || e.FallbackWrite?)
    ensures OneByOne(Step(s, e))
  {
    var t := Step(s, e);
    if t != s {
      var w := s.worker;
      forall i: nat | i < |s.reviews| && t.reviews[i].approve && !t.reviews[i].pc.ReviewClosed?
        ensures SaysApprove(t, s.reviews[i].seen.requestId) ==> SaysApprove(s, s.reviews[i].seen.requestId)
      {
        assert ReviewInv(s, i);
        assert HasTicket(s.tickets, s.reviews[i].seen.requestId);
        WorkerEdit(s, e, s.reviews[i].seen.requestId);
      }
      MovesOneByOne(s, t);
    }
  }

  /** The worker writes APPROVE only for the request it has executed. */
  lemma {:induction false} WorkerEdit(s: State, e: Event, id: string)
    requires e.WriteVerdict? || e.FallbackWrite?
    requires s.worker.Ticketed? ==> s.worker.judgement.decision.verdict == Escalate
    ensures SaysApprove(Step(s, e), id) ==> SaysApprove(s, id) || ExecutedNow(s.worker, id)
  {
    var w := s.worker;
    if Step(s, e) != s {
      if e.WriteVerdict? {
        VerdictAfterRewrite(s.ledger, w.request.id,
                            VerdictEdit(w.judgement, if w.Executed? then Some(w.result) else None, e.now), id);
      } else {
        VerdictAfterRewrite(s.ledger, w.request.id, FallbackEdit(e.validation, e.now), id);
      }
    }
  }

  lemma {:induction false} ReviewWriteOneByOne(s: State, m: map<string, Cause>, i: nat, now: int)
    requires Known(s, m)
    ensures OneByOne(ReviewWriteLedgerStep(s, i, now))
  {
    var t := ReviewWriteLedgerStep(s, i, now);
    if t != s {
      var r := s.reviews[i];
      forall j: nat | j < |s.reviews| && t.reviews[j].approve && !t.reviews[j].pc.ReviewClosed?
        ensures SaysApprove(t, s.reviews[j].seen.requestId) ==> SaysApprove(s, s.reviews[j].seen.requestId)
      {
        VerdictAfterRewrite(s.ledger, r.seen.requestId, ReviewEdit(r, r.pc.result, now), s.reviews[j].seen.requestId);
        assert ReviewInv(s, i) && ReviewInv(s, j);
        if s.reviews[j].seen.requestId == r.seen.requestId {
          SameTicket(s, s.reviews[j].ticket, r.ticket);
          assert if i < j then OneApproval(s, i, j) else i == j || OneApproval(s, j, i);
        }
      }
      MovesOneByOne(s, t);
    }
  }

  lemma {:induction false} InterceptOneByOne(s: State, m: map<string, Cause>, e: Event)
    requires Known(s, m) && e.Intercept?
    ensures OneByOne(Step(s, e))
  {
    var t := Step(s, e);
    if t != s {
      forall i: nat | i < |s.reviews|
        ensures SaysApprove(t, s.reviews[i].seen.requestId) ==> SaysApprove(s, s.reviews[i].seen.requestId)
      {
        RowAfterRecord(s.ledger, InitialRow(e.request, e.raw, e.receivedAt), s.reviews[i].seen.requestId);
      }
      MovesOneByOne(s, t);
    }
  }

  /** An approval that starts finds no other that has not ended, nor the request executed. */
  lemma {:induction false} StartsAlone(s: State, ticket: nat)
    requires Inv(s) && Once(s) && Apart(s) && OpenTicket(s, ticket) && !ApprovalUnderWay(s, ticket)
    ensures Count(s.executions, s.tickets[ticket].requestId) == 0
    ensures forall i: nat :: i < |s.reviews| && s.reviews[i].ticket == ticket && s.reviews[i].approve ==>
              s.reviews[i].pc.ReviewClosed?
  {
    assert TicketOnce(s, ticket);
    forall i: nat | i < |s.reviews| && s.reviews[i].ticket == ticket
      ensures !s.reviews[i].pc.ReviewExecuted? && (s.reviews[i].approve ==> s.reviews[i].pc.ReviewClosed?)
    {
      assert ReviewOnce(s, i) && ReviewApart(s, i);
    }
  }

  lemma {:induction false} ReviewStartOneByOne(s: State, m: map<string, Cause>, ticket: nat, approve: bool)
    requires Known(s, m) && !BreaksOnce(s, ReviewStart(ticket, approve))
    ensures OneByOne(ReviewStartStep(s, ticket, approve))
  {
    var t := ReviewStartStep(s, ticket, approve);
    if t != s {
      var n := |s.reviews|;
      TicketHasRow(s, ticket);
      if approve {
        StartsAlone(s, ticket);
        assert RecordAt(s, m, s.tickets[ticket].requestId);
      }
      assert forall j: nat :: j < n ==> t.reviews[j] == s.reviews[j];
      forall i: nat, j: nat | i < j < |t.reviews|
        ensures OneApproval(t, i, j)
      {
        assert j < n ==> OneApproval(s, i, j);
      }
      forall i: nat | i < |t.reviews|
        ensures StillPending(t, i)
      {
        assert i < n ==> StillPending(s, i);
      }
    }
  }

  lemma {:induction false} QuietOneByOne(s: State, e: Event)
    requires OneByOne(s)
    requires e.Enqueue? || e.EnqueueFails? || e.Pop? || e.Judge? || e.Execute? || e.CreateTicket? || e.Finish?
             || e.Fail? || e.FallbackFails?
    ensures OneByOne(Step(s, e))
  {
    MovesOneByOne(s, Step(s, e));
  }

  lemma {:induction false} ReviewMovesOneByOne(s: State, e: Event)
    requires OneByOne(s) && (e.ReviewExecute? || e.ReviewWriteTicket? || e.ReviewDies?)
    ensures OneByOne(Step(s, e))
  {
    if Step(s, e) != s {
      MovesOneByOne(s, Step(s, e));
    }
  }

  lemma {:induction false} StepOneByOne(s: State, m: map<string, Cause>, e: Event)
    requires Known(s, m) && !BreaksRecord(s, e)
    ensures OneByOne(Step(s, e))
  {
    if e.WriteVerdict? || e.FallbackWrite? {
      WorkerWriteOneByOne(s, m, e);
    } else if e.ReviewWriteLedger? {
      ReviewWriteOneByOne(s, m, e.review, e.now);
    } else if e.Intercept? {
      InterceptOneByOne(s, m, e);
    } else if e.ReviewStart? {
      ReviewStartOneByOne(s, m, e.ticket, e.approve);
    } else if e.ReviewExecute? || e.ReviewWriteTicket? || e.ReviewDies? {
      ReviewMovesOneByOne(s, e);
    } else {
      QuietOneByOne(s, e);
    }
  }

  lemma {:induction false} RunKnown(events: seq<Event>)
    requires Avoids(BreaksRecord, EMPTY, events)
    ensures Known(Run(EMPTY, events), Lapses(events))
  {
    RunApart(events);
    OnceIsWider(events);
    RunOnce(events);
    RunRecorded(events);
    if events != [] {
      var before := events[..|events| - 1];
      RunKnown(before);
      StepOneByOne(Run(EMPTY, before), Lapses(before), events[|events| - 1]);
    }
  }

  // ---------------------------------------------------------------- every excluded step

  /** A review that has executed and owes the row is lost. */
  lemma {:induction false} LostReview(s: State, m: map<string, Cause>, i: nat)
    requires i < |s.reviews| && OwesRow(s.reviews[i])
    requires var id := s.reviews[i].seen.requestId;
             HasExecuted(s, id) && !SaysApprove(s, id) && NoOtherDebt(s, id, i) && !ExecutedNow(s.worker, id)
    ensures var id := s.reviews[i].seen.requestId;
            var t := Step(s, ReviewDies(i));
            && Lapsed(m, s, ReviewDies(i)) == m[id := ReviewLost]
            && HasExecuted(t, id) && NoDebt(t, id) && !ExecutedNow(t.worker, id)
  {
  }

  lemma {:induction false} LostReviewSpoils(s: State, m: map<string, Cause>, i: nat)
    requires Known(s, m) && i < |s.reviews| && OwesRow(s.reviews[i])
    ensures LeadsToSpoiled(Step(s, ReviewDies(i)), Lapsed(m, s, ReviewDies(i)))
  {
    var id := s.reviews[i].seen.requestId;
    ApprovalFacts(s, m, i);
    LostReview(s, m, i);
    Settled(Step(s, ReviewDies(i)), m[id := ReviewLost], id);
  }

  lemma {:induction false} ExecutionsAvoid(s: State, more: seq<Event>)
    requires forall k :: 0 <= k < |more| ==> more[k].ReviewExecute?
    ensures Avoids(BreaksRecord, s, more)
  {
    if more != [] {
      ExecutionsAvoid(s, more[..|more| - 1]);
    }
  }

  lemma {:induction false} SecondApprovalSpoils(s: State, m: map<string, Cause>, n: map<string, Cause>, ticket: nat)
    requires Known(s, m) && BreaksOnce(s, ReviewStart(ticket, true))
    ensures LeadsToSpoiled(Step(s, ReviewStart(ticket, true)), n)
  {
    var more := OverlapExecutesTwice(s, ticket);
    ExecutionsAvoid(Step(s, ReviewStart(ticket, true)), more);
    assert SpoiledBy(Step(s, ReviewStart(ticket, true)), n, more);
  }

  /** One more review has read the row of the ticket's request. */
  predicate OneMore(s: State, t: State, ticket: nat, approve: bool) {
    && OpenTicket(s, ticket)
    && t.worker == s.worker && t.tickets == s.tickets && t.executions == s.executions
    && |t.reviews| == |s.reviews| + 1
    && (forall k :: 0 <= k < |s.reviews| ==> t.reviews[k] == s.reviews[k])
    && (var r := t.reviews[|s.reviews|];
        r.ticket == ticket && r.approve == approve && r.pc.ReviewChecked?
        && r.seen.requestId == s.tickets[ticket].requestId)
  }

  lemma {:induction false} Starts(s: State, ticket: nat, approve: bool)
    requires Inv(s) && OpenTicket(s, ticket)
    ensures OneMore(s, Step(s, ReviewStart(ticket, approve)), ticket, approve)
  {
    TicketHasRow(s, ticket);
  }

  /** What is known of an approval that has not ended. */
  lemma {:induction false} ApprovalFacts(s: State, m: map<string, Cause>, i: nat)
    requires Known(s, m) && i < |s.reviews| && s.reviews[i].approve && !s.reviews[i].pc.ReviewClosed?
    ensures s.reviews[i].ticket < |s.tickets|
    ensures var id := s.reviews[i].seen.requestId;
            && id == s.tickets[s.reviews[i].ticket].requestId
            && !ExecutedNow(s.worker, id) && (OwesRow(s.reviews[i]) ==> HasExecuted(s, id))
            && !SaysApprove(s, id) && NoOtherDebt(s, id, i)
  {
    assert ReviewInv(s, i) && ReviewRecord(s, i) && StillPending(s, i);
    assert HasTicket(s.tickets, s.reviews[i].seen.requestId);
    OnlyDebt(s, m, i);
  }

  /** While an approval has not ended, no other review owes the row of the request. */
  lemma {:induction false} OnlyDebt(s: State, m: map<string, Cause>, i: nat)
    requires Known(s, m) && i < |s.reviews| && s.reviews[i].approve && !s.reviews[i].pc.ReviewClosed?
    ensures NoOtherDebt(s, s.reviews[i].seen.requestId, i)
  {
    var id := s.reviews[i].seen.requestId;
    forall k | 0 <= k < |s.reviews| && k != i
      ensures !(s.reviews[k].seen.requestId == id && OwesRow(s.reviews[k]))
    {
      assert ReviewInv(s, k) && ReviewInv(s, i);
      if s.reviews[k].seen.requestId == id {
        SameTicket(s, s.reviews[k].ticket, s.reviews[i].ticket);
        assert if i < k then OneApproval(s, i, k) else OneApproval(s, k, i);
      }
    }
  }

  /** Before the first approval of an open ticket no review owes the row. */
  lemma {:induction false} NoDebtYet(s: State, m: map<string, Cause>, ticket: nat)
    requires Known(s, m) && OpenTicket(s, ticket) && !ApprovalUnderWay(s, ticket)
    ensures NoDebt(s, s.tickets[ticket].requestId) && !ExecutedNow(s.worker, s.tickets[ticket].requestId)
  {
    var id := s.tickets[ticket].requestId;
    StartsAlone(s, ticket);
    assert HasTicket(s.tickets, id);
    forall k | 0 <= k < |s.reviews|
      ensures !(s.reviews[k].seen.requestId == id && OwesRow(s.reviews[k]))
    {
      assert ReviewInv(s, k);
      if s.reviews[k].seen.requestId == id {
        SameTicket(s, s.reviews[k].ticket, ticket);
      }
    }
  }

  lemma {:induction false} DebtsWithOneMore(s: State, t: State, ticket: nat, approve: bool, id: string, i: nat)
    requires OneMore(s, t, ticket, approve) && NoOtherDebt(s, id, i)
    ensures NoOtherDebt(t, id, i)
  {
  }

  lemma {:induction false} CulpritStays(s: State, t: State, ticket: nat, approve: bool, id: string, j: nat)
    requires OneMore(s, t, ticket, approve) && Culprit(s, id, j)
    ensures Culprit(t, id, j)
  {
  }

  /** An approval starts beside a rejection, or before the worker has written ESCALATE. */
  lemma {:induction false} ApprovalSpoils(s: State, t: State, m: map<string, Cause>, ticket: nat, j: nat)
    requires Known(s, m) && OneMore(s, t, ticket, true) && !ApprovalUnderWay(s, ticket) && j != |s.reviews|
    requires Culprit(s, s.tickets[ticket].requestId, j)
    ensures LeadsToSpoiled(t, m)
  {
    var id := s.tickets[ticket].requestId;
    NoDebtYet(s, m, ticket);
    DebtsWithOneMore(s, t, ticket, true, id, |s.reviews|);
    CulpritStays(s, t, ticket, true, id, j);
    ApprovalGoesOn(t, m, |s.reviews|, j);
  }

  /** A rejection starts beside an approval. */
  lemma {:induction false} RejectionSpoils(s: State, t: State, m: map<string, Cause>, ticket: nat, i: nat)
    requires Known(s, m) && OneMore(s, t, ticket, false)
    requires i < |s.reviews| && s.reviews[i].ticket == ticket && Approving(s.reviews[i])
    ensures LeadsToSpoiled(t, m)
  {
    var id := s.tickets[ticket].requestId;
    ApprovalFacts(s, m, i);
    DebtsWithOneMore(s, t, ticket, false, id, i);
    assert WaitingRejection(t, id, |s.reviews|);
    ApprovalGoesOn(t, m, i, |s.reviews|);
  }

  lemma {:induction false} StartSpoils(s: State, m: map<string, Cause>, ticket: nat, approve: bool)
    requires Known(s, m) && BreaksRecord(s, ReviewStart(ticket, approve))
    ensures LeadsToSpoiled(Step(s, ReviewStart(ticket, approve)), m)
  {
    var t := Step(s, ReviewStart(ticket, approve));
    if BreaksOnce(s, ReviewStart(ticket, approve)) {
      SecondApprovalSpoils(s, m, m, ticket);
    } else {
      Starts(s, ticket, approve);
      if OppositeUnderWay(s, ticket, approve) {
        OppositeSpoils(s, t, m, ticket, approve);
      } else {
        ApprovalSpoils(s, t, m, ticket, |s.reviews| + 1);
      }
    }
  }

  lemma {:induction false} OppositeSpoils(s: State, t: State, m: map<string, Cause>, ticket: nat, approve: bool)
    requires Known(s, m) && OneMore(s, t, ticket, approve) && OppositeUnderWay(s, ticket, approve)
    requires approve ==> !ApprovalUnderWay(s, ticket)
    ensures LeadsToSpoiled(t, m)
  {
    var i: nat :| i < |s.reviews| && s.reviews[i].ticket == ticket && Active(s.reviews[i].pc)
                  && s.reviews[i].approve != approve;
    if approve {
      assert ReviewInv(s, i) && ReviewOnce(s, i);
      ApprovalSpoils(s, t, m, ticket, i);
    } else {
      RejectionSpoils(s, t, m, ticket, i);
    }
  }

  // ---------------------------------------------------------------- exactly these

  lemma {:induction false} NeverSpoiled(events: seq<Event>, e: Event)
    requires Avoids(BreaksRecord, EMPTY, events) && !BreaksRecord(Run(EMPTY, events), e)
    ensures !LeadsToSpoiled(Step(Run(EMPTY, events), e), Lapsed(Lapses(events), Run(EMPTY, events), e))
  {
    var s := Run(EMPTY, events);
    var m := Lapsed(Lapses(events), s, e);
    forall more
      ensures !SpoiledBy(Step(s, e), m, more)
    {
      if Avoids(BreaksRecord, Step(s, e), more) {
        NotSpoiledBy(events, e, more);
      }
    }
  }

  lemma {:induction false} NotSpoiledBy(events: seq<Event>, e: Event, more: seq<Event>)
    requires Avoids(BreaksRecord, EMPTY, events) && !BreaksRecord(Run(EMPTY, events), e)
    requires Avoids(BreaksRecord, Step(Run(EMPTY, events), e), more)
    ensures var s := Run(EMPTY, events);
            !Spoiled(Run(Step(s, e), more), LapsesFrom(Lapsed(Lapses(events), s, e), Step(s, e), more))
  {
    var all := events + [e] + more;
    AvoidsStep(BreaksRecord, EMPTY, events, e, more);
    LapsesOf(events, e, more);
    NoneSpoiled(all);
  }

  lemma {:induction false} NoneSpoiled(events: seq<Event>)
    requires Avoids(BreaksRecord, EMPTY, events)
    ensures !Spoiled(Run(EMPTY, events), Lapses(events))
  {
    RunApart(events);
    OnceIsWider(events);
    forall id
      ensures Count(Run(EMPTY, events).executions, id) <= 1
    {
      ExecutedAtMostOnce(events, id);
    }
  }

  lemma {:induction false} LapsesOf(events: seq<Event>, e: Event, more: seq<Event>)
    ensures var s := Run(EMPTY, events);
            Lapses(events + [e] + more) == LapsesFrom(Lapsed(Lapses(events), s, e), Step(s, e), more)
  {
    LapsesJoin(events, [e] + more);
    LapsesStep(Lapses(events), Run(EMPTY, events), e, more);
    assert events + [e] + more == events + ([e] + more);
  }

  /** The condition is exact: after a run that meets it, a step opens the way to a second execution, or to an
    executed request whose row does not read APPROVE although its own pass is not the cause, if and only if
    the step breaks the condition. */
  lemma {:induction false} ApartExactly(events: seq<Event>, e: Event)
    requires Avoids(BreaksRecord, EMPTY, events)
    ensures var s := Run(EMPTY, events);
            BreaksRecord(s, e) <==> LeadsToSpoiled(Step(s, e), Lapsed(Lapses(events), s, e))
  {
    var s := Run(EMPTY, events);
    RunKnown(events);
    if !BreaksRecord(s, e) {
      NeverSpoiled(events, e);
    } else if e.ReviewDies? {
      assert ReviewOnce(s, e.review);
      assert e == ReviewDies(e.review);
      LostReviewSpoils(s, Lapses(events), e.review);
    } else {
      assert e == ReviewStart(e.ticket, e.approve);
      StartSpoils(s, Lapses(events), e.ticket, e.approve);
    }
  }
}
