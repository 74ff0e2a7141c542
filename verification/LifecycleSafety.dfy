/** Invariants of every run of the life cycle, whatever fails and however the reviewers interleave. */
module LifecycleSafety {
  import opened Types
  import opened Ledger
  import opened LedgerRuns
  import opened Lifecycle

  // ---------------------------------------------------------------- rows by request id

  lemma {:induction false} FindDependsOnIds(a: seq<Columns>, b: seq<Columns>, id: string)
    requires |a| == |b| && forall i :: 0 <= i < |a| ==> a[i].requestId == b[i].requestId
    ensures FindContent(a, id) == FindContent(b, id)
  {
    if a != [] {
      FindDependsOnIds(a[..|a| - 1], b[..|b| - 1], id);
    }
  }

  lemma {:induction false} FoundRow(ledger: seq<Columns>, id: string)
    ensures RowOf(ledger, id).Some? ==>
              FindContent(ledger, id).Some? && ledger[FindContent(ledger, id).value].requestId == id
  {
    if ledger != [] {
      FoundRow(ledger[..|ledger| - 1], id);
    }
  }

  lemma {:induction false} RowAfterRecord(ledger: seq<Columns>, data: Columns, id: string)
    requires RowOf(ledger, data.requestId).None?
    ensures RowOf(AddRow(ledger, data), id) == if id == data.requestId then Some(data) else RowOf(ledger, id)
  {
    var l := AddRow(ledger, data);
    assert l == ledger + [data] && l[..|l| - 1] == ledger;
  }

  lemma {:induction false} RowAfterRewrite(ledger: seq<Columns>, id: string, edit: Edit, other: string)
    ensures RowOf(RewriteRow(ledger, id, edit), other)
            == if other == id && RowOf(ledger, id).Some? then Some(Edited(RowOf(ledger, id).value, edit))
               else RowOf(ledger, other)
  {
    FoundRow(ledger, id);
    FoundRow(ledger, other);
    FindDependsOnIds(ledger, RewriteRow(ledger, id, edit), other);
  }

  function VerdictIn(ledger: seq<Columns>, id: string): Option<Verdict> {
    match RowOf(ledger, id)
    case None => None
    case Some(row) => Some(row.decisionRecord.verdict)
  }

  lemma {:induction false} VerdictAfterRewrite(ledger: seq<Columns>, me: string, edit: Edit, id: string)
    ensures VerdictIn(RewriteRow(ledger, me, edit), id)
            == if id == me && VerdictIn(ledger, me).Some? then Some(edit.decisionRecord.verdict)
               else VerdictIn(ledger, id)
  {
    RowAfterRewrite(ledger, me, edit, id);
  }

  // ---------------------------------------------------------------- only approved rows report success

  predicate RowSafe(row: Columns) {
    row.executionResult.Some? && row.executionResult.value.success ==> row.decisionRecord.verdict == Approve
  }

  ghost predicate Safe(s: State) {
    && (forall k: nat :: k < |s.ledger| ==> RowSafe(s.ledger[k]))
    && (s.worker.Executed? ==> s.worker.judgement.decision.verdict == Approve)
    && (forall i: nat :: i < |s.reviews| ==> ReviewSafe(s.reviews[i]))
  }

  predicate ReviewSafe(r: Review) {
    match r.pc
    case TicketWritten(result) => result.success ==> r.approve
    case ReviewExecuted(_) => r.approve
    case ReviewChecked => true
    case ReviewClosed => true
  }

  lemma {:induction false} RewriteSafe(ledger: seq<Columns>, id: string, edit: Edit)
    requires forall k: nat :: k < |ledger| ==> RowSafe(ledger[k])
    requires edit.executionResult.Some? && edit.executionResult.value.success ==> edit.decisionRecord.verdict == Approve
    ensures forall k: nat :: k < |RewriteRow(ledger, id, edit)| ==> RowSafe(RewriteRow(ledger, id, edit)[k])
  {
  }

  lemma {:induction false} WorkerWriteSafe(s: State, now: int)
    requires Safe(s)
    ensures Safe(WriteVerdictStep(s, now))
  {
    var w := s.worker;
    if w.Executed? || w.Ticketed? || w.Judged? {
      RewriteSafe(s.ledger, w.request.id, VerdictEdit(w.judgement, if w.Executed? then Some(w.result) else None, now));
    }
  }

  lemma {:induction false} ReviewStepSafe(s: State, e: Event)
    requires Safe(s)
    requires e.ReviewStart? || e.ReviewExecute? || e.ReviewWriteTicket? || e.ReviewWriteLedger? || e.ReviewDies?
    ensures Safe(Step(s, e))
  {
    if e.ReviewWriteLedger? && e.review < |s.reviews| && s.reviews[e.review].pc.TicketWritten? {
      var r := s.reviews[e.review];
      assert ReviewSafe(r);
      RewriteSafe(s.ledger, r.seen.requestId, ReviewEdit(r, r.pc.result, e.now));
    }
  }

  lemma {:induction false} StepSafe(s: State, e: Event)
    requires Safe(s)
    ensures Safe(Step(s, e))
  {
    if e.ReviewStart? || e.ReviewExecute? || e.ReviewWriteTicket? || e.ReviewWriteLedger? || e.ReviewDies? {
      ReviewStepSafe(s, e);
    } else if e.WriteVerdict? {
      WorkerWriteSafe(s, e.now);
    } else if e.FallbackWrite? && s.worker.Failing? {
      RewriteSafe(s.ledger, s.worker.request.id, FallbackEdit(e.validation, e.now));
    }
  }

  /** In every reachable state, whatever failed on the way: a ledger row that reports a successful
    execution carries the verdict APPROVE. */
  lemma {:induction false} SuccessMeansApproved(events: seq<Event>)
    ensures Safe(Run(EMPTY, events))
  {
    if events != [] {
      SuccessMeansApproved(events[..|events| - 1]);
      StepSafe(Run(EMPTY, events[..|events| - 1]), events[|events| - 1]);
    }
  }
}
