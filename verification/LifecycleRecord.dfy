/** Whether the ledger says what was executed: in every run, whatever fails, the rows that should read
  APPROVE and do not are those of a short list of lapses. */
module LifecycleRecord {
  import opened Types
  import opened Lifecycle
  import opened LifecycleSafety
  import opened LifecycleConservation
  import opened LifecycleOnce

  // ---------------------------------------------------------------- lapses

  /** How the row of an executed request comes not to read APPROVE. */
  datatype Cause =
    | FallbackBlocked
    | NeverWritten
    | ReviewLost
    | RejectedOver
    | EscalatedOver

  predicate HasExecuted(s: State, id: string) {
    Count(s.executions, id) > 0
  }

  predicate SaysApprove(s: State, id: string) {
    VerdictIn(s.ledger, id) == Some(Approve)
  }

  /** The review has executed the request and not yet written its row. */
  predicate OwesRow(r: Review) {
    r.approve && (r.pc.ReviewExecuted? || r.pc.TicketWritten?)
  }

  predicate WritesVerdict(worker: Worker) {
    worker.Executed? || worker.Ticketed? || (worker.Judged? && worker.judgement.decision.verdict == Block)
  }

  function AfterWorkerWrite(m: map<string, Cause>, s: State): map<string, Cause> {
    if !WritesVerdict(s.worker) then m
    else
      var id := s.worker.request.id;
      if s.worker.judgement.decision.verdict == Approve then m - {id}
      else if HasExecuted(s, id) then m[id := EscalatedOver]
      else m
  }

  function AfterFallback(m: map<string, Cause>, s: State, written: bool): map<string, Cause> {
    if !s.worker.Failing? || !HasExecuted(s, s.worker.request.id) then m
    else if written then m[s.worker.request.id := FallbackBlocked]
    else if !s.worker.written && !SaysApprove(s, s.worker.request.id) && s.worker.request.id !in m
    then m[s.worker.request.id := NeverWritten]
    else m
  }

  function AfterReview(m: map<string, Cause>, s: State, i: nat, written: bool): map<string, Cause> {
    if i >= |s.reviews| then m
    else
      var r := s.reviews[i];
      var id := r.seen.requestId;
      if !written then (if OwesRow(r) && !SaysApprove(s, id) then m[id := ReviewLost] else m)
      else if !r.pc.TicketWritten? then m
      else if r.approve then m - {id}
      else if HasExecuted(s, id) then m[id := RejectedOver]
      else m
  }

  /** The lapses after a step: a write of APPROVE repairs one; any other last word on the row of an executed
    request makes one. */
  function Lapsed(m: map<string, Cause>, s: State, e: Event): map<string, Cause> {
    if e.WriteVerdict? then AfterWorkerWrite(m, s)
    else if e.FallbackWrite? then AfterFallback(m, s, true)
    else if e.FallbackFails? then AfterFallback(m, s, false)
    else if e.ReviewWriteLedger? then AfterReview(m, s, e.review, true)
    else if e.ReviewDies? then AfterReview(m, s, e.review, false)
    else m
  }

  function Lapses(events: seq<Event>): map<string, Cause> {
    if events == [] then map[]
    else Lapsed(Lapses(events[..|events| - 1]), Run(EMPTY, events[..|events| - 1]), events[|events| - 1])
  }

  /** Executed, and the write of the row still to come. */
  predicate UnderWay(s: State, id: string) {
    || ExecutedNow(s.worker, id)
    || (s.worker.Failing? && !s.worker.written && s.worker.request.id == id)
    || exists i :: 0 <= i < |s.reviews| && s.reviews[i].seen.requestId == id && OwesRow(s.reviews[i])
  }

  // ---------------------------------------------------------------- invariant

  ghost predicate RecordAt(s: State, m: map<string, Cause>, id: string) {
    && (SaysApprove(s, id) ==> HasExecuted(s, id))
    && (id in m ==> HasExecuted(s, id) && !SaysApprove(s, id))
    && (id in m && (m[id].FallbackBlocked? || m[id].RejectedOver?) ==> VerdictIn(s.ledger, id) == Some(Block))
    && (HasExecuted(s, id) && !SaysApprove(s, id) ==> id in m || UnderWay(s, id))
  }

  ghost predicate ReviewRecord(s: State, i: nat)
    requires i < |s.reviews|
  {
    && (s.reviews[i].pc.ReviewExecuted? ==> s.reviews[i].approve)
    && (OwesRow(s.reviews[i]) ==> HasExecuted(s, s.reviews[i].seen.requestId))
  }

  ghost predicate RecordHolds(s: State, m: map<string, Cause>) {
    && (s.worker.Executed? ==>
          s.worker.judgement.decision.verdict == Approve && HasExecuted(s, s.worker.request.id))
    && (s.worker.Ticketed? ==> s.worker.judgement.decision.verdict == Escalate)
    && (forall i: nat :: i < |s.reviews| ==> ReviewRecord(s, i))
    && (forall id :: RecordAt(s, m, id))
  }

  lemma {:induction false} LogOnlyGrows(s: State, t: State)
    requires t.executions == s.executions || exists entry :: t.executions == s.executions + [entry]
    ensures forall id :: HasExecuted(s, id) ==> HasExecuted(t, id)
  {
    if t.executions != s.executions {
      var entry :| t.executions == s.executions + [entry];
      forall id
        ensures HasExecuted(s, id) ==> HasExecuted(t, id)
      {
        CountGrows(s.executions, entry, id);
      }
    }
  }

  // ---------------------------------------------------------------- steps

  /** A step that writes no row and executes nothing, and after which every debt is still owed. */
  lemma {:induction false} QuietRecorded(s: State, t: State, m: map<string, Cause>)
    requires RecordHolds(s, m) && t.executions == s.executions
    requires t.worker.Executed? ==> t.worker == s.worker
    requires t.worker.Ticketed? ==> t.worker.judgement.decision.verdict == Escalate
    requires forall id :: VerdictIn(t.ledger, id) == VerdictIn(s.ledger, id)
                          || (VerdictIn(s.ledger, id) == None && VerdictIn(t.ledger, id) == Some(Pending))
    requires forall id :: UnderWay(s, id) && !SaysApprove(s, id) && HasExecuted(s, id) ==> UnderWay(t, id)
    requires forall i: nat :: i < |t.reviews| ==> ReviewRecord(t, i)
    ensures RecordHolds(t, m)
  {
    forall id
      ensures RecordAt(t, m, id)
    {
      assert RecordAt(s, m, id);
    }
  }

  /** No debt is dropped when reviews are only added, or move on without being closed. */
  lemma {:induction false} DebtsStay(s: State, t: State, id: string)
    requires UnderWay(s, id) && |s.reviews| <= |t.reviews|
    requires ExecutedNow(s.worker, id) ==>
               ExecutedNow(t.worker, id) || (t.worker.Failing? && !t.worker.written && t.worker.request.id == id)
    requires s.worker.Failing? ==> t.worker == s.worker
    requires forall i: nat :: i < |s.reviews| ==>
               t.reviews[i].seen == s.reviews[i].seen && (OwesRow(s.reviews[i]) ==> OwesRow(t.reviews[i]))
    ensures UnderWay(t, id)
  {
    if exists i :: 0 <= i < |s.reviews| && s.reviews[i].seen.requestId == id && OwesRow(s.reviews[i]) {
      var i :| 0 <= i < |s.reviews| && s.reviews[i].seen.requestId == id && OwesRow(s.reviews[i]);
      assert t.reviews[i].seen.requestId == id && OwesRow(t.reviews[i]);
    }
  }

  lemma {:induction false} InterceptRecorded(s: State, m: map<string, Cause>, e: Event)
    requires RecordHolds(s, m) && e.Intercept?
    ensures RecordHolds(Step(s, e), m)
  {
    var t := Step(s, e);
    if t != s {
      forall id
        ensures VerdictIn(t.ledger, id) == VerdictIn(s.ledger, id)
                || (VerdictIn(s.ledger, id) == None && VerdictIn(t.ledger, id) == Some(Pending))
        ensures UnderWay(s, id) ==> UnderWay(t, id)
      {
        RowAfterRecord(s.ledger, InitialRow(e.request, e.raw, e.receivedAt), id);
        if UnderWay(s, id) {
          DebtsStay(s, t, id);
        }
      }
      ReviewsKept(s, t, m);
      QuietRecorded(s, t, m);
    }
  }

  lemma {:induction false} ReviewsKept(s: State, t: State, m: map<string, Cause>)
    requires RecordHolds(s, m) && |t.reviews| == |s.reviews|
    requires forall id :: HasExecuted(s, id) ==> HasExecuted(t, id)
    requires forall i: nat :: i < |s.reviews| ==>
               t.reviews[i] == s.reviews[i] || t.reviews[i] == s.reviews[i].(pc := ReviewClosed)
               || (t.reviews[i].pc.TicketWritten? && t.reviews[i] == s.reviews[i].(pc := t.reviews[i].pc)
                   && (s.reviews[i].approve ==> s.reviews[i].pc.ReviewExecuted?))
    ensures forall i: nat :: i < |t.reviews| ==> ReviewRecord(t, i)
  {
    forall i: nat | i < |t.reviews|
      ensures ReviewRecord(t, i)
    {
      assert ReviewRecord(s, i);
    }
  }

  /** Steps that change neither rows, executions nor reviews. */
  lemma {:induction false} MoveRecorded(s: State, t: State, m: map<string, Cause>)
    requires RecordHolds(s, m) && t.ledger == s.ledger && t.executions == s.executions && t.reviews == s.reviews
    requires t.worker.Executed? ==> t.worker == s.worker
    requires t.worker.Ticketed? ==> t.worker.judgement.decision.verdict == Escalate
    requires s.worker.Executed? ==>
               t.worker == s.worker || (t.worker.Failing? && !t.worker.written && t.worker.request == s.worker.request)
    requires s.worker.Failing? ==> t.worker == s.worker
    ensures RecordHolds(t, m)
  {
    forall id | UnderWay(s, id)
      ensures UnderWay(t, id)
    {
      DebtsStay(s, t, id);
    }
    ReviewsKept(s, t, m);
    QuietRecorded(s, t, m);
  }

  lemma {:induction false} QueueRecorded(s: State, m: map<string, Cause>, e: Event)
    requires RecordHolds(s, m) && (e.Enqueue? || e.EnqueueFails? || e.Pop? || e.Judge?)
    ensures RecordHolds(Step(s, e), m)
  {
    if Step(s, e) != s {
      MoveRecorded(s, Step(s, e), m);
    }
  }

  lemma {:induction false} WorkerRecorded(s: State, m: map<string, Cause>, e: Event)
    requires RecordHolds(s, m) && (e.CreateTicket? || e.Finish? || e.Fail?)
    ensures RecordHolds(Step(s, e), m)
  {
    if Step(s, e) != s {
      MoveRecorded(s, Step(s, e), m);
    }
  }

  /** One more execution, whose row is still to be written. */
  lemma {:induction false} ExecutionRecorded(s: State, t: State, m: map<string, Cause>, entry: ExecutionEntry)
    requires RecordHolds(s, m) && t.executions == s.executions + [entry] && t.ledger == s.ledger
    requires UnderWay(t, entry.requestId) && forall id :: UnderWay(s, id) ==> UnderWay(t, id)
    ensures forall id :: RecordAt(t, m, id)
  {
    forall id
      ensures RecordAt(t, m, id)
    {
      assert RecordAt(s, m, id);
      CountGrows(s.executions, entry, id);
    }
  }

  lemma {:induction false} ExecuteRecorded(s: State, m: map<string, Cause>, success: bool, response: Json)
    requires RecordHolds(s, m)
    ensures RecordHolds(ExecuteStep(s, success, response), m)
  {
    var t := ExecuteStep(s, success, response);
    if t != s {
      var entry := ExecutionEntry(s.worker.request.id, s.worker.judgement.redacted);
      LogOnlyGrows(s, t);
      CountGrows(s.executions, entry, entry.requestId);
      forall id | UnderWay(s, id)
        ensures UnderWay(t, id)
      {
        DebtsStay(s, t, id);
      }
      ExecutionRecorded(s, t, m, entry);
      ReviewsKept(s, t, m);
    }
  }

  lemma {:induction false} ReviewExecuteRecorded(s: State, m: map<string, Cause>, i: nat, success: bool, response: Json)
    requires RecordHolds(s, m)
    ensures RecordHolds(ReviewExecuteStep(s, i, success, response), m)
  {
    var t := ReviewExecuteStep(s, i, success, response);
    if t != s {
      var r := s.reviews[i];
      var entry := ExecutionEntry(r.seen.requestId, r.seen.parsedRequest);
      LogOnlyGrows(s, t);
      CountGrows(s.executions, entry, entry.requestId);
      assert t.reviews[i].seen.requestId == entry.requestId && OwesRow(t.reviews[i]);
      forall id | UnderWay(s, id)
        ensures UnderWay(t, id)
      {
        DebtsStay(s, t, id);
      }
      ExecutionRecorded(s, t, m, entry);
      forall j: nat | j < |t.reviews|
        ensures ReviewRecord(t, j)
      {
        assert ReviewRecord(s, j);
      }
    }
  }

  lemma {:induction false} ReviewMovesRecorded(s: State, m: map<string, Cause>, e: Event)
    requires RecordHolds(s, m) && (e.ReviewStart? || e.ReviewWriteTicket?)
    ensures RecordHolds(Step(s, e), m)
  {
    var t := Step(s, e);
    if t != s {
      forall id | UnderWay(s, id)
        ensures UnderWay(t, id)
      {
        DebtsStay(s, t, id);
      }
      forall j: nat | j < |t.reviews|
        ensures ReviewRecord(t, j)
      {
        assert j < |s.reviews| ==> ReviewRecord(s, j);
      }
      QuietRecorded(s, t, m);
    }
  }

  // ---------------------------------------------------------------- writes, and writes that fail

  /** The row of `me` is written: APPROVE for a request that has been executed, or another verdict. */
  lemma {:induction false} WriteRecorded(s: State, t: State, m: map<string, Cause>, me: string, v: Verdict,
                                         cause: Cause)
    requires RecordHolds(s, m) && t.executions == s.executions
    requires v == Approve ==> HasExecuted(s, me)
    requires v != Approve && (cause.FallbackBlocked? || cause.RejectedOver?) ==> v == Block
    requires forall id :: VerdictIn(t.ledger, id) == if id == me then Some(v) else VerdictIn(s.ledger, id)
    requires forall id :: id != me && UnderWay(s, id) ==> UnderWay(t, id)
    ensures var n := if v == Approve then m - {me} else if HasExecuted(s, me) then m[me := cause] else m;
            forall id :: RecordAt(t, n, id)
  {
    var n := if v == Approve then m - {me} else if HasExecuted(s, me) then m[me := cause] else m;
    forall id
      ensures RecordAt(t, n, id)
    {
      assert RecordAt(s, m, id);
    }
  }

  lemma {:induction false} WriteVerdictRecorded(s: State, m: map<string, Cause>, now: int)
    requires Inv(s) && RecordHolds(s, m)
    ensures RecordHolds(WriteVerdictStep(s, now), AfterWorkerWrite(m, s))
  {
    var t := WriteVerdictStep(s, now);
    var w := s.worker;
    if WritesVerdict(w) {
      var me := w.request.id;
      var edit := VerdictEdit(w.judgement, if w.Executed? then Some(w.result) else None, now);
      WorkerHasRow(s);
      forall id
        ensures VerdictIn(t.ledger, id)
                == if id == me then Some(w.judgement.decision.verdict) else VerdictIn(s.ledger, id)
        ensures id != me && UnderWay(s, id) ==> UnderWay(t, id)
      {
        VerdictAfterRewrite(s.ledger, me, edit, id);
      }
      WriteRecorded(s, t, m, me, w.judgement.decision.verdict, EscalatedOver);
      ReviewsKept(s, t, m);
    }
  }

  lemma {:induction false} WorkerHasRow(s: State)
    requires Inv(s) && !s.worker.Idle?
    ensures VerdictIn(s.ledger, s.worker.request.id).Some?
  {
    assert s.enqueued[|s.taken| - 1] == s.worker.request.id;
    assert IdInv(s, s.worker.request.id);
  }

  lemma {:induction false} FallbackWriteRecorded(s: State, m: map<string, Cause>, validation: ValidationResult,
                                                 now: int)
    requires Inv(s) && RecordHolds(s, m)
    ensures RecordHolds(FallbackWriteStep(s, validation, now), AfterFallback(m, s, true))
  {
    var t := FallbackWriteStep(s, validation, now);
    if s.worker.Failing? {
      var me := s.worker.request.id;
      WorkerHasRow(s);
      forall id
        ensures VerdictIn(t.ledger, id) == if id == me then Some(Block) else VerdictIn(s.ledger, id)
        ensures id != me && UnderWay(s, id) ==> UnderWay(t, id)
      {
        VerdictAfterRewrite(s.ledger, me, FallbackEdit(validation, now), id);
      }
      WriteRecorded(s, t, m, me, Block, FallbackBlocked);
      ReviewsKept(s, t, m);
    }
  }

  lemma {:induction false} FallbackFailsRecorded(s: State, m: map<string, Cause>)
    requires RecordHolds(s, m)
    ensures RecordHolds(FallbackFailsStep(s), AfterFallback(m, s, false))
  {
    var t := FallbackFailsStep(s);
    if s.worker.Failing? {
      var n := AfterFallback(m, s, false);
      forall id
        ensures RecordAt(t, n, id)
      {
        assert RecordAt(s, m, id);
      }
      ReviewsKept(s, t, m);
    }
  }

  /** Closing a review takes away the debt of its own request at most. */
  lemma {:induction false} OtherDebtsStay(s: State, t: State, i: nat, id: string)
    requires i < |s.reviews| && t.reviews == s.reviews[i := s.reviews[i].(pc := ReviewClosed)] && t.worker == s.worker
    requires UnderWay(s, id) && (id != s.reviews[i].seen.requestId || !OwesRow(s.reviews[i]))
    ensures UnderWay(t, id)
  {
    if exists j :: 0 <= j < |s.reviews| && s.reviews[j].seen.requestId == id && OwesRow(s.reviews[j]) {
      var j :| 0 <= j < |s.reviews| && s.reviews[j].seen.requestId == id && OwesRow(s.reviews[j]);
      assert t.reviews[j] == s.reviews[j];
    }
  }

  lemma {:induction false} ReviewWriteRecorded(s: State, m: map<string, Cause>, i: nat, now: int)
    requires Inv(s) && RecordHolds(s, m)
    ensures RecordHolds(ReviewWriteLedgerStep(s, i, now), AfterReview(m, s, i, true))
  {
    var t := ReviewWriteLedgerStep(s, i, now);
    if i < |s.reviews| && s.reviews[i].pc.TicketWritten? {
      var r := s.reviews[i];
      var me := r.seen.requestId;
      var v := if r.approve then Approve else Block;
      assert ReviewRecord(s, i) && ReviewInv(s, i);
      TicketHasRow(s, r.ticket);
      forall id
        ensures VerdictIn(t.ledger, id) == if id == me then Some(v) else VerdictIn(s.ledger, id)
        ensures id != me && UnderWay(s, id) ==> UnderWay(t, id)
      {
        VerdictAfterRewrite(s.ledger, me, ReviewEdit(r, r.pc.result, now), id);
        if id != me && UnderWay(s, id) {
          OtherDebtsStay(s, t, i, id);
        }
      }
      WriteRecorded(s, t, m, me, v, RejectedOver);
      ReviewsKept(s, t, m);
    }
  }

  lemma {:induction false} ReviewDiesRecorded(s: State, m: map<string, Cause>, i: nat)
    requires RecordHolds(s, m)
    ensures RecordHolds(ReviewDiesStep(s, i), AfterReview(m, s, i, false))
  {
    var t := ReviewDiesStep(s, i);
    if i < |s.reviews| {
      var n := AfterReview(m, s, i, false);
      assert ReviewRecord(s, i);
      forall id
        ensures RecordAt(t, n, id)
      {
        assert RecordAt(s, m, id);
        if UnderWay(s, id) && (id != s.reviews[i].seen.requestId || !OwesRow(s.reviews[i])) {
          OtherDebtsStay(s, t, i, id);
        }
      }
      ReviewsKept(s, t, m);
    }
  }

  // ---------------------------------------------------------------- every run

  lemma {:induction false} WritingStepRecorded(s: State, m: map<string, Cause>, e: Event)
    requires Inv(s) && RecordHolds(s, m)
    requires e.WriteVerdict? || e.FallbackWrite? || e.FallbackFails? || e.ReviewWriteLedger? || e.ReviewDies?
    ensures RecordHolds(Step(s, e), Lapsed(m, s, e))
  {
    if e.WriteVerdict? {
      WriteVerdictRecorded(s, m, e.now);
    } else if e.FallbackWrite? {
      FallbackWriteRecorded(s, m, e.validation, e.now);
    } else if e.FallbackFails? {
      FallbackFailsRecorded(s, m);
    } else if e.ReviewWriteLedger? {
      ReviewWriteRecorded(s, m, e.review, e.now);
    } else {
      ReviewDiesRecorded(s, m, e.review);
    }
  }

  lemma {:induction false} StepRecorded(s: State, m: map<string, Cause>, e: Event)
    requires Inv(s) && RecordHolds(s, m)
    ensures RecordHolds(Step(s, e), Lapsed(m, s, e))
  {
    if e.WriteVerdict? || e.FallbackWrite? || e.FallbackFails? || e.ReviewWriteLedger? || e.ReviewDies? {
      WritingStepRecorded(s, m, e);
    } else if e.Intercept? {
      InterceptRecorded(s, m, e);
    } else if e.Enqueue? || e.EnqueueFails? || e.Pop? || e.Judge? {
      QueueRecorded(s, m, e);
    } else if e.Execute? {
      ExecuteRecorded(s, m, e.success, e.response);
    } else if e.ReviewExecute? {
      ReviewExecuteRecorded(s, m, e.review, e.success, e.response);
    } else if e.ReviewStart? || e.ReviewWriteTicket? {
      ReviewMovesRecorded(s, m, e);
    } else {
      WorkerRecorded(s, m, e);
    }
  }

  lemma {:induction false} RunRecorded(events: seq<Event>)
    ensures Inv(Run(EMPTY, events)) && RecordHolds(Run(EMPTY, events), Lapses(events))
  {
    RunInv(events);
    if events == [] {
      assert forall id :: RecordAt(EMPTY, map[], id);
    } else {
      var before := events[..|events| - 1];
      RunRecorded(before);
      StepRecorded(Run(EMPTY, before), Lapses(before), events[|events| - 1]);
    }
  }

  /** In every run, whatever fails and however reviews interleave, and for each request by itself: unless
    its row is still being written, the row reads APPROVE if and only if the request was executed and its
    record has not lapsed. */
  lemma {:induction false} RecordedExactly(events: seq<Event>, id: string)
    requires !UnderWay(Run(EMPTY, events), id)
    ensures var s := Run(EMPTY, events);
            && (VerdictIn(s.ledger, id) == Some(Approve) <==> Count(s.executions, id) > 0 && id !in Lapses(events))
            && (id in Lapses(events) ==> Count(s.executions, id) > 0)
  {
    RunRecorded(events);
    assert RecordAt(Run(EMPTY, events), Lapses(events), id);
  }
}
