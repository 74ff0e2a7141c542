/** What holds of every run of the ledger: the lock, the order, the table and the checks. */
module LedgerRuns {
  import opened Types
  import opened Ledger
  import opened LedgerProperties
  import opened LedgerOperations
  import opened LedgerConcurrency

  predicate HoldsLock(pc: Pc) {
    !pc.Waiting? && !pc.Done?
  }

  ghost predicate LockFree(s: System) {
    forall i: nat :: i < |s.callers| ==> !HoldsLock(s.callers[i].pc)
  }

  /** In every reachable state at most one caller holds the mutex, and it is granted in the order in
    which it was asked for: when a caller has it or had it, every earlier caller is done. */
  lemma {:induction false} MutualExclusionInOrder(c: Crypto, rows: seq<Row>, events: seq<LedgerEvent>, i: nat, j: nat)
    requires Table(rows)
    requires var s := RunSystem(c, Start(rows), events);
             i < j < |s.callers| && !s.callers[j].pc.Waiting?
    ensures RunSystem(c, Start(rows), events).callers[i].pc.Done?
  {
    var s := RunSystem(c, Start(rows), events);
    var h := EveryRunIsSequential(c, rows, events);
    assert CallerInv(c, rows, s.callers, h, i) && CallerInv(c, rows, s.callers, h, j);
  }

  /** In every reachable state in which nobody holds the mutex, the table is the one the calls answered
    so far, run one after another in the order of their arrival, would have left; and each of them got
    the answer it would have got then. */
  lemma {:induction false} QuiescentLedger(c: Crypto, rows: seq<Row>, events: seq<LedgerEvent>) returns (h: nat)
    requires Table(rows)
    ensures var s := RunSystem(c, Start(rows), events);
            && h <= |s.callers|
            && (forall i: nat :: i < |s.callers| ==> (s.callers[i].pc.Done? <==> i < h))
            && (forall i: nat :: i < h ==>
                  s.callers[i].pc == Done(Apply(c, Replay(c, rows, s.callers, i), s.callers[i].call).outcome))
            && (LockFree(s) ==> s.rows == Replay(c, rows, s.callers, h) && Table(s.rows))
  {
    var s := RunSystem(c, Start(rows), events);
    h := EveryRunIsSequential(c, rows, events);
    forall i: nat | i < |s.callers|
      ensures s.callers[i].pc.Done? <==> i < h
      ensures i < h ==> s.callers[i].pc == Done(Apply(c, Replay(c, rows, s.callers, i), s.callers[i].call).outcome)
    {
      assert CallerInv(c, rows, s.callers, h, i);
    }
    if LockFree(s) && h < |s.callers| {
      assert CallerInv(c, rows, s.callers, h, h);
      assert !HoldsLock(s.callers[h].pc);
    }
  }

  // ---------------------------------------------------------------- the ledger as a list of contents

  function FindContent(contents: seq<Columns>, requestId: string): (r: Option<nat>)
    ensures r.Some? ==> r.value < |contents|
  {
    if contents == [] then None
    else if contents[|contents| - 1].requestId == requestId then Some(|contents| - 1)
    else FindContent(contents[..|contents| - 1], requestId)
  }

  /** What a call does to the contents, hashes aside. */
  function ContentStep(contents: seq<Columns>, call: Call): seq<Columns> {
    match call
    case RecordCall(data, _) =>
      if FindContent(contents, data.requestId).Some? then contents else contents + [data]
    case RewriteCall(requestId, edit) =>
      (match FindContent(contents, requestId)
       case None => contents
       case Some(k) => contents[k := Edited(contents[k], edit)])
    case VerifyCall => contents
  }

  function ContentRun(contents: seq<Columns>, callers: seq<Caller>, n: nat): seq<Columns>
    requires n <= |callers|
  {
    if n == 0 then contents else ContentStep(ContentRun(contents, callers, n - 1), callers[n - 1].call)
  }

  /** No two of the texts hashed into the ledger before and after call `i` collide. */
  ghost predicate CollisionFreeAt(c: Crypto, contents: seq<Columns>, callers: seq<Caller>, i: nat)
    requires i < |callers|
  {
    var before := ContentRun(contents, callers, i);
    c.CollisionFreeOn(Preimages(c, before) + Preimages(c, ContentStep(before, callers[i].call)))
  }

  ghost predicate CollisionFreeRun(c: Crypto, contents: seq<Columns>, callers: seq<Caller>) {
    forall i: nat :: i < |callers| ==> CollisionFreeAt(c, contents, callers, i)
  }

  /** A temporary hash reads `TEMP_...`, which is no digest. */
  predicate Temporary(call: Call) {
    call.RecordCall? ==> !IsDigest(call.tempHash)
  }

  lemma {:induction false} FindContentAgrees(rows: seq<Row>, requestId: string)
    ensures FindContent(Contents(rows), requestId) == FindRequest(rows, requestId)
  {
    if rows != [] {
      var n := |rows|;
      FindContentAgrees(rows[..n - 1], requestId);
      assert Contents(rows)[..n - 1] == Contents(rows[..n - 1]);
    }
  }

  lemma {:induction false} TemporaryIsNew(c: Crypto, rows: seq<Row>, tempHash: string)
    requires Canonical(c, rows) && !IsDigest(tempHash)
    ensures FindHash(rows, tempHash).None?
  {
    var found := FindHash(rows, tempHash);
    if found.Some? {
      CanonicalRow(c, rows, found.value);
    }
  }

  /** The answer of a call that ran alone on an untampered ledger. */
  ghost predicate Sound(rows: seq<Row>, call: Call, outcome: Outcome) {
    match call
    case RecordCall(data, _) =>
      if FindRequest(rows, data.requestId).Some? then outcome == DuplicateRow
      else outcome.Recorded? && outcome.row.data == data
    case RewriteCall(requestId, edit) =>
      (match FindRequest(rows, requestId)
       case None => outcome == NotFound
       case Some(k) => outcome.Rewrote? && outcome.finalRow.data == Edited(rows[k].data, edit))
    case VerifyCall => outcome == Checked(Verified)
  }

  lemma {:induction false} ApplyToUntampered(c: Crypto, rows: seq<Row>, call: Call)
    requires c.Faithful() && Canonical(c, rows) && Temporary(call)
    requires c.CollisionFreeOn(Preimages(c, Contents(rows)) + Preimages(c, ContentStep(Contents(rows), call)))
    ensures var effect := Apply(c, rows, call);
            effect.rows == Rebuild(c, ContentStep(Contents(rows), call)) && Sound(rows, call, effect.outcome)
  {
    match call
    case RecordCall(data, tempHash) =>
      FindContentAgrees(rows, data.requestId);
      TemporaryIsNew(c, rows, tempHash);
      if FindRequest(rows, data.requestId).None? {
        AppendedHashIsFree(c, rows, data);
        AppendRefinesRebuild(c, rows, data);
      }
    case RewriteCall(requestId, edit) =>
      FindContentAgrees(rows, requestId);
      var found := FindRequest(rows, requestId);
      if found.Some? {
        RewriteNeverRefused(c, rows, found.value, edit);
        RewriteRefinesRebuild(c, rows, found.value, edit);
        RewriteFrame(c, rows, found.value, edit);
      }
    case VerifyCall =>
      CanonicalIsIntactAndLinked(c, rows);
      VerifyIsExact(c, rows);
  }

  /** Call `i` got a sound answer in the sequential execution. */
  ghost predicate SoundAt(c: Crypto, rows: seq<Row>, callers: seq<Caller>, i: nat)
    requires i < |callers|
  {
    var base := Replay(c, rows, callers, i);
    Sound(base, callers[i].call, Apply(c, base, callers[i].call).outcome)
  }

  lemma {:induction false} OneMoreCall(c: Crypto, rows: seq<Row>, callers: seq<Caller>, n: nat, before: seq<Columns>)
    requires c.Faithful() && 0 < n <= |callers| && Temporary(callers[n - 1].call)
    requires before == ContentRun(Contents(rows), callers, n - 1)
    requires Replay(c, rows, callers, n - 1) == Rebuild(c, before)
    requires c.CollisionFreeOn(Preimages(c, before) + Preimages(c, ContentStep(before, callers[n - 1].call)))
    ensures Replay(c, rows, callers, n) == Rebuild(c, ContentRun(Contents(rows), callers, n))
    ensures SoundAt(c, rows, callers, n - 1)
  {
    RebuildIsCanonical(c, before);
    ApplyToUntampered(c, Rebuild(c, before), callers[n - 1].call);
  }

  lemma {:induction false} NextIsUntampered(c: Crypto, rows: seq<Row>, callers: seq<Caller>, i: nat)
    requires c.Faithful() && i < |callers| && Temporary(callers[i].call)
    requires CollisionFreeRun(c, Contents(rows), callers)
    requires Replay(c, rows, callers, i) == Rebuild(c, ContentRun(Contents(rows), callers, i))
    ensures Replay(c, rows, callers, i + 1) == Rebuild(c, ContentRun(Contents(rows), callers, i + 1))
    ensures SoundAt(c, rows, callers, i)
  {
    assert CollisionFreeAt(c, Contents(rows), callers, i);
    OneMoreCall(c, rows, callers, i + 1, ContentRun(Contents(rows), callers, i));
  }

  lemma {:induction false} StartIsUntampered(c: Crypto, rows: seq<Row>, callers: seq<Caller>)
    requires Canonical(c, rows)
    ensures Replay(c, rows, callers, 0) == Rebuild(c, ContentRun(Contents(rows), callers, 0))
  {
  }

  lemma {:induction false} RunIsUntampered(c: Crypto, rows: seq<Row>, callers: seq<Caller>, n: nat)
    requires c.Faithful() && Canonical(c, rows) && n <= |callers|
    requires forall i: nat :: i < |callers| ==> Temporary(callers[i].call)
    requires CollisionFreeRun(c, Contents(rows), callers)
    ensures Replay(c, rows, callers, n) == Rebuild(c, ContentRun(Contents(rows), callers, n))
  {
    StartIsUntampered(c, rows, callers);
    for i := 0 to n
      invariant Replay(c, rows, callers, i) == Rebuild(c, ContentRun(Contents(rows), callers, i))
    {
      NextIsUntampered(c, rows, callers, i);
    }
  }

  /** Caller `i` is done and its answer is the sound one for the table its call found. */
  ghost predicate AnsweredSoundly(c: Crypto, rows: seq<Row>, callers: seq<Caller>, i: nat)
    requires i < |callers|
  {
    callers[i].pc.Done? && Sound(Replay(c, rows, callers, i), callers[i].call, callers[i].pc.outcome)
  }

  lemma {:induction false} AnswerIsSound(c: Crypto, rows: seq<Row>, callers: seq<Caller>, i: nat)
    requires c.Faithful() && Canonical(c, rows) && i < |callers|
    requires forall j: nat :: j < |callers| ==> Temporary(callers[j].call)
    requires CollisionFreeRun(c, Contents(rows), callers)
    requires callers[i].pc == Done(Apply(c, Replay(c, rows, callers, i), callers[i].call).outcome)
    ensures AnsweredSoundly(c, rows, callers, i)
  {
    RunIsUntampered(c, rows, callers, i);
    NextIsUntampered(c, rows, callers, i);
  }

  /** A run that starts from an untampered ledger: in every reachable state in which nobody holds the
    mutex the table equals one rebuild, from genesis, of what the calls answered so far have written;
    no call ever fails part-way; and every `verifyChain` that has returned answered "verified". The
    alternative is a collision among the texts hashed before and after some call. */
  lemma {:induction false} UntamperedRuns(c: Crypto, rows: seq<Row>, events: seq<LedgerEvent>) returns (h: nat)
    requires c.Faithful() && Table(rows) && Canonical(c, rows)
    requires var s := RunSystem(c, Start(rows), events);
             && (forall i: nat :: i < |s.callers| ==> Temporary(s.callers[i].call))
             && CollisionFreeRun(c, Contents(rows), s.callers)
    ensures var s := RunSystem(c, Start(rows), events);
            && h <= |s.callers|
            && (forall i: nat :: i < |s.callers| ==> (s.callers[i].pc.Done? <==> i < h))
            && (forall i: nat :: i < h ==> AnsweredSoundly(c, rows, s.callers, i))
            && (LockFree(s) ==> s.rows == Rebuild(c, ContentRun(Contents(rows), s.callers, h)))
  {
    var s := RunSystem(c, Start(rows), events);
    h := QuiescentLedger(c, rows, events);
    RunIsUntampered(c, rows, s.callers, h);
    forall i: nat | i < h
      ensures AnsweredSoundly(c, rows, s.callers, i)
    {
      AnswerIsSound(c, rows, s.callers, i);
    }
  }
}
