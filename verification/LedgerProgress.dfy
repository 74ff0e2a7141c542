/** The lock never blocks the ledger for good: the first caller without an answer can always move, and when it
  does, it comes closer to its answer. */
module LedgerProgress {
  import opened Types
  import opened Ledger
  import opened LedgerOperations
  import opened LedgerConcurrency

  /** Three database calls at most for each record from `i` on. */
  function RoundsLeft(records: seq<Row>, i: nat): nat {
    if i < |records| then 3 * (|records| - i) else 0
  }

  /** A bound on the transitions a caller still has to make, in a table of `n` rows. */
  function Work(pc: Pc, n: nat): nat {
    match pc
    case Waiting(_) => 3 * n + 20
    case FindLatest => 6
    case Create(_) => 5
    case Reload(_, _) => 4
    case SetHash(_, _, _) => 3
    case LinkLatest(_, _) => 2
    case FindTarget => 3 * n + 12
    case WriteTarget(_) => 3 * n + 11
    case LoadSuffix(_) => 3 * n + 10
    case LoadPrevious(_, records) => RoundsLeft(records, 0) + 9
    case WriteLink(_, records, i, _) => RoundsLeft(records, i) + 8
    case SeekPrevious(_, records, i, _, _) => RoundsLeft(records, i) + 7
    case LinkPrior(_, records, i, _, _) => RoundsLeft(records, i) + 6
    case LoadFinal(_) => 2
    case LoadChain => 2
    case Releasing(_) => 1
    case Done(_) => 0
  }

  function WorkOf(s: System, h: nat): nat {
    if h < |s.callers| then Work(s.callers[h].pc, |s.rows|) else 0
  }

  /** The place belongs to the call, and there is a database call to make. */
  predicate InCall(call: Call, pc: Pc) {
    match call
    case RecordCall(_, _) => pc.FindLatest? || pc.Create? || pc.Reload? || pc.SetHash? || pc.LinkLatest?
    case RewriteCall(_, _) =>
      || pc.FindTarget? || pc.WriteTarget? || pc.LoadSuffix? || pc.LoadPrevious? || pc.WriteLink?
      || pc.SeekPrevious? || pc.LinkPrior? || pc.LoadFinal?
    case VerifyCall => pc.LoadChain?
  }

  lemma {:induction false} RoundWorks(id: nat, records: seq<Row>, i: nat, lastHash: Option<string>, n: nat)
    ensures Work(Round(id, records, i + 1, lastHash), n) < RoundsLeft(records, i) + 6
  {
  }

  lemma {:induction false} RewriteStepWorks(c: Crypto, rows: seq<Row>, call: Call, pc: Pc)
    requires call.RewriteCall? && InCall(call, pc)
    ensures var p := RewriteStep(c, rows, call, pc); Work(p.pc, |p.rows|) < Work(pc, |rows|)
  {
    if pc.WriteLink? && pc.i < |pc.records| {
      var newHash := CalculateSHA256(c, pc.lastHash, pc.records[pc.i].data.Hashed(), pc.records[pc.i].chainIndex);
      RoundWorks(pc.id, pc.records, pc.i, Some(newHash), |rows|);
    } else if pc.SeekPrevious? || pc.LinkPrior? {
      RoundWorks(pc.id, pc.records, pc.i, Some(pc.newHash), |rows|);
    }
  }

  lemma {:induction false} RecordStepWorks(c: Crypto, rows: seq<Row>, call: Call, pc: Pc)
    requires call.RecordCall? && InCall(call, pc)
    ensures var p := RecordStep(c, rows, call, pc); Work(p.pc, |p.rows|) < Work(pc, |rows|)
  {
  }

  lemma {:induction false} MidInCall(c: Crypto, base: seq<Row>, call: Call, pc: Pc, rows: seq<Row>)
    requires Mid(c, base, call, pc, rows) && !pc.Waiting? && !pc.Releasing?
    ensures InCall(call, pc)
  {
  }

  lemma {:induction false} DbStepWorks(c: Crypto, call: Call, pc: Pc, rows: seq<Row>)
    requires InCall(call, pc)
    ensures var p := DbStep(c, rows, call, pc); Work(p.pc, |p.rows|) < Work(pc, |rows|)
  {
    match call
    case RecordCall(_, _) => RecordStepWorks(c, rows, call, pc);
    case RewriteCall(_, _) => RewriteStepWorks(c, rows, call, pc);
    case VerifyCall =>
  }

  lemma {:induction false} HolderMoves(c: Crypto, rows: seq<Row>, s: System, h: nat)
    requires SystemInv(c, rows, s, h) && h < |s.callers|
    requires !s.callers[h].pc.Waiting? && !s.callers[h].pc.Releasing?
    ensures var p := DbStep(c, s.rows, s.callers[h].call, s.callers[h].pc); Work(p.pc, |p.rows|) < WorkOf(s, h)
  {
    MidInCall(c, Replay(c, rows, s.callers, h), s.callers[h].call, s.callers[h].pc, s.rows);
    DbStepWorks(c, s.callers[h].call, s.callers[h].pc, s.rows);
  }

  lemma {:induction false} LockGranted(c: Crypto, rows: seq<Row>, s: System, h: nat)
    requires SystemInv(c, rows, s, h) && h < |s.callers|
    ensures !s.callers[h].pc.Done? && s.callers[h].ticket < |s.settled|
    ensures s.callers[h].pc.Waiting? ==> s.callers[h].pc.awaited < |s.settled| && s.settled[s.callers[h].pc.awaited]
  {
    assert CallerInv(c, rows, s.callers, h, h);
  }

  /** The first caller without an answer is never kept waiting. */
  lemma {:induction false} FirstCallerMoves(c: Crypto, rows: seq<Row>, s: System, h: nat)
    requires SystemInv(c, rows, s, h) && h < |s.callers|
    ensures var t := Next(c, s, Advance(h)); |t.callers| == |s.callers| && WorkOf(t, h) < WorkOf(s, h)
  {
    LockGranted(c, rows, s, h);
    if !s.callers[h].pc.Waiting? && !s.callers[h].pc.Releasing? {
      HolderMoves(c, rows, s, h);
    }
    NextWorks(c, s, h);
  }

  lemma {:induction false} NextWorks(c: Crypto, s: System, h: nat)
    requires h < |s.callers| && !s.callers[h].pc.Done? && s.callers[h].ticket < |s.settled|
    requires s.callers[h].pc.Waiting? ==> s.callers[h].pc.awaited < |s.settled| && s.settled[s.callers[h].pc.awaited]
    requires !s.callers[h].pc.Waiting? && !s.callers[h].pc.Releasing? ==>
               var p := DbStep(c, s.rows, s.callers[h].call, s.callers[h].pc); Work(p.pc, |p.rows|) < WorkOf(s, h)
    ensures var t := Next(c, s, Advance(h)); |t.callers| == |s.callers| && WorkOf(t, h) < WorkOf(s, h)
  {
    if s.callers[h].pc.Waiting? {
      assert Work(Granted(s.callers[h].call), |s.rows|) < WorkOf(s, h);
    }
  }

  /** In every reachable state the first caller without an answer can move, and comes closer to it; nobody else
    can move. */
  lemma {:induction false} NoDeadlock(c: Crypto, rows: seq<Row>, events: seq<LedgerEvent>) returns (h: nat)
    requires Table(rows)
    ensures var s := RunSystem(c, Start(rows), events);
            && h <= |s.callers| && (forall i: nat :: i < |s.callers| ==> (s.callers[i].pc.Done? <==> i < h))
            && (forall i: nat :: i != h ==> Next(c, s, Advance(i)) == s)
            && (h < |s.callers| ==>
                  var t := Next(c, s, Advance(h));
                  |t.callers| == |s.callers| && WorkOf(t, h) < WorkOf(s, h))
  {
    var s := RunSystem(c, Start(rows), events);
    h := EveryRunIsSequential(c, rows, events);
    forall i: nat | i < |s.callers|
      ensures s.callers[i].pc.Done? <==> i < h
    {
      assert CallerInv(c, rows, s.callers, h, i);
    }
    forall i: nat | i != h
      ensures Next(c, s, Advance(i)) == s
    {
      OthersStay(c, rows, s, h, i);
    }
    if h < |s.callers| {
      FirstCallerMoves(c, rows, s, h);
    }
  }

  predicate OnlyAdvances(events: seq<LedgerEvent>) {
    forall k :: 0 <= k < |events| ==> events[k].Advance?
  }

  /** What is left when everybody has been answered: the sequential ledger and its answers. */
  ghost predicate AllAnswered(c: Crypto, rows: seq<Row>, s: System) {
    && s.rows == Replay(c, rows, s.callers, |s.callers|)
    && forall i: nat :: i < |s.callers| ==> Answered(c, rows, s, i)
  }

  ghost predicate Answered(c: Crypto, rows: seq<Row>, s: System, i: nat)
    requires i < |s.callers|
  {
    s.callers[i].pc == Done(Apply(c, Replay(c, rows, s.callers, i), s.callers[i].call).outcome)
  }

  lemma {:induction false} RunExtends(c: Crypto, s: System, events: seq<LedgerEvent>, e: LedgerEvent)
    ensures RunSystem(c, s, events + [e]) == Next(c, RunSystem(c, s, events), e)
  {
    assert (events + [e])[..|events|] == events;
  }

  lemma {:induction false} NobodyLeft(c: Crypto, rows: seq<Row>, s: System)
    requires SystemInv(c, rows, s, |s.callers|)
    ensures AllAnswered(c, rows, s)
  {
    forall i: nat | i < |s.callers|
      ensures Answered(c, rows, s, i)
    {
      assert CallerInv(c, rows, s.callers, |s.callers|, i);
    }
  }

  /** Whoever is next moves; the number of callers left goes down, or the work of the first one does. */
  lemma {:induction false} OneCloser(c: Crypto, rows: seq<Row>, s: System, h: nat) returns (h': nat)
    requires SystemInv(c, rows, s, h) && h < |s.callers|
    ensures var t := Next(c, s, Advance(h));
            && SystemInv(c, rows, t, h') && |t.callers| == |s.callers| && h <= h' <= |s.callers|
            && (h' == h ==> WorkOf(t, h') < WorkOf(s, h))
  {
    FirstCallerMoves(c, rows, s, h);
    h' := AdvanceInv(c, rows, s, h, h);
  }

  lemma {:induction false} Prepended(events: seq<LedgerEvent>, h: nat, rest: seq<LedgerEvent>)
    requires OnlyAdvances(rest)
    ensures events + ([Advance(h)] + rest) == events + [Advance(h)] + rest && OnlyAdvances([Advance(h)] + rest)
  {
  }

  lemma {:induction false} AnswerAll(c: Crypto, rows: seq<Row>, events: seq<LedgerEvent>, s: System, h: nat)
    returns (more: seq<LedgerEvent>)
    requires s == RunSystem(c, Start(rows), events) && SystemInv(c, rows, s, h) && h <= |s.callers|
    ensures OnlyAdvances(more)
    ensures var t := RunSystem(c, Start(rows), events + more);
            |t.callers| == |s.callers| && AllAnswered(c, rows, t)
    decreases |s.callers| - h, WorkOf(s, h)
  {
    if h == |s.callers| {
      more := [];
      assert events + more == events;
      NobodyLeft(c, rows, s);
    } else {
      var e := Advance(h);
      var h' := OneCloser(c, rows, s, h);
      RunExtends(c, Start(rows), events, e);
      var rest := AnswerAll(c, rows, events + [e], Next(c, s, e), h');
      more := [e] + rest;
      Prepended(events, h, rest);
    }
  }

  /** From every reachable state, steps of the callers alone lead to one in which every call has been answered, as
    if the calls had been made one after another in the order of their arrival. */
  lemma {:induction false} EveryCallIsAnswered(c: Crypto, rows: seq<Row>, events: seq<LedgerEvent>)
    returns (more: seq<LedgerEvent>)
    requires Table(rows)
    ensures OnlyAdvances(more)
    ensures var t := RunSystem(c, Start(rows), events + more);
            |t.callers| == |RunSystem(c, Start(rows), events).callers| && AllAnswered(c, rows, t)
  {
    var h := EveryRunIsSequential(c, rows, events);
    more := AnswerAll(c, rows, events, RunSystem(c, Start(rows), events), h);
  }
}
