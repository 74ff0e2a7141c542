/** Concurrent calls on the ledger, interleaved at single database calls, under the promise mutex.

  `acquire` is two transitions: entering it replaces the mutex's promise, and the `await` returns once
  the promise that was found there has settled. Everything between two database calls runs
  undisturbed. */
module LedgerConcurrency {
  import opened Types
  import opened Ledger
  import opened LedgerProperties
  import opened LedgerOperations

  datatype Pc =
    | Waiting(awaited: nat)
    | FindLatest
    | Create(latest: Option<Row>)
    | Reload(latest: Option<Row>, id: nat)
    | SetHash(latest: Option<Row>, id: nat, current: Row)
    | LinkLatest(id: nat, updatedRecord: Row)
    | FindTarget
    | WriteTarget(id: nat)
    | LoadSuffix(id: nat)
    | LoadPrevious(id: nat, records: seq<Row>)
    | WriteLink(id: nat, records: seq<Row>, i: nat, lastHash: Option<string>)
    | SeekPrevious(id: nat, records: seq<Row>, i: nat, sought: string, newHash: string)
    | LinkPrior(id: nat, records: seq<Row>, i: nat, newHash: string, prior: nat)
    | LoadFinal(id: nat)
    | LoadChain
    | Releasing(outcome: Outcome)
    | Done(outcome: Outcome)

  datatype Caller = Caller(call: Call, ticket: nat, pc: Pc)

  /** `settled[p]` says whether promise `p` has been resolved; `promise` is the mutex's field. */
  datatype System = System(rows: seq<Row>, settled: seq<bool>, promise: nat, callers: seq<Caller>)

  datatype LedgerEvent = Arrive(call: Call) | Advance(caller: nat)

  // ---------------------------------------------------------------- transitions

  function Granted(call: Call): Pc {
    match call
    case RecordCall(_, _) => FindLatest
    case RewriteCall(_, _) => FindTarget
    case VerifyCall => LoadChain
  }

  datatype Progress = Progress(rows: seq<Row>, pc: Pc)

  function IndexAfter(latest: Option<Row>): int {
    if latest.Some? then latest.value.chainIndex + 1 else 0
  }

  function HashOf(latest: Option<Row>): Option<string> {
    if latest.Some? then Some(latest.value.hash) else None
  }

  function RecordStep(c: Crypto, rows: seq<Row>, call: Call, pc: Pc): Progress
    requires call.RecordCall?
  {
    if pc.FindLatest? then
      Progress(rows, Create(if rows == [] then None else Some(rows[|rows| - 1])))
    else if pc.Create? then
      if FindRequest(rows, call.data.requestId).Some? || FindHash(rows, call.tempHash).Some? then
        Progress(rows, Releasing(DuplicateRow))
      else
        Progress(rows + [Row(call.data, IndexAfter(pc.latest), HashOf(pc.latest), call.tempHash, None)],
                 Reload(pc.latest, |rows|))
    else if pc.Reload? then
      if pc.id < |rows| then Progress(rows, SetHash(pc.latest, pc.id, rows[pc.id]))
      else Progress(rows, Releasing(NotFound))
    else if pc.SetHash? then
      var hash := CalculateSHA256(c, HashOf(pc.latest), pc.current.data.Hashed(), IndexAfter(pc.latest));
      if pc.id < |rows| && HashFree(rows, pc.id, hash) then
        var t := rows[pc.id := rows[pc.id].(hash := hash)];
        Progress(t, if pc.latest.Some? then LinkLatest(pc.id, t[pc.id]) else Releasing(Recorded(t[pc.id])))
      else Progress(rows, Releasing(UniqueViolation))
    else if pc.LinkLatest? then
      if 0 < pc.id <= |rows| then
        Progress(rows[pc.id - 1 := rows[pc.id - 1].(nextHash := Some(pc.updatedRecord.hash))],
                 Releasing(Recorded(pc.updatedRecord)))
      else Progress(rows, Releasing(NotFound))
    else Progress(rows, pc)
  }

  /** Top of the loop body: the loop is left when every loaded record has been written. */
  function Round(id: nat, records: seq<Row>, i: nat, lastHash: Option<string>): Pc {
    if i < |records| then WriteLink(id, records, i, lastHash) else LoadFinal(id)
  }

  /** The hash of one record is computed and stored; without a previous hash there is no link to write. */
  function WriteLinkStep(c: Crypto, rows: seq<Row>, id: nat, records: seq<Row>, i: nat,
                         lastHash: Option<string>): Progress
    requires i < |records|
  {
    var newHash := CalculateSHA256(c, lastHash, records[i].data.Hashed(), records[i].chainIndex);
    if id + i < |rows| && HashFree(rows, id + i, newHash) then
      Progress(rows[id + i := rows[id + i].(previousHash := lastHash, hash := newHash)],
               if lastHash.Some? then SeekPrevious(id, records, i, lastHash.value, newHash)
               else Round(id, records, i + 1, Some(newHash)))
    else Progress(rows, Releasing(UniqueViolation))
  }

  function SeekPreviousStep(rows: seq<Row>, id: nat, records: seq<Row>, i: nat, sought: string,
                            newHash: string): Progress {
    var prev := FindHash(rows, sought);
    Progress(rows, if prev.Some? then LinkPrior(id, records, i, newHash, prev.value)
                   else Round(id, records, i + 1, Some(newHash)))
  }

  function LinkPriorStep(rows: seq<Row>, id: nat, records: seq<Row>, i: nat, newHash: string, prior: nat): Progress {
    Progress(if prior < |rows| then rows[prior := rows[prior].(nextHash := Some(newHash))] else rows,
             Round(id, records, i + 1, Some(newHash)))
  }

  function RewriteStep(c: Crypto, rows: seq<Row>, call: Call, pc: Pc): Progress
    requires call.RewriteCall?
  {
    if pc.FindTarget? then
      var found := FindRequest(rows, call.requestId);
      Progress(rows, if found.None? then Releasing(NotFound) else WriteTarget(found.value))
    else if pc.WriteTarget? then
      if pc.id < |rows| then Progress(EditRow(rows, pc.id, call.edit), LoadSuffix(pc.id))
      else Progress(rows, Releasing(NotFound))
    else if pc.LoadSuffix? then
      Progress(rows, LoadPrevious(pc.id, if pc.id <= |rows| then rows[pc.id..] else []))
    else if pc.LoadPrevious? then
      Progress(rows, Round(pc.id, pc.records, 0, if pc.id < |rows| then StartHash(rows, pc.id) else None))
    else if pc.WriteLink? then
      if pc.i < |pc.records| then WriteLinkStep(c, rows, pc.id, pc.records, pc.i, pc.lastHash)
      else Progress(rows, LoadFinal(pc.id))
    else if pc.SeekPrevious? then SeekPreviousStep(rows, pc.id, pc.records, pc.i, pc.sought, pc.newHash)
    else if pc.LinkPrior? then LinkPriorStep(rows, pc.id, pc.records, pc.i, pc.newHash, pc.prior)
    else if pc.LoadFinal? then
      Progress(rows, Releasing(if pc.id < |rows| then Rewrote(rows[pc.id]) else NotFound))
    else Progress(rows, pc)
  }

  function VerifyStep(c: Crypto, rows: seq<Row>, pc: Pc): Progress {
    if pc.LoadChain? then Progress(rows, Releasing(Checked(Verify(c, rows)))) else Progress(rows, pc)
  }

  /** One database call of one caller, and the code up to its next one. */
  function DbStep(c: Crypto, rows: seq<Row>, call: Call, pc: Pc): Progress {
    match call
    case RecordCall(_, _) => RecordStep(c, rows, call, pc)
    case RewriteCall(_, _) => RewriteStep(c, rows, call, pc)
    case VerifyCall => VerifyStep(c, rows, pc)
  }

  function Next(c: Crypto, s: System, e: LedgerEvent): System {
    match e
    case Arrive(call) =>
      // nextPromise is created unresolved, the field is replaced, the old promise is awaited
      System(s.rows, s.settled + [false], |s.settled|,
             s.callers + [Caller(call, |s.settled|, Waiting(s.promise))])
    case Advance(i) =>
      if i >= |s.callers| then s
      else
        var me := s.callers[i];
        if me.pc.Waiting? then
          if me.pc.awaited < |s.settled| && s.settled[me.pc.awaited]
          then s.(callers := s.callers[i := me.(pc := Granted(me.call))])
          else s
        else if me.pc.Releasing? then
          if me.ticket < |s.settled|
          then s.(settled := s.settled[me.ticket := true],
                  callers := s.callers[i := me.(pc := Done(me.pc.outcome))])
          else s
        else if me.pc.Done? then s
        else
          var p := DbStep(c, s.rows, me.call, me.pc);
          s.(rows := p.rows, callers := s.callers[i := me.(pc := p.pc)])
  }

  function Start(rows: seq<Row>): System {
    System(rows, [true], 0, [])
  }

  function RunSystem(c: Crypto, s: System, events: seq<LedgerEvent>): System {
    if events == [] then s else Next(c, RunSystem(c, s, events[..|events| - 1]), events[|events| - 1])
  }

  // ---------------------------------------------------------------- the sequential ledger

  function Calls(callers: seq<Caller>): (calls: seq<Call>)
    ensures |calls| == |callers|
    ensures forall i: nat {:trigger calls[i]} :: i < |callers| ==> calls[i] == callers[i].call
  {
    if callers == [] then [] else Calls(callers[..|callers| - 1]) + [callers[|callers| - 1].call]
  }

  /** The table after the first `n` callers have run one after another, in the order they arrived. */
  ghost function Replay(c: Crypto, rows: seq<Row>, callers: seq<Caller>, n: nat): seq<Row>
    requires n <= |callers|
  {
    if n == 0 then rows else Apply(c, Replay(c, rows, callers, n - 1), callers[n - 1].call).rows
  }

  // ---------------------------------------------------------------- invariant

  /** What the table looks like while a call that found `base` is at `pc`. */
  ghost predicate MidRecord(c: Crypto, base: seq<Row>, call: Call, pc: Pc, rows: seq<Row>)
    requires call.RecordCall?
  {
    var unused := FindRequest(base, call.data.requestId).None? && FindHash(base, call.tempHash).None?;
    var temporary := TemporaryRow(base, call.data, call.tempHash);
    var latest := if base == [] then None else Some(base[|base| - 1]);
    if pc.FindLatest? then rows == base
    else if pc.Create? then rows == base && pc.latest == latest
    else if pc.Reload? then unused && rows == base + [temporary] && pc.latest == latest && pc.id == |base|
    else if pc.SetHash? then
      unused && rows == base + [temporary] && pc.latest == latest && pc.id == |base| && pc.current == temporary
    else if pc.LinkLatest? then
      && unused && base != [] && pc.id == |base|
      && HashFree(base, |base|, AppendedHash(c, base, call.data))
      && pc.updatedRecord == temporary.(hash := AppendedHash(c, base, call.data))
      && rows == base + [pc.updatedRecord]
    else pc.Releasing? && Effect(rows, pc.outcome) == Apply(c, base, call)
  }

  ghost predicate MidRewrite(c: Crypto, base: seq<Row>, call: Call, pc: Pc, rows: seq<Row>)
    requires call.RewriteCall?
  {
    if pc.FindTarget? then rows == base
    else if pc.Releasing? then Effect(rows, pc.outcome) == Apply(c, base, call)
    else
      match FindRequest(base, call.requestId)
      case None => false
      case Some(k) =>
        var edited := EditRow(base, k, call.edit);
        var start := StartHash(edited, k);
        InLoop(edited, k, start, LinkHashes(c, edited, k, start), pc, base, rows)
  }

  predicate SameRecord(records: seq<Row>, edited: seq<Row>, k: nat, i: nat)
    requires i < |records| && k + i < |edited|
  {
    records[i] == edited[k + i]
  }

  /** The records loaded are the rows from `k` on, as they stood then. */
  ghost predicate Suffix(records: seq<Row>, edited: seq<Row>, k: nat) {
    k + |records| == |edited| && forall i: nat :: i < |records| ==> SameRecord(records, edited, k, i)
  }

  ghost predicate InLoop(edited: seq<Row>, k: nat, start: Option<string>, links: seq<string>, pc: Pc,
                         base: seq<Row>, rows: seq<Row>)
    requires k < |edited| && k + |links| == |edited|
  {
    if pc.WriteTarget? then pc.id == k && rows == base
    else if pc.LoadSuffix? then pc.id == k && rows == edited
    else if pc.LoadPrevious? then pc.id == k && rows == edited && Suffix(pc.records, edited, k)
    else if pc.WriteLink? then
      && InRound(edited, k, start, links, pc)
      && pc.lastHash == LinkPrevious(k, start, links, k + pc.i)
      && rows == Staged(edited, k, start, links, k + pc.i, k + pc.i)
    else if pc.SeekPrevious? || pc.LinkPrior? then
      && InRound(edited, k, start, links, pc)
      && WriteFits(edited, k, start, links, k + pc.i) && pc.newHash == links[pc.i]
      && rows == Staged(edited, k, start, links, k + pc.i + 1, k + pc.i)
      && LinkPrevious(k, start, links, k + pc.i).Some?
      && (pc.SeekPrevious? ==> pc.sought == LinkPrevious(k, start, links, k + pc.i).value)
      && (pc.LinkPrior? ==> pc.prior + 1 == k + pc.i)
    else
      && pc.LoadFinal? && pc.id == k && FirstRefusal(edited, k, start, links, k) == |edited|
      && rows == Staged(edited, k, start, links, |edited|, |edited|)
  }

  ghost predicate InRound(edited: seq<Row>, k: nat, start: Option<string>, links: seq<string>, pc: Pc)
    requires k < |edited| && k + |links| == |edited| && (pc.WriteLink? || pc.SeekPrevious? || pc.LinkPrior?)
  {
    pc.id == k && Suffix(pc.records, edited, k) && pc.i < |pc.records| && AtRow(edited, k, start, links, k + pc.i)
  }

  /** No write before row `h` was refused. */
  ghost predicate AtRow(edited: seq<Row>, k: nat, start: Option<string>, links: seq<string>, h: nat)
    requires k + |links| == |edited| && k <= h <= |edited|
  {
    FirstRefusal(edited, k, start, links, h) == FirstRefusal(edited, k, start, links, k)
  }

  ghost predicate Mid(c: Crypto, base: seq<Row>, call: Call, pc: Pc, rows: seq<Row>) {
    if pc.Waiting? then rows == base
    else
      match call
      case RecordCall(_, _) => MidRecord(c, base, call, pc, rows)
      case RewriteCall(_, _) => MidRewrite(c, base, call, pc, rows)
      case VerifyCall =>
        rows == base && (pc.LoadChain? || (pc.Releasing? && pc.outcome == Apply(c, base, call).outcome))
  }

  lemma {:induction false} RecordStepMid(c: Crypto, base: seq<Row>, call: Call, pc: Pc, rows: seq<Row>)
    requires call.RecordCall? && !pc.Releasing? && MidRecord(c, base, call, pc, rows)
    ensures var p := RecordStep(c, rows, call, pc); MidRecord(c, base, call, p.pc, p.rows)
  {
    var n := |base|;
    if pc.SetHash? {
      var hash := AppendedHash(c, base, call.data);
      assert HashFree(rows, n, hash) <==> HashFree(base, n, hash) by {
        assert forall j :: 0 <= j < n ==> rows[j] == base[j];
      }
      var t := rows[n := rows[n].(hash := hash)];
      if base == [] {
        assert t == Appended(c, base, call.data);
      } else {
        assert t == base + [pc.current.(hash := hash)];
      }
    } else if pc.LinkLatest? {
      assert RecordStep(c, rows, call, pc).rows == Appended(c, base, call.data);
    }
  }

  lemma {:induction false} RoundMid(edited: seq<Row>, k: nat, start: Option<string>, links: seq<string>,
                                    base: seq<Row>, records: seq<Row>, i: nat, lastHash: Option<string>, rows: seq<Row>)
    requires k < |edited| && k + |links| == |edited| && Suffix(records, edited, k) && i <= |records|
    requires AtRow(edited, k, start, links, k + i) && lastHash == LinkPrevious(k, start, links, k + i)
    requires rows == Staged(edited, k, start, links, k + i, k + i)
    ensures InLoop(edited, k, start, links, Round(k, records, i, lastHash), base, rows)
  {
  }

  /** The write of row `k + i`: refused exactly when it does not fit. */
  lemma {:induction false} WriteMid(c: Crypto, edited: seq<Row>, k: nat, start: Option<string>, links: seq<string>,
                                    base: seq<Row>, i: nat)
    requires Chained(c, edited, k, start, links) && k < |edited| && k + i < |edited|
    requires UniqueHashes(edited) && Ordered(edited) && start == StartHash(edited, k)
    requires AtRow(edited, k, start, links, k + i) && WriteFits(edited, k, start, links, k + i)
    ensures var h := k + i;
            var t := Staged(edited, k, start, links, h, h);
            var written := t[h := t[h].(previousHash := LinkPrevious(k, start, links, h), hash := links[i])];
            && written == Staged(edited, k, start, links, h + 1, h)
            && UniqueHashes(written)
            && AtRow(edited, k, start, links, h + 1)
            && (LinkPrevious(k, start, links, h).None? ==> written == Staged(edited, k, start, links, h + 1, h + 1))
  {
    var h := k + i;
    StageNothing(edited, k, start, links);
    DistinctSoFar(edited, k, start, links, k, h);
    FittingKeepsDistinct(edited, k, start, links, h);
    StageHash(edited, k, start, links, h);
    StartIsPredecessor(edited, k);
    if LinkPrevious(k, start, links, h).None? {
      StageLink(edited, k, start, links, h);
    }
  }

  /** What the write of row `h` does, when it is the turn of that row. */
  lemma {:induction false} WriteLinkMid(c: Crypto, base: seq<Row>, records: seq<Row>, i: nat, rows: seq<Row>,
                                        edited: seq<Row>, k: nat, start: Option<string>, links: seq<string>)
    requires Chained(c, edited, k, start, links) && k < |edited| && Suffix(records, edited, k) && i < |records|
    requires UniqueHashes(edited) && Ordered(edited) && start == StartHash(edited, k)
    requires AtRow(edited, k, start, links, k + i) && rows == Staged(edited, k, start, links, k + i, k + i)
    ensures var previous := LinkPrevious(k, start, links, k + i);
            WriteLinkStep(c, rows, k, records, i, previous)
            == if !WriteFits(edited, k, start, links, k + i) then Progress(rows, Releasing(UniqueViolation))
               else Progress(Staged(edited, k, start, links, k + i + 1, k + i),
                             if previous.Some? then SeekPrevious(k, records, i, previous.value, links[i])
                             else Round(k, records, i + 1, Some(links[i])))
  {
    assert ChainedAt(c, edited, k, start, links, k + i);
    assert SameRecord(records, edited, k, i);
    if WriteFits(edited, k, start, links, k + i) {
      WriteMid(c, edited, k, start, links, base, i);
    }
  }

  lemma {:induction false} WrittenMid(edited: seq<Row>, k: nat, start: Option<string>, links: seq<string>,
                                      base: seq<Row>, records: seq<Row>, h: nat, p: Progress)
    requires k + |links| == |edited| && k <= h < |edited| && Suffix(records, edited, k)
    requires AtRow(edited, k, start, links, h) && WriteFits(edited, k, start, links, h)
    requires p.rows == Staged(edited, k, start, links, h + 1, h)
    requires var previous := LinkPrevious(k, start, links, h);
             if previous.Some? then p.pc == SeekPrevious(k, records, h - k, previous.value, links[h - k])
             else p.rows == Staged(edited, k, start, links, h + 1, h + 1)
                  && p.pc == Round(k, records, h - k + 1, Some(links[h - k]))
    ensures InLoop(edited, k, start, links, p.pc, base, p.rows)
  {
    if LinkPrevious(k, start, links, h).None? {
      RoundMid(edited, k, start, links, base, records, h - k + 1, Some(links[h - k]), p.rows);
    }
  }

  /** After the write of row `h`: on to its predecessor, or the loop stops at the first refused write. */
  lemma {:induction false} WriteStepMid(c: Crypto, base: seq<Row>, records: seq<Row>, i: nat, rows: seq<Row>,
                                        edited: seq<Row>, k: nat, start: Option<string>, links: seq<string>,
                                            p: Progress)
    requires Chained(c, edited, k, start, links) && k < |edited| && Suffix(records, edited, k) && i < |records|
    requires UniqueHashes(edited) && Ordered(edited) && start == StartHash(edited, k)
    requires AtRow(edited, k, start, links, k + i) && rows == Staged(edited, k, start, links, k + i, k + i)
    requires p == WriteLinkStep(c, rows, k, records, i, LinkPrevious(k, start, links, k + i))
    ensures if WriteFits(edited, k, start, links, k + i)
            then InLoop(edited, k, start, links, p.pc, base, p.rows)
            else p == Progress(rows, Releasing(UniqueViolation)) && rows == Recalculated(edited, k, start, links)
                 && FirstRefusal(edited, k, start, links, k) < |edited|
  {
    WriteLinkMid(c, base, records, i, rows, edited, k, start, links);
    if WriteFits(edited, k, start, links, k + i) {
      WriteMid(c, edited, k, start, links, base, i);
      WrittenMid(edited, k, start, links, base, records, k + i, p);
    }
  }

  /** Seeking the predecessor of row `h` finds row `h - 1`. */
  lemma {:induction false} SeekMid(c: Crypto, edited: seq<Row>, k: nat, start: Option<string>, links: seq<string>,
                                   base: seq<Row>, h: nat)
    requires Chained(c, edited, k, start, links) && k <= h < |edited|
    requires UniqueHashes(edited) && Ordered(edited) && start == StartHash(edited, k)
    requires AtRow(edited, k, start, links, h) && WriteFits(edited, k, start, links, h)
    requires LinkPrevious(k, start, links, h).Some?
    ensures h > 0 && AtRow(edited, k, start, links, h + 1)
    ensures FindHash(Staged(edited, k, start, links, h + 1, h), LinkPrevious(k, start, links, h).value) == Some(h - 1)
  {
    WriteMid(c, edited, k, start, links, base, h - k);
    PredecessorFound(edited, k, start, links, h);
  }

  /** Linking that row completes the round. */
  lemma {:induction false} LinkMid(edited: seq<Row>, k: nat, start: Option<string>, links: seq<string>,
                                   records: seq<Row>, h: nat, newHash: string)
    requires k + |links| == |edited| && k <= h < |edited| && h > 0 && newHash == links[h - k]
    requires LinkPrevious(k, start, links, h).Some?
    ensures LinkPriorStep(Staged(edited, k, start, links, h + 1, h), k, records, h - k, newHash, h - 1)
            == Progress(Staged(edited, k, start, links, h + 1, h + 1), Round(k, records, h - k + 1, Some(newHash)))
  {
    StageLink(edited, k, start, links, h);
  }

  lemma {:induction false} SoughtIsFound(c: Crypto, base: seq<Row>, pc: Pc, rows: seq<Row>,
                                         edited: seq<Row>, k: nat, start: Option<string>, links: seq<string>)
    requires pc.SeekPrevious? && Chained(c, edited, k, start, links) && k < |edited|
    requires UniqueHashes(edited) && Ordered(edited) && start == StartHash(edited, k)
    requires InLoop(edited, k, start, links, pc, base, rows)
    ensures k + pc.i > 0 && FindHash(rows, pc.sought) == Some(k + pc.i - 1)
  {
    SeekMid(c, edited, k, start, links, base, k + pc.i);
  }

  lemma {:induction false} SeekStepMid(c: Crypto, base: seq<Row>, pc: Pc, rows: seq<Row>,
                                       edited: seq<Row>, k: nat, start: Option<string>, links: seq<string>)
    requires pc.SeekPrevious? && Chained(c, edited, k, start, links) && k < |edited|
    requires UniqueHashes(edited) && Ordered(edited) && start == StartHash(edited, k)
    requires InLoop(edited, k, start, links, pc, base, rows)
    ensures var p := SeekPreviousStep(rows, pc.id, pc.records, pc.i, pc.sought, pc.newHash);
            InLoop(edited, k, start, links, p.pc, base, p.rows)
  {
    SoughtIsFound(c, base, pc, rows, edited, k, start, links);
    PriorFound(edited, k, start, links, pc, base, rows, k + pc.i - 1);
  }

  lemma {:induction false} PriorFound(edited: seq<Row>, k: nat, start: Option<string>, links: seq<string>, pc: Pc,
                                      base: seq<Row>, rows: seq<Row>, prior: nat)
    requires pc.SeekPrevious? && k < |edited| && k + |links| == |edited|
    requires InLoop(edited, k, start, links, pc, base, rows) && prior + 1 == k + pc.i
    ensures InLoop(edited, k, start, links, LinkPrior(pc.id, pc.records, pc.i, pc.newHash, prior), base, rows)
  {
  }

  lemma {:induction false} LinkIsWritten(c: Crypto, base: seq<Row>, pc: Pc, rows: seq<Row>,
                                         edited: seq<Row>, k: nat, start: Option<string>, links: seq<string>)
    requires pc.LinkPrior? && Chained(c, edited, k, start, links) && k < |edited|
    requires UniqueHashes(edited) && Ordered(edited) && start == StartHash(edited, k)
    requires InLoop(edited, k, start, links, pc, base, rows)
    ensures k + pc.i + 1 <= |edited| && AtRow(edited, k, start, links, k + pc.i + 1)
    ensures LinkPriorStep(rows, pc.id, pc.records, pc.i, pc.newHash, pc.prior)
            == Progress(Staged(edited, k, start, links, k + pc.i + 1, k + pc.i + 1),
                        Round(k, pc.records, pc.i + 1, Some(pc.newHash)))
  {
    SeekMid(c, edited, k, start, links, base, k + pc.i);
    LinkMid(edited, k, start, links, pc.records, k + pc.i, pc.newHash);
  }

  lemma {:induction false} LinkStepMid(c: Crypto, base: seq<Row>, pc: Pc, rows: seq<Row>,
                                       edited: seq<Row>, k: nat, start: Option<string>, links: seq<string>)
    requires pc.LinkPrior? && Chained(c, edited, k, start, links) && k < |edited|
    requires UniqueHashes(edited) && Ordered(edited) && start == StartHash(edited, k)
    requires InLoop(edited, k, start, links, pc, base, rows)
    ensures var p := LinkPriorStep(rows, pc.id, pc.records, pc.i, pc.newHash, pc.prior);
            InLoop(edited, k, start, links, p.pc, base, p.rows)
  {
    LinkIsWritten(c, base, pc, rows, edited, k, start, links);
    RoundMid(edited, k, start, links, base, pc.records, pc.i + 1, Some(pc.newHash),
             Staged(edited, k, start, links, k + pc.i + 1, k + pc.i + 1));
  }

  /** The loop has ended: by its last round, or at a refused write. */
  ghost predicate LoopEnd(edited: seq<Row>, k: nat, start: Option<string>, links: seq<string>, p: Progress)
    requires k < |edited| && k + |links| == |edited|
  {
    && p.rows == Recalculated(edited, k, start, links)
    && p.pc == Releasing(if FirstRefusal(edited, k, start, links, k) == |edited| then Rewrote(p.rows[k])
                         else UniqueViolation)
  }

  lemma {:induction false} AroundLoopStep(c: Crypto, base: seq<Row>, call: Call, pc: Pc, rows: seq<Row>, p: Progress,
                                          edited: seq<Row>, k: nat, start: Option<string>, links: seq<string>)
    requires call.RewriteCall? && k < |edited| && k + |links| == |edited| && start == StartHash(edited, k)
    requires |base| == |edited| && edited == EditRow(base, k, call.edit)
    requires InLoop(edited, k, start, links, pc, base, rows) && p == RewriteStep(c, rows, call, pc)
    requires !pc.WriteLink? && !pc.SeekPrevious? && !pc.LinkPrior?
    ensures InLoop(edited, k, start, links, p.pc, base, p.rows) || LoopEnd(edited, k, start, links, p)
  {
    if pc.LoadPrevious? {
      StageNothing(edited, k, start, links);
      RoundMid(edited, k, start, links, base, pc.records, 0, start, rows);
    }
  }

  lemma {:induction false} WriteIsDue(c: Crypto, base: seq<Row>, call: Call, pc: Pc, rows: seq<Row>,
                                        edited: seq<Row>, k: nat, start: Option<string>, links: seq<string>)
    requires call.RewriteCall? && k < |edited| && k + |links| == |edited| && pc.WriteLink?
    requires InLoop(edited, k, start, links, pc, base, rows)
    ensures Suffix(pc.records, edited, k) && pc.i < |pc.records| && AtRow(edited, k, start, links, k + pc.i)
    ensures rows == Staged(edited, k, start, links, k + pc.i, k + pc.i)
    ensures RewriteStep(c, rows, call, pc)
            == WriteLinkStep(c, rows, k, pc.records, pc.i, LinkPrevious(k, start, links, k + pc.i))
  {
  }

  lemma {:induction false} AtWrite(c: Crypto, base: seq<Row>, call: Call, pc: Pc, rows: seq<Row>, p: Progress,
                                   edited: seq<Row>, k: nat, start: Option<string>, links: seq<string>)
    requires call.RewriteCall? && Chained(c, edited, k, start, links) && k < |edited|
    requires UniqueHashes(edited) && Ordered(edited) && start == StartHash(edited, k)
    requires InLoop(edited, k, start, links, pc, base, rows) && p == RewriteStep(c, rows, call, pc)
    requires pc.WriteLink?
    ensures InLoop(edited, k, start, links, p.pc, base, p.rows) || LoopEnd(edited, k, start, links, p)
  {
    WriteIsDue(c, base, call, pc, rows, edited, k, start, links);
    WriteStepMid(c, base, pc.records, pc.i, rows, edited, k, start, links, p);
  }

  lemma {:induction false} AtSeek(c: Crypto, base: seq<Row>, call: Call, pc: Pc, rows: seq<Row>, p: Progress,
                                  edited: seq<Row>, k: nat, start: Option<string>, links: seq<string>)
    requires call.RewriteCall? && Chained(c, edited, k, start, links) && k < |edited|
    requires UniqueHashes(edited) && Ordered(edited) && start == StartHash(edited, k)
    requires InLoop(edited, k, start, links, pc, base, rows) && p == RewriteStep(c, rows, call, pc)
    requires |base| == |edited| && pc.SeekPrevious?
    ensures InLoop(edited, k, start, links, p.pc, base, p.rows) || LoopEnd(edited, k, start, links, p)
  {
    SeekStepMid(c, base, pc, rows, edited, k, start, links);
  }

  lemma {:induction false} AtLink(c: Crypto, base: seq<Row>, call: Call, pc: Pc, rows: seq<Row>, p: Progress,
                                  edited: seq<Row>, k: nat, start: Option<string>, links: seq<string>)
    requires call.RewriteCall? && Chained(c, edited, k, start, links) && k < |edited|
    requires UniqueHashes(edited) && Ordered(edited) && start == StartHash(edited, k)
    requires InLoop(edited, k, start, links, pc, base, rows) && p == RewriteStep(c, rows, call, pc)
    requires |base| == |edited| && pc.LinkPrior?
    ensures InLoop(edited, k, start, links, p.pc, base, p.rows) || LoopEnd(edited, k, start, links, p)
  {
    LinkStepMid(c, base, pc, rows, edited, k, start, links);
  }

  lemma {:induction false} InLoopStep(c: Crypto, base: seq<Row>, call: Call, pc: Pc, rows: seq<Row>, p: Progress,
                                      edited: seq<Row>, k: nat, start: Option<string>, links: seq<string>)
    requires call.RewriteCall? && Chained(c, edited, k, start, links) && k < |edited|
    requires UniqueHashes(edited) && Ordered(edited) && start == StartHash(edited, k)
    requires |base| == |edited| && edited == EditRow(base, k, call.edit)
    requires InLoop(edited, k, start, links, pc, base, rows) && p == RewriteStep(c, rows, call, pc)
    ensures InLoop(edited, k, start, links, p.pc, base, p.rows) || LoopEnd(edited, k, start, links, p)
  {
    if pc.WriteLink? {
      AtWrite(c, base, call, pc, rows, p, edited, k, start, links);
    } else if pc.SeekPrevious? {
      AtSeek(c, base, call, pc, rows, p, edited, k, start, links);
    } else if pc.LinkPrior? {
      AtLink(c, base, call, pc, rows, p, edited, k, start, links);
    } else {
      AroundLoopStep(c, base, call, pc, rows, p, edited, k, start, links);
    }
  }

  lemma {:induction false} RewriteStepMid(c: Crypto, base: seq<Row>, call: Call, pc: Pc, rows: seq<Row>)
    requires call.RewriteCall? && !pc.Releasing? && MidRewrite(c, base, call, pc, rows) && Table(base)
    ensures var p := RewriteStep(c, rows, call, pc); MidRewrite(c, base, call, p.pc, p.rows)
  {
    if !pc.FindTarget? {
      var k := FindRequest(base, call.requestId).value;
      var edited := EditRow(base, k, call.edit);
      var start := StartHash(edited, k);
      EditKeepsChain(base, k, call.edit);
      LinkHashesChained(c, edited, k, start);
      InLoopStep(c, base, call, pc, rows, RewriteStep(c, rows, call, pc),
                 edited, k, start, LinkHashes(c, edited, k, start));
    }
  }

  lemma {:induction false} DbStepMid(c: Crypto, base: seq<Row>, call: Call, pc: Pc, rows: seq<Row>)
    requires Table(base) && Mid(c, base, call, pc, rows)
    requires !pc.Waiting? && !pc.Releasing?
    ensures var p := DbStep(c, rows, call, pc);
            Mid(c, base, call, p.pc, p.rows) && !p.pc.Waiting? && !p.pc.Done?
  {
    match call
    case RecordCall(_, _) => RecordStepMid(c, base, call, pc, rows);
    case RewriteCall(_, _) => RewriteStepMid(c, base, call, pc, rows);
    case VerifyCall =>
  }

  /** The promises up to `h` are settled and no others; the mutex holds the youngest promise. */
  ghost predicate LockInv(s: System, h: nat) {
    && h <= |s.callers| && |s.settled| == |s.callers| + 1 && s.promise == |s.callers|
    && (forall p: nat :: p < |s.settled| ==> (s.settled[p] <==> p <= h))
  }

  /** Callers before `h` are done, caller `h` may hold the lock, later ones wait, each for the promise
    of the caller before it. */
  ghost predicate CallerInv(c: Crypto, rows: seq<Row>, callers: seq<Caller>, h: nat, i: nat)
    requires i < |callers|
  {
    var me := callers[i];
    && me.ticket == i + 1
    && (i < h ==> me.pc == Done(Apply(c, Replay(c, rows, callers, i), me.call).outcome))
    && (i == h ==> !me.pc.Done?)
    && (i > h ==> me.pc.Waiting?)
    && (me.pc.Waiting? ==> me.pc.awaited == i)
  }

  ghost predicate CallersInv(c: Crypto, rows: seq<Row>, callers: seq<Caller>, h: nat) {
    forall i: nat :: i < |callers| ==> CallerInv(c, rows, callers, h, i)
  }

  /** The table is what the calls before `h`, run one after another, leave, plus the part of call `h`
    already done. */
  ghost predicate TableInv(c: Crypto, rows: seq<Row>, s: System, h: nat)
    requires h <= |s.callers|
  {
    var base := Replay(c, rows, s.callers, h);
    && Table(base)
    && (if h < |s.callers| then Mid(c, base, s.callers[h].call, s.callers[h].pc, s.rows) else s.rows == base)
  }

  ghost predicate SystemInv(c: Crypto, rows: seq<Row>, s: System, h: nat) {
    LockInv(s, h) && CallersInv(c, rows, s.callers, h) && TableInv(c, rows, s, h)
  }

  /** The sequential table depends on the calls only. */
  lemma {:induction false} ReplayFrame(c: Crypto, rows: seq<Row>, a: seq<Caller>, b: seq<Caller>, n: nat)
    requires n <= |a| && n <= |b| && forall i: nat :: i < n ==> a[i].call == b[i].call
    ensures Replay(c, rows, a, n) == Replay(c, rows, b, n)
  {
    if n > 0 {
      ReplayFrame(c, rows, a, b, n - 1);
    }
  }

  lemma {:induction false} ArriveInv(c: Crypto, rows: seq<Row>, s: System, h: nat, call: Call)
    requires SystemInv(c, rows, s, h)
    ensures SystemInv(c, rows, Next(c, s, Arrive(call)), h)
  {
    var t := Next(c, s, Arrive(call));
    ReplayFrame(c, rows, s.callers, t.callers, h);
    forall i: nat | i < |t.callers|
      ensures CallerInv(c, rows, t.callers, h, i)
    {
      if i < |s.callers| {
        assert CallerInv(c, rows, s.callers, h, i);
        ReplayFrame(c, rows, s.callers, t.callers, i);
      }
    }
  }

  /** Caller `h` moves on without releasing. */
  lemma {:induction false} CallersMove(c: Crypto, rows: seq<Row>, callers: seq<Caller>, h: nat, pc: Pc)
    requires CallersInv(c, rows, callers, h) && h < |callers| && !pc.Done? && !pc.Waiting?
    ensures CallersInv(c, rows, callers[h := callers[h].(pc := pc)], h)
  {
    var after := callers[h := callers[h].(pc := pc)];
    forall i: nat | i < |after|
      ensures CallerInv(c, rows, after, h, i)
    {
      assert CallerInv(c, rows, callers, h, i);
      ReplayFrame(c, rows, callers, after, i);
    }
  }

  lemma {:induction false} MoveInv(c: Crypto, rows: seq<Row>, s: System, h: nat, p: Progress)
    requires SystemInv(c, rows, s, h) && h < |s.callers| && !p.pc.Done? && !p.pc.Waiting?
    requires Mid(c, Replay(c, rows, s.callers, h), s.callers[h].call, p.pc, p.rows)
    ensures SystemInv(c, rows, s.(rows := p.rows, callers := s.callers[h := s.callers[h].(pc := p.pc)]), h)
  {
    var after := s.callers[h := s.callers[h].(pc := p.pc)];
    CallersMove(c, rows, s.callers, h, p.pc);
    ReplayFrame(c, rows, s.callers, after, h);
  }

  /** Caller `h` releases: its promise settles and it is done. */
  lemma {:induction false} CallersRelease(c: Crypto, rows: seq<Row>, callers: seq<Caller>, h: nat, outcome: Outcome)
    requires CallersInv(c, rows, callers, h) && h < |callers|
    requires outcome == Apply(c, Replay(c, rows, callers, h), callers[h].call).outcome
    ensures CallersInv(c, rows, callers[h := callers[h].(pc := Done(outcome))], h + 1)
  {
    var after := callers[h := callers[h].(pc := Done(outcome))];
    var g := h + 1;
    forall i: nat | i < |after|
      ensures CallerInv(c, rows, after, g, i)
    {
      assert CallerInv(c, rows, callers, h, i);
      ReplayFrame(c, rows, callers, after, i);
    }
  }

  lemma {:induction false} ReleasedTable(c: Crypto, rows: seq<Row>, s: System, h: nat)
    requires h < |s.callers| && TableInv(c, rows, s, h) && s.callers[h].pc.Releasing?
    ensures Effect(s.rows, s.callers[h].pc.outcome) == Apply(c, Replay(c, rows, s.callers, h), s.callers[h].call)
    ensures s.rows == Replay(c, rows, s.callers, h + 1) && Table(s.rows)
  {
    ApplyKeepsTable(c, Replay(c, rows, s.callers, h), s.callers[h].call);
  }

  lemma {:induction false} ReleaseInv(c: Crypto, rows: seq<Row>, s: System, h: nat)
    requires SystemInv(c, rows, s, h) && h < |s.callers| && s.callers[h].pc.Releasing?
    ensures SystemInv(c, rows, Next(c, s, Advance(h)), h + 1)
  {
    var t := Next(c, s, Advance(h));
    assert CallerInv(c, rows, s.callers, h, h);
    ReleasedTable(c, rows, s, h);
    CallersRelease(c, rows, s.callers, h, s.callers[h].pc.outcome);
    ReplayFrame(c, rows, s.callers, t.callers, h + 1);
    if h + 1 < |s.callers| {
      assert CallerInv(c, rows, s.callers, h, h + 1);
    }
  }

  /** Only caller `h` can move. */
  lemma {:induction false} OthersStay(c: Crypto, rows: seq<Row>, s: System, h: nat, i: nat)
    requires SystemInv(c, rows, s, h) && i != h
    ensures Next(c, s, Advance(i)) == s
  {
    if i < |s.callers| {
      assert CallerInv(c, rows, s.callers, h, i);
    }
  }

  lemma {:induction false} HolderInv(c: Crypto, rows: seq<Row>, s: System, h: nat)
    requires SystemInv(c, rows, s, h) && h < |s.callers|
    requires !s.callers[h].pc.Waiting? && !s.callers[h].pc.Releasing?
    ensures SystemInv(c, rows, Next(c, s, Advance(h)), h)
  {
    var me := s.callers[h];
    assert CallerInv(c, rows, s.callers, h, h);
    DbStepMid(c, Replay(c, rows, s.callers, h), me.call, me.pc, s.rows);
    MoveInv(c, rows, s, h, DbStep(c, s.rows, me.call, me.pc));
  }

  lemma {:induction false} GrantInv(c: Crypto, rows: seq<Row>, s: System, h: nat)
    requires SystemInv(c, rows, s, h) && h < |s.callers| && s.callers[h].pc.Waiting?
    ensures SystemInv(c, rows, Next(c, s, Advance(h)), h)
  {
    assert CallerInv(c, rows, s.callers, h, h);
    MoveInv(c, rows, s, h, Progress(s.rows, Granted(s.callers[h].call)));
  }

  lemma {:induction false} AdvanceInv(c: Crypto, rows: seq<Row>, s: System, h: nat, i: nat) returns (h': nat)
    requires SystemInv(c, rows, s, h)
    ensures h <= h' && SystemInv(c, rows, Next(c, s, Advance(i)), h')
  {
    h' := h;
    if i != h {
      OthersStay(c, rows, s, h, i);
    } else if h < |s.callers| {
      if s.callers[h].pc.Waiting? {
        GrantInv(c, rows, s, h);
      } else if s.callers[h].pc.Releasing? {
        h' := h + 1;
        ReleaseInv(c, rows, s, h);
      } else {
        HolderInv(c, rows, s, h);
      }
    }
  }

  // ---------------------------------------------------------------- every run

  /** Every interleaving of any number of calls is, between two lock periods, the sequential execution
    of the calls in the order in which they asked for the lock. */
  lemma {:induction false} EveryRunIsSequential(c: Crypto, rows: seq<Row>, events: seq<LedgerEvent>) returns (h: nat)
    requires Table(rows)
    ensures SystemInv(c, rows, RunSystem(c, Start(rows), events), h)
  {
    if events == [] {
      h := 0;
    } else {
      var before, e := events[..|events| - 1], events[|events| - 1];
      h := EveryRunIsSequential(c, rows, before);
      match e
      case Arrive(call) => ArriveInv(c, rows, RunSystem(c, Start(rows), before), h, call);
      case Advance(i) => h := AdvanceInv(c, rows, RunSystem(c, Start(rows), before), h, i);
    }
  }
}
