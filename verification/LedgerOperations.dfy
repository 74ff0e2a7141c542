/** What each ledger operation, run on its own, returns and leaves in the table. */
module LedgerOperations {
  import opened Types
  import opened Ledger
  import opened LedgerProperties

  datatype Call =
    | RecordCall(data: Columns, tempHash: string)
    | RewriteCall(requestId: string, edit: Edit)
    | VerifyCall

  datatype Outcome =
    | Recorded(row: Row)
    | Rewrote(finalRow: Row)
    | Checked(report: Report)
    | DuplicateRow
    | NotFound
    | UniqueViolation

  datatype Effect = Effect(rows: seq<Row>, outcome: Outcome)

  // ---------------------------------------------------------------- record

  ghost function RecordEffect(c: Crypto, rows: seq<Row>, data: Columns, tempHash: string): Effect {
    if FindRequest(rows, data.requestId).Some? || FindHash(rows, tempHash).Some? then Effect(rows, DuplicateRow)
    else if !HashFree(rows, |rows|, AppendedHash(c, rows, data)) then
      Effect(rows + [TemporaryRow(rows, data, tempHash)], UniqueViolation)
    else
      var t := Appended(c, rows, data);
      Effect(t, Recorded(t[|rows|]))
  }

  // ---------------------------------------------------------------- updateRecordAndRecalculate

  /** The write of row `h` in the recalculation loop respects the unique column. */
  ghost predicate WriteFits(edited: seq<Row>, k: nat, start: Option<string>, links: seq<string>, h: nat)
    requires k + |links| == |edited| && k <= h < |edited|
  {
    HashFree(Staged(edited, k, start, links, h, h), h, links[h - k])
  }

  /** The first row from `h` on whose write is refused, or the end of the table. */
  ghost function FirstRefusal(edited: seq<Row>, k: nat, start: Option<string>, links: seq<string>, h: nat): (r: nat)
    requires k + |links| == |edited| && k <= h <= |edited|
    ensures h <= r <= |edited|
    decreases |edited| - h
  {
    if h == |edited| || !WriteFits(edited, k, start, links, h) then h
    else FirstRefusal(edited, k, start, links, h + 1)
  }

  /** The table the loop leaves: everything re-hashed up to the first refused write. */
  ghost function Recalculated(edited: seq<Row>, k: nat, start: Option<string>, links: seq<string>): seq<Row>
    requires k + |links| == |edited|
  {
    var h := FirstRefusal(edited, k, start, links, k);
    Staged(edited, k, start, links, h, h)
  }

  ghost predicate RewriteFits(c: Crypto, rows: seq<Row>, k: nat, edit: Edit)
    requires k < |rows|
  {
    var edited := EditRow(rows, k, edit);
    var start := StartHash(edited, k);
    FirstRefusal(edited, k, start, LinkHashes(c, edited, k, start), k) == |edited|
  }

  ghost function RewriteEffect(c: Crypto, rows: seq<Row>, requestId: string, edit: Edit): Effect {
    match FindRequest(rows, requestId)
    case None => Effect(rows, NotFound)
    case Some(k) =>
      var edited := EditRow(rows, k, edit);
      var start := StartHash(edited, k);
      var t := Recalculated(edited, k, start, LinkHashes(c, edited, k, start));
      Effect(t, if RewriteFits(c, rows, k, edit) then Rewrote(t[k]) else UniqueViolation)
  }

  ghost function Apply(c: Crypto, rows: seq<Row>, call: Call): Effect {
    match call
    case RecordCall(data, tempHash) => RecordEffect(c, rows, data, tempHash)
    case RewriteCall(requestId, edit) => RewriteEffect(c, rows, requestId, edit)
    case VerifyCall => Effect(rows, Checked(Verify(c, rows)))
  }

  // ---------------------------------------------------------------- the check is right

  lemma {:induction false} VerifyReports(c: Crypto, rows: seq<Row>, i: nat)
    requires i <= |rows| && IntactUpTo(c, rows, i)
    ensures Reports(c, rows, Verify(c, rows, i))
    decreases |rows| - i
  {
    if i < |rows| && Good(c, rows, i) {
      VerifyReports(c, rows, i + 1);
    }
  }

  /** `verifyChain` answers "verified" exactly on the ledgers all of whose rows are good, and otherwise
    reports the first bad row with the first test it fails. */
  lemma {:induction false} VerifyIsExact(c: Crypto, rows: seq<Row>)
    ensures Reports(c, rows, Verify(c, rows))
    ensures Verify(c, rows) == Verified <==> Intact(c, rows)
    ensures forall k: nat :: FirstBad(c, rows, k) <==> Verify(c, rows).Tampered? && Verify(c, rows).index == k
  {
    VerifyReports(c, rows, 0);
  }

  // ---------------------------------------------------------------- the table constraints

  /** The three constraints speak of the key columns only. */
  lemma {:induction false} KeysCarryOver(rows: seq<Row>, t: seq<Row>)
    requires |t| == |rows|
    requires forall i :: 0 <= i < |rows| ==>
               t[i].chainIndex == rows[i].chainIndex && t[i].data.requestId == rows[i].data.requestId
    ensures UniqueRequests(rows) ==> UniqueRequests(t)
    ensures Ordered(rows) ==> Ordered(t)
    ensures UniqueHashes(rows) && (forall i :: 0 <= i < |rows| ==> t[i].hash == rows[i].hash) ==> UniqueHashes(t)
  {
    forall i: nat, j: nat | i < j < |rows|
      ensures UniqueRequests(rows) ==> DifferentRequests(t, i, j)
      ensures Ordered(rows) ==> Precedes(t, i, j)
      ensures UniqueHashes(rows) && (forall i :: 0 <= i < |rows| ==> t[i].hash == rows[i].hash)
              ==> DifferentHashes(t, i, j)
    {
      assert UniqueRequests(rows) ==> DifferentRequests(rows, i, j);
      assert Ordered(rows) ==> Precedes(rows, i, j);
      assert UniqueHashes(rows) ==> DifferentHashes(rows, i, j);
    }
  }

  lemma {:induction false} EditKeepsChain(rows: seq<Row>, k: nat, edit: Edit)
    requires k < |rows| && Table(rows)
    ensures Table(EditRow(rows, k, edit))
  {
    KeysCarryOver(rows, EditRow(rows, k, edit));
  }

  lemma {:induction false} StagedKeepsRequests(edited: seq<Row>, k: nat, start: Option<string>, links: seq<string>,
                                               h: nat, q: nat)
    requires k + |links| == |edited| && k <= h <= |edited| && k <= q <= |edited|
    requires UniqueRequests(edited) && Ordered(edited)
    ensures UniqueRequests(Staged(edited, k, start, links, h, q)) && Ordered(Staged(edited, k, start, links, h, q))
  {
    StagedRows(edited, k, start, links, h, q);
    KeysCarryOver(edited, Staged(edited, k, start, links, h, q));
  }

  /** A write that fits leaves all hashes distinct, and so does the link write after it. */
  lemma {:induction false} FittingKeepsDistinct(edited: seq<Row>, k: nat, start: Option<string>, links: seq<string>,
                                                h: nat)
    requires k + |links| == |edited| && k <= h < |edited|
    requires UniqueHashes(Staged(edited, k, start, links, h, h)) && WriteFits(edited, k, start, links, h)
    ensures UniqueHashes(Staged(edited, k, start, links, h + 1, h))
    ensures UniqueHashes(Staged(edited, k, start, links, h + 1, h + 1))
  {
    var r, s, t := Staged(edited, k, start, links, h, h), Staged(edited, k, start, links, h + 1, h),
                   Staged(edited, k, start, links, h + 1, h + 1);
    StagedRows(edited, k, start, links, h, h);
    StagedRows(edited, k, start, links, h + 1, h);
    StagedRows(edited, k, start, links, h + 1, h + 1);
    assert t[h].hash == links[h - k] && s[h].hash == links[h - k];
    forall i: nat, j: nat | i < j < |edited|
      ensures DifferentHashes(s, i, j) && DifferentHashes(t, i, j)
    {
      assert DifferentHashes(r, i, j);
      assert s[i].hash == t[i].hash && s[j].hash == t[j].hash;
      assert i != h ==> s[i].hash == r[i].hash;
      assert j != h ==> s[j].hash == r[j].hash;
    }
  }

  /** As long as no write is refused, the hashes are distinct. */
  lemma {:induction false} DistinctSoFar(edited: seq<Row>, k: nat, start: Option<string>, links: seq<string>, j: nat,
                                         h: nat)
    requires k + |links| == |edited| && k <= j <= h <= |edited| && h <= FirstRefusal(edited, k, start, links, j)
    requires UniqueHashes(Staged(edited, k, start, links, j, j))
    ensures UniqueHashes(Staged(edited, k, start, links, h, h))
    decreases h - j
  {
    if j < h {
      FittingKeepsDistinct(edited, k, start, links, j);
      DistinctSoFar(edited, k, start, links, j + 1, h);
    }
  }

  /** A row with fresh keys behind rows whose keys did not change. */
  lemma {:induction false} NewRowKeepsTable(rows: seq<Row>, t: seq<Row>)
    requires Table(rows) && |t| == |rows| + 1
    requires forall i :: 0 <= i < |rows| ==>
               && t[i].hash == rows[i].hash && t[i].chainIndex == rows[i].chainIndex
               && t[i].data.requestId == rows[i].data.requestId
    requires FindRequest(rows, t[|rows|].data.requestId).None?
    requires HashFree(rows, |rows|, t[|rows|].hash) && t[|rows|].chainIndex == NextIndex(rows)
    ensures Table(t)
  {
    var n := |rows|;
    forall i: nat, j: nat | i < j < |t|
      ensures DifferentHashes(t, i, j) && DifferentRequests(t, i, j) && Precedes(t, i, j)
    {
      if j < n {
        assert DifferentHashes(rows, i, j) && DifferentRequests(rows, i, j) && Precedes(rows, i, j);
      } else {
        assert i != n - 1 ==> Precedes(rows, i, n - 1);
      }
    }
  }

  lemma {:induction false} AppendedRows(c: Crypto, rows: seq<Row>, data: Columns)
    ensures var t := Appended(c, rows, data);
            && |t| == |rows| + 1
            && t[|rows|] == Row(data, NextIndex(rows), LatestHash(rows), AppendedHash(c, rows, data), None)
            && forall i :: 0 <= i < |rows| ==>
                 && t[i].hash == rows[i].hash && t[i].chainIndex == rows[i].chainIndex
                 && t[i].data == rows[i].data
  {
  }

  /** Whatever the calls and their outcomes, the unique columns stay unique and the order of the rows
    stays their insertion order. */
  lemma {:induction false} ApplyKeepsTable(c: Crypto, rows: seq<Row>, call: Call)
    requires Table(rows)
    ensures Table(Apply(c, rows, call).rows)
  {
    match call
    case RecordCall(data, tempHash) =>
      if FindRequest(rows, data.requestId).None? && FindHash(rows, tempHash).None? {
        if HashFree(rows, |rows|, AppendedHash(c, rows, data)) {
          AppendedRows(c, rows, data);
          NewRowKeepsTable(rows, Appended(c, rows, data));
        } else {
          NewRowKeepsTable(rows, rows + [TemporaryRow(rows, data, tempHash)]);
        }
      }
    case RewriteCall(requestId, edit) =>
      var found := FindRequest(rows, requestId);
      if found.Some? {
        RewriteKeepsTable(c, rows, found.value, edit);
      }
    case VerifyCall =>
  }

  lemma {:induction false} RewriteKeepsTable(c: Crypto, rows: seq<Row>, k: nat, edit: Edit)
    requires Table(rows) && k < |rows|
    ensures var edited := EditRow(rows, k, edit);
            var start := StartHash(edited, k);
            Table(Recalculated(edited, k, start, LinkHashes(c, edited, k, start)))
  {
    var edited := EditRow(rows, k, edit);
    var start := StartHash(edited, k);
    var links := LinkHashes(c, edited, k, start);
    EditKeepsChain(rows, k, edit);
    StageNothing(edited, k, start, links);
    var r := FirstRefusal(edited, k, start, links, k);
    DistinctSoFar(edited, k, start, links, k, r);
    StagedKeepsRequests(edited, k, start, links, r, r);
  }

  // ---------------------------------------------------------------- no write is refused

  ghost predicate DistinctAfter(edited: seq<Row>, k: nat, start: Option<string>, links: seq<string>, h: nat)
    requires k + |links| == |edited| && k <= h < |edited|
  {
    UniqueHashes(Staged(edited, k, start, links, h + 1, h))
  }

  lemma {:induction false} FitsIfDistinct(edited: seq<Row>, k: nat, start: Option<string>, links: seq<string>, h: nat)
    requires k + |links| == |edited| && k <= h < |edited| && DistinctAfter(edited, k, start, links, h)
    ensures WriteFits(edited, k, start, links, h)
  {
    var s, t := Staged(edited, k, start, links, h, h), Staged(edited, k, start, links, h + 1, h);
    StagedRows(edited, k, start, links, h, h);
    StagedRows(edited, k, start, links, h + 1, h);
    assert t[h].hash == links[h - k];
    forall j: nat | j < |s| && j != h
      ensures s[j].hash != links[h - k]
    {
      assert t[j] == s[j] && DifferentHashes(t, if j < h then j else h, if j < h then h else j);
    }
  }

  lemma {:induction false} AllWritesFit(edited: seq<Row>, k: nat, start: Option<string>, links: seq<string>, h: nat)
    requires k + |links| == |edited| && k <= h <= |edited|
    requires forall j: nat :: k <= j < |edited| ==> DistinctAfter(edited, k, start, links, j)
    ensures FirstRefusal(edited, k, start, links, h) == |edited|
    decreases |edited| - h
  {
    if h < |edited| {
      FitsIfDistinct(edited, k, start, links, h);
      AllWritesFit(edited, k, start, links, h + 1);
    }
  }

  /** On a ledger that equals its rebuild, no write of the recalculation is refused unless two of the
    texts hashed collide. */
  lemma {:induction false} RewriteNeverRefused(c: Crypto, rows: seq<Row>, k: nat, edit: Edit)
    requires c.Faithful() && Canonical(c, rows) && k < |rows|
    requires c.CollisionFreeOn(
               Preimages(c, Contents(rows)) + Preimages(c, Contents(rows)[k := Edited(rows[k].data, edit)]))
    ensures RewriteFits(c, rows, k, edit)
  {
    var edited := EditRow(rows, k, edit);
    var start := StartHash(edited, k);
    var links := LinkHashes(c, edited, k, start);
    forall h: nat | k <= h < |rows|
      ensures DistinctAfter(edited, k, start, links, h)
    {
      HashesStayDistinct(c, rows, k, edit, h + 1, h, edited, start, links);
    }
    AllWritesFit(edited, k, start, links, k);
  }

  // ---------------------------------------------------------------- one round of the loop

  /** What one round of the loop leaves, from the two writes it makes. */
  lemma {:induction false} LinkStep(edited: seq<Row>, k: nat, start: Option<string>, links: seq<string>, h: nat,
                                    s: seq<Row>, t: seq<Row>)
    requires k + |links| == |edited| && k <= h < |edited| && Ordered(edited) && start == StartHash(edited, k)
    requires s == Staged(edited, k, start, links, h + 1, h) && UniqueHashes(s)
    requires t == match LinkPrevious(k, start, links, h)
                  case None => s
                  case Some(last) =>
                    match FindHash(s, last)
                    case None => s
                    case Some(p) => s[p := s[p].(nextHash := Some(links[h - k]))]
    ensures t == Staged(edited, k, start, links, h + 1, h + 1)
  {
    StartIsPredecessor(edited, k);
    if LinkPrevious(k, start, links, h).Some? {
      PredecessorFound(edited, k, start, links, h);
    }
    StageLink(edited, k, start, links, h);
  }
}
