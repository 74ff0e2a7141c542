/** What appending and rewriting do to the verification of a ledger, and that re-hashing row by row
  gives the ledger that a full rebuild from its contents would give. */
module LedgerProperties {
  import opened Types
  import opened Ledger
  import opened TamperEvidence

  // ---------------------------------------------------------------- one step of the recalculation

  /** Writing the hash of row `h` moves the recalculation one write on. */
  lemma {:induction false} StageHash(rows: seq<Row>, k: nat, start: Option<string>, links: seq<string>, h: nat)
    requires k + |links| == |rows| && k <= h < |rows|
    ensures var s := Staged(rows, k, start, links, h, h);
            s[h := s[h].(previousHash := LinkPrevious(k, start, links, h), hash := links[h - k])]
            == Staged(rows, k, start, links, h + 1, h)
  {
    StagedRows(rows, k, start, links, h, h);
    StagedRows(rows, k, start, links, h + 1, h);
  }

  /** So does writing the link from row `h - 1`; without a predecessor there is nothing to write. */
  lemma {:induction false} StageLink(rows: seq<Row>, k: nat, start: Option<string>, links: seq<string>, h: nat)
    requires k + |links| == |rows| && k <= h < |rows| && (h == 0 ==> start.None?)
    ensures var s := Staged(rows, k, start, links, h + 1, h);
            (if LinkPrevious(k, start, links, h).None? then s else PatchNext(s, h, links[h - k]))
            == Staged(rows, k, start, links, h + 1, h + 1)
  {
    var s, t := Staged(rows, k, start, links, h + 1, h), Staged(rows, k, start, links, h + 1, h + 1);
    var linked := if LinkPrevious(k, start, links, h).None? then s else PatchNext(s, h, links[h - k]);
    StagedRows(rows, k, start, links, h + 1, h);
    StagedRows(rows, k, start, links, h + 1, h + 1);
    forall i: nat | i < |rows|
      ensures linked[i] == t[i]
    {
      assert s[i] == StagedRow(rows, k, start, links, h + 1, h, i);
    }
    assert |linked| == |t|;
  }

  lemma {:induction false} StageNothing(rows: seq<Row>, k: nat, start: Option<string>, links: seq<string>)
    requires k + |links| == |rows|
    ensures Staged(rows, k, start, links, k, k) == rows
  {
    StagedRows(rows, k, start, links, k, k);
  }

  /** Each new hash covers the content of its row and the new hash before it. */
  ghost predicate ChainedAt(c: Crypto, rows: seq<Row>, k: nat, start: Option<string>, links: seq<string>, j: nat)
    requires k + |links| == |rows| && k <= j < |rows|
  {
    links[j - k]
    == CalculateSHA256(c, LinkPrevious(k, start, links, j), rows[j].data.Hashed(), rows[j].chainIndex)
  }

  ghost predicate Chained(c: Crypto, rows: seq<Row>, k: nat, start: Option<string>, links: seq<string>) {
    k + |links| == |rows| && forall j: nat :: k <= j < |rows| ==> ChainedAt(c, rows, k, start, links, j)
  }

  lemma {:induction false} LinkHashesChained(c: Crypto, rows: seq<Row>, k: nat, start: Option<string>)
    requires k <= |rows|
    ensures Chained(c, rows, k, start, LinkHashes(c, rows, k, start))
  {
    var links := LinkHashes(c, rows, k, start);
    forall j: nat | k <= j < |rows|
      ensures ChainedAt(c, rows, k, start, links, j)
    {
      assert links[j - k] == LinkHash(c, rows, k, start, k + (j - k));
      assert j > k ==> links[j - 1 - k] == LinkHash(c, rows, k, start, k + (j - 1 - k));
    }
  }

  /** The hash the recalculation starts from belongs to the row before the rewritten one. */
  lemma {:induction false} StartIsPredecessor(rows: seq<Row>, k: nat)
    requires k < |rows| && Ordered(rows)
    ensures StartHash(rows, k).Some? ==>
              k > 0 && rows[k - 1].chainIndex == rows[k].chainIndex - 1
              && StartHash(rows, k).value == rows[k - 1].hash && rows[k - 1].hash != ""
    ensures (k > 0 && rows[k].chainIndex != 0 && rows[k - 1].chainIndex == rows[k].chainIndex - 1
             && rows[k - 1].hash != "") ==> StartHash(rows, k).Some?
  {
    match FindIndex(rows, rows[k].chainIndex - 1)
    case None =>
    case Some(p) =>
      assert p != k;
      assert if p < k then Precedes(rows, p, k) else Precedes(rows, k, p);
      assert Precedes(rows, k - 1, k);
      assert p != k - 1 ==> Precedes(rows, p, k - 1);
  }

  /** Looking the predecessor up by its hash finds the row before, at every row of the loop. */
  lemma {:induction false} PredecessorFound(rows: seq<Row>, k: nat, start: Option<string>, links: seq<string>, h: nat)
    requires k + |links| == |rows| && k <= h < |rows| && Ordered(rows) && start == StartHash(rows, k)
    requires UniqueHashes(Staged(rows, k, start, links, h + 1, h))
    requires LinkPrevious(k, start, links, h).Some?
    ensures h > 0
    ensures FindHash(Staged(rows, k, start, links, h + 1, h), LinkPrevious(k, start, links, h).value) == Some(h - 1)
  {
    StartIsPredecessor(rows, k);
    StagedRows(rows, k, start, links, h + 1, h);
    var s := Staged(rows, k, start, links, h + 1, h);
    var last := LinkPrevious(k, start, links, h).value;
    assert s[h - 1].hash == last;
    var p := FindHash(s, last).value;
    assert p < h - 1 ==> DifferentHashes(s, p, h - 1);
    assert h - 1 < p ==> DifferentHashes(s, h - 1, p);
  }

  // ---------------------------------------------------------------- verification before and after

  /** The row takes decision, execution result and time of completion from the edit, and validation result and
    request if the edit has them; the rest of it stays. */
  predicate Takes(after: Columns, before: Columns, edit: Edit) {
    && after.decisionRecord == edit.decisionRecord && after.executionResult == edit.executionResult
    && after.completedAt == edit.completedAt
    && after.validationResult
       == (if edit.validationResult.Some? then edit.validationResult.value else before.validationResult)
    && after.parsedRequest == (if edit.parsedRequest.Some? then edit.parsedRequest.value else before.parsedRequest)
    && after.requestId == before.requestId && after.sessionId == before.sessionId && after.agentId == before.agentId
    && after.receivedAt == before.receivedAt && after.rawRequest == before.rawRequest
  }

  /** Appending changes no verdict on the rows already there; the new row verifies exactly when the
    largest index is the row count less one. */
  lemma {:induction false} AppendVerification(c: Crypto, rows: seq<Row>, data: Columns)
    ensures var t := Appended(c, rows, data);
            && |t| == |rows| + 1
            && (forall i: nat :: i < |rows| ==> (Good(c, t, i) <==> Good(c, rows, i)))
            && (Good(c, t, |rows|) <==> NextIndex(rows) == |rows|)
    ensures Intact(c, rows) ==> Intact(c, Appended(c, rows, data))
    ensures forall k :: FirstBad(c, rows, k) ==> FirstBad(c, Appended(c, rows, data), k)
  {
    var t := Appended(c, rows, data);
    forall i: nat | i < |rows|
      ensures Good(c, t, i) <==> Good(c, rows, i)
    {
      assert i > 0 ==> t[i - 1].hash == rows[i - 1].hash;
    }
    assert |rows| > 0 && Intact(c, rows) ==> Good(c, rows, |rows| - 1);
  }

  lemma {:induction false} RewriteFrame(c: Crypto, rows: seq<Row>, k: nat, edit: Edit)
    requires k < |rows|
    ensures var t := Rewritten(c, rows, k, edit);
            && |t| == |rows|
            && t[k].data == Edited(rows[k].data, edit)
            && Takes(t[k].data, rows[k].data, edit)
            && (forall i :: 0 <= i < |rows| && i != k ==> t[i].data == rows[i].data)
            && (forall i :: 0 <= i < |rows| ==> t[i].chainIndex == rows[i].chainIndex)
            && (forall i :: 0 <= i < k ==> t[i].hash == rows[i].hash && t[i].previousHash == rows[i].previousHash)
  {
    var edited := EditRow(rows, k, edit);
    var start := StartHash(edited, k);
    StagedRows(edited, k, start, LinkHashes(c, edited, k, start), |rows|, |rows|);
  }

  lemma {:induction false} EditKeepsOrder(rows: seq<Row>, k: nat, edit: Edit)
    requires k < |rows| && Ordered(rows)
    ensures Ordered(EditRow(rows, k, edit))
  {
    var edited := EditRow(rows, k, edit);
    forall i: nat, j: nat | i < j < |rows|
      ensures Precedes(edited, i, j)
    {
      assert Precedes(rows, i, j);
    }
  }

  /** A re-hashed table verifies row by row: unchanged before `k`, where the recalculation started with
    the right hash at `k`, and always after it, as long as no index is missing. */
  lemma {:induction false} StagedGood(c: Crypto, edited: seq<Row>, k: nat, start: Option<string>, links: seq<string>,
                                      i: nat)
    requires Chained(c, edited, k, start, links) && k < |edited| && i < |edited|
    ensures var t := Staged(edited, k, start, links, |edited|, |edited|);
            Good(c, t, i) <==>
            if i < k then Good(c, edited, i)
            else if i == k then edited[k].chainIndex == k && start == ExpectedPrevious(edited, k)
            else edited[i].chainIndex == i
  {
    var t := Staged(edited, k, start, links, |edited|, |edited|);
    assert t[i] == StagedRow(edited, k, start, links, |edited|, |edited|, i);
    if i > 0 {
      assert t[i - 1] == StagedRow(edited, k, start, links, |edited|, |edited|, i - 1);
    }
    if i >= k {
      assert ChainedAt(c, edited, k, start, links, i);
    }
  }

  lemma {:induction false} EditGood(c: Crypto, rows: seq<Row>, k: nat, edit: Edit, i: nat)
    requires i < k < |rows|
    ensures Good(c, EditRow(rows, k, edit), i) <==> Good(c, rows, i)
  {
  }

  /** Behind intact rows the recalculation starts with the right hash. */
  lemma {:induction false} StartIsExpected(c: Crypto, rows: seq<Row>, k: nat)
    requires k < |rows| && Ordered(rows) && IntactUpTo(c, rows, k) && rows[k].chainIndex == k
    ensures StartHash(rows, k) == ExpectedPrevious(rows, k)
  {
    if k > 0 {
      assert Good(c, rows, k - 1);
      StartIsPredecessor(rows, k);
    }
  }

  lemma {:induction false} StagedVerification(c: Crypto, edited: seq<Row>, k: nat, start: Option<string>,
                                              links: seq<string>)
    requires Chained(c, edited, k, start, links) && k < |edited| && Ordered(edited) && start == StartHash(edited, k)
    ensures var t := Staged(edited, k, start, links, |edited|, |edited|);
            && (Intact(c, t) <==>
                IntactUpTo(c, edited, k) && forall i :: k <= i < |edited| ==> edited[i].chainIndex == i)
            && forall b: nat :: b < k ==> (FirstBad(c, edited, b) <==> FirstBad(c, t, b))
  {
    var t := Staged(edited, k, start, links, |edited|, |edited|);
    forall i: nat | i < |edited|
      ensures Good(c, t, i) <==>
              if i < k then Good(c, edited, i)
              else if i == k then edited[k].chainIndex == k && start == ExpectedPrevious(edited, k)
              else edited[i].chainIndex == i
    {
      StagedGood(c, edited, k, start, links, i);
    }
    if IntactUpTo(c, edited, k) && edited[k].chainIndex == k {
      StartIsExpected(c, edited, k);
    }
    if Intact(c, t) {
      forall i: nat | k <= i < |edited|
        ensures edited[i].chainIndex == i
      {
        assert Good(c, t, i);
      }
    }
  }

  /** After a rewrite of row `k` the chain verifies exactly when the rows before `k` did and no index is
    missing from `k` on, whatever hashes the rows from `k` on held; a bad row before `k` is still the
    one reported. */
  lemma {:induction false} RewriteVerification(c: Crypto, rows: seq<Row>, k: nat, edit: Edit)
    requires k < |rows| && Ordered(rows)
    ensures Intact(c, Rewritten(c, rows, k, edit)) <==>
            IntactUpTo(c, rows, k) && forall i :: k <= i < |rows| ==> rows[i].chainIndex == i
    ensures forall b: nat :: b < k ==> (FirstBad(c, rows, b) <==> FirstBad(c, Rewritten(c, rows, k, edit), b))
  {
    var edited := EditRow(rows, k, edit);
    var start := StartHash(edited, k);
    EditKeepsOrder(rows, k, edit);
    LinkHashesChained(c, edited, k, start);
    StagedVerification(c, edited, k, start, LinkHashes(c, edited, k, start));
    forall i: nat | i < k
      ensures Good(c, edited, i) <==> Good(c, rows, i)
    {
      EditGood(c, rows, k, edit, i);
    }
    assert forall i :: 0 <= i < |rows| ==> edited[i].chainIndex == rows[i].chainIndex;
  }

  // ---------------------------------------------------------------- the ledger as a function of its contents

  function Contents(rows: seq<Row>): (contents: seq<Columns>)
    ensures |contents| == |rows|
    ensures forall i: nat :: i < |rows| ==> contents[i] == rows[i].data
  {
    if rows == [] then [] else Contents(rows[..|rows| - 1]) + [rows[|rows| - 1].data]
  }

  function RebuiltPrevious(c: Crypto, contents: seq<Columns>, i: nat): Option<string>
    requires i <= |contents|
    decreases i, 0
  {
    if i == 0 then None else Some(RebuiltHash(c, contents, i - 1))
  }

  function RebuiltHash(c: Crypto, contents: seq<Columns>, i: nat): Digest
    requires i < |contents|
    decreases i, 1
  {
    CalculateSHA256(c, RebuiltPrevious(c, contents, i), contents[i].Hashed(), i)
  }

  function RebuiltRow(c: Crypto, contents: seq<Columns>, i: nat): Row
    requires i < |contents|
  {
    Row(contents[i], i, RebuiltPrevious(c, contents, i), RebuiltHash(c, contents, i),
        if i + 1 < |contents| then Some(RebuiltHash(c, contents, i + 1)) else None)
  }

  function RebuildUpTo(c: Crypto, contents: seq<Columns>, n: nat): (rows: seq<Row>)
    requires n <= |contents|
    ensures |rows| == n
    ensures forall i: nat {:trigger RebuiltRow(c, contents, i)} :: i < n ==> rows[i] == RebuiltRow(c, contents, i)
  {
    if n == 0 then [] else RebuildUpTo(c, contents, n - 1) + [RebuiltRow(c, contents, n - 1)]
  }

  /** The doubly linked chain over some contents, built from genesis. */
  function Rebuild(c: Crypto, contents: seq<Columns>): (rows: seq<Row>)
    ensures |rows| == |contents|
    ensures forall i: nat {:trigger RebuiltRow(c, contents, i)} :: i < |contents| ==>
              rows[i] == RebuiltRow(c, contents, i)
  {
    RebuildUpTo(c, contents, |contents|)
  }

  ghost predicate Canonical(c: Crypto, rows: seq<Row>) {
    rows == Rebuild(c, Contents(rows))
  }

  predicate LinkedAt(rows: seq<Row>, i: nat)
    requires i < |rows|
  {
    rows[i].nextHash == if i + 1 < |rows| then Some(rows[i + 1].hash) else None
  }

  /** Every forward link names the hash of the next row; the head row has none. */
  ghost predicate DoublyLinked(rows: seq<Row>) {
    forall i: nat :: i < |rows| ==> LinkedAt(rows, i)
  }

  lemma {:induction false} IntactHash(c: Crypto, rows: seq<Row>, i: nat)
    requires i < |rows| && Intact(c, rows)
    ensures rows[i].hash == RebuiltHash(c, Contents(rows), i)
    ensures rows[i].previousHash == RebuiltPrevious(c, Contents(rows), i)
  {
    assert Good(c, rows, i);
    if i > 0 {
      IntactHash(c, rows, i - 1);
    }
  }

  lemma {:induction false} CanonicalRow(c: Crypto, rows: seq<Row>, i: nat)
    requires Canonical(c, rows) && i < |rows|
    ensures rows[i] == RebuiltRow(c, Contents(rows), i) && Good(c, rows, i) && LinkedAt(rows, i)
  {
    var contents := Contents(rows);
    assert rows[i] == RebuiltRow(c, contents, i);
    assert i > 0 ==> rows[i - 1] == RebuiltRow(c, contents, i - 1);
    assert i + 1 < |rows| ==> rows[i + 1] == RebuiltRow(c, contents, i + 1);
  }

  lemma {:induction false} LinkedRow(c: Crypto, rows: seq<Row>, i: nat)
    requires Intact(c, rows) && i < |rows| && LinkedAt(rows, i)
    ensures rows[i] == RebuiltRow(c, Contents(rows), i)
  {
    assert Good(c, rows, i);
    IntactHash(c, rows, i);
    if i + 1 < |rows| {
      IntactHash(c, rows, i + 1);
    }
  }

  /** A ledger equals the rebuild of its contents exactly when it verifies and every forward link
    names its successor. */
  lemma {:induction false} CanonicalIsIntactAndLinked(c: Crypto, rows: seq<Row>)
    ensures Canonical(c, rows) <==> Intact(c, rows) && DoublyLinked(rows)
  {
    if Canonical(c, rows) {
      forall i: nat | i < |rows|
        ensures Good(c, rows, i) && LinkedAt(rows, i)
      {
        CanonicalRow(c, rows, i);
      }
    }
    if Intact(c, rows) && DoublyLinked(rows) {
      forall i: nat | i < |rows|
        ensures rows[i] == Rebuild(c, Contents(rows))[i]
      {
        LinkedRow(c, rows, i);
      }
    }
  }

  /** Appending to a rebuilt ledger is rebuilding the longer one. */
  lemma {:induction false} AppendRefinesRebuild(c: Crypto, rows: seq<Row>, data: Columns)
    requires Canonical(c, rows)
    ensures Appended(c, rows, data) == Rebuild(c, Contents(rows) + [data])
  {
    CanonicalIsIntactAndLinked(c, rows);
    var t := Appended(c, rows, data);
    AppendVerification(c, rows, data);
    assert |rows| > 0 ==> Good(c, rows, |rows| - 1);
    forall i: nat | i < |t|
      ensures LinkedAt(t, i)
    {
      assert i < |rows| ==> LinkedAt(rows, i);
    }
    CanonicalIsIntactAndLinked(c, t);
    assert Contents(t) == Contents(rows) + [data];
  }

  lemma {:induction false} CanonicalOrdered(c: Crypto, rows: seq<Row>)
    requires Canonical(c, rows)
    ensures Ordered(rows) && forall i: nat :: i < |rows| ==> rows[i].chainIndex == i
  {
    forall i: nat | i < |rows|
      ensures rows[i].chainIndex == i
    {
      CanonicalRow(c, rows, i);
    }
  }

  lemma {:induction false} CanonicalStart(c: Crypto, rows: seq<Row>, k: nat, edit: Edit)
    requires Canonical(c, rows) && k < |rows|
    ensures StartHash(EditRow(rows, k, edit), k) == if k == 0 then None else Some(rows[k - 1].hash)
  {
    CanonicalOrdered(c, rows);
    EditKeepsOrder(rows, k, edit);
    StartIsPredecessor(EditRow(rows, k, edit), k);
    if k > 0 {
      CanonicalRow(c, rows, k - 1);
    }
  }

  lemma {:induction false} StagedLinked(edited: seq<Row>, k: nat, start: Option<string>, links: seq<string>, i: nat)
    requires k + |links| == |edited| && k < |edited| && i < |edited|
    requires i + 1 < k || i + 1 == |edited| ==> LinkedAt(edited, i)
    requires k > 0 ==> start.Some?
    ensures LinkedAt(Staged(edited, k, start, links, |edited|, |edited|), i)
  {
    var n := |edited|;
    var t := Staged(edited, k, start, links, n, n);
    assert t[i] == StagedRow(edited, k, start, links, n, n, i);
    if i + 1 < n {
      assert t[i + 1] == StagedRow(edited, k, start, links, n, n, i + 1);
    }
  }

  lemma {:induction false} RewriteLinked(c: Crypto, rows: seq<Row>, k: nat, edit: Edit)
    requires Canonical(c, rows) && k < |rows|
    ensures DoublyLinked(Rewritten(c, rows, k, edit))
  {
    var edited := EditRow(rows, k, edit);
    var start := StartHash(edited, k);
    CanonicalStart(c, rows, k, edit);
    var links := LinkHashes(c, edited, k, start);
    var t := Staged(edited, k, start, links, |edited|, |edited|);
    forall i: nat | i < |rows|
      ensures LinkedAt(t, i)
    {
      if i + 1 < k || i + 1 == |rows| {
        CanonicalRow(c, rows, i);
        assert LinkedAt(edited, i);
      }
      StagedLinked(edited, k, start, links, i);
    }
  }

  lemma {:induction false} RewriteContents(c: Crypto, rows: seq<Row>, k: nat, edit: Edit)
    requires k < |rows|
    ensures Contents(Rewritten(c, rows, k, edit)) == Contents(rows)[k := Edited(rows[k].data, edit)]
  {
    RewriteFrame(c, rows, k, edit);
  }

  /** Re-hashing the rows from `k` on is rebuilding the ledger over the edited contents. */
  lemma {:induction false} RewriteRefinesRebuild(c: Crypto, rows: seq<Row>, k: nat, edit: Edit)
    requires Canonical(c, rows) && k < |rows|
    ensures Rewritten(c, rows, k, edit) == Rebuild(c, Contents(rows)[k := Edited(rows[k].data, edit)])
  {
    CanonicalOrdered(c, rows);
    CanonicalIsIntactAndLinked(c, rows);
    RewriteVerification(c, rows, k, edit);
    RewriteLinked(c, rows, k, edit);
    CanonicalIsIntactAndLinked(c, Rewritten(c, rows, k, edit));
    RewriteContents(c, rows, k, edit);
  }

  lemma {:induction false} HashColumnsFromContents(c: Crypto, a: seq<Columns>, b: seq<Columns>, i: nat)
    requires |a| == |b| && forall j :: 0 <= j < |a| ==> SameContents(a[j], b[j])
    requires i < |a|
    ensures RebuiltHash(c, a, i) == RebuiltHash(c, b, i)
  {
    if i > 0 {
      HashColumnsFromContents(c, a, b, i - 1);
    }
  }

  /** Ledgers rebuilt from contents that hash alike have the same hash columns: the way the contents
    came about leaves no trace. */
  lemma {:induction false} ColumnsFromContents(c: Crypto, a: seq<Columns>, b: seq<Columns>, i: nat)
    requires |a| == |b| && forall j: nat :: j < |a| ==> SameContents(a[j], b[j])
    requires i < |a|
    ensures var r, s := Rebuild(c, a)[i], Rebuild(c, b)[i];
            r.hash == s.hash && r.previousHash == s.previousHash && r.nextHash == s.nextHash
            && r.chainIndex == s.chainIndex
  {
    assert Rebuild(c, a)[i] == RebuiltRow(c, a, i) && Rebuild(c, b)[i] == RebuiltRow(c, b, i);
    HashColumnsFromContents(c, a, b, i);
    if i > 0 {
      HashColumnsFromContents(c, a, b, i - 1);
    }
    if i + 1 < |a| {
      HashColumnsFromContents(c, a, b, i + 1);
    }
  }

  lemma {:induction false} RebuildIsCanonical(c: Crypto, contents: seq<Columns>)
    ensures Contents(Rebuild(c, contents)) == contents && Canonical(c, Rebuild(c, contents))
  {
    var rows := Rebuild(c, contents);
    forall i: nat | i < |contents|
      ensures Contents(rows)[i] == contents[i]
    {
      assert rows[i] == RebuiltRow(c, contents, i);
    }
    assert Contents(rows) == contents;
  }

  // ---------------------------------------------------------------- distinct hashes

  /** Every text that is hashed when a ledger over these contents is built. */
  function Preimages(c: Crypto, contents: seq<Columns>): set<string> {
    set i: nat | i < |contents| :: Preimage(c, RebuiltPrevious(c, contents, i), contents[i].Hashed(), i)
  }

  lemma {:induction false} DistinctAtDistinctIndices(c: Crypto, a: seq<Columns>, i: nat, b: seq<Columns>, j: nat)
    requires c.Faithful() && i < |a| && j < |b| && i != j
    requires c.CollisionFreeOn(Preimages(c, a) + Preimages(c, b))
    ensures RebuiltHash(c, a, i) != RebuiltHash(c, b, j)
  {
    var p, q := RebuiltPrevious(c, a, i), RebuiltPrevious(c, b, j);
    var x, y := Preimage(c, p, a[i].Hashed(), i), Preimage(c, q, b[j].Hashed(), j);
    if x == y {
      PreimageDecodable(c, p, a[i].Hashed(), i, q, b[j].Hashed(), j);
    }
    assert x in Preimages(c, a) && y in Preimages(c, b);
    assert !c.Collide(x, y);
  }

  /** Over a rebuilt ledger the recalculation computes the hashes of the new contents. */
  lemma {:induction false} StagedHash(c: Crypto, rows: seq<Row>, k: nat, edit: Edit, h: nat, q: nat, i: nat)
    requires Canonical(c, rows) && k < |rows| && k <= h <= |rows| && k <= q <= |rows| && i < |rows|
    ensures var edited := EditRow(rows, k, edit);
            var start := StartHash(edited, k);
            Staged(edited, k, start, LinkHashes(c, edited, k, start), h, q)[i].hash
            == if k <= i < h then RebuiltHash(c, Contents(rows)[k := Edited(rows[k].data, edit)], i)
               else RebuiltHash(c, Contents(rows), i)
  {
    var n := |rows|;
    var edited := EditRow(rows, k, edit);
    var start := StartHash(edited, k);
    var links := LinkHashes(c, edited, k, start);
    if k <= i {
      RewriteRefinesRebuild(c, rows, k, edit);
      assert StagedRow(edited, k, start, links, n, n, i)
             == RebuiltRow(c, Contents(rows)[k := Edited(rows[k].data, edit)], i);
    }
    CanonicalRow(c, rows, i);
    assert Staged(edited, k, start, links, h, q)[i] == StagedRow(edited, k, start, links, h, q, i);
  }

  /** A table whose hashes come from two rebuilds has no hash twice. */
  lemma {:induction false} MixedHashesDistinct(c: Crypto, s: seq<Row>, a: seq<Columns>, b: seq<Columns>, k: nat, h: nat)
    requires c.Faithful() && |s| == |a| == |b|
    requires c.CollisionFreeOn(Preimages(c, a) + Preimages(c, b))
    requires forall i: nat :: i < |s| ==>
               s[i].hash == if k <= i < h then RebuiltHash(c, b, i) else RebuiltHash(c, a, i)
    ensures UniqueHashes(s)
  {
    forall i: nat, j: nat | i < j < |s|
      ensures DifferentHashes(s, i, j)
    {
      DistinctAtDistinctIndices(c, if k <= i < h then b else a, i, if k <= j < h then b else a, j);
    }
  }

  /** All stored hashes are distinct after every single write of the recalculation loop, so no write
    violates the unique column and every predecessor lookup has one answer. */
  lemma {:induction false} HashesStayDistinct(
      c: Crypto, rows: seq<Row>, k: nat, edit: Edit, h: nat, q: nat,
      edited: seq<Row>, start: Option<string>, links: seq<string>)
    requires c.Faithful() && Canonical(c, rows) && k < |rows| && k <= h <= |rows| && k <= q <= |rows|
    requires edited == EditRow(rows, k, edit) && start == StartHash(edited, k)
    requires links == LinkHashes(c, edited, k, start)
    requires c.CollisionFreeOn(
               Preimages(c, Contents(rows)) + Preimages(c, Contents(rows)[k := Edited(rows[k].data, edit)]))
    ensures UniqueHashes(Staged(edited, k, start, links, h, q))
  {
    var a, b := Contents(rows), Contents(rows)[k := Edited(rows[k].data, edit)];
    var s := Staged(edited, k, start, links, h, q);
    forall i: nat | i < |rows|
      ensures s[i].hash == if k <= i < h then RebuiltHash(c, b, i) else RebuiltHash(c, a, i)
    {
      StagedHash(c, rows, k, edit, h, q, i);
    }
    MixedHashesDistinct(c, s, a, b, k, h);
  }

  /** Nor does appending violate it. */
  lemma {:induction false} AppendedHashIsFree(c: Crypto, rows: seq<Row>, data: Columns)
    requires c.Faithful() && Canonical(c, rows)
    requires c.CollisionFreeOn(Preimages(c, Contents(rows) + [data]))
    ensures HashFree(rows, |rows|, AppendedHash(c, rows, data))
  {
    AppendRefinesRebuild(c, rows, data);
    var b := Contents(rows) + [data];
    assert Preimages(c, b) + Preimages(c, b) == Preimages(c, b);
    var t := Appended(c, rows, data);
    forall j: nat | j < |rows|
      ensures rows[j].hash != AppendedHash(c, rows, data)
    {
      assert t[j] == RebuiltRow(c, b, j) && t[|rows|] == RebuiltRow(c, b, |rows|);
      DistinctAtDistinctIndices(c, b, j, b, |rows|);
    }
  }
}
