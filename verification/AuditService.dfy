/** The ledger operations as the service runs them, one database call after another. */
module AuditService {
  import opened Types
  import opened Ledger
  import opened LedgerProperties
  import opened LedgerOperations

  /** `findMany({ chainIndex: { gte: chainIndex } })`. */
  function FromIndex(rows: seq<Row>, chainIndex: int): seq<Row> {
    if rows == [] then []
    else if rows[0].chainIndex >= chainIndex then [rows[0]] + FromIndex(rows[1..], chainIndex)
    else FromIndex(rows[1..], chainIndex)
  }

  lemma {:induction false} FromIndexIsSuffix(rows: seq<Row>, k: nat)
    requires Ordered(rows) && k < |rows|
    ensures FromIndex(rows, rows[k].chainIndex) == rows[k..]
  {
    if k > 0 {
      assert Precedes(rows, 0, k);
      assert forall i: nat, j: nat :: i < j < |rows[1..]| ==> Precedes(rows, i + 1, j + 1) ==>
          Precedes(rows[1..], i, j);
      FromIndexIsSuffix(rows[1..], k - 1);
      assert rows[1..][k - 1..] == rows[k..];
    } else {
      forall i: nat | 0 < i < |rows|
        ensures rows[i].chainIndex >= rows[0].chainIndex
      {
        assert Precedes(rows, 0, i);
      }
      FromIndexIsAll(rows, rows[0].chainIndex);
    }
  }

  lemma {:induction false} FromIndexIsAll(rows: seq<Row>, chainIndex: int)
    requires forall i :: 0 <= i < |rows| ==> rows[i].chainIndex >= chainIndex
    ensures FromIndex(rows, chainIndex) == rows
  {
    if rows != [] {
      FromIndexIsAll(rows[1..], chainIndex);
    }
  }

  class AuditService {
    const crypto: Crypto
    var rows: seq<Row>

    constructor (crypto: Crypto)
      ensures this.crypto == crypto && rows == [] && Table(rows) && Canonical(crypto, rows)
    {
      this.crypto := crypto;
      rows := [];
    }

    /** Appends a row: created with a temporary hash, read back, hashed, and linked to. */
    method Record(data: Columns, tempHash: string) returns (r: Outcome)
      modifies this
      ensures Effect(rows, r) == RecordEffect(crypto, old(rows), data, tempHash)
      ensures r.Recorded? ==> rows == Appended(crypto, old(rows), data) && r.row == rows[|rows| - 1]
    {
      var latest := if rows == [] then None else Some(rows[|rows| - 1]);
      var chainIndex := if latest.Some? then latest.value.chainIndex + 1 else 0;
      var previousHash := if latest.Some? then Some(latest.value.hash) else None;
      if FindRequest(rows, data.requestId).Some? || FindHash(rows, tempHash).Some? {
        return DuplicateRow;
      }
      var id := |rows|;
      rows := rows + [Row(data, chainIndex, previousHash, tempHash, None)];
      var current := rows[id];
      var hash := CalculateSHA256(crypto, previousHash, current.data.Hashed(), chainIndex);
      assert forall j :: 0 <= j < id ==> rows[j] == old(rows)[j];
      if !HashFree(rows, id, hash) {
        return UniqueViolation;
      }
      rows := rows[id := rows[id].(hash := hash)];
      var updatedRecord := rows[id];
      if latest.Some? {
        rows := rows[id - 1 := rows[id - 1].(nextHash := Some(hash))];
      }
      assert rows == Appended(crypto, old(rows), data) && rows[id] == updatedRecord;
      return Recorded(updatedRecord);
    }

    /** `update({ where: { id }, data: { previousHash, hash } })`, which the unique column may refuse. */
    method WriteHash(id: nat, previousHash: Option<string>, hash: string) returns (ok: bool)
      requires id < |rows|
      modifies this
      ensures ok == HashFree(old(rows), id, hash)
      ensures rows == if ok then old(rows)[id := old(rows)[id].(previousHash := previousHash, hash := hash)]
                      else old(rows)
    {
      ok := HashFree(rows, id, hash);
      if ok {
        rows := rows[id := rows[id].(previousHash := previousHash, hash := hash)];
      }
    }

    /** The row that stores `hash` is found and told the hash of its successor. */
    method WriteNextHash(hash: string, nextHash: string)
      modifies this
      ensures var found := FindHash(old(rows), hash);
              rows == if found.None? then old(rows)
                      else old(rows)[found.value := old(rows)[found.value].(nextHash := Some(nextHash))]
    {
      var prevRecord := FindHash(rows, hash);
      if prevRecord.Some? {
        rows := rows[prevRecord.value := rows[prevRecord.value].(nextHash := Some(nextHash))];
      }
    }

    /** One round of the loop: row `h` gets the hash of its content and of its predecessor's new hash,
      and the predecessor gets the new hash as its link. */
    method RelinkRow(rec: Row, h: nat, lastHash: Option<string>, ghost edited: seq<Row>, ghost k: nat,
                     ghost start: Option<string>, ghost links: seq<string>)
      returns (written: bool, newHash: string)
      requires Chained(crypto, edited, k, start, links) && k <= h < |edited|
      requires rec == edited[h] && Ordered(edited) && UniqueHashes(edited) && start == StartHash(edited, k)
      requires rows == Staged(edited, k, start, links, h, h) && FirstRefusal(edited, k, start, links, k) >= h
      requires lastHash == LinkPrevious(k, start, links, h)
      modifies this
      ensures written == WriteFits(edited, k, start, links, h)
      ensures rows == if written then Staged(edited, k, start, links, h + 1, h + 1) else old(rows)
      ensures newHash == links[h - k]
    {
      newHash := CalculateSHA256(crypto, lastHash, rec.data.Hashed(), rec.chainIndex);
      assert ChainedAt(crypto, edited, k, start, links, h);
      written := WriteHash(h, lastHash, newHash);
      if written {
        StageNothing(edited, k, start, links);
        DistinctSoFar(edited, k, start, links, k, h);
        FittingKeepsDistinct(edited, k, start, links, h);
        StageHash(edited, k, start, links, h);
        ghost var s := rows;
        if lastHash.Some? {
          WriteNextHash(lastHash.value, newHash);
        }
        LinkStep(edited, k, start, links, h, s, rows);
      }
    }

    method Recalculate(records: seq<Row>, k: nat, start: Option<string>, ghost links: seq<string>) returns (ok: bool)
      requires k < |rows| && |records| == |rows| - k
      requires forall i :: 0 <= i < |records| ==> records[i] == rows[k + i]
      requires UniqueHashes(rows) && Ordered(rows)
      requires start == StartHash(rows, k) && Chained(crypto, rows, k, start, links)
      modifies this
      ensures ok <==> FirstRefusal(old(rows), k, start, links, k) == |old(rows)|
      ensures rows == Recalculated(old(rows), k, start, links)
    {
      ghost var edited := rows;
      var lastHash := start;
      StageNothing(edited, k, start, links);
      for h := k to k + |records|
        invariant rows == Staged(edited, k, start, links, h, h)
        invariant lastHash == LinkPrevious(k, start, links, h)
        invariant FirstRefusal(edited, k, start, links, h) == FirstRefusal(edited, k, start, links, k)
      {
        var written, newHash := RelinkRow(records[h - k], h, lastHash, edited, k, start, links);
        if !written {
          return false;
        }
        lastHash := Some(newHash);
      }
      return true;
    }

    /** Rewrites one row and re-hashes it and every later row. It stops part-way exactly when a
      recomputed hash is already stored in another row. */
    method UpdateRecordAndRecalculate(requestId: string, edit: Edit) returns (r: Outcome)
      requires Table(rows)
      modifies this
      ensures Effect(rows, r) == RewriteEffect(crypto, old(rows), requestId, edit)
      ensures r.Rewrote? ==>
                FindRequest(old(rows), requestId).Some?
                && rows == Rewritten(crypto, old(rows), FindRequest(old(rows), requestId).value, edit)
    {
      var found := FindRequest(rows, requestId);
      if found.None? {
        return NotFound;
      }
      var k := found.value;
      var recordToUpdate := rows[k];
      rows := EditRow(rows, k, edit);
      EditKeepsChain(old(rows), k, edit);
      var recordsToRecalculate := FromIndex(rows, recordToUpdate.chainIndex);
      FromIndexIsSuffix(rows, k);
      var lastHash := None;
      if recordToUpdate.chainIndex != 0 {
        var before := FindIndex(rows, recordToUpdate.chainIndex - 1);
        if before.Some? && rows[before.value].hash != "" {
          lastHash := Some(rows[before.value].hash);
        }
      }
      LinkHashesChained(crypto, rows, k, lastHash);
      var ok := Recalculate(recordsToRecalculate, k, lastHash, LinkHashes(crypto, rows, k, lastHash));
      if !ok {
        return UniqueViolation;
      }
      return Rewrote(rows[k]);
    }

    /** Reports the first row that fails, and the first of its three tests that does. */
    method VerifyChain() returns (r: Outcome)
      ensures r == Checked(Verify(crypto, rows)) && Reports(crypto, rows, r.report)
    {
      VerifyIsExact(crypto, rows);
      var records := rows;
      for i := 0 to |records|
        invariant Verify(crypto, records) == Verify(crypto, records, i)
      {
        var current := records[i];
        if current.chainIndex != i {
          return Checked(Tampered(i, IndexMismatch(i, current.chainIndex)));
        }
        var expectedPrevHash := if i == 0 then None else Some(records[i - 1].hash);
        if current.previousHash != expectedPrevHash {
          return Checked(Tampered(i, LinkMismatch(expectedPrevHash, current.previousHash)));
        }
        var computedHash := CalculateSHA256(crypto, current.previousHash, current.data.Hashed(), current.chainIndex);
        if current.hash != computedHash {
          return Checked(Tampered(i, IntegrityFailure(computedHash, current.hash)));
        }
      }
      return Checked(Verified);
    }
  }
}
