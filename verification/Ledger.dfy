/** The audit table, what its columns hash to, and what each ledger operation does to it.

  The table is the sequence `findMany({ orderBy: { chainIndex: 'asc' } })` returns. No operation
  changes a `chainIndex` or deletes a row, and `record` appends one above the largest, so the position
  of a row never changes and stands for its primary key. */
module Ledger {
  import opened Types
  import opened Decimals

  predicate HexDigit(ch: char) {
    '0' <= ch <= '9' || 'a' <= ch <= 'f'
  }

  predicate IsDigest(s: string) {
    |s| == 64 && forall i :: 0 <= i < |s| ==> HexDigit(s[i])
  }

  /** What `digest('hex')` of SHA-256 returns. */
  type Digest = s: string | IsDigest(s) witness Zeros(64)

  function Zeros(n: nat): (s: string)
    ensures |s| == n && forall i :: 0 <= i < |s| ==> s[i] == '0'
  {
    seq(n, i => '0')
  }

  /** The part of a parsed request that is hashed: `raw` and `parseErrors` are not. */
  datatype HashedRequest = HashedRequest(
    id: string,
    agentId: string,
    sessionId: string,
    timestamp: int,
    tool: Tool,
    action: Action,
    parameters: Json,
    metadata: Json)

  datatype HashInput = HashInput(
    requestId: string,
    sessionId: string,
    agentId: string,
    receivedAt: int,
    rawRequest: Json,
    parsedRequest: HashedRequest,
    validationResult: ValidationResult,
    decisionRecord: Decision,
    executionResult: Option<Execution>)

  /** The columns of a row that carry content rather than links. */
  datatype Columns = Columns(
    requestId: string,
    sessionId: string,
    agentId: string,
    receivedAt: int,
    completedAt: int,
    rawRequest: Json,
    parsedRequest: ParsedRequest,
    validationResult: ValidationResult,
    decisionRecord: Decision,
    executionResult: Option<Execution>)
  {
    function Hashed(): HashInput {
      HashInput(requestId, sessionId, agentId, receivedAt, rawRequest,
                HashedRequest(parsedRequest.id, parsedRequest.agentId, parsedRequest.sessionId,
                              parsedRequest.timestamp, parsedRequest.tool, parsedRequest.action,
                              parsedRequest.parameters, parsedRequest.metadata),
                validationResult, decisionRecord, executionResult)
    }
  }

  datatype Row = Row(
    data: Columns,
    chainIndex: int,
    previousHash: Option<string>,
    hash: string,
    nextHash: Option<string>)

  /** SHA-256 and `JSON.stringify` as the ledger uses them. */
  datatype Crypto = Crypto(sha: string -> Digest, stringify: HashInput -> string) {

    predicate WritesObject(x: HashInput) {
      var s := stringify(x);
      |s| >= 2 && s[0] == '{' && s[|s| - 1] == '}'
    }

    predicate TellsApart(x: HashInput, y: HashInput) {
      stringify(x) == stringify(y) ==> x == y
    }

    /** The serialiser is injective and writes an object, from its opening to its closing brace. */
    ghost predicate Faithful() {
      && (forall x :: WritesObject(x))
      && (forall x, y :: TellsApart(x, y))
    }

    predicate Collide(x: string, y: string) {
      x != y && sha(x) == sha(y)
    }

    ghost predicate CollisionFreeOn(preimages: set<string>) {
      forall x, y {:trigger Collide(x, y)} :: x in preimages && y in preimages ==> !Collide(x, y)
    }
  }

  // ---------------------------------------------------------------- hashing

  /** A JavaScript string is falsy when it is empty, a missing one always is. */
  function OrElse(s: Option<string>, other: string): string {
    if s.Some? && s.value != "" then s.value else other
  }

  function Preimage(c: Crypto, previousHash: Option<string>, input: HashInput, index: int): string {
    OrElse(previousHash, "GENESIS_BLOCK") + c.stringify(input) + Decimal(index)
  }

  function CalculateSHA256(c: Crypto, previousHash: Option<string>, input: HashInput, index: int): Digest {
    c.sha(Preimage(c, previousHash, input, index))
  }

  // ---------------------------------------------------------------- the check

  datatype Reason =
    | IndexMismatch(expected: int, foundIndex: int)
    | LinkMismatch(expectedLink: Option<string>, foundLink: Option<string>)
    | IntegrityFailure(computed: string, foundHash: string)

  datatype Report = Verified | Tampered(index: nat, reason: Reason)

  function ExpectedPrevious(rows: seq<Row>, i: nat): Option<string>
    requires i < |rows|
  {
    if i == 0 then None else Some(rows[i - 1].hash)
  }

  function RowHash(c: Crypto, r: Row): Digest {
    CalculateSHA256(c, r.previousHash, r.data.Hashed(), r.chainIndex)
  }

  /** Row `i` sits at its index, links to its predecessor and stores the hash of what it holds. */
  predicate Good(c: Crypto, rows: seq<Row>, i: nat)
    requires i < |rows|
  {
    && rows[i].chainIndex == i
    && rows[i].previousHash == ExpectedPrevious(rows, i)
    && rows[i].hash == RowHash(c, rows[i])
  }

  ghost predicate IntactUpTo(c: Crypto, rows: seq<Row>, n: nat)
    requires n <= |rows|
  {
    forall i: nat :: i < n ==> Good(c, rows, i)
  }

  ghost predicate Intact(c: Crypto, rows: seq<Row>) {
    IntactUpTo(c, rows, |rows|)
  }

  /** `k` is the index `verifyChain` has to report. */
  ghost predicate FirstBad(c: Crypto, rows: seq<Row>, k: nat) {
    k < |rows| && IntactUpTo(c, rows, k) && !Good(c, rows, k)
  }

  /** The reason given for row `i` is the first of the three tests that fails. */
  predicate ReasonFor(c: Crypto, rows: seq<Row>, i: nat, reason: Reason)
    requires i < |rows|
  {
    match reason
    case IndexMismatch(expected, found) =>
      found != i && expected == i && found == rows[i].chainIndex
    case LinkMismatch(expected, found) =>
      && rows[i].chainIndex == i
      && found != expected && expected == ExpectedPrevious(rows, i) && found == rows[i].previousHash
    case IntegrityFailure(computed, found) =>
      && rows[i].chainIndex == i && rows[i].previousHash == ExpectedPrevious(rows, i)
      && found != computed && computed == RowHash(c, rows[i]) && found == rows[i].hash
  }

  ghost predicate Reports(c: Crypto, rows: seq<Row>, report: Report) {
    match report
    case Verified => Intact(c, rows)
    case Tampered(i, reason) => FirstBad(c, rows, i) && ReasonFor(c, rows, i, reason)
  }

  /** The report, as a function of the table. */
  function Verify(c: Crypto, rows: seq<Row>, i: nat := 0): Report
    requires i <= |rows|
    decreases |rows| - i
  {
    if i == |rows| then Verified
    else if rows[i].chainIndex != i then Tampered(i, IndexMismatch(i, rows[i].chainIndex))
    else if rows[i].previousHash != ExpectedPrevious(rows, i) then
      Tampered(i, LinkMismatch(ExpectedPrevious(rows, i), rows[i].previousHash))
    else if rows[i].hash != RowHash(c, rows[i]) then
      Tampered(i, IntegrityFailure(RowHash(c, rows[i]), rows[i].hash))
    else Verify(c, rows, i + 1)
  }

  // ---------------------------------------------------------------- the table

  predicate DifferentHashes(rows: seq<Row>, i: nat, j: nat)
    requires i < |rows| && j < |rows|
  {
    rows[i].hash != rows[j].hash
  }

  predicate DifferentRequests(rows: seq<Row>, i: nat, j: nat)
    requires i < |rows| && j < |rows|
  {
    rows[i].data.requestId != rows[j].data.requestId
  }

  predicate Precedes(rows: seq<Row>, i: nat, j: nat)
    requires i < |rows| && j < |rows|
  {
    rows[i].chainIndex < rows[j].chainIndex
  }

  /** `hash` and `requestId` are unique columns. */
  ghost predicate UniqueHashes(rows: seq<Row>) {
    forall i: nat, j: nat :: i < j < |rows| ==> DifferentHashes(rows, i, j)
  }

  ghost predicate UniqueRequests(rows: seq<Row>) {
    forall i: nat, j: nat :: i < j < |rows| ==> DifferentRequests(rows, i, j)
  }

  ghost predicate Ordered(rows: seq<Row>) {
    forall i: nat, j: nat :: i < j < |rows| ==> Precedes(rows, i, j)
  }

  ghost predicate Table(rows: seq<Row>) {
    UniqueHashes(rows) && UniqueRequests(rows) && Ordered(rows)
  }

  function FindRequest(rows: seq<Row>, requestId: string): (r: Option<nat>)
    ensures r.Some? ==> r.value < |rows| && rows[r.value].data.requestId == requestId
    ensures r.None? ==> forall i :: 0 <= i < |rows| ==> rows[i].data.requestId != requestId
  {
    if rows == [] then None
    else if rows[|rows| - 1].data.requestId == requestId then Some(|rows| - 1)
    else FindRequest(rows[..|rows| - 1], requestId)
  }

  function FindHash(rows: seq<Row>, hash: string): (r: Option<nat>)
    ensures r.Some? ==> r.value < |rows| && rows[r.value].hash == hash
    ensures r.None? ==> forall i :: 0 <= i < |rows| ==> rows[i].hash != hash
  {
    if rows == [] then None
    else if rows[|rows| - 1].hash == hash then Some(|rows| - 1)
    else FindHash(rows[..|rows| - 1], hash)
  }

  function FindIndex(rows: seq<Row>, chainIndex: int): (r: Option<nat>)
    ensures r.Some? ==> r.value < |rows| && rows[r.value].chainIndex == chainIndex
    ensures r.None? ==> forall i :: 0 <= i < |rows| ==> rows[i].chainIndex != chainIndex
  {
    if rows == [] then None
    else if rows[|rows| - 1].chainIndex == chainIndex then Some(|rows| - 1)
    else FindIndex(rows[..|rows| - 1], chainIndex)
  }

  /** The unique constraint on `hash` lets row `i` take the value. */
  predicate HashFree(rows: seq<Row>, i: nat, hash: string) {
    forall j :: 0 <= j < |rows| && j != i ==> rows[j].hash != hash
  }

  // ---------------------------------------------------------------- appending

  function LatestHash(rows: seq<Row>): Option<string> {
    if rows == [] then None else Some(rows[|rows| - 1].hash)
  }

  function NextIndex(rows: seq<Row>): int {
    if rows == [] then 0 else rows[|rows| - 1].chainIndex + 1
  }

  function AppendedHash(c: Crypto, rows: seq<Row>, data: Columns): Digest {
    CalculateSHA256(c, LatestHash(rows), data.Hashed(), NextIndex(rows))
  }

  /** The row as it is first created, before its hash is known. */
  function TemporaryRow(rows: seq<Row>, data: Columns, tempHash: string): Row {
    Row(data, NextIndex(rows), LatestHash(rows), tempHash, None)
  }

  /** The table once `record` has appended a row for `data`. */
  function Appended(c: Crypto, rows: seq<Row>, data: Columns): seq<Row> {
    var hash := AppendedHash(c, rows, data);
    PatchNext(rows, |rows|, hash) + [Row(data, NextIndex(rows), LatestHash(rows), hash, None)]
  }

  /** The predecessor of position `i`, if there is one, learns the hash of its successor. */
  function PatchNext(rows: seq<Row>, i: nat, hash: string): seq<Row>
    requires i <= |rows|
  {
    if i == 0 then rows else rows[i - 1 := rows[i - 1].(nextHash := Some(hash))]
  }

  // ---------------------------------------------------------------- rewriting

  /** What a caller of `updateRecordAndRecalculate` may change. */
  datatype Edit = Edit(
    decisionRecord: Decision,
    executionResult: Option<Execution>,
    validationResult: Option<ValidationResult>,
    parsedRequest: Option<ParsedRequest>,
    completedAt: int)

  function Edited(data: Columns, edit: Edit): Columns {
    var d := data.(decisionRecord := edit.decisionRecord,
                   executionResult := edit.executionResult,
                   completedAt := edit.completedAt);
    var d := if edit.validationResult.Some? then d.(validationResult := edit.validationResult.value) else d;
    if edit.parsedRequest.Some? then d.(parsedRequest := edit.parsedRequest.value) else d
  }

  function EditRow(rows: seq<Row>, k: nat, edit: Edit): seq<Row>
    requires k < |rows|
  {
    rows[k := rows[k].(data := Edited(rows[k].data, edit))]
  }

  /** The hash the recalculation starts from. */
  function StartHash(rows: seq<Row>, k: nat): Option<string>
    requires k < |rows|
  {
    if rows[k].chainIndex == 0 then None
    else
      match FindIndex(rows, rows[k].chainIndex - 1)
      case None => None
      case Some(p) => if rows[p].hash == "" then None else Some(rows[p].hash)
  }

  /** The hash row `j` gets when the chain is recomputed from row `k` on. */
  function LinkHash(c: Crypto, rows: seq<Row>, k: nat, start: Option<string>, j: nat): Digest
    requires k <= j < |rows|
    decreases j
  {
    var previous := if j == k then start else Some(LinkHash(c, rows, k, start, j - 1));
    CalculateSHA256(c, previous, rows[j].data.Hashed(), rows[j].chainIndex)
  }

  function LinkHashesUpTo(c: Crypto, rows: seq<Row>, k: nat, start: Option<string>, j: nat): (links: seq<string>)
    requires k <= j <= |rows|
    ensures |links| == j - k
    ensures forall i: nat {:trigger LinkHash(c, rows, k, start, i)} :: k <= i < j ==>
              links[i - k] == LinkHash(c, rows, k, start, i)
    decreases j
  {
    if j == k then [] else LinkHashesUpTo(c, rows, k, start, j - 1) + [LinkHash(c, rows, k, start, j - 1)]
  }

  function LinkHashes(c: Crypto, rows: seq<Row>, k: nat, start: Option<string>): (links: seq<string>)
    requires k <= |rows|
    ensures |links| == |rows| - k
  {
    LinkHashesUpTo(c, rows, k, start, |rows|)
  }

  /** `previousHash` of row `j` when the rows from `k` on have the hashes `links`. */
  function LinkPrevious(k: nat, start: Option<string>, links: seq<string>, j: nat): Option<string>
    requires k <= j <= k + |links|
  {
    if j == k then start else Some(links[j - k - 1])
  }

  /** Row `i` once the hashes of rows `k..h` and the forward links to rows `k..q` have been rewritten. */
  function StagedRow(rows: seq<Row>, k: nat, start: Option<string>, links: seq<string>, h: nat, q: nat, i: nat): Row
    requires k + |links| == |rows| && k <= h <= |rows| && k <= q <= |rows| && i < |rows|
  {
    var r := if k <= i < h
             then rows[i].(previousHash := LinkPrevious(k, start, links, i), hash := links[i - k])
             else rows[i];
    if k <= i + 1 < q && (i + 1 > k || start.Some?) then r.(nextHash := Some(links[i + 1 - k])) else r
  }

  function StagedUpTo(rows: seq<Row>, k: nat, start: Option<string>, links: seq<string>, h: nat, q: nat,
                      n: nat): (r: seq<Row>)
    requires k + |links| == |rows| && k <= h <= |rows| && k <= q <= |rows| && n <= |rows|
    ensures |r| == n
    ensures forall i: nat {:trigger StagedRow(rows, k, start, links, h, q, i)} ::
              i < n ==> r[i] == StagedRow(rows, k, start, links, h, q, i)
  {
    if n == 0 then []
    else StagedUpTo(rows, k, start, links, h, q, n - 1) + [StagedRow(rows, k, start, links, h, q, n - 1)]
  }

  function Staged(rows: seq<Row>, k: nat, start: Option<string>, links: seq<string>, h: nat, q: nat): (r: seq<Row>)
    requires k + |links| == |rows| && k <= h <= |rows| && k <= q <= |rows|
    ensures |r| == |rows|
    ensures forall i: nat {:trigger StagedRow(rows, k, start, links, h, q, i)} ::
              i < |rows| ==> r[i] == StagedRow(rows, k, start, links, h, q, i)
  {
    StagedUpTo(rows, k, start, links, h, q, |rows|)
  }

  lemma {:induction false} StagedRows(rows: seq<Row>, k: nat, start: Option<string>, links: seq<string>, h: nat, q: nat)
    requires k + |links| == |rows| && k <= h <= |rows| && k <= q <= |rows|
    ensures forall i: nat {:trigger Staged(rows, k, start, links, h, q)[i]} ::
              i < |rows| ==> Staged(rows, k, start, links, h, q)[i] == StagedRow(rows, k, start, links, h, q, i)
  {
    forall i: nat | i < |rows|
      ensures Staged(rows, k, start, links, h, q)[i] == StagedRow(rows, k, start, links, h, q, i)
    {
    }
  }

  /** The table once row `k` has been rewritten and everything from `k` on re-hashed. */
  function Rewritten(c: Crypto, rows: seq<Row>, k: nat, edit: Edit): seq<Row>
    requires k < |rows|
  {
    var edited := EditRow(rows, k, edit);
    var start := StartHash(edited, k);
    Staged(edited, k, start, LinkHashes(c, edited, k, start), |rows|, |rows|)
  }
}
