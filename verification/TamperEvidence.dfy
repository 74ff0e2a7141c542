/** What a successful verification proves about the contents of a ledger.

  Nothing is assumed about SHA-256: each result says that the ledgers agree or that two different
  preimages with the same digest have been found, and names them. */
module TamperEvidence {
  import opened Types
  import opened Decimals
  import opened Ledger

  // ---------------------------------------------------------------- reading a preimage back

  /** The first `ch` of a text splits it. */
  lemma {:induction false} SameHead(a: string, b: string, a': string, b': string, ch: char)
    requires a + b == a' + b'
    requires b != [] && b' != [] && b[0] == ch && b'[0] == ch
    requires ch !in a && ch !in a'
    ensures a == a' && b == b'
  {
    var s := a + b;
    assert s[|a|] == ch && s[|a'|] == ch;
    assert forall i :: 0 <= i < |a| ==> s[i] == a[i];
    assert forall i :: 0 <= i < |a'| ==> s[i] == a'[i];
    assert |a| == |a'|;
    assert s[..|a|] == a && s[..|a|] == a' && s[|a|..] == b && s[|a|..] == b';
  }

  /** The last `ch` of a text splits it. */
  lemma {:induction false} SameTail(a: string, b: string, a': string, b': string, ch: char)
    requires a + b == a' + b'
    requires a != [] && a' != [] && a[|a| - 1] == ch && a'[|a'| - 1] == ch
    requires ch !in b && ch !in b'
    ensures a == a' && b == b'
  {
    var s := a + b;
    assert s[|a| - 1] == ch && s[|a'| - 1] == ch;
    assert forall i :: |a| <= i < |s| ==> s[i] == b[i - |a|];
    assert forall i :: |a'| <= i < |s| ==> s[i] == b'[i - |a'|];
    assert |a| == |a'|;
    assert s[..|a|] == a && s[..|a|] == a' && s[|a|..] == b && s[|a|..] == b';
  }

  predicate ObjectText(s: string) {
    |s| >= 2 && s[0] == '{' && s[|s| - 1] == '}'
  }

  lemma {:induction false} SameParts(h: string, s: string, d: string, h': string, s': string, d': string)
    requires h + s + d == h' + s' + d'
    requires ObjectText(s) && ObjectText(s')
    requires '{' !in h && '{' !in h' && '}' !in d && '}' !in d'
    ensures h == h' && s == s' && d == d'
  {
    assert h + s + d == h + (s + d) && h' + s' + d' == h' + (s' + d');
    SameHead(h, s + d, h', s' + d', '{');
    SameTail(s, d, s', d', '}');
  }

  /** The link of a verified row: absent, or a digest. */
  ghost predicate Link(p: Option<string>) {
    p.Some? ==> IsDigest(p.value)
  }

  lemma {:induction false} LinkText(p: Option<string>)
    requires Link(p)
    ensures '{' !in OrElse(p, "GENESIS_BLOCK")
    ensures p.Some? ==> OrElse(p, "GENESIS_BLOCK") == p.value && |p.value| == 64
  {
  }

  /** The three parts are hashed without separators, yet the text they make determines them. */
  lemma {:induction false} PreimageDecodable(
      c: Crypto, p: Option<string>, x: HashInput, i: int, q: Option<string>, y: HashInput, j: int)
    requires c.Faithful() && Link(p) && Link(q)
    requires Preimage(c, p, x, i) == Preimage(c, q, y, j)
    ensures p == q && x == y && i == j
  {
    LinkText(p);
    LinkText(q);
    DecimalText(i);
    DecimalText(j);
    assert c.WritesObject(x) && c.WritesObject(y) && c.TellsApart(x, y);
    assert '}' !in Decimal(i) && '}' !in Decimal(j);
    SameParts(OrElse(p, "GENESIS_BLOCK"), c.stringify(x), Decimal(i),
              OrElse(q, "GENESIS_BLOCK"), c.stringify(y), Decimal(j));
    DecimalInjective(i, j);
    assert |"GENESIS_BLOCK"| == 13;
  }

  // ---------------------------------------------------------------- two verified ledgers

  function RowPreimage(c: Crypto, r: Row): string {
    Preimage(c, r.previousHash, r.data.Hashed(), r.chainIndex)
  }

  /** The request as far as it is hashed: all but `raw` and `parseErrors`. */
  predicate SameRequest(p: ParsedRequest, q: ParsedRequest) {
    && p.id == q.id && p.agentId == q.agentId && p.sessionId == q.sessionId && p.timestamp == q.timestamp
    && p.tool == q.tool && p.action == q.action && p.parameters == q.parameters && p.metadata == q.metadata
  }

  /** The columns that are hashed: all but the time of completion. */
  predicate SameContents(a: Columns, b: Columns) {
    && a.requestId == b.requestId && a.sessionId == b.sessionId && a.agentId == b.agentId
    && a.receivedAt == b.receivedAt && a.rawRequest == b.rawRequest
    && SameRequest(a.parsedRequest, b.parsedRequest)
    && a.validationResult == b.validationResult && a.decisionRecord == b.decisionRecord
    && a.executionResult == b.executionResult
  }

  /** What goes into a hash is these columns, each of them and no other. */
  lemma {:induction false} HashedExactly(a: Columns, b: Columns)
    ensures a.Hashed() == b.Hashed() <==> SameContents(a, b)
  {
  }

  predicate SameHashed(r: Row, s: Row) {
    && SameContents(r.data, s.data)
    && r.chainIndex == s.chainIndex && r.previousHash == s.previousHash && r.hash == s.hash
  }

  ghost predicate CollideAt(c: Crypto, a: seq<Row>, i: nat, b: seq<Row>, j: nat) {
    i < |a| && j < |b| && c.Collide(RowPreimage(c, a[i]), RowPreimage(c, b[j]))
  }

  ghost predicate CollisionBetween(c: Crypto, a: seq<Row>, b: seq<Row>) {
    exists i: nat, j: nat :: CollideAt(c, a, i, b, j)
  }

  lemma {:induction false} GoodLinks(c: Crypto, rows: seq<Row>, i: nat)
    requires i < |rows| && IntactUpTo(c, rows, i + 1)
    ensures Link(rows[i].previousHash)
  {
    assert Good(c, rows, i);
    if i > 0 {
      assert Good(c, rows, i - 1);
      assert rows[i].previousHash == Some(rows[i - 1].hash) && rows[i - 1].hash == RowHash(c, rows[i - 1]);
    }
  }

  /** Two rows with one digest agree on everything hashed, or they collide. */
  lemma {:induction false} SameDigest(c: Crypto, r: Row, s: Row)
    requires c.Faithful() && Link(r.previousHash) && Link(s.previousHash)
    requires r.hash == RowHash(c, r) && s.hash == RowHash(c, s) && r.hash == s.hash
    ensures SameHashed(r, s) || c.Collide(RowPreimage(c, r), RowPreimage(c, s))
  {
    if RowPreimage(c, r) == RowPreimage(c, s) {
      PreimageDecodable(c, r.previousHash, r.data.Hashed(), r.chainIndex,
                        s.previousHash, s.data.Hashed(), s.chainIndex);
    }
  }

  lemma {:induction false} AgreeBackFrom(c: Crypto, a: seq<Row>, m: nat, b: seq<Row>, n: nat)
    requires c.Faithful() && Intact(c, a) && Intact(c, b)
    requires m < |a| && n < |b| && a[m].hash == b[n].hash
    ensures (m == n && forall i :: 0 <= i <= m ==> SameHashed(a[i], b[i])) || CollisionBetween(c, a, b)
    decreases m
  {
    assert Good(c, a, m) && Good(c, b, n);
    GoodLinks(c, a, m);
    GoodLinks(c, b, n);
    SameDigest(c, a[m], b[n]);
    if !SameHashed(a[m], b[n]) {
      assert CollideAt(c, a, m, b, n);
    } else if m > 0 {
      AgreeBackFrom(c, a, m - 1, b, n - 1);
    }
  }

  /** Two verified ledgers with the same head hash have the same length and the same hashed fields
    at every index, unless a collision of SHA-256 can be read off them. */
  lemma {:induction false} HeadHashDeterminesLedger(c: Crypto, a: seq<Row>, b: seq<Row>)
    requires c.Faithful() && Intact(c, a) && Intact(c, b)
    requires a != [] && b != [] && a[|a| - 1].hash == b[|b| - 1].hash
    ensures (|a| == |b| && forall i :: 0 <= i < |a| ==> SameHashed(a[i], b[i])) || CollisionBetween(c, a, b)
  {
    AgreeBackFrom(c, a, |a| - 1, b, |b| - 1);
  }

  // ---------------------------------------------------------------- the law of the chain

  /** The object that is serialised for a row. */
  function Serialised(d: Columns): HashInput {
    var p := d.parsedRequest;
    HashInput(d.requestId, d.sessionId, d.agentId, d.receivedAt, d.rawRequest,
              HashedRequest(p.id, p.agentId, p.sessionId, p.timestamp, p.tool, p.action, p.parameters, p.metadata),
              d.validationResult, d.decisionRecord, d.executionResult)
  }

  /** The first row hangs on nothing and is hashed behind the genesis mark; every other one hangs on the hash of
    the row before, and is hashed behind it. Object and index follow, the index in decimal notation. */
  ghost predicate Chains(c: Crypto, rows: seq<Row>, i: nat)
    requires i < |rows|
  {
    var front := if i == 0 then "GENESIS_BLOCK" else rows[i - 1].hash;
    && rows[i].chainIndex == i
    && rows[i].previousHash == (if i == 0 then None else Some(rows[i - 1].hash))
    && rows[i].hash == c.sha(front + c.stringify(Serialised(rows[i].data)) + Decimal(i))
  }

  lemma {:induction false} ChainsIfGood(c: Crypto, rows: seq<Row>, i: nat)
    requires i < |rows| && (i > 0 ==> rows[i - 1].hash != "")
    ensures Chains(c, rows, i) <==> Good(c, rows, i)
  {
    assert Serialised(rows[i].data) == rows[i].data.Hashed();
  }

  /** A ledger verifies if and only if every row obeys the law of the chain. */
  lemma {:induction false} IntactExactly(c: Crypto, rows: seq<Row>)
    ensures Intact(c, rows) <==> forall i: nat :: i < |rows| ==> Chains(c, rows, i)
  {
    if Intact(c, rows) || (forall i: nat :: i < |rows| ==> Chains(c, rows, i)) {
      forall i: nat | i < |rows|
        ensures Chains(c, rows, i) <==> Good(c, rows, i)
      {
        if i > 0 {
          assert Good(c, rows, i - 1) || Chains(c, rows, i - 1);
          assert |rows[i - 1].hash| == 64;
        }
        ChainsIfGood(c, rows, i);
      }
    }
  }

  /** An empty link hashes as none does. */
  lemma {:induction false} EmptyLinkIsGenesis(c: Crypto, x: HashInput, i: int)
    ensures CalculateSHA256(c, Some(""), x, i) == CalculateSHA256(c, None, x, i)
            == c.sha("GENESIS_BLOCK" + c.stringify(x) + Decimal(i))
  {
  }

  // ---------------------------------------------------------------- edits of a verified ledger

  ghost predicate SameChain(a: seq<Row>, b: seq<Row>) {
    |a| == |b| && forall i :: 0 <= i < |a| ==>
      a[i].chainIndex == b[i].chainIndex && a[i].previousHash == b[i].previousHash && a[i].hash == b[i].hash
  }

  /** Contents edited, hash columns left alone: the smallest edited index is the one reported. */
  lemma {:induction false} ContentEditIsReported(c: Crypto, a: seq<Row>, b: seq<Row>, k: nat)
    requires c.Faithful() && Intact(c, a) && SameChain(a, b)
    requires k < |a| && !SameContents(a[k].data, b[k].data)
    requires forall i :: 0 <= i < k ==> SameContents(a[i].data, b[i].data)
    ensures FirstBad(c, b, k) || c.Collide(RowPreimage(c, a[k]), RowPreimage(c, b[k]))
  {
    forall i: nat | i < k
      ensures Good(c, b, i)
    {
      assert Good(c, a, i);
    }
    assert Good(c, a, k);
    GoodLinks(c, a, k);
    if Good(c, b, k) {
      SameDigest(c, a[k], b[k]);
    }
  }

  /** Row `k` edited together with its own hash. */
  function Forged(c: Crypto, a: seq<Row>, k: nat, data: Columns): seq<Row>
    requires k < |a|
  {
    a[k := a[k].(data := data, hash := CalculateSHA256(c, a[k].previousHash, data.Hashed(), a[k].chainIndex))]
  }

  /** A consistent edit of a row that has a successor is reported at the successor; one of the head
    row is not reported at all. */
  lemma {:induction false} ForgeryIsReportedNext(c: Crypto, a: seq<Row>, k: nat, data: Columns)
    requires c.Faithful() && Intact(c, a) && k < |a| && !SameContents(data, a[k].data)
    ensures var b := Forged(c, a, k, data);
            if k + 1 == |a| then Intact(c, b)
            else FirstBad(c, b, k + 1) || c.Collide(RowPreimage(c, a[k]), RowPreimage(c, b[k]))
  {
    var b := Forged(c, a, k, data);
    assert Good(c, a, k);
    forall i: nat | i <= k
      ensures Good(c, b, i)
    {
      assert Good(c, a, i);
    }
    if k + 1 < |a| {
      assert Good(c, a, k + 1);
      GoodLinks(c, a, k);
      if Good(c, b, k + 1) {
        SameDigest(c, a[k], b[k]);
      }
    }
  }

  /** The smallest row whose hashed contents differ, or the number of rows. */
  function FirstEdit(a: seq<Row>, b: seq<Row>, n: nat): (k: nat)
    requires n <= |a| == |b|
    ensures k <= n && forall i :: 0 <= i < k ==> SameContents(a[i].data, b[i].data)
    ensures k < n ==> !SameContents(a[k].data, b[k].data)
  {
    if n == 0 then 0
    else
      var k := FirstEdit(a, b, n - 1);
      if k < n - 1 || !SameContents(a[n - 1].data, b[n - 1].data) then k else n
  }

  /** Under unchanged chain columns a verified ledger still verifies if and only if no hashed field was
    edited; whatever else was edited goes unnoticed. */
  lemma {:induction false} VerifiedExactlyWhenUnedited(c: Crypto, a: seq<Row>, b: seq<Row>)
    requires c.Faithful() && Intact(c, a) && SameChain(a, b)
    ensures (Intact(c, b) <==> forall i :: 0 <= i < |a| ==> SameHashed(a[i], b[i])) || CollisionBetween(c, a, b)
  {
    var k := FirstEdit(a, b, |a|);
    if k < |a| {
      ContentEditIsReported(c, a, b, k);
      if !FirstBad(c, b, k) {
        assert CollideAt(c, a, k, b, k);
      }
    } else {
      forall i: nat | i < |b|
        ensures Good(c, b, i)
      {
        assert Good(c, a, i);
      }
    }
  }
}
