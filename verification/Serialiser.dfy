/** A serialiser as the ledger needs it: injective on everything that is hashed, and writing an object from
  its opening to its closing brace. Values become trees of texts, and trees are written with their lengths
  in front. */
module Serialiser {
  import opened Types
  import opened Decimals
  import opened Ledger
  import opened TamperEvidence

  datatype Tree = Leaf(text: string) | Node(children: seq<Tree>)

  // ---------------------------------------------------------------- trees as text

  function Counted(n: nat): string {
    Natural(n) + ":"
  }

  function Written(t: Tree): string
    decreases t
  {
    match t
    case Leaf(text) => ['"'] + Counted(|text|) + text
    case Node(children) => ['['] + Counted(|children|) + WrittenAll(children)
  }

  function WrittenAll(ts: seq<Tree>): string
    decreases ts
  {
    if ts == [] then "" else Written(ts[0]) + WrittenAll(ts[1..])
  }

  lemma {:induction false} CountedIsRead(m: nat, u: string, n: nat, v: string)
    requires Counted(m) + u == Counted(n) + v
    ensures m == n && u == v
  {
    NaturalText(m);
    NaturalText(n);
    assert Counted(m) + u == Natural(m) + (":" + u) && Counted(n) + v == Natural(n) + (":" + v);
    SameHead(Natural(m), ":" + u, Natural(n), ":" + v, ':');
    NaturalInjective(m, n);
    assert (":" + u)[1..] == u && (":" + v)[1..] == v;
  }

  /** A tag, a count and a body that has the length counted. */
  lemma {:induction false} TaggedIsRead(tag: char, m: nat, x: string, u: string, tag': char, n: nat, y: string,
                                        v: string)
    requires [tag] + Counted(m) + x + u == [tag'] + Counted(n) + y + v
    ensures tag == tag' && m == n && x + u == y + v
  {
    var s, t := [tag] + Counted(m) + x + u, [tag'] + Counted(n) + y + v;
    assert s[0] == tag && t[0] == tag';
    assert s[1..] == Counted(m) + (x + u) && t[1..] == Counted(n) + (y + v);
    CountedIsRead(m, x + u, n, y + v);
  }

  lemma {:induction false} SameLength(x: string, u: string, y: string, v: string)
    requires x + u == y + v && |x| == |y|
    ensures x == y && u == v
  {
    assert (x + u)[..|x|] == x && (y + v)[..|y|] == y;
    assert (x + u)[|x|..] == u && (y + v)[|y|..] == v;
  }

  function Tag(t: Tree): char {
    if t.Leaf? then '"' else '['
  }

  function Size(t: Tree): nat {
    if t.Leaf? then |t.text| else |t.children|
  }

  function Body(t: Tree): string {
    if t.Leaf? then t.text else WrittenAll(t.children)
  }

  /** Whatever follows, a written tree can be read back, and what follows it too. */
  lemma {:induction false} WrittenIsRead(a: Tree, u: string, b: Tree, v: string)
    requires Written(a) + u == Written(b) + v
    ensures a == b && u == v
    decreases a
  {
    TaggedIsRead(Tag(a), Size(a), Body(a), u, Tag(b), Size(b), Body(b), v);
    if a.Leaf? {
      SameLength(a.text, u, b.text, v);
    } else {
      WrittenAllIsRead(a.children, u, b.children, v);
    }
  }

  lemma {:induction false} WrittenAllIsRead(a: seq<Tree>, u: string, b: seq<Tree>, v: string)
    requires |a| == |b| && WrittenAll(a) + u == WrittenAll(b) + v
    ensures a == b && u == v
    decreases a
  {
    if a == [] {
      assert "" + u == u && "" + v == v;
    } else {
      assert WrittenAll(a) + u == Written(a[0]) + (WrittenAll(a[1..]) + u);
      assert WrittenAll(b) + v == Written(b[0]) + (WrittenAll(b[1..]) + v);
      WrittenIsRead(a[0], WrittenAll(a[1..]) + u, b[0], WrittenAll(b[1..]) + v);
      WrittenAllIsRead(a[1..], u, b[1..], v);
      assert a == [a[0]] + a[1..] && b == [b[0]] + b[1..];
    }
  }

  // ---------------------------------------------------------------- values as trees

  function OfBool(b: bool): Tree {
    Leaf(if b then "t" else "f")
  }

  function OfOption(o: Option<Tree>): Tree {
    match o
    case None => Node([])
    case Some(t) => Node([t])
  }

  function OfNumber(n: Number): Tree {
    Node([Leaf(Decimal(n.mantissa)), Leaf(Decimal(n.decimals))])
  }

  function OfJson(v: Json): Tree
    decreases v
  {
    match v
    case JNull => Leaf("null")
    case JBool(b) => OfBool(b)
    case JNum(n) => Node([Leaf("number"), OfNumber(n)])
    case JStr(s) => Node([Leaf("string"), Leaf(s)])
    case JArr(items) => Node([Leaf("array"), Node(OfItems(items))])
    case JObj(fields) => Node([Leaf("object"), Node(OfFields(fields))])
  }

  function OfItems(items: seq<Json>): (r: seq<Tree>)
    ensures |r| == |items|
    decreases items
  {
    if items == [] then [] else OfItems(items[..|items| - 1]) + [OfJson(items[|items| - 1])]
  }

  function OfFields(fields: seq<Field>): (r: seq<Tree>)
    ensures |r| == |fields|
    decreases fields
  {
    if fields == [] then []
    else
      var last := fields[|fields| - 1];
      OfFields(fields[..|fields| - 1]) + [Node([Leaf(last.key), OfJson(last.value)])]
  }

  lemma {:induction false} NumbersApart(m: Number, n: Number)
    requires OfNumber(m) == OfNumber(n)
    ensures m == n
  {
    var a, b := OfNumber(m).children, OfNumber(n).children;
    assert a[0] == b[0] && a[1] == b[1];
    DecimalInjective(m.mantissa, n.mantissa);
    DecimalInjective(m.decimals, n.decimals);
  }

  lemma {:induction false} JsonApart(v: Json, w: Json)
    requires OfJson(v) == OfJson(w)
    ensures v == w
    decreases v
  {
    if OfJson(v).Node? {
      var a, b := OfJson(v).children, OfJson(w).children;
      assert a[0] == b[0] && a[1] == b[1];
      TagsApart(v, w);
      if v.JNum? {
        NumbersApart(v.n, w.n);
      } else if v.JArr? {
        ItemsApart(v.items, w.items);
      } else if v.JObj? {
        FieldsApart(v.fields, w.fields);
      }
    } else {
      assert |"null"| == 4 && "t"[0] != "f"[0];
    }
  }

  lemma {:induction false} TagsApart(v: Json, w: Json)
    requires OfJson(v).Node? && OfJson(w).Node? && OfJson(v).children[0] == OfJson(w).children[0]
    ensures v.JNum? == w.JNum? && v.JStr? == w.JStr? && v.JArr? == w.JArr? && v.JObj? == w.JObj?
  {
    assert "number"[0] == 'n' && "string"[0] == 's' && "array"[0] == 'a' && "object"[0] == 'o';
  }

  lemma {:induction false} ItemsApart(a: seq<Json>, b: seq<Json>)
    requires OfItems(a) == OfItems(b)
    ensures a == b
    decreases a
  {
    if a != [] {
      var n := |a| - 1;
      assert |OfItems(a)| == |OfItems(b)|;
      assert OfItems(a)[..n] == OfItems(a[..n]) && OfItems(b)[..n] == OfItems(b[..n]);
      assert OfItems(a)[n] == OfJson(a[n]) && OfItems(b)[n] == OfJson(b[n]);
      ItemsApart(a[..n], b[..n]);
      JsonApart(a[n], b[n]);
      assert a == a[..n] + [a[n]] && b == b[..n] + [b[n]];
    }
  }

  lemma {:induction false} FieldsApart(a: seq<Field>, b: seq<Field>)
    requires OfFields(a) == OfFields(b)
    ensures a == b
    decreases a
  {
    if a != [] {
      var n := |a| - 1;
      assert |OfFields(a)| == |OfFields(b)|;
      assert OfFields(a)[..n] == OfFields(a[..n]) && OfFields(b)[..n] == OfFields(b[..n]);
      var x, y := OfFields(a)[n].children, OfFields(b)[n].children;
      assert x == [Leaf(a[n].key), OfJson(a[n].value)] && y == [Leaf(b[n].key), OfJson(b[n].value)];
      assert x[0] == y[0] && x[1] == y[1];
      FieldsApart(a[..n], b[..n]);
      JsonApart(a[n].value, b[n].value);
      assert a == a[..n] + [a[n]] && b == b[..n] + [b[n]];
    }
  }

  // ---------------------------------------------------------------- what is hashed

  function OfStatus(s: CheckStatus): Tree {
    match s
    case PASS => Leaf("P")
    case FAIL => Leaf("F")
    case WARNING => Leaf("W")
    case SKIPPED => Leaf("S")
    case ERROR => Leaf("E")
  }

  function OfSeverity(s: Severity): Tree {
    match s
    case SevLow => Leaf("L")
    case SevMedium => Leaf("M")
    case SevHigh => Leaf("H")
    case SevCritical => Leaf("C")
  }

  function OfRiskLevel(r: RiskLevel): Tree {
    match r
    case LowRisk => Leaf("L")
    case MediumRisk => Leaf("M")
    case HighRisk => Leaf("H")
    case CriticalRisk => Leaf("C")
  }

  function OfVerdict(v: Verdict): Tree {
    match v
    case Pending => Leaf("P")
    case Approve => Leaf("A")
    case Escalate => Leaf("E")
    case Block => Leaf("B")
  }

  function OfFailures(failures: seq<ValidationFailure>): (r: seq<Tree>)
    ensures |r| == |failures|
  {
    if failures == [] then []
    else
      var last := failures[|failures| - 1];
      OfFailures(failures[..|failures| - 1]) + [Node([Leaf(last.rule), OfSeverity(last.severity)])]
  }

  function OfText(o: Option<string>): Tree {
    OfOption(match o case None => None case Some(s) => Some(Leaf(s)))
  }

  function OfCheck(c: ValidationCheck): Tree {
    Node([Leaf(c.id), Leaf(c.name), OfStatus(c.status), OfText(c.ruleId)])
  }

  function OfChecks(checks: seq<ValidationCheck>): (r: seq<Tree>)
    ensures |r| == |checks|
  {
    if checks == [] then [] else OfChecks(checks[..|checks| - 1]) + [OfCheck(checks[|checks| - 1])]
  }

  function OfResult(v: ValidationResult): Tree {
    Node([OfBool(v.passed), Node(OfFailures(v.failures)), Leaf(Decimal(v.riskScore)), Node(OfChecks(v.checks))])
  }

  function OfTool(t: Tool): Tree {
    Node([Leaf(t.name), OfRiskLevel(t.riskLevel), OfBool(t.requiresPiiRedaction), OfBool(t.requiresComplianceCheck)])
  }

  function OfAction(a: Action): Tree {
    Node([Leaf(a.name),
          OfOption(match a.costEstimate case None => None case Some(n) => Some(OfNumber(n)))])
  }

  function OfRequest(r: HashedRequest): Tree {
    Node([Leaf(r.id), Leaf(r.agentId), Leaf(r.sessionId), Leaf(Decimal(r.timestamp)),
          OfTool(r.tool), OfAction(r.action), OfJson(r.parameters), OfJson(r.metadata)])
  }

  function OfDecision(d: Decision): Tree {
    Node([OfVerdict(d.verdict), Leaf(Decimal(d.riskScore)), OfBool(d.observeOverride)])
  }

  function OfExecution(o: Option<Execution>): Tree {
    OfOption(match o
             case None => None
             case Some(e) => Some(Node([Leaf(e.requestId), OfBool(e.success), OfJson(e.response)])))
  }

  function OfInput(x: HashInput): Tree {
    Node([Leaf(x.requestId), Leaf(x.sessionId), Leaf(x.agentId), Leaf(Decimal(x.receivedAt)), OfJson(x.rawRequest),
          OfRequest(x.parsedRequest), OfResult(x.validationResult), OfDecision(x.decisionRecord),
          OfExecution(x.executionResult)])
  }

  function Serialise(x: HashInput): string {
    "{" + Written(OfInput(x)) + "}"
  }

  lemma {:induction false} BoolsApart(a: bool, b: bool)
    requires OfBool(a) == OfBool(b)
    ensures a == b
  {
    assert "t"[0] != "f"[0];
  }

  lemma {:induction false} NamesApart()
    ensures "P"[0] != "F"[0] && "P"[0] != "W"[0] && "P"[0] != "S"[0] && "P"[0] != "E"[0]
    ensures "F"[0] != "W"[0] && "F"[0] != "S"[0] && "F"[0] != "E"[0] && "W"[0] != "S"[0]
    ensures "W"[0] != "E"[0] && "S"[0] != "E"[0]
    ensures "L"[0] != "M"[0] && "L"[0] != "H"[0] && "L"[0] != "C"[0] && "M"[0] != "H"[0]
    ensures "M"[0] != "C"[0] && "H"[0] != "C"[0]
    ensures "A"[0] != "P"[0] && "A"[0] != "E"[0] && "A"[0] != "B"[0] && "B"[0] != "P"[0] && "B"[0] != "E"[0]
  {
  }

  lemma {:induction false} StatusApart(a: CheckStatus, b: CheckStatus)
    requires OfStatus(a) == OfStatus(b)
    ensures a == b
  {
    NamesApart();
    assert OfStatus(a).text[0] == OfStatus(b).text[0];
  }

  lemma {:induction false} SeverityApart(a: Severity, b: Severity)
    requires OfSeverity(a) == OfSeverity(b)
    ensures a == b
  {
    NamesApart();
    assert OfSeverity(a).text[0] == OfSeverity(b).text[0];
  }

  lemma {:induction false} RiskLevelApart(a: RiskLevel, b: RiskLevel)
    requires OfRiskLevel(a) == OfRiskLevel(b)
    ensures a == b
  {
    NamesApart();
    assert OfRiskLevel(a).text[0] == OfRiskLevel(b).text[0];
  }

  lemma {:induction false} VerdictApart(a: Verdict, b: Verdict)
    requires OfVerdict(a) == OfVerdict(b)
    ensures a == b
  {
    NamesApart();
    assert OfVerdict(a).text[0] == OfVerdict(b).text[0];
  }

  lemma {:induction false} FailuresApart(a: seq<ValidationFailure>, b: seq<ValidationFailure>)
    requires OfFailures(a) == OfFailures(b)
    ensures a == b
  {
    if a != [] {
      var n := |a| - 1;
      assert |OfFailures(a)| == |OfFailures(b)|;
      assert OfFailures(a)[..n] == OfFailures(a[..n]) && OfFailures(b)[..n] == OfFailures(b[..n]);
      var x, y := OfFailures(a)[n].children, OfFailures(b)[n].children;
      assert x == [Leaf(a[n].rule), OfSeverity(a[n].severity)] && y == [Leaf(b[n].rule), OfSeverity(b[n].severity)];
      assert x[0] == y[0] && x[1] == y[1];
      FailuresApart(a[..n], b[..n]);
      SeverityApart(a[n].severity, b[n].severity);
      assert a == a[..n] + [a[n]] && b == b[..n] + [b[n]];
    }
  }

  lemma {:induction false} TextsApart(a: Option<string>, b: Option<string>)
    requires OfText(a) == OfText(b)
    ensures a == b
  {
    if a.Some? || b.Some? {
      assert |OfText(a).children| == |OfText(b).children| > 0;
      assert OfText(a).children[0] == OfText(b).children[0];
    }
  }

  lemma {:induction false} CheckApart(a: ValidationCheck, b: ValidationCheck)
    requires OfCheck(a) == OfCheck(b)
    ensures a == b
  {
    var x, y := OfCheck(a).children, OfCheck(b).children;
    assert x[0] == y[0] && x[1] == y[1] && x[2] == y[2] && x[3] == y[3];
    StatusApart(a.status, b.status);
    TextsApart(a.ruleId, b.ruleId);
  }

  lemma {:induction false} ChecksApart(a: seq<ValidationCheck>, b: seq<ValidationCheck>)
    requires OfChecks(a) == OfChecks(b)
    ensures a == b
  {
    if a != [] {
      var n := |a| - 1;
      assert |OfChecks(a)| == |OfChecks(b)|;
      assert OfChecks(a)[..n] == OfChecks(a[..n]) && OfChecks(b)[..n] == OfChecks(b[..n]);
      assert OfChecks(a)[n] == OfCheck(a[n]) && OfChecks(b)[n] == OfCheck(b[n]);
      ChecksApart(a[..n], b[..n]);
      CheckApart(a[n], b[n]);
      assert a == a[..n] + [a[n]] && b == b[..n] + [b[n]];
    }
  }

  lemma {:induction false} ResultApart(a: ValidationResult, b: ValidationResult)
    requires OfResult(a) == OfResult(b)
    ensures a == b
  {
    var x, y := OfResult(a).children, OfResult(b).children;
    assert x[0] == y[0] && x[1] == y[1] && x[2] == y[2] && x[3] == y[3];
    BoolsApart(a.passed, b.passed);
    FailuresApart(a.failures, b.failures);
    DecimalInjective(a.riskScore, b.riskScore);
    ChecksApart(a.checks, b.checks);
  }

  lemma {:induction false} ToolApart(a: Tool, b: Tool)
    requires OfTool(a) == OfTool(b)
    ensures a == b
  {
    var x, y := OfTool(a).children, OfTool(b).children;
    assert x[0] == y[0] && x[1] == y[1] && x[2] == y[2] && x[3] == y[3];
    RiskLevelApart(a.riskLevel, b.riskLevel);
    BoolsApart(a.requiresPiiRedaction, b.requiresPiiRedaction);
    BoolsApart(a.requiresComplianceCheck, b.requiresComplianceCheck);
  }

  lemma {:induction false} ActionApart(a: Action, b: Action)
    requires OfAction(a) == OfAction(b)
    ensures a == b
  {
    var x, y := OfAction(a).children, OfAction(b).children;
    assert x[0] == y[0] && x[1] == y[1];
    if a.costEstimate.Some? || b.costEstimate.Some? {
      assert |x[1].children| == |y[1].children| > 0;
      assert x[1].children[0] == y[1].children[0];
      NumbersApart(a.costEstimate.value, b.costEstimate.value);
    }
  }

  lemma {:induction false} RequestApart(a: HashedRequest, b: HashedRequest)
    requires OfRequest(a) == OfRequest(b)
    ensures a == b
  {
    var x, y := OfRequest(a).children, OfRequest(b).children;
    assert x[0] == y[0] && x[1] == y[1] && x[2] == y[2] && x[3] == y[3];
    assert x[4] == y[4] && x[5] == y[5] && x[6] == y[6] && x[7] == y[7];
    DecimalInjective(a.timestamp, b.timestamp);
    ToolApart(a.tool, b.tool);
    ActionApart(a.action, b.action);
    JsonApart(a.parameters, b.parameters);
    JsonApart(a.metadata, b.metadata);
  }

  lemma {:induction false} DecisionApart(a: Decision, b: Decision)
    requires OfDecision(a) == OfDecision(b)
    ensures a == b
  {
    var x, y := OfDecision(a).children, OfDecision(b).children;
    assert x[0] == y[0] && x[1] == y[1] && x[2] == y[2];
    VerdictApart(a.verdict, b.verdict);
    DecimalInjective(a.riskScore, b.riskScore);
    BoolsApart(a.observeOverride, b.observeOverride);
  }

  lemma {:induction false} ExecutionApart(a: Option<Execution>, b: Option<Execution>)
    requires OfExecution(a) == OfExecution(b)
    ensures a == b
  {
    if a.Some? || b.Some? {
      assert |OfExecution(a).children| == |OfExecution(b).children| > 0;
      var x, y := OfExecution(a).children[0].children, OfExecution(b).children[0].children;
      assert x[0] == y[0] && x[1] == y[1] && x[2] == y[2];
      BoolsApart(a.value.success, b.value.success);
      JsonApart(a.value.response, b.value.response);
    }
  }

  lemma {:induction false} InputApart(a: HashInput, b: HashInput)
    requires OfInput(a) == OfInput(b)
    ensures a == b
  {
    var x, y := OfInput(a).children, OfInput(b).children;
    assert x[0] == y[0] && x[1] == y[1] && x[2] == y[2] && x[3] == y[3] && x[4] == y[4];
    assert x[5] == y[5] && x[6] == y[6] && x[7] == y[7] && x[8] == y[8];
    DecimalInjective(a.receivedAt, b.receivedAt);
    JsonApart(a.rawRequest, b.rawRequest);
    RequestApart(a.parsedRequest, b.parsedRequest);
    ResultApart(a.validationResult, b.validationResult);
    DecisionApart(a.decisionRecord, b.decisionRecord);
    ExecutionApart(a.executionResult, b.executionResult);
  }

  lemma {:induction false} SerialisedApart(x: HashInput, y: HashInput)
    requires Serialise(x) == Serialise(y)
    ensures x == y
  {
    var a, b := OfInput(x), OfInput(y);
    assert Serialise(x)[1..] == Written(a) + "}" && Serialise(y)[1..] == Written(b) + "}";
    WrittenIsRead(a, "}", b, "}");
    InputApart(x, y);
  }

  /** What the theorems about the ledger ask of the serialiser can be had, with any digest function. */
  lemma {:induction false} FaithfulSerialiser(sha: string -> Digest)
    ensures Crypto(sha, Serialise).Faithful()
  {
    var c := Crypto(sha, Serialise);
    forall x
      ensures c.WritesObject(x)
    {
    }
    forall x, y
      ensures c.TellsApart(x, y)
    {
      if c.stringify(x) == c.stringify(y) {
        SerialisedApart(x, y);
      }
    }
  }
}
