/** The values that travel between the gateway, the worker, the reviewers and the ledger. */
module Types {

  datatype Option<+T> = None | Some(value: T)

  /** A number in decimal notation: the mantissa over ten to the power of the decimals. */
  datatype Numeral = Numeral(mantissa: int, decimals: nat)

  /** No trailing zero behind the decimal point. */
  predicate Shortest(n: Numeral) {
    n.decimals > 0 ==> n.mantissa % 10 != 0
  }

  /** Every finite JavaScript number is one, and only one (`OneNumeral`). */
  type Number = n: Numeral | Shortest(n) witness Numeral(0, 0)

  function Power10(n: nat): (p: nat)
    ensures p > 0
  {
    if n == 0 then 1 else 10 * Power10(n - 1)
  }

  predicate Exceeds(n: Number, bound: int) {
    n.mantissa > bound * Power10(n.decimals)
  }

  predicate SameValue(m: Numeral, n: Numeral) {
    m.mantissa * Power10(n.decimals) == n.mantissa * Power10(m.decimals)
  }

  lemma {:induction false} OneNumeral(m: Number, n: Number)
    requires SameValue(m, n)
    ensures m == n
  {
    if m.decimals < n.decimals {
      FewerDecimals(m, n);
    } else if n.decimals < m.decimals {
      FewerDecimals(n, m);
    } else {
      SameFactor(m.mantissa, n.mantissa, Power10(m.decimals));
    }
  }

  lemma {:induction false} FewerDecimals(m: Numeral, n: Numeral)
    requires m.decimals < n.decimals && SameValue(m, n)
    ensures n.mantissa % 10 == 0
  {
    var k := n.decimals - m.decimals;
    PowersAdd(m.decimals, k);
    Cancel(m.mantissa, Power10(k), n.mantissa, Power10(m.decimals));
    TenTimes(m.mantissa, Power10(k - 1));
  }

  lemma {:induction false} Cancel(a: int, q: nat, b: int, p: nat)
    requires p > 0 && a * (p * q) == b * p
    ensures b == a * q
  {
    assert a * (p * q) == (a * q) * p;
    SameFactor(a * q, b, p);
  }

  lemma {:induction false} TenTimes(a: int, q: nat)
    ensures (a * (10 * q)) % 10 == 0
  {
    assert a * (10 * q) == 10 * (a * q);
  }

  lemma {:induction false} PowersAdd(a: nat, b: nat)
    ensures Power10(a + b) == Power10(a) * Power10(b)
  {
    if b > 0 {
      PowersAdd(a, b - 1);
      assert Power10(a + b) == 10 * (Power10(a) * Power10(b - 1));
    }
  }

  lemma {:induction false} SameFactor(a: int, b: int, p: nat)
    requires p > 0 && a * p == b * p
    ensures a == b
  {
    assert (a - b) * p == 0;
  }

  datatype Json =
    | JNull
    | JBool(b: bool)
    | JNum(n: Number)
    | JStr(s: string)
    | JArr(items: seq<Json>)
    | JObj(fields: seq<Field>)

  datatype Field = Field(key: string, value: Json)

  datatype RiskLevel = LowRisk | MediumRisk | HighRisk | CriticalRisk

  datatype Tool = Tool(
    name: string,
    riskLevel: RiskLevel,
    requiresPiiRedaction: bool,
    requiresComplianceCheck: bool)

  datatype Action = Action(name: string, costEstimate: Option<Number>)

  datatype ParsedRequest = ParsedRequest(
    id: string,
    agentId: string,
    sessionId: string,
    timestamp: int,
    tool: Tool,
    action: Action,
    parameters: Json,
    metadata: Json,
    raw: Json,
    parseErrors: seq<string>)

  /** `Pending` is the verdict of the row the gateway writes before the job is queued. */
  datatype Verdict = Pending | Approve | Escalate | Block

  datatype Severity = SevLow | SevMedium | SevHigh | SevCritical

  datatype CheckStatus = PASS | FAIL | WARNING | SKIPPED | ERROR

  datatype ValidationFailure = ValidationFailure(rule: string, severity: Severity)

  datatype ValidationCheck = ValidationCheck(
    id: string,
    name: string,
    status: CheckStatus,
    ruleId: Option<string>)

  /** Risk scores are hundredths: 95 stands for 0.95. */
  datatype ValidationResult = ValidationResult(
    passed: bool,
    failures: seq<ValidationFailure>,
    riskScore: int,
    checks: seq<ValidationCheck>)

  datatype Decision = Decision(verdict: Verdict, riskScore: int, observeOverride: bool)

  datatype Execution = Execution(requestId: string, success: bool, response: Json)

  function Max(a: int, b: int): int {
    if a >= b then a else b
  }
}
