/** The decision engine: from the checks, the actions of the rules that failed, and the risk score, to a
  verdict. */
module DecisionEngine {
  import opened Types
  import opened RuleEngine

  /** In hundredths, as the risk scores. */
  datatype Thresholds = Thresholds(escalate: int, block: int)

  const DEFAULTS := Thresholds(70, 90)

  predicate Corresponds(rule: Rule, check: ValidationCheck) {
    check.ruleId == Some(rule.id) || rule.name == check.name
  }

  /** The first rule that has the id or the name of a check. */
  function FindRule(rules: seq<Rule>, check: ValidationCheck): (r: Option<Rule>)
    ensures r.Some? ==> r.value in rules && Corresponds(r.value, check)
    ensures r.Some? ==> exists k :: 0 <= k < |rules| && rules[k] == r.value
                          && forall j :: 0 <= j < k ==> !Corresponds(rules[j], check)
    ensures r.None? ==> forall rule :: rule in rules ==> !Corresponds(rule, check)
  {
    if rules == [] then None
    else if Corresponds(rules[0], check) then Some(rules[0])
    else
      var r := FindRule(rules[1..], check);
      assert r.Some? ==> exists k :: 0 <= k < |rules[1..]| && rules[1..][k] == r.value
                           && forall j :: 0 <= j < k ==> !Corresponds(rules[1..][j], check);
      assert forall k :: 0 <= k < |rules| - 1 ==> rules[1..][k] == rules[k + 1];
      r
  }

  /** A failed check blocks when no rule corresponds to it, or the rule says so. */
  predicate Blocking(rules: seq<Rule>, check: ValidationCheck) {
    check.status == FAIL && (FindRule(rules, check).Some? ==> FindRule(rules, check).value.action == BlockAction)
  }

  predicate Escalating(rules: seq<Rule>, check: ValidationCheck) {
    check.status == FAIL && FindRule(rules, check).Some? && FindRule(rules, check).value.action == EscalateAction
  }

  predicate MeantBy(rule: Rule, check: ValidationCheck) {
    check.ruleId == Some(rule.id) || check.name == rule.name
  }

  /** The first rule with the id or the name of a failed check says whether it blocks or escalates; without any, it
    blocks. */
  lemma {:induction false} FirstRuleDecides(rules: seq<Rule>, check: ValidationCheck, k: nat)
    requires check.status == FAIL && k <= |rules| && forall j :: 0 <= j < k ==> !MeantBy(rules[j], check)
    ensures k == |rules| ==> Blocking(rules, check) && !Escalating(rules, check)
    ensures k < |rules| && MeantBy(rules[k], check) ==>
              && (Blocking(rules, check) <==> rules[k].action == BlockAction)
              && (Escalating(rules, check) <==> rules[k].action == EscalateAction)
  {
    var found := FindRule(rules, check);
    if k < |rules| && MeantBy(rules[k], check) {
      assert rules[k] in rules && Corresponds(rules[k], check);
      var i :| 0 <= i < |rules| && rules[i] == found.value && forall j :: 0 <= j < i ==> !Corresponds(rules[j], check);
      assert MeantBy(rules[i], check);
      assert i == k;
    }
  }

  predicate HasBlocking(rules: seq<Rule>, checks: seq<ValidationCheck>) {
    exists c :: c in checks && Blocking(rules, c)
  }

  predicate HasEscalating(rules: seq<Rule>, checks: seq<ValidationCheck>) {
    exists c :: c in checks && Escalating(rules, c)
  }

  predicate Costly(request: ParsedRequest) {
    request.action.costEstimate.Some? && Exceeds(request.action.costEstimate.value, 5000)
  }

  /** The least risk a request carries whatever its checks say. */
  function RequestRisk(request: ParsedRequest): int {
    Max(if request.tool.riskLevel.CriticalRisk? then 85 else if request.tool.riskLevel.HighRisk? then 70 else 0,
        if Costly(request) then 80 else 0)
  }

  /** The score of the checks, raised to the least score of the request, if that has one. */
  function RaisedRisk(request: ParsedRequest, risk: int): int {
    if RequestRisk(request) > 0 then Max(risk, RequestRisk(request)) else risk
  }

  /** The score is the risk of the checks, but at least 0.85 for a CRITICAL tool, 0.7 for a HIGH one, and 0.8 for
    an estimated cost of more than 5000. */
  lemma {:induction false} RaisedExactly(request: ParsedRequest, risk: int)
    ensures var score, level := RaisedRisk(request, risk), request.tool.riskLevel;
            var cost := request.action.costEstimate;
            var costly := cost.Some? && cost.value.mantissa > 5000 * Power10(cost.value.decimals);
            && score >= risk
            && (level == CriticalRisk ==> score >= 85) && (level == HighRisk ==> score >= 70)
            && (costly ==> score >= 80)
            && (|| score == risk
                || (score == 85 && level == CriticalRisk) || (score == 70 && level == HighRisk)
                || (score == 80 && costly))
  {
  }

  function Threshold(thresholds: Thresholds, risk: int): Verdict {
    if risk >= thresholds.block then Block else if risk >= thresholds.escalate then Escalate else Approve
  }

  function VerdictFor(rules: seq<Rule>, thresholds: Thresholds, checks: seq<ValidationCheck>, risk: int): Verdict {
    if HasBlocking(rules, checks) then Block
    else if HasEscalating(rules, checks) then Escalate
    else Threshold(thresholds, risk)
  }

  function FailedChecks(checks: seq<ValidationCheck>): (r: seq<ValidationCheck>)
    ensures forall c :: c in r <==> c in checks && c.status == FAIL
  {
    if checks == [] then []
    else
      var last := checks[|checks| - 1];
      FailedChecks(checks[..|checks| - 1]) + if last.status == FAIL then [last] else []
  }

  method FilterFailed(checks: seq<ValidationCheck>) returns (failed: seq<ValidationCheck>)
    ensures failed == FailedChecks(checks)
  {
    failed := [];
    for i := 0 to |checks|
      invariant failed == FailedChecks(checks[..i])
    {
      assert checks[..i + 1][..i] == checks[..i];
      if checks[i].status == FAIL {
        failed := failed + [checks[i]];
      }
    }
    assert checks[..|checks|] == checks;
  }

  lemma {:induction false} OneMoreCheck(rules: seq<Rule>, checks: seq<ValidationCheck>, c: ValidationCheck)
    ensures HasBlocking(rules, checks + [c]) <==> HasBlocking(rules, checks) || Blocking(rules, c)
    ensures HasEscalating(rules, checks + [c]) <==> HasEscalating(rules, checks) || Escalating(rules, c)
  {
    assert c in checks + [c];
  }

  lemma {:induction false} OnlyFailedChecksCount(rules: seq<Rule>, checks: seq<ValidationCheck>)
    ensures HasBlocking(rules, FailedChecks(checks)) <==> HasBlocking(rules, checks)
    ensures HasEscalating(rules, FailedChecks(checks)) <==> HasEscalating(rules, checks)
  {
  }

  /** The loop over the failed checks. */
  method Flags(rules: seq<Rule>, failed: seq<ValidationCheck>) returns (block: bool, escalate: bool)
    requires forall c :: c in failed ==> c.status == FAIL
    ensures block <==> HasBlocking(rules, failed)
    ensures escalate <==> HasEscalating(rules, failed)
  {
    block, escalate := false, false;
    for i := 0 to |failed|
      invariant block <==> HasBlocking(rules, failed[..i])
      invariant escalate <==> HasEscalating(rules, failed[..i])
    {
      assert failed[..i + 1] == failed[..i] + [failed[i]];
      OneMoreCheck(rules, failed[..i], failed[i]);
      var rule := FindRule(rules, failed[i]);
      if rule.Some? {
        if rule.value.action == BlockAction {
          block := true;
        } else if rule.value.action == EscalateAction {
          escalate := true;
        }
      } else {
        block := true;
      }
    }
    assert failed[..|failed|] == failed;
  }

  method RaiseRisk(request: ParsedRequest, riskScore: int) returns (baseRiskScore: int)
    ensures baseRiskScore == RaisedRisk(request, riskScore)
  {
    baseRiskScore := riskScore;
    if request.tool.riskLevel == CriticalRisk {
      baseRiskScore := Max(baseRiskScore, 85);
    } else if request.tool.riskLevel == HighRisk {
      baseRiskScore := Max(baseRiskScore, 70);
    }
    var cost := request.action.costEstimate;
    if cost.Some? && Exceeds(cost.value, 5000) {
      baseRiskScore := Max(baseRiskScore, 80);
    }
  }

  /** `decide`. */
  method Decide(rules: seq<Rule>, thresholds: Thresholds, request: ParsedRequest, result: ValidationResult)
    returns (decision: Decision)
    ensures decision.riskScore == RaisedRisk(request, result.riskScore)
    ensures decision.verdict == VerdictFor(rules, thresholds, result.checks, decision.riskScore)
    ensures !decision.observeOverride
  {
    var baseRiskScore := RaiseRisk(request, result.riskScore);
    var failed := FilterFailed(result.checks);
    var block, escalate := Flags(rules, failed);
    OnlyFailedChecksCount(rules, result.checks);
    var verdict := Approve;
    if block {
      verdict := Block;
    } else if escalate {
      verdict := Escalate;
    } else if baseRiskScore >= thresholds.block {
      verdict := Block;
    } else if baseRiskScore >= thresholds.escalate {
      verdict := Escalate;
    }
    decision := Decision(verdict, baseRiskScore, false);
  }
}
