/** The compliance rule engine: which rules apply to a request, and what a failing rule reports. */
module RuleEngine {
  import opened Types
  import opened Text

  datatype RuleType = REG_F | QM | OFAC | PII | SECURITY | BUSINESS | CUSTOM

  datatype RuleAction = AllowAction | BlockAction | EscalateAction | RedactAction | LogAction | TransformAction

  /** `hasConditions` says that the rule carries an array of conditions. */
  datatype Rule = Rule(
    id: string,
    name: string,
    ruleType: RuleType,
    enabled: bool,
    hasConditions: bool,
    action: RuleAction)

  datatype Evaluation = Passes | Fails | Throws

  /** What the evaluators of the kinds of rules answer. */
  datatype Evaluators = Evaluators(
    regF: (ParsedRequest, Rule) -> Evaluation,
    conditions: (ParsedRequest, Rule) -> Evaluation,
    qm: (ParsedRequest, Rule) -> Evaluation,
    ofac: (ParsedRequest, Rule) -> Evaluation,
    generic: (ParsedRequest, Rule) -> Evaluation)

  datatype RuleReport = RuleReport(status: CheckStatus, severity: Option<Severity>)

  const DIALER := "dialer"
  const UNDERWRITER := "loan-underwriter"

  predicate Collections(rule: Rule) {
    rule.ruleType.REG_F? || Contains(ToLower(rule.name), "bankruptcy")
  }

  predicate Underwriting(rule: Rule) {
    var name := ToLower(rule.name);
    Contains(name, "dti") || Contains(name, "credit score") || Contains(name, "employment")
  }

  /** The tool a rule is confined to, if any. */
  function ConfinedTo(rule: Rule): Option<string> {
    if Collections(rule) then Some(DIALER)
    else if rule.hasConditions then (if Underwriting(rule) then Some(UNDERWRITER) else None)
    else if rule.ruleType.QM? then Some(UNDERWRITER)
    else None
  }

  predicate Applies(rule: Rule, request: ParsedRequest) {
    ConfinedTo(rule).Some? ==> request.tool.name == ConfinedTo(rule).value
  }

  /** The severity a rule reports when its check fails. */
  function SeverityOf(rule: Rule): Severity {
    if Collections(rule) then SevHigh
    else if rule.hasConditions then (if rule.action.BlockAction? then SevHigh else SevMedium)
    else if rule.ruleType.QM? || rule.ruleType.OFAC? then SevCritical
    else SevMedium
  }

  function OutcomeOf(ev: Evaluators, request: ParsedRequest, rule: Rule): Evaluation {
    if Collections(rule) then ev.regF(request, rule)
    else if rule.hasConditions then ev.conditions(request, rule)
    else if rule.ruleType.QM? then ev.qm(request, rule)
    else if rule.ruleType.OFAC? then ev.ofac(request, rule)
    else ev.generic(request, rule)
  }

  function ReportOf(ev: Evaluators, request: ParsedRequest, rule: Rule): RuleReport {
    if !Applies(rule, request) then RuleReport(PASS, None)
    else
      match OutcomeOf(ev, request, rule)
      case Passes => RuleReport(PASS, None)
      case Fails => RuleReport(FAIL, Some(SeverityOf(rule)))
      case Throws => RuleReport(ERROR, Some(SevHigh))
  }

  function CheckOf(ev: Evaluators, request: ParsedRequest, rule: Rule): ValidationCheck {
    ValidationCheck(rule.id, rule.name, ReportOf(ev, request, rule).status, Some(rule.id))
  }

  function FailuresOf(ev: Evaluators, request: ParsedRequest, rule: Rule): seq<ValidationFailure> {
    match ReportOf(ev, request, rule).severity
    case None => []
    case Some(severity) => [ValidationFailure(rule.name, severity)]
  }

  function RuleChecks(ev: Evaluators, request: ParsedRequest, rules: seq<Rule>): seq<ValidationCheck> {
    if rules == [] then []
    else
      var last := rules[|rules| - 1];
      RuleChecks(ev, request, rules[..|rules| - 1]) + if last.enabled then [CheckOf(ev, request, last)] else []
  }

  function RuleFailures(ev: Evaluators, request: ParsedRequest, rules: seq<Rule>): seq<ValidationFailure> {
    if rules == [] then []
    else
      var last := rules[|rules| - 1];
      RuleFailures(ev, request, rules[..|rules| - 1]) + if last.enabled then FailuresOf(ev, request, last) else []
  }

  /** The `try` block for one rule, branch by branch. */
  method EvaluateRule(ev: Evaluators, request: ParsedRequest, rule: Rule)
    returns (status: CheckStatus, failures: seq<ValidationFailure>)
    ensures status == ReportOf(ev, request, rule).status
    ensures failures == FailuresOf(ev, request, rule)
  {
    status, failures := PASS, [];
    var outcome := Passes;
    var severity := SevMedium;
    var name := ToLower(rule.name);
    if rule.ruleType == REG_F || Contains(name, "bankruptcy") {
      if request.tool.name == "dialer" {
        outcome, severity := ev.regF(request, rule), SevHigh;
      }
    } else if rule.hasConditions {
      if !((Contains(name, "dti") || Contains(name, "credit score") || Contains(name, "employment"))
           && request.tool.name != "loan-underwriter") {
        outcome := ev.conditions(request, rule);
        severity := if rule.action == BlockAction then SevHigh else SevMedium;
      }
    } else if rule.ruleType == QM {
      if request.tool.name == "loan-underwriter" {
        outcome, severity := ev.qm(request, rule), SevCritical;
      }
    } else if rule.ruleType == OFAC {
      outcome, severity := ev.ofac(request, rule), SevCritical;
    } else {
      outcome := ev.generic(request, rule);
    }
    if outcome == Fails {
      status, failures := FAIL, [ValidationFailure(rule.name, severity)];
    } else if outcome == Throws {
      status, failures := ERROR, [ValidationFailure(rule.name, SevHigh)];
    }
  }

  /** `evaluate`: disabled rules are skipped, the others are checked in order. */
  method Evaluate(ev: Evaluators, request: ParsedRequest, rules: seq<Rule>)
    returns (passed: bool, checks: seq<ValidationCheck>, failures: seq<ValidationFailure>)
    ensures checks == RuleChecks(ev, request, rules) && failures == RuleFailures(ev, request, rules)
    ensures passed <==> failures == []
  {
    checks, failures := [], [];
    for i := 0 to |rules|
      invariant checks == RuleChecks(ev, request, rules[..i]) && failures == RuleFailures(ev, request, rules[..i])
    {
      assert rules[..i + 1][..i] == rules[..i];
      if rules[i].enabled {
        var status, failed := EvaluateRule(ev, request, rules[i]);
        failures := failures + failed;
        checks := checks + [ValidationCheck(rules[i].id, rules[i].name, status, Some(rules[i].id))];
      }
    }
    assert rules[..|rules|] == rules;
    passed := |failures| == 0;
  }

  /** Every enabled rule has one check, with its id and name, in the place of the rule; a disabled one has none. */
  lemma {:induction false} ChecksInOrder(ev: Evaluators, request: ParsedRequest, a: seq<Rule>, rule: Rule, b: seq<Rule>)
    ensures RuleChecks(ev, request, a + [rule] + b)
            == RuleChecks(ev, request, a)
               + (if rule.enabled
                  then [ValidationCheck(rule.id, rule.name, ReportOf(ev, request, rule).status, Some(rule.id))] else [])
               + RuleChecks(ev, request, b)
  {
    var front := a + [rule];
    if b == [] {
      assert front + b == front && front[..|a|] == a;
    } else {
      var n := |b| - 1;
      ChecksInOrder(ev, request, a, rule, b[..n]);
      assert (front + b)[..|front + b| - 1] == front + b[..n];
    }
  }

  // ---------------------------------------------------------------- who is asked

  /** An answer of an evaluator, reported with the severity of a failure. */
  predicate AnsweredAs(r: RuleReport, answer: Evaluation, severity: Severity) {
    match answer
    case Passes => r.status == PASS && r.severity == None
    case Fails => r.status == FAIL && r.severity == Some(severity)
    case Throws => r.status == ERROR && r.severity == Some(SevHigh)
  }

  predicate Skipped(r: RuleReport) {
    r.status == PASS && r.severity == None
  }

  /** A Regulation F or bankruptcy rule asks its own evaluator, for the dialer only. */
  lemma {:induction false} RegFRule(ev: Evaluators, request: ParsedRequest, rule: Rule)
    requires rule.ruleType == REG_F || Contains(ToLower(rule.name), "bankruptcy")
    ensures var r := ReportOf(ev, request, rule);
            if request.tool.name == "dialer" then AnsweredAs(r, ev.regF(request, rule), SevHigh) else Skipped(r)
  {
  }

  /** A rule with conditions asks theirs, underwriting rules for the underwriter only. */
  lemma {:induction false} ConditionRule(ev: Evaluators, request: ParsedRequest, rule: Rule)
    requires rule.ruleType != REG_F && !Contains(ToLower(rule.name), "bankruptcy") && rule.hasConditions
    ensures var r, name := ReportOf(ev, request, rule), ToLower(rule.name);
            if (Contains(name, "dti") || Contains(name, "credit score") || Contains(name, "employment"))
               && request.tool.name != "loan-underwriter"
            then Skipped(r)
            else AnsweredAs(r, ev.conditions(request, rule), if rule.action == BlockAction then SevHigh else SevMedium)
  {
  }

  /** The rules without conditions: QM rules ask theirs for the underwriter only, OFAC rules for every tool, all
    others the generic evaluator. */
  lemma {:induction false} PlainRule(ev: Evaluators, request: ParsedRequest, rule: Rule)
    requires rule.ruleType != REG_F && !Contains(ToLower(rule.name), "bankruptcy") && !rule.hasConditions
    ensures var r := ReportOf(ev, request, rule);
            && (rule.ruleType == OFAC ==> AnsweredAs(r, ev.ofac(request, rule), SevCritical))
            && (rule.ruleType == QM ==>
                  if request.tool.name == "loan-underwriter" then AnsweredAs(r, ev.qm(request, rule), SevCritical)
                  else Skipped(r))
            && (rule.ruleType != OFAC && rule.ruleType != QM ==> AnsweredAs(r, ev.generic(request, rule), SevMedium))
  {
  }

  // ---------------------------------------------------------------- what the reports contain

  predicate Enabled(rules: seq<Rule>, rule: Rule) {
    rule in rules && rule.enabled
  }

  /** The checks are those of the enabled rules. */
  lemma {:induction false} ChecksOfRules(ev: Evaluators, request: ParsedRequest, rules: seq<Rule>,
                                         check: ValidationCheck)
    ensures check in RuleChecks(ev, request, rules) <==>
              exists rule :: Enabled(rules, rule) && check == CheckOf(ev, request, rule)
  {
    if rules != [] {
      var n := |rules| - 1;
      ChecksOfRules(ev, request, rules[..n], check);
      assert rules == rules[..n] + [rules[n]];
      assert forall rule :: Enabled(rules, rule) <==> Enabled(rules[..n], rule) || (rule == rules[n] && rule.enabled);
    }
  }

  /** The failures are those of the enabled rules. */
  lemma {:induction false} FailuresOfRules(ev: Evaluators, request: ParsedRequest, rules: seq<Rule>,
                                           f: ValidationFailure)
    ensures f in RuleFailures(ev, request, rules) <==>
              exists rule :: Enabled(rules, rule) && ReportOf(ev, request, rule).severity == Some(f.severity)
                  && f.rule == rule.name
  {
    if rules != [] {
      var n := |rules| - 1;
      FailuresOfRules(ev, request, rules[..n], f);
      assert rules == rules[..n] + [rules[n]];
      assert forall rule :: Enabled(rules, rule) <==> Enabled(rules[..n], rule) || (rule == rules[n] && rule.enabled);
    }
  }
}
