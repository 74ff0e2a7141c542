/** The verdict as a function of the configuration, the request and the outside world, and what decides it. */
module Policy {
  import opened Types
  import opened RuleEngine
  import opened ValidationPipeline
  import opened DecisionEngine
  import S = SecurityValidator

  datatype Config = Config(rules: seq<Rule>, settings: S.SecuritySettings, thresholds: Thresholds)

  function ResultOf(config: Config, request: ParsedRequest, world: World): ValidationResult {
    Validated(config.rules, config.settings, request, world)
  }

  function ScoreOf(config: Config, request: ParsedRequest, world: World): int {
    RaisedRisk(request, ResultOf(config, request, world).riskScore)
  }

  function VerdictOf(config: Config, request: ParsedRequest, world: World): Verdict {
    VerdictFor(config.rules, config.thresholds, ResultOf(config, request, world).checks, ScoreOf(config, request,
        world))
  }

  /** Steps 2 and 3 of `processJob`. */
  method Judge(config: Config, request: ParsedRequest, world: World)
    returns (decision: Decision, result: ValidationResult, redacted: ParsedRequest)
    ensures result == ResultOf(config, request, world)
    ensures decision == Decision(VerdictOf(config, request, world), ScoreOf(config, request, world), false)
    ensures decision.verdict != Pending && redacted.id == request.id
    ensures redacted == RedactedRequest(request, world.redaction)
  {
    result, redacted := Validate(config.rules, config.settings, request, world);
    decision := Decide(config.rules, config.thresholds, redacted, result);
  }

  // ---------------------------------------------------------------- rule lists

  const BUILT_IN := {PARSE_CHECK, PII_CHECK, RULES_CHECK, S.SIZE_CHECK, S.SIGNATURE_CHECK, S.CONTENT_CHECK}

  predicate Distinct(a: Rule, b: Rule) {
    a.id != b.id && a.name != b.name
  }

  /** Ids and names are unique, and no rule is named like a built-in check. */
  ghost predicate WellNamed(rules: seq<Rule>) {
    && (forall a, b :: a in rules && b in rules ==> a == b || Distinct(a, b))
    && (forall r :: r in rules ==> r.name !in BUILT_IN)
  }

  predicate BlockOrEscalate(rule: Rule) {
    rule.action.BlockAction? || rule.action.EscalateAction?
  }

  /** The rule has a failed check. */
  predicate Failed(request: ParsedRequest, world: World, rule: Rule) {
    request.tool.requiresComplianceCheck && ReportOf(world.evaluators, request, rule).status == FAIL
  }

  ghost predicate FailedWith(config: Config, request: ParsedRequest, world: World, action: RuleAction) {
    exists r :: Enabled(config.rules, r) && Failed(request, world, r) && r.action == action
  }

  predicate SecurityFailed(config: Config, request: ParsedRequest, world: World) {
    || S.Oversized(config.settings, world.scanner)
    || S.MissingSignature(config.settings, world.scanner)
    || S.BadContent(config.settings, world.scanner, request.parameters)
  }

  // ---------------------------------------------------------------- which checks block

  /** A check goes back to the rule it comes from. */
  lemma {:induction false} FindOwnRule(rules: seq<Rule>, rule: Rule, check: ValidationCheck)
    requires WellNamed(rules) && rule in rules && check.ruleId == Some(rule.id) && check.name == rule.name
    ensures FindRule(rules, check) == Some(rule)
  {
    var found := FindRule(rules, check);
    assert Corresponds(rule, check);
    assert found.value == rule || Distinct(found.value, rule);
  }

  lemma {:induction false} FindBuiltIn(rules: seq<Rule>, check: ValidationCheck)
    requires WellNamed(rules) && check.ruleId == None && check.name in BUILT_IN
    ensures FindRule(rules, check) == None
  {
  }

  /** The checks that fail: those of failing rules, and those of the security validator. */
  lemma {:induction false} FailingChecks(config: Config, request: ParsedRequest, world: World, c: ValidationCheck)
    requires request.parseErrors == []
    ensures c in ResultOf(config, request, world).checks && c.status == FAIL <==>
              || (c in S.SecurityChecks(config.settings, world.scanner, request.parameters) && c.status == FAIL)
              || exists r :: Enabled(config.rules, r) && Failed(request, world, r)
                  && c == CheckOf(world.evaluators, request, r)
  {
    ChecksOfRules(world.evaluators, request, config.rules, c);
    if request.tool.requiresComplianceCheck {
      assert c.status == FAIL ==> forall r :: c == CheckOf(world.evaluators, request, r) ==> Failed(request, world, r);
    }
  }

  lemma {:induction false} WhatBlocks(config: Config, request: ParsedRequest, world: World)
    requires WellNamed(config.rules) && request.parseErrors == []
    ensures HasBlocking(config.rules, ResultOf(config, request, world).checks)
            <==> SecurityFailed(config, request, world) || FailedWith(config, request, world, BlockAction)
  {
    var rules, checks := config.rules, ResultOf(config, request, world).checks;
    var security := S.SecurityChecks(config.settings, world.scanner, request.parameters);
    if HasBlocking(rules, checks) {
      var c :| c in checks && Blocking(rules, c);
      FailingChecks(config, request, world, c);
      if c !in security {
        var r :| Enabled(rules, r) && Failed(request, world, r) && c == CheckOf(world.evaluators, request, r);
        FindOwnRule(rules, r, c);
      }
    }
    if SecurityFailed(config, request, world) {
      var c :| c in security && c.status == FAIL;
      FailingChecks(config, request, world, c);
      FindBuiltIn(rules, c);
      assert Blocking(rules, c);
    }
    if FailedWith(config, request, world, BlockAction) {
      var r :| Enabled(rules, r) && Failed(request, world, r) && r.action == BlockAction;
      var c := CheckOf(world.evaluators, request, r);
      FailingChecks(config, request, world, c);
      FindOwnRule(rules, r, c);
      assert Blocking(rules, c);
    }
  }

  lemma {:induction false} WhatEscalates(config: Config, request: ParsedRequest, world: World)
    requires WellNamed(config.rules) && request.parseErrors == []
    ensures HasEscalating(config.rules, ResultOf(config, request, world).checks)
            <==> FailedWith(config, request, world, EscalateAction)
  {
    var rules, checks := config.rules, ResultOf(config, request, world).checks;
    if HasEscalating(rules, checks) {
      var c :| c in checks && Escalating(rules, c);
      FailingChecks(config, request, world, c);
      if c in S.SecurityChecks(config.settings, world.scanner, request.parameters) {
        FindBuiltIn(rules, c);
      } else {
        var r :| Enabled(rules, r) && Failed(request, world, r) && c == CheckOf(world.evaluators, request, r);
        FindOwnRule(rules, r, c);
      }
    }
    if FailedWith(config, request, world, EscalateAction) {
      var r :| Enabled(rules, r) && Failed(request, world, r) && r.action == EscalateAction;
      var c := CheckOf(world.evaluators, request, r);
      FailingChecks(config, request, world, c);
      FindOwnRule(rules, r, c);
      assert Escalating(rules, c);
    }
  }

  /** What decides the verdict: the security checks, the enabled rules that fail and their actions, and
    only then the risk score. */
  lemma {:induction false} VerdictCharacterised(config: Config, request: ParsedRequest, world: World)
    requires WellNamed(config.rules) && request.parseErrors == []
    ensures VerdictOf(config, request, world) ==
              if SecurityFailed(config, request, world) || FailedWith(config, request, world, BlockAction) then Block
              else if FailedWith(config, request, world, EscalateAction) then Escalate
              else Threshold(config.thresholds, ScoreOf(config, request, world))
  {
    WhatBlocks(config, request, world);
    WhatEscalates(config, request, world);
  }

  /** A request that is too large, lacks a required signature, or violates the content boundary is blocked. */
  lemma {:induction false} SecurityViolationsBlock(config: Config, request: ParsedRequest, world: World)
    requires WellNamed(config.rules) && request.parseErrors == []
    ensures SecurityEnvelope(config, world)
            || (config.settings.detectInjection && S.BadText(world.scanner, request.parameters, 1)) ==>
              VerdictOf(config, request, world) == Block
  {
    VerdictCharacterised(config, request, world);
    S.IssuesExactly(world.scanner, request.parameters, 1);
  }

  lemma {:induction false} ParseErrorsBlock(config: Config, request: ParsedRequest, world: World)
    requires WellNamed(config.rules) && request.parseErrors != []
    ensures VerdictOf(config, request, world) == Block
  {
    var c := ValidationCheck("parse_err", PARSE_CHECK, FAIL, None);
    FindBuiltIn(config.rules, c);
    assert c in ResultOf(config, request, world).checks && Blocking(config.rules, c);
  }

  // ---------------------------------------------------------------- what makes the risk

  /** The rule reports a failure of this severity. */
  ghost predicate RuleReports(config: Config, request: ParsedRequest, world: World, severity: Severity) {
    && request.tool.requiresComplianceCheck
    && exists r :: Enabled(config.rules, r) && ReportOf(world.evaluators, request, r).severity == Some(severity)
  }

  lemma {:induction false} ReportedSeverities(config: Config, request: ParsedRequest, world: World, severity: Severity)
    ensures HasSeverity(ComplianceFailures(world.evaluators, config.rules, request), severity)
            <==> RuleReports(config, request, world, severity)
  {
    var failures := ComplianceFailures(world.evaluators, config.rules, request);
    if HasSeverity(failures, severity) {
      var f :| f in failures && f.severity == severity;
      FailuresOfRules(world.evaluators, request, config.rules, f);
    }
    if RuleReports(config, request, world, severity) {
      var r :| Enabled(config.rules, r) && ReportOf(world.evaluators, request, r).severity == Some(severity);
      FailuresOfRules(world.evaluators, request, config.rules, ValidationFailure(r.name, severity));
    }
  }

  /** The contribution of the rules to the risk is that of the gravest severity reported. */
  lemma {:induction false} ComplianceRisk(config: Config, request: ParsedRequest, world: World)
    ensures SeverityRisk(ComplianceFailures(world.evaluators, config.rules, request)) ==
              if RuleReports(config, request, world, SevCritical) then 95
              else if RuleReports(config, request, world, SevHigh) then 75
              else if RuleReports(config, request, world, SevMedium) then 40
              else 0
  {
    var failures := ComplianceFailures(world.evaluators, config.rules, request);
    ReportedSeverities(config, request, world, SevCritical);
    ReportedSeverities(config, request, world, SevHigh);
    ReportedSeverities(config, request, world, SevMedium);
    if failures != [] {
      var f := failures[0];
      assert f in failures;
      FailuresOfRules(world.evaluators, request, config.rules, f);
    }
  }

  /** The parts of the risk in hundredths: of redaction, of the rules, of security. */
  ghost function Parts(config: Config, request: ParsedRequest, world: World): (int, int, int) {
    (if request.tool.requiresPiiRedaction && world.redaction.count > 0 then 10 else 0,
     if RuleReports(config, request, world, SevCritical) then 95
     else if RuleReports(config, request, world, SevHigh) then 75
     else if RuleReports(config, request, world, SevMedium) then 40
     else 0,
     if SecurityEnvelope(config, world) then 100
     else if config.settings.detectInjection
             && (S.BadText(world.scanner, request.parameters, 1) || S.Depth(request.parameters) > 5
                 || S.LargeArray(request.parameters, 1)) then 80
     else 0)
  }

  /** The request is too large, or unsigned although signatures are required. */
  predicate SecurityEnvelope(config: Config, world: World) {
    || world.scanner.requestBytes
       > (if config.settings.maxRequestBytes == 0 then 10000 else config.settings.maxRequestBytes)
    || (config.settings.requireSignatures && !world.scanner.signed)
  }

  /** A request is accepted if and only if nothing failed; its risk is 1.0 if it could not be parsed, and otherwise
    the greatest of the three parts. */
  lemma {:induction false} ResultMeans(config: Config, request: ParsedRequest, world: World)
    ensures var r := ResultOf(config, request, world);
            && (r.passed <==> r.failures == [])
            && (request.parseErrors == [] ==>
                  && r.checks != []
                  && r.checks[0].status == if !request.tool.requiresPiiRedaction then SKIPPED
                                           else if world.redaction.count > 0 then WARNING else PASS)
            && (request.parseErrors != [] ==> !r.passed && r.riskScore == 100)
            && (request.parseErrors == [] ==>
                  var p := Parts(config, request, world);
                  && r.riskScore >= p.0 && r.riskScore >= p.1 && r.riskScore >= p.2
                  && (r.riskScore == p.0 || r.riskScore == p.1 || r.riskScore == p.2))
  {
    ComplianceRisk(config, request, world);
    S.RiskExactly(config.settings, world.scanner, request.parameters);
  }
}
