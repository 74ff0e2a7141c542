/** The validation pipeline: redaction, compliance rules and security checks, joined into one result. */
module ValidationPipeline {
  import opened Types
  import opened RuleEngine
  import S = SecurityValidator

  /** What the redactor answers: the service over TCP, or the local fallback. */
  datatype RedactorAnswer = RedactorAnswer(parameters: Json, count: nat)

  /** Everything the pipeline learns from the outside. */
  datatype World = World(evaluators: Evaluators, scanner: S.Scanner, redaction: RedactorAnswer)

  const PARSE_CHECK := "Request Parsing & Schema Validation"
  const PII_CHECK := "PII Detection & Redaction"
  const RULES_CHECK := "Compliance Rules Evaluation"

  const PARSE_FAILURE := ValidationFailure("REQUEST_PARSING", SevCritical)

  function ParseFailures(errors: seq<string>): (r: seq<ValidationFailure>)
    ensures |r| == |errors| && forall f :: f in r ==> f == PARSE_FAILURE
  {
    if errors == [] then [] else ParseFailures(errors[..|errors| - 1]) + [PARSE_FAILURE]
  }

  function PiiCheck(request: ParsedRequest, redaction: RedactorAnswer): ValidationCheck {
    var status :=
      if !request.tool.requiresPiiRedaction then SKIPPED
      else if redaction.count > 0 then WARNING
      else PASS;
    ValidationCheck("pii_redact", PII_CHECK, status, None)
  }

  function PiiRisk(request: ParsedRequest, redaction: RedactorAnswer): int {
    if request.tool.requiresPiiRedaction && redaction.count > 0 then 10 else 0
  }

  function RedactedRequest(request: ParsedRequest, redaction: RedactorAnswer): ParsedRequest {
    if request.parseErrors == [] && request.tool.requiresPiiRedaction
    then request.(parameters := redaction.parameters) else request
  }

  function ComplianceChecks(ev: Evaluators, rules: seq<Rule>, request: ParsedRequest): seq<ValidationCheck> {
    if request.tool.requiresComplianceCheck then RuleChecks(ev, request, rules)
    else [ValidationCheck("compliance_rules", RULES_CHECK, SKIPPED, None)]
  }

  function ComplianceFailures(ev: Evaluators, rules: seq<Rule>, request: ParsedRequest): seq<ValidationFailure> {
    if request.tool.requiresComplianceCheck then RuleFailures(ev, request, rules) else []
  }

  predicate HasSeverity(failures: seq<ValidationFailure>, severity: Severity) {
    exists f :: f in failures && f.severity == severity
  }

  function SeverityRisk(failures: seq<ValidationFailure>): int {
    if failures == [] then 0
    else if HasSeverity(failures, SevCritical) then 95
    else if HasSeverity(failures, SevHigh) then 75
    else 40
  }

  function PipelineRisk(rules: seq<Rule>, settings: S.SecuritySettings, request: ParsedRequest, world: World): int {
    Max(Max(PiiRisk(request, world.redaction), SeverityRisk(ComplianceFailures(world.evaluators, rules, request))),
        S.SecurityRisk(settings, world.scanner, request.parameters))
  }

  /** Rules and security read the request as it came in; only the redacted request carries the masks. */
  function Validated(rules: seq<Rule>, settings: S.SecuritySettings, request: ParsedRequest,
                     world: World): ValidationResult {
    if request.parseErrors != [] then
      ValidationResult(false, ParseFailures(request.parseErrors), 100,
                       [ValidationCheck("parse_err", PARSE_CHECK, FAIL, None)])
    else
      var failures := ComplianceFailures(world.evaluators, rules, request)
                      + S.SecurityFailures(settings, world.scanner, request.parameters);
      ValidationResult(failures == [], failures, PipelineRisk(rules, settings, request, world),
                       [PiiCheck(request, world.redaction)] + ComplianceChecks(world.evaluators, rules, request)
                       + S.SecurityChecks(settings, world.scanner, request.parameters))
  }

  method ParseErrorFailures(errors: seq<string>) returns (failures: seq<ValidationFailure>)
    ensures failures == ParseFailures(errors)
  {
    failures := [];
    for i := 0 to |errors|
      invariant failures == ParseFailures(errors[..i])
    {
      assert errors[..i + 1][..i] == errors[..i];
      failures := failures + [PARSE_FAILURE];
    }
    assert errors[..|errors|] == errors;
  }

  /** The compliance stage: the checks and failures it pushes, and the score it raises. */
  method Comply(rules: seq<Rule>, request: ParsedRequest, ev: Evaluators, before: int)
    returns (checks: seq<ValidationCheck>, failures: seq<ValidationFailure>, riskScore: int)
    requires before >= 0
    ensures checks == ComplianceChecks(ev, rules, request)
    ensures failures == ComplianceFailures(ev, rules, request)
    ensures riskScore == Max(before, SeverityRisk(failures))
  {
    riskScore := before;
    if request.tool.requiresComplianceCheck {
      var passed;
      passed, checks, failures := Evaluate(ev, request, rules);
      if !passed {
        var hasCritical := exists f :: f in failures && f.severity == SevCritical;
        var hasHigh := exists f :: f in failures && f.severity == SevHigh;
        riskScore := Max(riskScore, if hasCritical then 95 else if hasHigh then 75 else 40);
      }
    } else {
      checks, failures := [ValidationCheck("compliance_rules", RULES_CHECK, SKIPPED, None)], [];
    }
  }

  method Validate(rules: seq<Rule>, settings: S.SecuritySettings, request: ParsedRequest, world: World)
    returns (result: ValidationResult, redacted: ParsedRequest)
    ensures result == Validated(rules, settings, request, world)
    ensures redacted == RedactedRequest(request, world.redaction)
    ensures redacted == if request.parseErrors == [] && request.tool.requiresPiiRedaction
                        then request.(parameters := world.redaction.parameters) else request
  {
    redacted := request;
    if |request.parseErrors| > 0 {
      var parseFailures := ParseErrorFailures(request.parseErrors);
      result := ValidationResult(false, parseFailures, 100, [ValidationCheck("parse_err", PARSE_CHECK, FAIL, None)]);
      return;
    }
    var riskScore := 0;
    var pii := SKIPPED;
    if request.tool.requiresPiiRedaction {
      redacted := redacted.(parameters := world.redaction.parameters);
      pii := if world.redaction.count > 0 then WARNING else PASS;
      if world.redaction.count > 0 {
        riskScore := Max(riskScore, 10);
      }
    }
    var checks := [ValidationCheck("pii_redact", PII_CHECK, pii, None)];
    var ruleChecks, failures, risk := Comply(rules, request, world.evaluators, riskScore);
    checks := checks + ruleChecks;
    var security := S.Validate(settings, world.scanner, request.parameters);
    checks := checks + security.checks;
    failures := failures + security.failures;
    if |security.failures| > 0 {
      risk := Max(risk, security.riskScore);
    }
    result := ValidationResult(|failures| == 0, failures, risk, checks);
  }
}
