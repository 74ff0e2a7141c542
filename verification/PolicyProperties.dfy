/** Laws of the verdict over all configurations, requests and outside worlds; where one holds only under a
  condition on the configuration, the condition is exact. */
module PolicyProperties {
  import opened Types
  import opened Text
  import opened RuleEngine
  import opened ValidationPipeline
  import opened DecisionEngine
  import opened Policy
  import S = SecurityValidator

  // ---------------------------------------------------------------- the order of the rules

  ghost predicate EnabledWithin(a: seq<Rule>, b: seq<Rule>) {
    forall r :: Enabled(a, r) ==> Enabled(b, r)
  }

  lemma {:induction false} MoreRulesFailMore(a: Config, b: Config, request: ParsedRequest, world: World,
                                             action: RuleAction, severity: Severity)
    requires EnabledWithin(a.rules, b.rules)
    ensures FailedWith(a, request, world, action) ==> FailedWith(b, request, world, action)
    ensures RuleReports(a, request, world, severity) ==> RuleReports(b, request, world, severity)
  {
    if FailedWith(a, request, world, action) {
      var r :| Enabled(a.rules, r) && Failed(request, world, r) && r.action == action;
      assert Enabled(b.rules, r);
    }
    if RuleReports(a, request, world, severity) {
      var r :| Enabled(a.rules, r) && ReportOf(world.evaluators, request, r).severity == Some(severity);
      assert Enabled(b.rules, r);
    }
  }

  lemma {:induction false} MoreRulesMoreRisk(a: Config, b: Config, request: ParsedRequest, world: World)
    requires EnabledWithin(a.rules, b.rules) && a.settings == b.settings
    ensures ScoreOf(a, request, world) <= ScoreOf(b, request, world)
  {
    ComplianceRisk(a, request, world);
    ComplianceRisk(b, request, world);
    MoreRulesFailMore(a, b, request, world, BlockAction, SevCritical);
    MoreRulesFailMore(a, b, request, world, BlockAction, SevHigh);
    MoreRulesFailMore(a, b, request, world, BlockAction, SevMedium);
  }

  /** Verdict and score depend on the set of enabled rules, not on their order, nor on the disabled ones. */
  lemma {:induction false} OrderFree(a: Config, b: Config, request: ParsedRequest, world: World)
    requires WellNamed(a.rules) && WellNamed(b.rules) && a.settings == b.settings && a.thresholds == b.thresholds
    requires EnabledWithin(a.rules, b.rules) && EnabledWithin(b.rules, a.rules)
    ensures VerdictOf(a, request, world) == VerdictOf(b, request, world)
    ensures ScoreOf(a, request, world) == ScoreOf(b, request, world)
  {
    MoreRulesMoreRisk(a, b, request, world);
    MoreRulesMoreRisk(b, a, request, world);
    if request.parseErrors == [] {
      VerdictCharacterised(a, request, world);
      VerdictCharacterised(b, request, world);
      MoreRulesFailMore(a, b, request, world, BlockAction, SevHigh);
      MoreRulesFailMore(b, a, request, world, BlockAction, SevHigh);
      MoreRulesFailMore(a, b, request, world, EscalateAction, SevHigh);
      MoreRulesFailMore(b, a, request, world, EscalateAction, SevHigh);
    } else {
      ParseErrorsBlock(a, request, world);
      ParseErrorsBlock(b, request, world);
    }
  }

  // ---------------------------------------------------------------- more rules, stricter verdicts

  function Rank(v: Verdict): nat {
    match v
    case Approve => 0
    case Escalate => 1
    case Block => 2
    case Pending => 0
  }

  ghost predicate AllBlockOrEscalate(rules: seq<Rule>) {
    forall r :: r in rules ==> BlockOrEscalate(r)
  }

  /** Without a failed check the score stays at or below 0.85. */
  lemma {:induction false} UnflaggedRisk(config: Config, request: ParsedRequest, world: World)
    requires AllBlockOrEscalate(config.rules) && request.parseErrors == []
    requires !SecurityFailed(config, request, world)
    requires !FailedWith(config, request, world, BlockAction) && !FailedWith(config, request, world, EscalateAction)
    ensures ScoreOf(config, request, world) <= 85
  {
    ComplianceRisk(config, request, world);
    forall r | Enabled(config.rules, r)
      ensures !Failed(request, world, r)
    {
      assert BlockOrEscalate(r);
    }
  }

  /** Enabling more rules never weakens the verdict, provided the block threshold is above 0.85. */
  lemma {:induction false} Monotone(a: Config, b: Config, request: ParsedRequest, world: World)
    requires WellNamed(a.rules) && WellNamed(b.rules) && a.settings == b.settings && a.thresholds == b.thresholds
    requires EnabledWithin(a.rules, b.rules) && AllBlockOrEscalate(a.rules) && AllBlockOrEscalate(b.rules)
    requires a.thresholds.block > 85
    ensures Rank(VerdictOf(a, request, world)) <= Rank(VerdictOf(b, request, world))
  {
    if request.parseErrors == [] {
      VerdictCharacterised(a, request, world);
      VerdictCharacterised(b, request, world);
      MoreRulesFailMore(a, b, request, world, BlockAction, SevHigh);
      MoreRulesFailMore(a, b, request, world, EscalateAction, SevHigh);
      MoreRulesMoreRisk(a, b, request, world);
      if !SecurityFailed(a, request, world) && !FailedWith(a, request, world, BlockAction)
         && !FailedWith(a, request, world, EscalateAction) {
        UnflaggedRisk(a, request, world);
      }
    } else {
      ParseErrorsBlock(a, request, world);
      ParseErrorsBlock(b, request, world);
    }
  }

  function PlainRequest(tool: string, level: RiskLevel, compliance: bool, pii: bool, parameters: Json): ParsedRequest {
    ParsedRequest("r", "a", "s", 0, Tool(tool, level, pii, compliance), Action("act", None), parameters, JNull,
        JNull, [])
  }

  function PlainWorld(evaluators: Evaluators, count: nat): World {
    World(evaluators, S.Scanner(0, true, (s: string) => 0), RedactorAnswer(JNull, count))
  }

  function Always(outcome: Evaluation): Evaluators {
    var f := (request: ParsedRequest, rule: Rule) => outcome;
    Evaluators(f, f, f, f, f)
  }

  /** With a block threshold of 0.85 or less, enabling a rule can turn a BLOCK into an ESCALATE: the tool is
    CRITICAL, and the rule, which fails, asks for escalation. */
  lemma {:induction false} NotMonotone(settings: S.SecuritySettings, thresholds: Thresholds)
    returns (a: Config, b: Config, request: ParsedRequest, world: World)
    requires thresholds.block <= 85
    ensures a.settings == b.settings == settings && a.thresholds == b.thresholds == thresholds
    ensures WellNamed(a.rules) && WellNamed(b.rules) && AllBlockOrEscalate(a.rules) && AllBlockOrEscalate(b.rules)
    ensures EnabledWithin(a.rules, b.rules)
    ensures Rank(VerdictOf(a, request, world)) > Rank(VerdictOf(b, request, world))
  {
    var rule := Rule("1", "x", OFAC, true, false, EscalateAction);
    a, b := Config([], settings, thresholds), Config([rule], settings, thresholds);
    request := PlainRequest("t", CriticalRisk, true, false, JNull);
    world := PlainWorld(Always(Fails), 0);
    assert WellNamed(b.rules) && rule in b.rules;
    assert ReportOf(world.evaluators, request, rule).status == FAIL;
    assert Enabled(b.rules, rule) && Failed(request, world, rule);
    VerdictCharacterised(a, request, world);
    VerdictCharacterised(b, request, world);
    NoSecurityIssue(a, request, world);
    NoSecurityIssue(b, request, world);
  }

  lemma {:induction false} NoSecurityIssue(config: Config, request: ParsedRequest, world: World)
    requires request.parameters == JNull && world.scanner.requestBytes == 0 && world.scanner.signed
    ensures !SecurityFailed(config, request, world)
    ensures S.SecurityFailures(config.settings, world.scanner, request.parameters) == []
  {
  }

  ghost predicate Comparable(a: seq<Rule>, b: seq<Rule>) {
    WellNamed(a) && WellNamed(b) && AllBlockOrEscalate(a) && AllBlockOrEscalate(b) && EnabledWithin(a, b)
  }

  predicate NoWeaker(a: Config, b: Config, request: ParsedRequest, world: World) {
    Rank(VerdictOf(a, request, world)) <= Rank(VerdictOf(b, request, world))
  }

  /** Whatever the rules, the request and the world: enabling more rules never weakens the verdict. */
  ghost predicate NeverWeakens(settings: S.SecuritySettings, thresholds: Thresholds) {
    forall a: seq<Rule>, b: seq<Rule>, request: ParsedRequest, world: World :: Comparable(a, b) ==>
      NoWeaker(Config(a, settings, thresholds), Config(b, settings, thresholds), request, world)
  }

  lemma {:induction false} MonotoneExactly(settings: S.SecuritySettings, thresholds: Thresholds)
    ensures NeverWeakens(settings, thresholds) <==> thresholds.block > 85
  {
    if thresholds.block > 85 {
      forall a: seq<Rule>, b: seq<Rule>, request: ParsedRequest, world: World | Comparable(a, b)
        ensures NoWeaker(Config(a, settings, thresholds), Config(b, settings, thresholds), request, world)
      {
        Monotone(Config(a, settings, thresholds), Config(b, settings, thresholds), request, world);
      }
    } else {
      var a, b, request, world := NotMonotone(settings, thresholds);
      assert Comparable(a.rules, b.rules);
      assert !NoWeaker(Config(a.rules, settings, thresholds), Config(b.rules, settings, thresholds), request, world);
    }
  }

  // ---------------------------------------------------------------- fail closed

  function SeverityWeight(severity: Severity): int {
    match severity
    case SevCritical => 95
    case SevHigh => 75
    case SevMedium => 40
    case SevLow => 40
  }

  /** The least score with which a rule can report a failure that no verdict flag reflects: by throwing, or
    by failing when its action neither blocks nor escalates. */
  function LeastRisk(rule: Rule): int {
    if BlockOrEscalate(rule) || SeverityWeight(SeverityOf(rule)) > 75 then 75 else SeverityWeight(SeverityOf(rule))
  }

  predicate Reacts(thresholds: Thresholds, risk: int) {
    thresholds.escalate <= risk || thresholds.block <= risk
  }

  /** The thresholds react to every failure that reaches no flag. */
  ghost predicate Closed(config: Config) {
    && (config.settings.detectInjection ==> Reacts(config.thresholds, 80))
    && (forall r :: Enabled(config.rules, r) ==> Reacts(config.thresholds, LeastRisk(r)))
  }

  predicate ClosedFor(config: Config, request: ParsedRequest, world: World) {
    ResultOf(config, request, world).failures != [] ==> VerdictOf(config, request, world) != Approve
  }

  lemma {:induction false} RuleFailureReacts(config: Config, request: ParsedRequest, world: World)
    requires request.parseErrors == [] && Closed(config)
    requires !FailedWith(config, request, world, BlockAction) && !FailedWith(config, request, world, EscalateAction)
    requires ComplianceFailures(world.evaluators, config.rules, request) != []
    ensures Reacts(config.thresholds, ScoreOf(config, request, world))
  {
    var failures := ComplianceFailures(world.evaluators, config.rules, request);
    var f := failures[0];
    assert f in failures;
    FailuresOfRules(world.evaluators, request, config.rules, f);
    var r :| Enabled(config.rules, r) && ReportOf(world.evaluators, request, r).severity == Some(f.severity);
    assert Reacts(config.thresholds, LeastRisk(r));
    assert Failed(request, world, r) ==> FailedWith(config, request, world, r.action);
    ComplianceRisk(config, request, world);
    assert RuleReports(config, request, world, f.severity);
  }

  lemma {:induction false} FailsClosed(config: Config, request: ParsedRequest, world: World)
    requires WellNamed(config.rules) && Closed(config)
    ensures ClosedFor(config, request, world)
  {
    if request.parseErrors != [] {
      ParseErrorsBlock(config, request, world);
    } else {
      VerdictCharacterised(config, request, world);
      if ComplianceFailures(world.evaluators, config.rules, request) != []
         && !FailedWith(config, request, world, BlockAction) && !FailedWith(config, request, world, EscalateAction) {
        RuleFailureReacts(config, request, world);
      }
    }
  }

  // The failures that slip through when the thresholds are too high.

  function Nested(levels: nat): Json {
    if levels == 0 then JArr([]) else JArr([Nested(levels - 1)])
  }

  /** Six levels of empty arrays: nesting is reported and every check passes. */
  lemma {:induction false} NestingSlipsThrough(config: Config) returns (request: ParsedRequest, world: World)
    requires WellNamed(config.rules) && config.settings.detectInjection && !Reacts(config.thresholds, 80)
    ensures !ClosedFor(config, request, world)
  {
    var deep := Nested(5);
    request, world := PlainRequest("t", LowRisk, false, false, deep), PlainWorld(Always(Passes), 0);
    NestedScan(world.scanner, 1, 5);
    VerdictCharacterised(config, request, world);
    assert S.SecurityFailures(config.settings, world.scanner, deep) == [S.NESTING];
    assert ResultOf(config, request, world).failures == [S.NESTING];
  }

  lemma {:induction false} NestedScan(scanner: S.Scanner, depth: nat, levels: nat)
    requires depth + levels == S.MAX_NESTING + 1
    ensures S.Issues(scanner, Nested(levels), depth) == 0
    ensures S.ScanFailures(Nested(levels), depth) == [S.NESTING]
    decreases levels
  {
    if levels > 0 {
      NestedScan(scanner, depth + 1, levels - 1);
      var items := [Nested(levels - 1)];
      assert items[..0] == [];
      assert S.ItemFailures(items, depth + 1) == S.ItemFailures([], depth + 1) + S.ScanFailures(items[0], depth + 1);
      assert S.ItemIssues(scanner, items, depth + 1)
          == S.ItemIssues(scanner, [], depth + 1) + S.Issues(scanner, items[0], depth + 1);
    }
  }

  function Only(rule: Rule, outcome: Evaluation): Evaluators {
    var f := (request: ParsedRequest, other: Rule) => if other == rule then outcome else Passes;
    Evaluators(f, f, f, f, f)
  }

  lemma {:induction false} OnlyReports(request: ParsedRequest, rule: Rule, outcome: Evaluation, other: Rule)
    ensures OutcomeOf(Only(rule, outcome), request, other) == if other == rule then outcome else Passes
  {
  }

  /** A rule that throws, or fails without blocking or escalating, under thresholds above its risk. */
  lemma {:induction false} RuleSlipsThrough(config: Config, rule: Rule) returns (request: ParsedRequest, world: World)
    requires WellNamed(config.rules) && Enabled(config.rules, rule) && !Reacts(config.thresholds, LeastRisk(rule))
    ensures !ClosedFor(config, request, world)
  {
    var outcome := if BlockOrEscalate(rule) || SeverityWeight(SeverityOf(rule)) > 75 then Throws else Fails;
    var tool := if ConfinedTo(rule).Some? then ConfinedTo(rule).value else "t";
    request, world := PlainRequest(tool, LowRisk, true, false, JNull), PlainWorld(Only(rule, outcome), 0);
    SlipsThrough(config, rule, outcome, request, world);
  }

  lemma {:induction false} SlipsThrough(config: Config, rule: Rule, outcome: Evaluation, request: ParsedRequest,
                                        world: World)
    requires WellNamed(config.rules) && Enabled(config.rules, rule) && !Reacts(config.thresholds, LeastRisk(rule))
    requires outcome == if BlockOrEscalate(rule) || SeverityWeight(SeverityOf(rule)) > 75 then Throws else Fails
    requires Applies(rule, request) && world == PlainWorld(Only(rule, outcome), 0)
    requires request == PlainRequest(request.tool.name, LowRisk, true, false, JNull)
    ensures !ClosedFor(config, request, world)
  {
    forall r
      ensures ReportOf(world.evaluators, request, r).severity.Some? ==> r == rule
      ensures ReportOf(world.evaluators, request, r).status == FAIL ==> r == rule
    {
      OnlyReports(request, rule, outcome, r);
    }
    OnlyReports(request, rule, outcome, rule);
    NoSecurityIssue(config, request, world);
    VerdictCharacterised(config, request, world);
    ComplianceRisk(config, request, world);
    var severity := if outcome == Throws then SevHigh else SeverityOf(rule);
    assert ReportOf(world.evaluators, request, rule).severity == Some(severity);
    assert RuleReports(config, request, world, severity);
    ReportedSeverities(config, request, world, severity);
  }

  /** A configuration fails closed, for every request in every world, exactly when its thresholds react to
    the failures that no check or rule action turns into a verdict. */
  lemma {:induction false} FailsClosedExactly(config: Config)
    requires WellNamed(config.rules)
    ensures (forall request: ParsedRequest, world: World :: ClosedFor(config, request, world)) <==> Closed(config)
  {
    if Closed(config) {
      forall request: ParsedRequest, world: World
        ensures ClosedFor(config, request, world)
      {
        FailsClosed(config, request, world);
      }
    } else if config.settings.detectInjection && !Reacts(config.thresholds, 80) {
      var request, world := NestingSlipsThrough(config);
    } else {
      var r :| Enabled(config.rules, r) && !Reacts(config.thresholds, LeastRisk(r));
      var request, world := RuleSlipsThrough(config, r);
    }
  }

  /** With rules that all block or escalate, an escalation or block threshold of 0.75 or less suffices. */
  lemma {:induction false} BlockingRulesFailClosed(config: Config, request: ParsedRequest, world: World)
    requires WellNamed(config.rules) && AllBlockOrEscalate(config.rules) && Reacts(config.thresholds, 75)
    ensures ClosedFor(config, request, world)
  {
    FailsClosed(config, request, world);
  }

  // ---------------------------------------------------------------- the redactor

  function WithRedaction(world: World, redaction: RedactorAnswer): World {
    world.(redaction := redaction)
  }

  predicate SameVerdict(config: Config, request: ParsedRequest, world: World, a: RedactorAnswer, b: RedactorAnswer) {
    VerdictOf(config, request, WithRedaction(world, a)) == VerdictOf(config, request, WithRedaction(world, b))
  }

  /** No threshold lies in the reach of the 0.1 that redaction contributes, or a lower one hides it. */
  predicate OutOfReach(thresholds: Thresholds) {
    && !(0 < thresholds.block <= 10)
    && !(thresholds.block > 10 && 0 < thresholds.escalate <= 10)
  }

  lemma {:induction false} RedactionFlagsNothing(config: Config, request: ParsedRequest, world: World,
                                                 a: RedactorAnswer,
                                                 b: RedactorAnswer)
    requires request.parseErrors == []
    ensures HasBlocking(config.rules, ResultOf(config, request, WithRedaction(world, a)).checks)
            <==> HasBlocking(config.rules, ResultOf(config, request, WithRedaction(world, b)).checks)
    ensures HasEscalating(config.rules, ResultOf(config, request, WithRedaction(world, a)).checks)
            <==> HasEscalating(config.rules, ResultOf(config, request, WithRedaction(world, b)).checks)
  {
    forall c
      ensures c in ResultOf(config, request, WithRedaction(world, a)).checks && c.status == FAIL <==>
                c in ResultOf(config, request, WithRedaction(world, b)).checks && c.status == FAIL
    {
      FailingChecks(config, request, WithRedaction(world, a), c);
      FailingChecks(config, request, WithRedaction(world, b), c);
    }
  }

  lemma {:induction false} RedactorIndependent(config: Config, request: ParsedRequest, world: World, a: RedactorAnswer,
                                               b: RedactorAnswer)
    requires OutOfReach(config.thresholds)
    ensures SameVerdict(config, request, world, a, b)
  {
    if request.parseErrors == [] {
      RedactionFlagsNothing(config, request, world, a, b);
      ComplianceRisk(config, request, world);
    }
  }

  lemma {:induction false} RedactorMatters(config: Config)
    returns (request: ParsedRequest, world: World, a: RedactorAnswer, b: RedactorAnswer)
    requires WellNamed(config.rules) && !OutOfReach(config.thresholds)
    ensures !SameVerdict(config, request, world, a, b)
  {
    request, world := PlainRequest("t", LowRisk, false, true, JNull), PlainWorld(Always(Passes), 0);
    a, b := RedactorAnswer(JNull, 0), RedactorAnswer(JNull, 1);
    NoSecurityIssue(config, request, world);
    VerdictCharacterised(config, request, WithRedaction(world, a));
    VerdictCharacterised(config, request, WithRedaction(world, b));
  }

  /** The verdict does not depend on what the redactor answers, service or fallback, exactly when the
    thresholds leave no room for the 0.1 it adds. */
  lemma {:induction false} RedactorIndependentExactly(config: Config)
    requires WellNamed(config.rules)
    ensures (forall request: ParsedRequest, world: World, a: RedactorAnswer, b: RedactorAnswer ::
               SameVerdict(config, request, world, a, b)) <==> OutOfReach(config.thresholds)
  {
    if OutOfReach(config.thresholds) {
      forall request: ParsedRequest, world: World, a: RedactorAnswer, b: RedactorAnswer
        ensures SameVerdict(config, request, world, a, b)
      {
        RedactorIndependent(config, request, world, a, b);
      }
    } else {
      var request, world, a, b := RedactorMatters(config);
    }
  }

  /** The thresholds the system is seeded with meet all three conditions. */
  lemma {:induction false} DefaultThresholdsSuffice(rules: seq<Rule>, settings: S.SecuritySettings)
    requires WellNamed(rules) && AllBlockOrEscalate(rules)
    ensures var config := Config(rules, settings, DEFAULTS);
            && NeverWeakens(settings, DEFAULTS)
            && (forall request: ParsedRequest, world: World :: ClosedFor(config, request, world))
            && (forall request: ParsedRequest, world: World, a: RedactorAnswer, b: RedactorAnswer ::
                  SameVerdict(config, request, world, a, b))
  {
    var config := Config(rules, settings, DEFAULTS);
    MonotoneExactly(settings, DEFAULTS);
    FailsClosedExactly(config);
    RedactorIndependentExactly(config);
  }

  // ---------------------------------------------------------------- what always needs a review

  predicate NotApproved(config: Config, request: ParsedRequest, world: World) {
    VerdictOf(config, request, world) != Approve
  }

  predicate Costs(request: ParsedRequest, amount: int) {
    var cost := request.action.costEstimate;
    cost.Some? && cost.value.mantissa > amount * Power10(cost.value.decimals)
  }

  lemma {:induction false} ScoreReacts(config: Config, request: ParsedRequest, world: World, risk: int)
    requires Reacts(config.thresholds, risk) && ScoreOf(config, request, world) >= risk
    ensures NotApproved(config, request, world)
  {
  }

  lemma {:induction false} PlainVerdict(config: Config, request: ParsedRequest) returns (world: World)
    requires WellNamed(config.rules) && request.parameters == JNull && request.parseErrors == []
    requires !request.tool.requiresComplianceCheck && !request.tool.requiresPiiRedaction
    ensures VerdictOf(config, request, world) == Threshold(config.thresholds, RaisedRisk(request, 0))
  {
    world := PlainWorld(Always(Passes), 0);
    NoSecurityIssue(config, request, world);
    VerdictCharacterised(config, request, world);
  }

  function Payment(amount: int): ParsedRequest {
    PlainRequest("t", LowRisk, false, false, JNull).(action := Action("act", Some(Numeral(amount, 0))))
  }

  /** No request for a HIGH tool is ever approved if and only if a threshold lies at or below 0.7; none for a
    CRITICAL tool, if and only if one lies at or below 0.85; none with an estimated cost of more than 5000, if
    and only if one lies at or below 0.8. */
  lemma {:induction false} RiskyToolsExactly(config: Config)
    requires WellNamed(config.rules)
    ensures (forall request: ParsedRequest, world: World :: request.tool.riskLevel == HighRisk ==>
               NotApproved(config, request, world)) <==> Reacts(config.thresholds, 70)
    ensures (forall request: ParsedRequest, world: World :: request.tool.riskLevel == CriticalRisk ==>
               NotApproved(config, request, world)) <==> Reacts(config.thresholds, 85)
    ensures (forall request: ParsedRequest, world: World :: Costs(request, 5000) ==>
               NotApproved(config, request, world)) <==> Reacts(config.thresholds, 80)
  {
    RiskyAreNotApproved(config);
    if !Reacts(config.thresholds, 70) {
      var high := PlainRequest("t", HighRisk, false, false, JNull);
      var world := PlainVerdict(config, high);
      RaisedExactly(high, 0);
      assert !NotApproved(config, high, world);
    }
    if !Reacts(config.thresholds, 85) {
      var critical := PlainRequest("t", CriticalRisk, false, false, JNull);
      var world := PlainVerdict(config, critical);
      RaisedExactly(critical, 0);
      assert !NotApproved(config, critical, world);
    }
    if !Reacts(config.thresholds, 80) {
      var costly := Payment(5001);
      var world := PlainVerdict(config, costly);
      RaisedExactly(costly, 0);
      assert Costs(costly, 5000) && !NotApproved(config, costly, world);
    }
  }

  lemma {:induction false} RiskyAreNotApproved(config: Config)
    ensures Reacts(config.thresholds, 70) ==> forall request: ParsedRequest, world: World ::
              request.tool.riskLevel == HighRisk ==> NotApproved(config, request, world)
    ensures Reacts(config.thresholds, 85) ==> forall request: ParsedRequest, world: World ::
              request.tool.riskLevel == CriticalRisk ==> NotApproved(config, request, world)
    ensures Reacts(config.thresholds, 80) ==> forall request: ParsedRequest, world: World ::
              Costs(request, 5000) ==> NotApproved(config, request, world)
  {
    forall request: ParsedRequest, world: World
      ensures request.tool.riskLevel == HighRisk && Reacts(config.thresholds, 70) ==>
                NotApproved(config, request, world)
      ensures request.tool.riskLevel == CriticalRisk && Reacts(config.thresholds, 85) ==>
                NotApproved(config, request, world)
      ensures Costs(request, 5000) && Reacts(config.thresholds, 80) ==> NotApproved(config, request, world)
    {
      RaisedExactly(request, ResultOf(config, request, world).riskScore);
    }
  }

  /** Under the default thresholds, 0.7 and 0.9, no HIGH or CRITICAL tool and no cost above 5000 is ever approved. */
  lemma {:induction false} DefaultsReviewRisky(rules: seq<Rule>, settings: S.SecuritySettings, request: ParsedRequest,
                                               world: World)
    requires request.tool.riskLevel == HighRisk || request.tool.riskLevel == CriticalRisk || Costs(request, 5000)
    ensures DEFAULTS == Thresholds(70, 90) && NotApproved(Config(rules, settings, DEFAULTS), request, world)
  {
    RiskyAreNotApproved(Config(rules, settings, DEFAULTS));
  }

  /** The evaluator of the rule finds fault, or throws: a sanctions list, the underwriting limits for the
    underwriter, Regulation F or a bankruptcy for the dialer. */
  predicate NotClear(request: ParsedRequest, world: World, rule: Rule) {
    var regF := rule.ruleType == REG_F || Contains(ToLower(rule.name), "bankruptcy");
    || (regF && request.tool.name == "dialer" && world.evaluators.regF(request, rule) != Passes)
    || (!regF && !rule.hasConditions && rule.ruleType == OFAC && world.evaluators.ofac(request, rule) != Passes)
    || (!regF && !rule.hasConditions && rule.ruleType == QM && request.tool.name == "loan-underwriter"
        && world.evaluators.qm(request, rule) != Passes)
  }

  lemma {:induction false} NotClearIsGrave(request: ParsedRequest, world: World, rule: Rule)
    requires NotClear(request, world, rule)
    ensures var severity := ReportOf(world.evaluators, request, rule).severity;
            severity == Some(SevCritical) || severity == Some(SevHigh)
  {
    if rule.ruleType == REG_F || Contains(ToLower(rule.name), "bankruptcy") {
      RegFRule(world.evaluators, request, rule);
    } else {
      PlainRule(world.evaluators, request, rule);
    }
  }

  /** With a threshold at or below 0.75 such a request is never approved, whatever action the rule asks for. */
  lemma {:induction false} FaultsNeedReview(config: Config, request: ParsedRequest, world: World, rule: Rule)
    requires WellNamed(config.rules) && Enabled(config.rules, rule) && request.tool.requiresComplianceCheck
    requires NotClear(request, world, rule) && Reacts(config.thresholds, 75)
    ensures NotApproved(config, request, world)
  {
    NotClearIsGrave(request, world, rule);
    if request.parseErrors != [] {
      ParseErrorsBlock(config, request, world);
    } else {
      ComplianceRisk(config, request, world);
      assert RuleReports(config, request, world, SevCritical) || RuleReports(config, request, world, SevHigh);
      RaisedExactly(request, ResultOf(config, request, world).riskScore);
    }
  }
}
