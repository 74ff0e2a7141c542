/** From the configuration to the ledger: what becomes of the requests that the policy finds fault with. */
module EndToEnd {
  import opened Types
  import opened ValidationPipeline
  import Policy
  import PolicyProperties
  import opened Lifecycle
  import opened LifecycleSafety
  import opened LifecycleOnce
  import opened LifecycleJudged
  import opened LifecycleAgreement
  import opened LifecycleServices
  import opened LifecycleSequential

  // ---------------------------------------------------------------- every run in ENFORCE mode

  /** The pipeline and the decision engine together. */
  function JudgementBy(config: Policy.Config, world: World, request: ParsedRequest): Judgement {
    Judgement(Decision(Policy.VerdictOf(config, request, world), Policy.ScoreOf(config, request, world), false),
              Policy.ResultOf(config, request, world), RedactedRequest(request, world.redaction))
  }

  ghost predicate ClosedConfig(config: Policy.Config) {
    Policy.WellNamed(config.rules) && PolicyProperties.Closed(config)
  }

  /** The configuration may change from job to job, and the outside world does. */
  ghost predicate ByClosedPolicy(request: ParsedRequest, judgement: Judgement) {
    exists config: Policy.Config, world: World :: ClosedConfig(config)
        && judgement == JudgementBy(config, world, request)
  }

  /** A job is judged in OBSERVE mode, or otherwise than by a configuration that fails closed. */
  ghost predicate BreaksEnforcement(s: State, e: Event) {
    e.Judge? && s.worker.Popped? && (e.observe || !ByClosedPolicy(s.worker.request, e.judgement))
  }

  ghost predicate Enforced(s: State, events: seq<Event>) {
    events == [] ||
    (Enforced(s, events[..|events| - 1]) && !BreaksEnforcement(Run(s, events[..|events| - 1]), events[|events| - 1]))
  }

  predicate FaultsNotApproved(s: State, id: string) {
    id in s.judgements && s.judgements[id].validation.failures != [] ==>
      s.judgements[id].decision.verdict != Approve
  }

  lemma {:induction false} ClosedPolicyRefuses(request: ParsedRequest, judgement: Judgement)
    requires ByClosedPolicy(request, judgement)
    ensures judgement.validation.failures != [] ==> judgement.decision.verdict != Approve
  {
    var config: Policy.Config, world: World
      :| ClosedConfig(config) && judgement == JudgementBy(config, world, request);
    PolicyProperties.FailsClosed(config, request, world);
  }

  lemma {:induction false} JudgeEnforced(s: State, judgement: Judgement, observe: bool, id: string)
    requires FaultsNotApproved(s, id) && (s.worker.Popped? ==> !observe && ByClosedPolicy(s.worker.request, judgement))
    ensures FaultsNotApproved(JudgeStep(s, judgement, observe), id)
  {
    if JudgeStep(s, judgement, observe) != s {
      ClosedPolicyRefuses(s.worker.request, judgement);
    }
  }

  lemma {:induction false} StepEnforced(s: State, e: Event, id: string)
    requires FaultsNotApproved(s, id) && !BreaksEnforcement(s, e)
    ensures FaultsNotApproved(Step(s, e), id)
  {
    if e.Judge? {
      JudgeEnforced(s, e.judgement, e.observe, id);
    } else {
      assert Step(s, e).judgements == s.judgements;
    }
  }

  lemma {:induction false} RunEnforced(events: seq<Event>, id: string)
    requires Enforced(EMPTY, events)
    ensures FaultsNotApproved(Run(EMPTY, events), id)
  {
    if events != [] {
      var before := events[..|events| - 1];
      RunEnforced(before, id);
      StepEnforced(Run(EMPTY, before), events[|events| - 1], id);
    }
  }

  /** In every run in ENFORCE mode under configurations that fail closed, whatever fails and however reviewers
    interleave: a request with validation failures is executed, or reads APPROVE, only if it has a ticket that
    a reviewer approved. */
  lemma {:induction false} ViolationsNeedApproval(events: seq<Event>, id: string)
    requires Enforced(EMPTY, events)
    requires var s := Run(EMPTY, events); id in s.judgements && s.judgements[id].validation.failures != []
    ensures var s := Run(EMPTY, events);
            Count(s.executions, id) > 0 || VerdictIn(s.ledger, id) == Some(Approve) ==>
              HasTicket(s.tickets, id) && ApprovedBy(s, id)
  {
    RunEnforced(events, id);
    ExecutedMeansJudged(events, id);
  }

  // ---------------------------------------------------------------- one job

  /** The pass of the worker takes its decision from the pipeline and the decision engine. */
  ghost predicate Decides(config: Policy.Config, world: World, job: ParsedRequest, turn: Turn) {
    JudgementOf(job, turn) == JudgementBy(config, world, job)
  }

  /** In ENFORCE mode, under a configuration that fails closed, a request with validation failures is not
    executed by the worker, wherever its pass throws, and its row does not read APPROVE; if nothing throws it
    ends blocked or escalated, with a ticket exactly when it is escalated. */
  lemma {:induction false} ViolationsAreNotExecuted(config: Policy.Config, world: World, s: State, turn: Turn)
    requires Consistent(s) && s.worker.Idle? && s.queue != [] && !turn.observe
    requires Decides(config, world, s.queue[|s.queue| - 1], turn) && ClosedConfig(config)
    requires Policy.ResultOf(config, s.queue[|s.queue| - 1], world).failures != []
    ensures var job := s.queue[|s.queue| - 1];
            var t := Processing(PopStep(s), turn, job);
            var v := VerdictIn(t.ledger, job.id);
            && Count(t.executions, job.id) == 0
            && (v == Some(Block) || v == Some(Escalate) || (v == Some(Pending) && !turn.fallbackWorks))
            && (turn.failure == NoFailure ==>
                  v != Some(Pending) && (HasTicket(t.tickets, job.id) <==> v == Some(Escalate)))
  {
    var job := s.queue[|s.queue| - 1];
    DecidedFinally(config, world, job, turn);
    PolicyProperties.FailsClosed(config, job, world);
    ProcessingEffect(s, turn, job.id);
  }

  lemma {:induction false} DecidedFinally(config: Policy.Config, world: World, job: ParsedRequest, turn: Turn)
    requires Decides(config, world, job, turn)
    ensures turn.decision.verdict == Policy.VerdictOf(config, job, world) && turn.decision.verdict != Pending
  {
  }

  /** In OBSERVE mode every request ends approved, and has been executed once, unless its pass throws. */
  lemma {:induction false} ObserveExecutesEverything(s: State, turn: Turn)
    requires Consistent(s) && s.worker.Idle? && s.queue != [] && turn.decision.verdict != Pending
    requires turn.failure == NoFailure && turn.observe
    ensures var job := s.queue[|s.queue| - 1];
            var t := Processing(PopStep(s), turn, job);
            && VerdictIn(t.ledger, job.id) == Some(Approve)
            && Count(t.executions, job.id) == 1
  {
    ProcessingEffect(s, turn, s.queue[|s.queue| - 1].id);
  }
}
