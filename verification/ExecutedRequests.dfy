/** From what agents submit to what is executed: when the pipeline judges, the only requests executed are those
  submitted, with the parameters the redactor answered where redaction is required. */
module ExecutedRequests {
  import opened Types
  import opened Spans
  import opened Masks
  import opened ValidationPipeline
  import Policy
  import opened Lifecycle
  import opened LifecycleRuns
  import opened LifecycleRedacted
  import opened EndToEnd
  import opened TreeRedaction
  import opened TreeProperties
  import opened SensitiveKeys

  // ---------------------------------------------------------------- what was submitted

  predicate Submits(e: Event, request: ParsedRequest) {
    e.Intercept? && e.request == request
  }

  predicate Submitted(events: seq<Event>, request: ParsedRequest) {
    exists k :: 0 <= k < |events| && Submits(events[k], request)
  }

  ghost predicate AllSubmitted(s: State, events: seq<Event>) {
    && (forall id :: id in s.entering ==> Submitted(events, s.entering[id]))
    && (forall k :: 0 <= k < |s.queue| ==> Submitted(events, s.queue[k]))
    && (!s.worker.Idle? ==> Submitted(events, s.worker.request))
  }

  lemma {:induction false} StillSubmitted(events: seq<Event>, e: Event, request: ParsedRequest)
    ensures Submitted(events, request) || Submits(e, request) ==> Submitted(events + [e], request)
  {
    var more := events + [e];
    if Submitted(events, request) {
      var k :| 0 <= k < |events| && Submits(events[k], request);
      assert Submits(more[k], request);
    }
    assert more[|events|] == e;
  }

  lemma {:induction false} StepSubmitted(s: State, events: seq<Event>, e: Event)
    requires AllSubmitted(s, events)
    ensures AllSubmitted(Step(s, e), events + [e])
  {
    var t := Step(s, e);
    forall id | id in t.entering
      ensures Submitted(events + [e], t.entering[id])
    {
      StillSubmitted(events, e, t.entering[id]);
      assert (id in s.entering && t.entering[id] == s.entering[id]) || Submits(e, t.entering[id]);
    }
    QueueSubmitted(s, events, e);
    WorkerSubmitted(s, events, e);
  }

  lemma {:induction false} QueueSubmitted(s: State, events: seq<Event>, e: Event)
    requires AllSubmitted(s, events)
    ensures forall k :: 0 <= k < |Step(s, e).queue| ==> Submitted(events + [e], Step(s, e).queue[k])
  {
    var t := Step(s, e);
    forall k | 0 <= k < |t.queue|
      ensures Submitted(events + [e], t.queue[k])
    {
      StillSubmitted(events, e, t.queue[k]);
      if e.Enqueue? && e.id in s.entering {
        assert t.queue[k] == if k == 0 then s.entering[e.id] else s.queue[k - 1];
      } else {
        assert k < |s.queue| && t.queue[k] == s.queue[k];
      }
    }
  }

  lemma {:induction false} WorkerSubmitted(s: State, events: seq<Event>, e: Event)
    requires AllSubmitted(s, events)
    ensures var t := Step(s, e); !t.worker.Idle? ==> Submitted(events + [e], t.worker.request)
  {
    var t := Step(s, e);
    if !t.worker.Idle? {
      StillSubmitted(events, e, t.worker.request);
      if e.Pop? && s.worker.Idle? {
        assert t.worker.request == s.queue[|s.queue| - 1];
      } else {
        assert !s.worker.Idle? && t.worker.request == s.worker.request;
      }
    }
  }

  lemma {:induction false} RunSubmitted(events: seq<Event>)
    ensures AllSubmitted(Run(EMPTY, events), events)
  {
    if events != [] {
      var before, e := events[..|events| - 1], events[|events| - 1];
      RunSubmitted(before);
      StepSubmitted(Run(EMPTY, before), before, e);
      assert events == before + [e];
    }
  }

  // ---------------------------------------------------------------- what was judged

  /** What the redactor may answer for a tree of parameters. */
  type Redactor = (Json, RedactorAnswer) -> bool

  /** The pipeline and the decision engine judge, under any configuration and in any mode, with an answer of the
    redactor where redaction is required. */
  ghost predicate ByPolicy(redactor: Redactor, request: ParsedRequest, judgement: Judgement) {
    exists config: Policy.Config, world: World ::
      JudgementBy(config, world, request) == judgement && Answered(redactor, request, world.redaction)
  }

  predicate Answered(redactor: Redactor, request: ParsedRequest, redaction: RedactorAnswer) {
    request.parseErrors == [] && request.tool.requiresPiiRedaction ==> redactor(request.parameters, redaction)
  }

  ghost predicate JudgedByPolicy(redactor: Redactor, s: State, events: seq<Event>) {
    events == [] ||
    (var before, e := events[..|events| - 1], events[|events| - 1];
     && JudgedByPolicy(redactor, s, before)
     && (e.Judge? && Run(s, before).worker.Popped? ==> ByPolicy(redactor, Run(s, before).worker.request, e.judgement)))
  }

  /** The request itself, or, where redaction is required, the request with parameters the redactor answered. */
  predicate Origin(redactor: Redactor, request: ParsedRequest, redaction: RedactorAnswer, redacted: ParsedRequest) {
    if request.parseErrors == [] && request.tool.requiresPiiRedaction
    then redactor(request.parameters, redaction) && redacted == request.(parameters := redaction.parameters)
    else redacted == request
  }

  ghost predicate Stems(redactor: Redactor, events: seq<Event>, id: string, redacted: ParsedRequest) {
    exists request: ParsedRequest, redaction: RedactorAnswer ::
      Origin(redactor, request, redaction, redacted) && request.id == id && Submitted(events, request)
  }

  ghost predicate JudgementStems(redactor: Redactor, events: seq<Event>, s: State, id: string) {
    id in s.judgements ==> Stems(redactor, events, id, s.judgements[id].redacted)
  }

  lemma {:induction false} StillStems(redactor: Redactor, events: seq<Event>, e: Event, id: string,
                                      redacted: ParsedRequest)
    requires Stems(redactor, events, id, redacted)
    ensures Stems(redactor, events + [e], id, redacted)
  {
    var request: ParsedRequest, redaction: RedactorAnswer
      :| Origin(redactor, request, redaction, redacted) && request.id == id && Submitted(events, request);
    StillSubmitted(events, e, request);
  }

  lemma {:induction false} PolicyStems(redactor: Redactor, events: seq<Event>, request: ParsedRequest,
                                       judgement: Judgement)
    requires ByPolicy(redactor, request, judgement) && Submitted(events, request)
    ensures Stems(redactor, events, request.id, judgement.redacted)
  {
    var config: Policy.Config, world: World
      :| JudgementBy(config, world, request) == judgement && Answered(redactor, request, world.redaction);
    assert Origin(redactor, request, world.redaction, judgement.redacted);
  }

  lemma {:induction false} RunStems(redactor: Redactor, events: seq<Event>, id: string)
    requires JudgedByPolicy(redactor, EMPTY, events)
    ensures JudgementStems(redactor, events, Run(EMPTY, events), id)
  {
    if events != [] {
      var before, e := events[..|events| - 1], events[|events| - 1];
      RunStems(redactor, before, id);
      RunSubmitted(before);
      assert events == before + [e];
      StepStems(redactor, before, Run(EMPTY, before), e, id);
    }
  }

  lemma {:induction false} StepStems(redactor: Redactor, events: seq<Event>, s: State, e: Event, id: string)
    requires JudgementStems(redactor, events, s, id) && AllSubmitted(s, events)
    requires e.Judge? && s.worker.Popped? ==> ByPolicy(redactor, s.worker.request, e.judgement)
    ensures JudgementStems(redactor, events + [e], Step(s, e), id)
  {
    var t := Step(s, e);
    if id in t.judgements {
      if id in s.judgements && t.judgements[id] == s.judgements[id] {
        StillStems(redactor, events, e, id, s.judgements[id].redacted);
      } else {
        assert e.Judge? && s.worker.Popped? && id == s.worker.request.id;
        assert t.judgements[id].redacted == e.judgement.redacted;
        PolicyStems(redactor, events, s.worker.request, e.judgement);
        StillStems(redactor, events, e, id, e.judgement.redacted);
      }
    }
  }

  // ---------------------------------------------------------------- what is executed

  /** Whatever is executed stems from a request that was submitted under its id: it is that request, or, where
    redaction is required, that request with parameters the redactor answered for it. */
  lemma {:induction false} ExecutedStems(redactor: Redactor, events: seq<Event>, k: nat)
    requires JudgedByPolicy(redactor, EMPTY, events) && Avoids(BreaksRedaction, EMPTY, events)
    requires k < |Run(EMPTY, events).executions|
    ensures var e := Run(EMPTY, events).executions[k]; Stems(redactor, events, e.requestId, e.request)
  {
    ExecutedAsRedacted(events, k);
    RunStems(redactor, events, Run(EMPTY, events).executions[k].requestId);
  }

  /** The redactor is the service, or the fallback when the service does not answer. */
  function ServiceOrFallback(analyze: string -> seq<Span>, detect: string -> seq<Span>): Redactor {
    (parameters: Json, redaction: RedactorAnswer) =>
      || redaction == RedactorAnswer(Redacted(ServiceLeaf(analyze), parameters, ""),
                                |MatchesIn(ServiceLeaf(analyze), parameters, "")|)
      || redaction == RedactorAnswer(Redacted(LocalLeaf(detect), parameters, ""),
                                |MatchesIn(LocalLeaf(detect), parameters, "")|)
  }

  /** A string under a sensitive key in which the patterns find nothing is masked by the kind of the key. */
  predicate SecretMasked(detect: string -> seq<Span>, v: Json, w: Json, i: nat)
    requires i < |Strings(v, "")| == |Strings(w, "")|
  {
    var text := TextAt(v, i);
    SensitiveKey(KeyAt(v, i)) && detect(text) == [] ==>
      || MaskedUnder(KeyAt(v, i), text, ServiceMask(Email, text), TextAt(w, i))
      || MaskedUnder(KeyAt(v, i), text, LocalMask(Email, text), TextAt(w, i))
  }

  ghost predicate SecretsMasked(detect: string -> seq<Span>, v: Json, w: Json) {
    |Strings(v, "")| == |Strings(w, "")| && forall i: nat :: i < |Strings(v, "")| ==> SecretMasked(detect, v, w, i)
  }

  lemma {:induction false} AnswersMaskSecrets(analyze: string -> seq<Span>, detect: string -> seq<Span>, v: Json,
                                              redaction: RedactorAnswer)
    requires ServiceOrFallback(analyze, detect)(v, redaction)
    ensures SecretsMasked(detect, v, redaction.parameters)
  {
    WalkIsPointwise(ServiceLeaf(analyze), v, "");
    WalkIsPointwise(LocalLeaf(detect), v, "");
    forall i: nat | i < |Strings(v, "")|
      ensures SecretMasked(detect, v, redaction.parameters, i)
    {
      if SensitiveKey(KeyAt(v, i)) && detect(TextAt(v, i)) == [] {
        SensitiveStringsAreMasked(analyze, v, i);
        SensitiveStringsAreMaskedLocally(detect, v, i);
      }
    }
  }

  /** The executed request, its secrets masked if its tool requires redaction. */
  ghost predicate MaskedOrPlain(detect: string -> seq<Span>, request: ParsedRequest, executed: ParsedRequest) {
    if request.parseErrors == [] && request.tool.requiresPiiRedaction
    then SecretsMasked(detect, request.parameters, executed.parameters)
    else executed == request
  }

  /** From submission to execution: when the redactor is the service or the fallback, every executed request stems
    from one submitted under its id, and if its tool requires redaction, the strings under sensitive keys are
    masked. */
  lemma {:induction false} ExecutedSecretsAreMasked(analyze: string -> seq<Span>, detect: string -> seq<Span>,
                                                    events: seq<Event>, k: nat) returns (request: ParsedRequest)
    requires JudgedByPolicy(ServiceOrFallback(analyze, detect), EMPTY, events) && Avoids(BreaksRedaction, EMPTY, events)
    requires k < |Run(EMPTY, events).executions|
    ensures var e := Run(EMPTY, events).executions[k];
            && Submitted(events, request) && request.id == e.requestId
            && MaskedOrPlain(detect, request, e.request)
  {
    var redactor := ServiceOrFallback(analyze, detect);
    ExecutedStems(redactor, events, k);
    var e := Run(EMPTY, events).executions[k];
    var redaction: RedactorAnswer;
    request, redaction :| Origin(redactor, request, redaction, e.request) && request.id == e.requestId
                          && Submitted(events, request);
    if request.parseErrors == [] && request.tool.requiresPiiRedaction {
      AnswersMaskSecrets(analyze, detect, request.parameters, redaction);
    }
  }
}
