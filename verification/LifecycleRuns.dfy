/** Runs put together, and runs that avoid certain steps. */
module LifecycleRuns {
  import opened Lifecycle

  lemma {:induction false} RunExtends(s: State, events: seq<Event>, e: Event)
    ensures Run(s, events + [e]) == Step(Run(s, events), e)
  {
    assert (events + [e])[..|events|] == events;
  }

  lemma {:induction false} RunJoins(s: State, a: seq<Event>, b: seq<Event>)
    ensures Run(s, a + b) == Run(Run(s, a), b)
  {
    if b == [] {
      assert a + b == a;
    } else {
      var front, last := b[..|b| - 1], b[|b| - 1];
      assert a + b == (a + front) + [last];
      RunExtends(s, a + front, last);
      RunJoins(s, a, front);
    }
  }

  /** No step of the run is one that `breaks`. */
  predicate Avoids(breaks: (State, Event) -> bool, s: State, events: seq<Event>) {
    events == [] ||
    (Avoids(breaks, s, events[..|events| - 1]) && !breaks(Run(s, events[..|events| - 1]), events[|events| - 1]))
  }

  lemma {:induction false} AvoidsJoins(breaks: (State, Event) -> bool, s: State, a: seq<Event>, b: seq<Event>)
    requires Avoids(breaks, s, a) && Avoids(breaks, Run(s, a), b)
    ensures Avoids(breaks, s, a + b)
  {
    if b == [] {
      assert a + b == a;
    } else {
      var front, last := b[..|b| - 1], b[|b| - 1];
      AvoidsJoins(breaks, s, a, front);
      RunJoins(s, a, front);
      assert (a + b)[..|a + b| - 1] == a + front && (a + b)[|a + b| - 1] == last;
    }
  }

  lemma {:induction false} AvoidsStep(breaks: (State, Event) -> bool, s: State, events: seq<Event>, e: Event,
                                      more: seq<Event>)
    requires Avoids(breaks, s, events) && !breaks(Run(s, events), e)
    requires Avoids(breaks, Step(Run(s, events), e), more)
    ensures Avoids(breaks, s, events + [e] + more) && Run(s, events + [e] + more) == Run(Step(Run(s, events), e), more)
  {
    assert (events + [e])[..|events|] == events;
    RunExtends(s, events, e);
    AvoidsJoins(breaks, s, events + [e], more);
    RunJoins(s, events + [e], more);
  }

  /** Fewer forbidden steps, more runs. */
  lemma {:induction false} AvoidsMore(strict: (State, Event) -> bool, loose: (State, Event) -> bool, s: State,
                                      events: seq<Event>)
    requires Avoids(strict, s, events)
    requires forall t: State, e: Event {:trigger loose(t, e)} :: loose(t, e) ==> strict(t, e)
    ensures Avoids(loose, s, events)
  {
    if events != [] {
      AvoidsMore(strict, loose, s, events[..|events| - 1]);
    }
  }
}
