/** Detected spans: sorting them by start, and keeping those that do not overlap one kept before. */
module Spans {

  datatype PiiKind = Ssn | CreditCard | BankAccount | Address | Email | Phone | Person

  datatype Span = Span(kind: PiiKind, start: nat, end: nat)

  /** In bounds and not empty. */
  predicate SpanIn(text: string, s: Span) {
    s.start < s.end <= |text|
  }

  // ---------------------------------------------------------------- sorting

  predicate Descending(spans: seq<Span>) {
    forall i, j :: 0 <= i < j < |spans| ==> spans[i].start >= spans[j].start
  }

  /** Where `s` belongs: behind the spans that start at the same place or further right. */
  function Place(spans: seq<Span>, s: Span): (p: nat)
    ensures p <= |spans|
    ensures p > 0 ==> spans[p - 1].start >= s.start
    ensures forall i :: p <= i < |spans| ==> spans[i].start < s.start
  {
    if spans == [] || spans[|spans| - 1].start >= s.start then |spans| else Place(spans[..|spans| - 1], s)
  }

  function Insert(spans: seq<Span>, s: Span): seq<Span> {
    spans[..Place(spans, s)] + [s] + spans[Place(spans, s)..]
  }

  lemma {:induction false} InsertAdds(spans: seq<Span>, s: Span)
    ensures multiset(Insert(spans, s)) == multiset(spans) + multiset{s}
  {
    assert spans == spans[..Place(spans, s)] + spans[Place(spans, s)..];
  }

  lemma {:induction false} InsertAt(spans: seq<Span>, s: Span, i: nat)
    requires i <= |spans|
    ensures var p := Place(spans, s);
            |Insert(spans, s)| == |spans| + 1 &&
            Insert(spans, s)[i] == if i < p then spans[i] else if i == p then s else spans[i - 1]
  {
  }

  lemma {:induction false} InsertSorts(spans: seq<Span>, s: Span)
    requires Descending(spans)
    ensures Descending(Insert(spans, s))
  {
    var p := Place(spans, s);
    forall i, j | 0 <= i < j < |spans| + 1
      ensures Insert(spans, s)[i].start >= Insert(spans, s)[j].start
    {
      InsertAt(spans, s, i);
      InsertAt(spans, s, j);
      if i < p <= j {
        assert spans[i].start >= spans[p - 1].start;
      }
    }
  }

  function Sorted(spans: seq<Span>): seq<Span> {
    if spans == [] then [] else Insert(Sorted(spans[..|spans| - 1]), spans[|spans| - 1])
  }

  lemma {:induction false} SortedIsSorted(spans: seq<Span>)
    ensures Descending(Sorted(spans)) && multiset(Sorted(spans)) == multiset(spans)
    ensures forall s :: s in Sorted(spans) <==> s in spans
  {
    if spans != [] {
      var n := |spans| - 1;
      SortedIsSorted(spans[..n]);
      InsertSorts(Sorted(spans[..n]), spans[n]);
      InsertAdds(Sorted(spans[..n]), spans[n]);
      assert spans == spans[..n] + [spans[n]];
    }
    assert forall s :: s in Sorted(spans) <==> s in multiset(Sorted(spans));
    assert forall s :: s in spans <==> s in multiset(spans);
  }

  function StartingAt(spans: seq<Span>, start: nat): seq<Span> {
    if spans == [] then []
    else
      var last := spans[|spans| - 1];
      StartingAt(spans[..|spans| - 1], start) + if last.start == start then [last] else []
  }

  lemma {:induction false} StartingAtSplits(a: seq<Span>, b: seq<Span>, start: nat)
    ensures StartingAt(a + b, start) == StartingAt(a, start) + StartingAt(b, start)
  {
    if b == [] {
      assert a + b == a;
    } else {
      var n := |b| - 1;
      StartingAtSplits(a, b[..n], start);
      assert (a + b)[..|a + b| - 1] == a + b[..n] && (a + b)[|a + b| - 1] == b[n];
      Associates(StartingAt(a, start), StartingAt(b[..n], start), if b[n].start == start then [b[n]] else []);
    }
  }

  lemma {:induction false} Associates(a: seq<Span>, b: seq<Span>, c: seq<Span>)
    ensures a + b + c == a + (b + c)
  {
  }

  lemma {:induction false} NoneStartingAt(spans: seq<Span>, start: nat)
    requires forall i :: 0 <= i < |spans| ==> spans[i].start != start
    ensures StartingAt(spans, start) == []
  {
    if spans != [] {
      NoneStartingAt(spans[..|spans| - 1], start);
    }
  }

  lemma {:induction false} StableAround(front: seq<Span>, s: Span, back: seq<Span>, start: nat)
    requires s.start == start ==> StartingAt(back, start) == []
    ensures StartingAt(front + [s] + back, start) == StartingAt(front + back, start) + if s.start
              == start then [s] else []
  {
    StartingAtSplits(front + [s], back, start);
    StartingAtSplits(front, [s], start);
    StartingAtSplits(front, back, start);
    assert StartingAt([s], start) == if s.start == start then [s] else [];
  }

  lemma {:induction false} InsertIsStable(spans: seq<Span>, s: Span, start: nat)
    ensures StartingAt(Insert(spans, s), start) == StartingAt(spans, start) + if s.start == start then [s] else []
  {
    var p := Place(spans, s);
    if s.start == start {
      NoneStartingAt(spans[p..], start);
    }
    StableAround(spans[..p], s, spans[p..], start);
    assert spans == spans[..p] + spans[p..];
  }

  /** Spans with the same start keep their order. */
  lemma {:induction false} SortIsStable(spans: seq<Span>, start: nat)
    ensures StartingAt(Sorted(spans), start) == StartingAt(spans, start)
  {
    if spans != [] {
      var n := |spans| - 1;
      SortIsStable(spans[..n], start);
      InsertIsStable(Sorted(spans[..n]), spans[n], start);
    }
  }

  method SortByStart(spans: seq<Span>) returns (r: seq<Span>)
    ensures r == Sorted(spans)
  {
    r := [];
    for i := 0 to |spans|
      invariant r == Sorted(spans[..i])
    {
      assert spans[..i + 1][..i] == spans[..i];
      r := Insert(r, spans[i]);
    }
    assert spans[..|spans|] == spans;
  }

  // ---------------------------------------------------------------- the overlap filter

  /** One end of `s` lies in `added`. */
  predicate Overlaps(s: Span, added: Span) {
    (added.start <= s.start < added.end) || (added.start < s.end <= added.end)
  }

  predicate OverlapsAny(s: Span, kept: seq<Span>) {
    exists added :: added in kept && Overlaps(s, added)
  }

  /** `kept`, and those of `spans` that overlap none kept before them. */
  function Filtered(kept: seq<Span>, spans: seq<Span>): seq<Span> {
    if spans == [] then kept
    else
      var before := Filtered(kept, spans[..|spans| - 1]);
      var s := spans[|spans| - 1];
      if OverlapsAny(s, before) then before else before + [s]
  }

  method Filter(kept: seq<Span>, spans: seq<Span>) returns (filtered: seq<Span>)
    ensures filtered == Filtered(kept, spans)
  {
    filtered := kept;
    for i := 0 to |spans|
      invariant filtered == Filtered(kept, spans[..i])
    {
      assert spans[..i + 1][..i] == spans[..i];
      var overlap := false;
      var j := 0;
      while j < |filtered| && !overlap
        invariant j <= |filtered|
        invariant overlap <==> exists k :: 0 <= k < j && Overlaps(spans[i], filtered[k])
      {
        overlap := Overlaps(spans[i], filtered[j]);
        j := j + 1;
      }
      assert overlap ==> OverlapsAny(spans[i], filtered);
      if !overlap {
        filtered := filtered + [spans[i]];
      }
    }
    assert spans[..|spans|] == spans;
  }

  predicate Disjoint(a: Span, b: Span) {
    a.end <= b.start || b.end <= a.start
  }

  predicate Encloses(outer: Span, inner: Span) {
    outer.start < inner.start && inner.end < outer.end
  }

  lemma {:induction false} NoOverlapMeans(s: Span, added: Span)
    requires s.start < s.end && added.start < added.end
    ensures !Overlaps(s, added) <==> Disjoint(s, added) || Encloses(s, added)
  {
  }

  predicate Nonempty(spans: seq<Span>) {
    forall s :: s in spans ==> s.start < s.end
  }

  /** Nothing is invented, and what was kept before stays in front. */
  lemma {:induction false} FilterKeeps(kept: seq<Span>, spans: seq<Span>)
    ensures kept <= Filtered(kept, spans)
    ensures forall s :: s in Filtered(kept, spans) ==> s in kept || s in spans
  {
    if spans != [] {
      var n := |spans| - 1;
      FilterKeeps(kept, spans[..n]);
      assert spans == spans[..n] + [spans[n]];
    }
  }

  /** A span kept by the filter is disjoint from every span kept before it, or strictly encloses it. */
  lemma {:induction false} KeptApart(kept: seq<Span>, spans: seq<Span>, i: nat, j: nat)
    requires Nonempty(kept) && Nonempty(spans) && i < j < |Filtered(kept, spans)| && |kept| <= j
    ensures var r := Filtered(kept, spans); Disjoint(r[j], r[i]) || Encloses(r[j], r[i])
  {
    var n := |spans| - 1;
    assert spans == spans[..n] + [spans[n]];
    var before := Filtered(kept, spans[..n]);
    FilterKeeps(kept, spans[..n]);
    if j < |before| {
      KeptApart(kept, spans[..n], i, j);
    } else {
      assert before[i] in before;
      NoOverlapMeans(spans[n], before[i]);
    }
  }

  /** Every span that is dropped overlaps one that is kept. */
  lemma {:induction false} DroppedOverlaps(kept: seq<Span>, spans: seq<Span>, s: Span)
    requires s in spans && s !in Filtered(kept, spans)
    ensures OverlapsAny(s, Filtered(kept, spans))
  {
    var n := |spans| - 1;
    assert spans == spans[..n] + [spans[n]];
    var before := Filtered(kept, spans[..n]);
    if s in spans[..n] {
      DroppedOverlaps(kept, spans[..n], s);
    }
    assert OverlapsAny(s, before);
    var added :| added in before && Overlaps(s, added);
    assert added in Filtered(kept, spans);
  }
}
