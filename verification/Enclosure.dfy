/** A kept span that encloses kept ones: by the time it is replaced its offsets are stale, by as much as the
  masks inside it have grown or shrunk. What then shows, and what is lost, to the character. */
module Enclosure {
  import opened Spans
  import opened Splice
  import opened Redaction
  import opened Masks

  // ---------------------------------------------------------------- masking part of a text

  lemma {:induction false} MaskedJoins(mask: Masking, text: string, a: seq<Span>, b: seq<Span>)
    ensures Masked(mask, text, a + b) == Masked(mask, Masked(mask, text, a), b)
  {
    if b == [] {
      assert a + b == a;
    } else {
      assert (a + b)[..|a + b| - 1] == a + b[..|b| - 1];
      MaskedJoins(mask, text, a, b[..|b| - 1]);
    }
  }

  /** What lies in front of all spans stays. */
  lemma {:induction false} FrontStays(mask: Masking, text: string, from: nat, spans: seq<Span>)
    requires from <= |text| && forall i :: 0 <= i < |spans| ==> from <= spans[i].start
    ensures from <= |Masked(mask, text, spans)| && Masked(mask, text, spans)[..from] == text[..from]
  {
    if spans != [] {
      FrontStays(mask, text, from, spans[..|spans| - 1]);
    }
  }

  /** No span reaches beyond the end of the text as it is when the span is replaced. */
  predicate StaysWithin(mask: Masking, text: string, spans: seq<Span>) {
    spans == [] ||
    (var last, rest := spans[|spans| - 1], spans[..|spans| - 1];
     StaysWithin(mask, text, rest) && last.start <= last.end <= |Masked(mask, text, rest)|)
  }

  /** Then what follows the text stays, and has no part in the masks. */
  lemma {:induction false} TailStays(mask: Masking, text: string, tail: string, spans: seq<Span>)
    requires StaysWithin(mask, text, spans)
    ensures Masked(mask, text + tail, spans) == Masked(mask, text, spans) + tail
  {
    if spans != [] {
      var last, rest := spans[|spans| - 1], spans[..|spans| - 1];
      TailStays(mask, text, tail, rest);
      ReplacedInFront(Masked(mask, text, rest), tail, last.start, last.end,
                      mask(last.kind, Slice(Masked(mask, text, rest), last.start, last.end)));
    }
  }

  lemma {:induction false} ReplacedInFront(text: string, tail: string, start: nat, end: nat, mask: string)
    requires start <= end <= |text|
    ensures Replace(text + tail, start, end, mask) == Replace(text, start, end, mask) + tail
    ensures Slice(text + tail, start, end) == Slice(text, start, end)
  {
    assert (text + tail)[..start] == text[..start];
    assert (text + tail)[end..] == text[end..] + tail;
  }

  /** Spans that lie apart stay within. */
  lemma {:induction false} ApartStaysWithin(mask: Masking, text: string, spans: seq<Span>)
    requires AllIn(text, spans) && Descending(spans) && AllApart(spans)
    ensures StaysWithin(mask, text, spans)
  {
    if spans != [] {
      var last, rest := spans[|spans| - 1], spans[..|spans| - 1];
      forall s | s in rest
        ensures SpanIn(text, s)
      {
        assert s in spans;
      }
      assert SpanIn(text, last) by {
        assert last in spans;
      }
      ApartStaysWithin(mask, text, rest);
      forall i | 0 <= i < |rest|
        ensures last.end <= rest[i].start
      {
        assert spans[i] in spans && last in spans && Disjoint(spans[|spans| - 1], spans[i]);
      }
      FrontStays(mask, text, last.end, rest);
    }
  }

  // ---------------------------------------------------------------- the enclosing span

  /** What is left behind the mask of the enclosing span: by `d` characters too much of the inside, or too
    little of what follows. */
  function Behind(inside: string, after: string, d: int): string
    requires d <= |inside|
  {
    if d >= 0 then inside[|inside| - d..] + after
    else if -d <= |after| then after[-d..]
    else ""
  }

  lemma {:induction false} BehindLength(inside: string, after: string, d: int)
    requires d <= |inside|
    ensures |Behind(inside, after, d)| == if d >= -|after| then |after| + d else 0
    ensures Behind(inside, after, d) == after <==> d == 0 || (d < 0 && after == "")
  {
  }

  lemma {:induction false} SlicesOf(front: string, rest: string, end: nat)
    requires |front| <= end
    ensures Slice(front + rest, 0, |front|) == front
    ensures Slice(front + rest, |front|, end) == Slice(rest, 0, end - |front|)
  {
    var whole := front + rest;
    assert whole[..|front|] == front && whole[|front|..] == rest;
  }

  lemma {:induction false} EndOf(front: string, rest: string, end: nat)
    requires |front| <= end
    ensures Slice(front + rest, end, |front + rest|) == Slice(rest, end - |front|, |rest|)
  {
    var whole := front + rest;
    if end <= |whole| {
      assert whole[end..] == rest[end - |front|..];
    }
  }

  lemma {:induction false} StaleReplace(front: string, inside: string, after: string, end: nat, mask: string, d: int)
    requires |front| <= end && |inside| == end - |front| + d
    ensures Replace(front + (inside + after), |front|, end, mask) == front + (mask + Behind(inside, after, d))
    ensures Slice(front + (inside + after), |front|, end) == Slice(inside + after, 0, end - |front|)
  {
    SlicesOf(front, inside + after, end);
    EndOf(front, inside + after, end);
    BehindIs(inside, after, d);
    Grouped(front, mask, Behind(inside, after, d));
  }

  lemma {:induction false} BehindIs(inside: string, after: string, d: int)
    requires d <= |inside|
    ensures Behind(inside, after, d) == Slice(inside + after, |inside| - d, |inside + after|)
  {
    var rest := inside + after;
    if d >= 0 {
      assert rest[|inside| - d..] == inside[|inside| - d..] + after;
    } else if -d <= |after| {
      assert rest[|inside| - d..] == after[-d..];
    }
  }

  predicate AllEnclosed(outer: Span, inners: seq<Span>) {
    forall i :: 0 <= i < |inners| ==> Encloses(outer, inners[i])
  }

  predicate AllBehind(outer: Span, rights: seq<Span>) {
    forall i :: 0 <= i < |rights| ==> outer.end <= rights[i].start
  }

  predicate AllInFront(outer: Span, lefts: seq<Span>) {
    forall i :: 0 <= i < |lefts| ==> lefts[i].end <= outer.start
  }

  /** The spans around `outer`, in the order in which they are replaced: behind it, inside it, in front of it. */
  predicate Around(mask: Masking, content: string, rights: seq<Span>, inners: seq<Span>, outer: Span, lefts: seq<Span>)
  {
    && SpanIn(content, outer) && AllBehind(outer, rights) && AllEnclosed(outer, inners) && AllInFront(outer, lefts)
    && StaysWithin(mask, content[..outer.end], inners) && StaysWithin(mask, content[..outer.start], lefts)
  }

  /** The text from the start of `outer` to its end, with the spans inside masked. */
  function Inside(mask: Masking, content: string, inners: seq<Span>, outer: Span): string
    requires SpanIn(content, outer)
  {
    Slice(Masked(mask, content[..outer.end], inners), outer.start, |Masked(mask, content[..outer.end], inners)|)
  }

  /** The text behind `outer`, with the spans there masked. */
  function After(mask: Masking, content: string, rights: seq<Span>, outer: Span): string {
    Slice(Masked(mask, content, rights), outer.end, |Masked(mask, content, rights)|)
  }

  function GrowthInside(mask: Masking, content: string, inners: seq<Span>, outer: Span): int
    requires SpanIn(content, outer)
  {
    |Masked(mask, content[..outer.end], inners)| - outer.end
  }

  /** The mask of `outer`, made of what then stands at its offsets. */
  function OuterMask(mask: Masking, outer: Span, inside: string, after: string): string
    requires outer.start <= outer.end
  {
    mask(outer.kind, Slice(inside + after, 0, outer.end - outer.start))
  }

  /** The mask of `outer` and what is left behind it. */
  function MaskAndRest(mask: Masking, outer: Span, inside: string, after: string, d: int): string
    requires outer.start <= outer.end && d <= |inside|
  {
    OuterMask(mask, outer, inside, after) + Behind(inside, after, d)
  }

  /** Before `outer` is replaced: the original text in front of it, its masked inside, and what follows. */
  lemma {:induction false} BeforeOuter(mask: Masking, content: string, rights: seq<Span>, inners: seq<Span>,
                                       outer: Span)
    requires Around(mask, content, rights, inners, outer, [])
    ensures Masked(mask, content, rights + inners)
            == content[..outer.start] + (Inside(mask, content, inners, outer) + After(mask, content, rights, outer))
    ensures |Inside(mask, content, inners, outer)|
            == outer.end - outer.start + GrowthInside(mask, content, inners, outer)
  {
    var within, after := content[..outer.end], After(mask, content, rights, outer);
    MaskedJoins(mask, content, rights, inners);
    FrontStays(mask, content, outer.end, rights);
    SplitAt(Masked(mask, content, rights), outer.end);
    TailStays(mask, within, after, inners);
    InsideSplits(mask, content, inners, outer);
    Grouped(content[..outer.start], Inside(mask, content, inners, outer), after);
  }

  lemma {:induction false} SplitAt(text: string, at: nat)
    requires at <= |text|
    ensures text == text[..at] + Slice(text, at, |text|)
  {
  }

  lemma {:induction false} InsideSplits(mask: Masking, content: string, inners: seq<Span>, outer: Span)
    requires SpanIn(content, outer) && AllEnclosed(outer, inners)
    ensures Masked(mask, content[..outer.end], inners)
            == content[..outer.start] + Inside(mask, content, inners, outer)
    ensures |Inside(mask, content, inners, outer)|
            == outer.end - outer.start + GrowthInside(mask, content, inners, outer)
  {
    FrontStays(mask, content[..outer.end], outer.start, inners);
    SplitAt(Masked(mask, content[..outer.end], inners), outer.start);
    assert content[..outer.end][..outer.start] == content[..outer.start];
  }

  lemma {:induction false} Grouped(a: string, b: string, c: string)
    ensures a + b + c == a + (b + c)
  {
  }

  /** A span is replaced whose inside has grown by `d` characters. */
  lemma {:induction false} ReplacedStale(mask: Masking, content: string, spans: seq<Span>, s: Span,
                                         front: string, inside: string, after: string, d: int)
    requires |front| == s.start <= s.end && |inside| == s.end - s.start + d
    requires Masked(mask, content, spans) == front + (inside + after)
    ensures Masked(mask, content, spans + [s]) == front + MaskAndRest(mask, s, inside, after, d)
  {
    MaskedOneMore(mask, content, spans, s);
    StaleReplace(front, inside, after, s.end, OuterMask(mask, s, inside, after), d);
  }

  lemma {:induction false} MaskedOneMore(mask: Masking, content: string, spans: seq<Span>, s: Span)
    ensures var done := Masked(mask, content, spans);
            Masked(mask, content, spans + [s])
            == Replace(done, s.start, s.end, mask(s.kind, Slice(done, s.start, s.end)))
  {
    assert (spans + [s])[..|spans|] == spans;
  }

  /** What the service makes of a span that encloses kept ones, whatever the text and the masks, whatever is
    behind it, and whatever is inside it or in front of it and stays within: the mask of `outer` takes the
    place of as many characters as `outer` had in the original. If the inside has grown by `d` characters,
    exactly its last `d` stay; if it has shrunk, as many characters behind `outer` are lost. */
  lemma {:induction false} EnclosureLeavesText(mask: Masking, content: string, rights: seq<Span>, inners: seq<Span>,
                                               outer: Span, lefts: seq<Span>)
    requires Around(mask, content, rights, inners, outer, lefts)
    ensures GrowthInside(mask, content, inners, outer) <= |Inside(mask, content, inners, outer)|
    ensures Masked(mask, content, rights + inners + [outer] + lefts)
            == Masked(mask, content[..outer.start], lefts)
               + MaskAndRest(mask, outer, Inside(mask, content, inners, outer), After(mask, content, rights, outer),
                             GrowthInside(mask, content, inners, outer))
  {
    var inside, after := Inside(mask, content, inners, outer), After(mask, content, rights, outer);
    var d := GrowthInside(mask, content, inners, outer);
    BeforeOuter(mask, content, rights, inners, outer);
    ReplacedStale(mask, content, rights + inners, outer, content[..outer.start], inside, after, d);
    MaskedJoins(mask, content, rights + inners + [outer], lefts);
    TailStays(mask, content[..outer.start], MaskAndRest(mask, outer, inside, after, d), lefts);
  }

  /** However deep the spans inside are nested: the text in front of `outer` is intact, its mask takes the place
    of as many characters as `outer` had in the original, and what stands behind the mask is longer or shorter
    than what should stand there by as much as the inside has grown or shrunk. */
  lemma {:induction false} AnyDepth(mask: Masking, content: string, rights: seq<Span>, inners: seq<Span>, outer: Span)
    requires SpanIn(content, outer) && AllBehind(outer, rights) && AllEnclosed(outer, inners)
    ensures var before := Masked(mask, content, rights + inners);
            var d := |before| - |Masked(mask, content, rights)|;
            var behind := Slice(before, outer.end, |before|);
            && Masked(mask, content, rights + inners + [outer])
               == content[..outer.start] + mask(outer.kind, Slice(before, outer.start, outer.end)) + behind
            && |behind| == if |After(mask, content, rights, outer)| + d >= 0
                           then |After(mask, content, rights, outer)| + d else 0
  {
    MaskedOneMore(mask, content, rights + inners, outer);
    FrontStays(mask, content, outer.start, rights + inners);
    FrontStays(mask, content, outer.end, rights);
  }

  /** Spans inside that lie apart stay within, and are masked by one substitution, whose length follows. */
  lemma {:induction false} InsideApart(mask: Masking, content: string, inners: seq<Span>, outer: Span)
    requires SpanIn(content, outer) && AllEnclosed(outer, inners)
    requires AllIn(content, inners) && Descending(inners) && AllApart(inners)
    ensures var within := content[..outer.end];
            && StaysWithin(mask, within, inners)
            && RightToLeft(within, 0, PatchesOf(mask, within, inners))
            && Masked(mask, within, inners) == Substituted(within, 0, PatchesOf(mask, within, inners))
            && GrowthInside(mask, content, inners, outer) == Growth(PatchesOf(mask, within, inners))
  {
    forall s | s in inners
      ensures SpanIn(content[..outer.end], s)
    {
      assert SpanIn(content, s) && Encloses(outer, s);
    }
    ApartStaysWithin(mask, content[..outer.end], inners);
    RedactionIsSubstitution(mask, content[..outer.end], inners);
  }

  // ---------------------------------------------------------------- the service

  /** How many spans in front of the list start at `end` or further right. */
  function Leading(spans: seq<Span>, end: nat): (n: nat)
    ensures n <= |spans| && forall i :: 0 <= i < n ==> end <= spans[i].start
    ensures n < |spans| ==> spans[n].start < end
  {
    if spans == [] || spans[0].start < end then 0 else 1 + Leading(spans[1..], end)
  }

  /** The spans kept by the service, around one that no kept span encloses: first those behind it, then those
    inside it, and after it those in front of it. */
  lemma {:induction false} KeptAround(content: string, results: seq<Span>, j: nat)
    requires AllIn(content, results) && j < |Filtered([], Sorted(results))|
    requires var kept := Filtered([], Sorted(results));
             forall k :: j < k < |kept| ==> !Encloses(kept[k], kept[j])
    ensures var kept := Filtered([], Sorted(results));
            var n := Leading(kept, kept[j].end);
            && n <= j && SpanIn(content, kept[j])
            && AllBehind(kept[j], kept[..n]) && AllEnclosed(kept[j], kept[n..j]) && AllInFront(kept[j], kept[j + 1..])
  {
    var kept := Filtered([], Sorted(results));
    KeptInOrder(content, results);
    var n := Leading(kept, kept[j].end);
    assert n <= j;
    forall i | n <= i < j
      ensures Encloses(kept[j], kept[i])
    {
      assert ApartOrEnclosing(kept, i, j);
      assert kept[i].start <= kept[n].start;
    }
    forall k | j < k < |kept|
      ensures kept[k].end <= kept[j].start
    {
      assert ApartOrEnclosing(kept, j, k);
    }
  }

  predicate ApartOrEnclosing(kept: seq<Span>, i: nat, j: nat)
    requires i < |kept| && j < |kept|
  {
    Disjoint(kept[j], kept[i]) || Encloses(kept[j], kept[i])
  }

  lemma {:induction false} KeptInText(content: string, results: seq<Span>)
    requires AllIn(content, results)
    ensures var kept := Filtered([], Sorted(results));
            Nonempty(Sorted(results)) && Descending(kept) && forall i :: 0 <= i < |kept| ==> SpanIn(content, kept[i])
  {
    SortedIsSorted(results);
    var sorted := Sorted(results);
    FilterKeeps([], sorted);
    FilteredDescends(sorted);
    forall s | s in sorted
      ensures SpanIn(content, s)
    {
    }
  }

  lemma {:induction false} KeptInOrder(content: string, results: seq<Span>)
    requires AllIn(content, results)
    ensures var kept := Filtered([], Sorted(results));
            && Descending(kept) && (forall i :: 0 <= i < |kept| ==> SpanIn(content, kept[i]))
            && (forall i: nat, j: nat :: i < j < |kept| ==> ApartOrEnclosing(kept, i, j))
  {
    KeptInText(content, results);
    var kept := Filtered([], Sorted(results));
    forall i: nat, j: nat | i < j < |kept|
      ensures ApartOrEnclosing(kept, i, j)
    {
      KeptApart([], Sorted(results), i, j);
    }
  }

  lemma {:induction false} InFourParts(kept: seq<Span>, n: nat, j: nat)
    requires n <= j < |kept|
    ensures kept == kept[..n] + kept[n..j] + [kept[j]] + kept[j + 1..]
  {
  }

  /** What is inside the span, and what is in front of it, stays within. */
  predicate PartsStayWithin(mask: Masking, content: string, kept: seq<Span>, j: nat)
    requires j < |kept|
  {
    var n := Leading(kept, kept[j].end);
    && n <= j && SpanIn(content, kept[j])
    && StaysWithin(mask, content[..kept[j].end], kept[n..j])
    && StaysWithin(mask, content[..kept[j].start], kept[j + 1..])
  }

  /** The service leaves its text as it should be around such a span, with the mask between what is in front of
    it and what is behind it, if and only if the inside has kept its length, or has shrunk with nothing
    behind it. */
  lemma {:induction false} HarmlessExactly(mask: Masking, content: string, results: seq<Span>, j: nat)
    requires AllIn(content, results) && j < |Filtered([], Sorted(results))|
    requires var kept := Filtered([], Sorted(results));
             PartsStayWithin(mask, content, kept, j) && forall k :: j < k < |kept| ==> !Encloses(kept[k], kept[j])
    ensures var kept := Filtered([], Sorted(results));
            var outer, n := kept[j], Leading(kept, kept[j].end);
            && (var d, after := GrowthInside(mask, content, kept[n..j], outer),
                                After(mask, content, kept[..n], outer);
                Masked(mask, content, kept)
                == Masked(mask, content[..outer.start], kept[j + 1..])
                   + (OuterMask(mask, outer, Inside(mask, content, kept[n..j], outer), after) + after)
                <==> d == 0 || (d < 0 && after == ""))
  {
    var kept := Filtered([], Sorted(results));
    var outer, n := kept[j], Leading(kept, kept[j].end);
    KeptAround(content, results, j);
    var rights, inners, lefts := kept[..n], kept[n..j], kept[j + 1..];
    InFourParts(kept, n, j);
    EnclosureLeavesText(mask, content, rights, inners, outer, lefts);
    var inside, after := Inside(mask, content, inners, outer), After(mask, content, rights, outer);
    var d := GrowthInside(mask, content, inners, outer);
    BehindLength(inside, after, d);
    SameEnd(Masked(mask, content[..outer.start], lefts), OuterMask(mask, outer, inside, after),
            Behind(inside, after, d), after);
  }

  lemma {:induction false} SameEnd(a: string, b: string, c: string, d: string)
    ensures a + (b + c) == a + (b + d) <==> c == d
  {
    if a + (b + c) == a + (b + d) {
      assert (a + (b + c))[|a|..][|b|..] == c && (a + (b + d))[|a|..][|b|..] == d;
    }
  }

  // ---------------------------------------------------------------- one span inside another

  /** The filter keeps both, in whichever order they are found. */
  lemma {:induction false} BothAreKept(outer: Span, inner: Span)
    requires Encloses(outer, inner) && inner.start < inner.end
    ensures Filtered([], Sorted([outer, inner])) == Filtered([], Sorted([inner, outer])) == [inner, outer]
  {
    assert [outer, inner][..1] == [outer] && [inner, outer][..1] == [inner];
    assert Sorted([outer]) == Insert([], outer) == [outer] && Sorted([inner]) == Insert([], inner) == [inner];
    assert Sorted([outer, inner]) == Insert([outer], inner) == [inner, outer];
    assert Sorted([inner, outer]) == Insert([inner], outer) == [inner, outer];
    assert Filtered([], [inner]) == [inner];
    assert !OverlapsAny(outer, [inner]);
  }

  function GrowthOf(mask: Masking, content: string, inner: Span): int {
    |mask(inner.kind, Slice(content, inner.start, inner.end))| - (inner.end - inner.start)
  }

  lemma {:induction false} InsideOne(mask: Masking, content: string, outer: Span, inner: Span)
    requires SpanIn(content, outer) && SpanIn(content, inner) && Encloses(outer, inner)
    ensures StaysWithin(mask, content[..outer.end], [inner])
    ensures GrowthInside(mask, content, [inner], outer) == GrowthOf(mask, content, inner)
    ensures Inside(mask, content, [inner], outer)
            == content[outer.start..inner.start] + mask(inner.kind, Slice(content, inner.start, inner.end))
               + content[inner.end..outer.end]
  {
    var within := content[..outer.end];
    var m := mask(inner.kind, Slice(content, inner.start, inner.end));
    assert [inner][..0] == [] && Masked(mask, within, []) == within;
    assert Slice(within, inner.start, inner.end) == Slice(content, inner.start, inner.end);
    assert Masked(mask, within, [inner]) == content[..inner.start] + m + content[inner.end..outer.end];
    assert content[..inner.start] == content[..outer.start] + content[outer.start..inner.start];
  }

  /** The original text from `end - d` on: `d` characters more than what follows `end`, or so many less. */
  function From(content: string, end: nat, d: int): string
    requires d <= end
  {
    if end - d <= |content| then content[end - d..] else ""
  }

  /** One span inside another. With `d` the growth of the inner mask, up to the distance of the two ends: for
    `d >= 0` exactly the last `d` characters that `outer` covers survive; for a negative `d` as many
    characters behind `outer` are lost. */
  lemma {:induction false} EnclosedMaskShifts(mask: Masking, content: string, outer: Span, inner: Span)
    requires SpanIn(content, outer) && SpanIn(content, inner) && Encloses(outer, inner)
    requires GrowthOf(mask, content, inner) <= outer.end - inner.end
    ensures Masked(mask, content, [inner, outer])
            == content[..outer.start] + OuterMask(mask, outer, Inside(mask, content, [inner], outer),
                content[outer.end..])
               + From(content, outer.end, GrowthOf(mask, content, inner))
  {
    var d := GrowthOf(mask, content, inner);
    InsideOne(mask, content, outer, inner);
    var inside := Inside(mask, content, [inner], outer);
    OneEnclosed(mask, content, outer, inner);
    InsideEnds(content, outer, inner, mask(inner.kind, Slice(content, inner.start, inner.end)), inside);
    BehindOne(content, outer.end, inner.end, inside, content[outer.end..], d);
  }

  lemma {:induction false} OneEnclosed(mask: Masking, content: string, outer: Span, inner: Span)
    requires SpanIn(content, outer) && SpanIn(content, inner) && Encloses(outer, inner)
    ensures var inside, d := Inside(mask, content, [inner], outer), GrowthOf(mask, content, inner);
            && d <= |inside|
            && Masked(mask, content, [inner, outer])
               == content[..outer.start] + OuterMask(mask, outer, Inside(mask, content, [inner], outer),
                   content[outer.end..])
                  + Behind(inside, content[outer.end..], d)
  {
    InsideOne(mask, content, outer, inner);
    EnclosureLeavesText(mask, content, [], [inner], outer, []);
    AloneInOrder(outer, inner);
    assert After(mask, content, [], outer) == content[outer.end..];
    var inside, after := Inside(mask, content, [inner], outer), content[outer.end..];
    Grouped(content[..outer.start], OuterMask(mask, outer, inside, after),
            Behind(inside, after, GrowthOf(mask, content, inner)));
  }

  lemma {:induction false} AloneInOrder(outer: Span, inner: Span)
    ensures [] + [inner] + [outer] + [] == [inner, outer]
  {
  }

  lemma {:induction false} InsideEnds(content: string, outer: Span, inner: Span, m: string, inside: string)
    requires outer.start <= inner.start <= inner.end <= outer.end <= |content|
    requires inside == content[outer.start..inner.start] + m + content[inner.end..outer.end]
    ensures |inside| >= outer.end - inner.end
    ensures inside[|inside| - (outer.end - inner.end)..] == content[inner.end..outer.end]
  {
  }

  lemma {:induction false} BehindOne(content: string, end: nat, innerEnd: nat, inside: string, after: string, d: int)
    requires innerEnd <= end <= |content| && after == content[end..] && d <= |inside|
    requires |inside| >= end - innerEnd && inside[|inside| - (end - innerEnd)..] == content[innerEnd..end]
    requires d <= end - innerEnd
    ensures Behind(inside, after, d) == From(content, end, d)
  {
    if d >= 0 {
      assert inside[|inside| - d..] == inside[|inside| - (end - innerEnd)..][end - innerEnd - d..];
      assert content[end - d..] == content[end - d..end] + content[end..];
    }
  }

  predicate EndsWith(text: string, part: string) {
    |part| <= |text| && text[|text| - |part|..] == part
  }

  lemma {:induction false} JoinedEndsWith(front: string, part: string)
    ensures EndsWith(front + part, part)
  {
  }

  /** A name inside an e-mail address, as the service masks them: the longer the name mask is than the name,
    the more of the end of the address shows. */
  lemma {:induction false} NameInsideAddress(content: string, outer: Span, inner: Span)
    requires SpanIn(content, outer) && SpanIn(content, inner) && Encloses(outer, inner)
    requires outer.kind == Email && inner.kind == Person
    requires inner.end - inner.start < 15 <= inner.end - inner.start + (outer.end - inner.end)
    ensures var d := 15 - (inner.end - inner.start);
            && 0 < d <= outer.end
            && EndsWith(Masked(ServiceMask, content, Filtered([], Sorted([outer, inner]))), content[outer.end - d..])
  {
    BothAreKept(outer, inner);
    NameShows(content, outer, inner, Filtered([], Sorted([outer, inner])));
  }

  lemma {:induction false} NameShows(content: string, outer: Span, inner: Span, kept: seq<Span>)
    requires SpanIn(content, outer) && SpanIn(content, inner) && Encloses(outer, inner) && kept == [inner, outer]
    requires inner.kind == Person
    requires inner.end - inner.start < 15 <= inner.end - inner.start + (outer.end - inner.end)
    ensures var d := 15 - (inner.end - inner.start);
            0 < d <= outer.end && EndsWith(Masked(ServiceMask, content, kept), content[outer.end - d..])
  {
    NameGrowth(content, inner);
    EndShows(ServiceMask, content, outer, inner, kept);
  }

  lemma {:induction false} EndShows(mask: Masking, content: string, outer: Span, inner: Span, kept: seq<Span>)
    requires SpanIn(content, outer) && SpanIn(content, inner) && Encloses(outer, inner) && kept == [inner, outer]
    ensures var d := GrowthOf(mask, content, inner);
            0 < d <= outer.end - inner.end ==> EndsWith(Masked(mask, content, kept), content[outer.end - d..])
  {
    var d := GrowthOf(mask, content, inner);
    if 0 < d <= outer.end - inner.end {
      var inside, after := Inside(mask, content, [inner], outer), content[outer.end..];
      EnclosedMaskShifts(mask, content, outer, inner);
      JoinedEndsWith(content[..outer.start] + OuterMask(mask, outer, inside, after), content[outer.end - d..]);
    }
  }

  lemma {:induction false} NameGrowth(content: string, inner: Span)
    requires SpanIn(content, inner) && inner.kind == Person
    ensures GrowthOf(ServiceMask, content, inner) == 15 - (inner.end - inner.start)
  {
    assert |"[REDACTED_NAME]"| == 15;
  }
}
