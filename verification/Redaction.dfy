/** Redacting one text: the Python service masks what the text then holds, the TypeScript fallback what was
  detected; for spans that lie apart both are one substitution into the original text. */
module Redaction {
  import opened Spans
  import opened Splice

  type Masking = (PiiKind, string) -> string

  function PatchOf(mask: Masking, text: string, s: Span): Patch {
    Patch(s.start, s.end, mask(s.kind, Slice(text, s.start, s.end)))
  }

  /** The spans with the masks of what they cover in `text`. */
  function PatchesOf(mask: Masking, text: string, spans: seq<Span>): (r: seq<Patch>)
    ensures |r| == |spans| && forall i :: 0 <= i < |r| ==> r[i] == PatchOf(mask, text, spans[i])
  {
    if spans == [] then []
    else PatchesOf(mask, text, spans[..|spans| - 1]) + [PatchOf(mask, text, spans[|spans| - 1])]
  }

  /** The loop of the service: slice, mask and replacement all from the text as it then is. */
  function Masked(mask: Masking, text: string, spans: seq<Span>): string {
    if spans == [] then text
    else
      var done := Masked(mask, text, spans[..|spans| - 1]);
      var p := PatchOf(mask, done, spans[|spans| - 1]);
      Replace(done, p.start, p.end, p.mask)
  }

  /** The loop of the service: the spans are masked from right to left, and reported. */
  method MaskInPlace(mask: Masking, content: string, spans: seq<Span>) returns (text: string, matches: seq<PiiKind>)
    ensures text == Masked(mask, content, spans) && matches == KindsOf(spans)
  {
    text, matches := content, [];
    for i := 0 to |spans|
      invariant text == Masked(mask, content, spans[..i])
      invariant matches == KindsOf(spans[..i])
    {
      assert spans[..i + 1][..i] == spans[..i];
      var val := Slice(text, spans[i].start, spans[i].end);
      var m := mask(spans[i].kind, val);
      text := Slice(text, 0, spans[i].start) + m + Slice(text, spans[i].end, |text|);
      matches := matches + [spans[i].kind];
    }
    assert spans[..|spans|] == spans;
  }

  /** The loop of the fallback: the masks of the detected values. */
  method MaskDetected(mask: Masking, content: string, spans: seq<Span>) returns (text: string)
    ensures text == Spliced(content, PatchesOf(mask, content, spans))
  {
    text := content;
    for i := 0 to |spans|
      invariant text == Spliced(content, PatchesOf(mask, content, spans[..i]))
    {
      assert spans[..i + 1][..i] == spans[..i];
      var p := PatchOf(mask, content, spans[i]);
      assert PatchesOf(mask, content, spans[..i + 1])[..i] == PatchesOf(mask, content, spans[..i]);
      text := Slice(text, 0, spans[i].start) + p.mask + Slice(text, spans[i].end, |text|);
    }
    assert spans[..|spans|] == spans;
  }

  // ---------------------------------------------------------------- spans that lie apart

  predicate AllIn(text: string, spans: seq<Span>) {
    forall s :: s in spans ==> SpanIn(text, s)
  }

  predicate AllApart(spans: seq<Span>) {
    forall i, j :: 0 <= i < j < |spans| ==> Disjoint(spans[j], spans[i])
  }

  lemma {:induction false} PatchesOrdered(mask: Masking, text: string, spans: seq<Span>)
    requires AllIn(text, spans) && Descending(spans) && AllApart(spans)
    ensures RightToLeft(text, 0, PatchesOf(mask, text, spans))
  {
    var patches := PatchesOf(mask, text, spans);
    forall i | 0 <= i < |patches|
      ensures InText(text, patches[i])
    {
      assert SpanIn(text, spans[i]);
    }
    forall i, j | 0 <= i < j < |patches|
      ensures LeftOf(patches[j], patches[i])
    {
      assert SpanIn(text, spans[i]) && SpanIn(text, spans[j]) && Disjoint(spans[j], spans[i]);
    }
    RightToLeftFromPairs(text, 0, patches);
  }

  /** Under a span that lies to the left of all patches so far, the original text is still there: each mask
    is that of the original. */
  lemma {:induction false} MasksOfOriginal(mask: Masking, text: string, from: nat, spans: seq<Span>)
    requires RightToLeft(text, from, PatchesOf(mask, text, spans))
    ensures Masked(mask, text, spans) == Spliced(text, PatchesOf(mask, text, spans))
    decreases |spans|
  {
    if spans != [] {
      var patches := PatchesOf(mask, text, spans);
      var left, rest := spans[|spans| - 1], spans[..|spans| - 1];
      assert patches[..|spans| - 1] == PatchesOf(mask, text, rest);
      MasksOfOriginal(mask, text, left.end, rest);
      SplicedSuffix(text, left.end, PatchesOf(mask, text, rest));
      var done := Masked(mask, text, rest);
      assert Slice(done, left.start, left.end) == Slice(text, left.start, left.end);
    }
  }

  /** For spans that lie apart, the two loops give the same text: the original with every span replaced by
    the mask of what it covered, whose length follows. */
  lemma {:induction false} RedactionIsSubstitution(mask: Masking, text: string, spans: seq<Span>)
    requires AllIn(text, spans) && Descending(spans) && AllApart(spans)
    ensures var patches := PatchesOf(mask, text, spans);
            && RightToLeft(text, 0, patches)
            && Masked(mask, text, spans) == Spliced(text, patches) == Substituted(text, 0, patches)
            && |Masked(mask, text, spans)| == |text| + Growth(patches)
  {
    PatchesOrdered(mask, text, spans);
    var patches := PatchesOf(mask, text, spans);
    MasksOfOriginal(mask, text, 0, spans);
    SplicedIsSubstituted(text, patches);
    SplicedLength(text, 0, patches);
  }

  // ---------------------------------------------------------------- the service: sort, filter, mask

  method RedactString(mask: Masking, content: string, results: seq<Span>) returns (text: string, matches: seq<PiiKind>)
    ensures text == Masked(mask, content, Filtered([], Sorted(results)))
    ensures matches == KindsOf(Filtered([], Sorted(results)))
  {
    if |results| == 0 {
      return content, [];
    }
    var sorted := SortByStart(results);
    var filtered := Filter([], sorted);
    text, matches := MaskInPlace(mask, content, filtered);
  }

  function KindsOf(spans: seq<Span>): (r: seq<PiiKind>)
    ensures |r| == |spans|
  {
    if spans == [] then [] else KindsOf(spans[..|spans| - 1]) + [spans[|spans| - 1].kind]
  }

  lemma {:induction false} FilteredDescends(spans: seq<Span>)
    requires Descending(spans)
    ensures Descending(Filtered([], spans))
    ensures spans != [] ==> forall s :: s in Filtered([], spans) ==> s.start >= spans[|spans| - 1].start
  {
    if spans != [] {
      var n := |spans| - 1;
      FilteredDescends(spans[..n]);
      var before := Filtered([], spans[..n]);
      forall s | s in before
        ensures s.start >= spans[n].start
      {
        assert n > 0 ==> s.start >= spans[n - 1].start;
      }
    }
  }

  /** No kept span encloses another. */
  predicate NoEnclosure(spans: seq<Span>) {
    forall i, j :: 0 <= i < j < |spans| ==> !Encloses(spans[j], spans[i])
  }

  /** What the service makes of a text: when no kept span encloses another, the masks of the kept spans
    stand in their places and all else is as it was. */
  lemma {:induction false} ServiceSubstitutes(mask: Masking, content: string, results: seq<Span>)
    requires AllIn(content, results) && NoEnclosure(Filtered([], Sorted(results)))
    ensures var kept := Filtered([], Sorted(results));
            && RightToLeft(content, 0, PatchesOf(mask, content, kept))
            && Masked(mask, content, kept) == Substituted(content, 0, PatchesOf(mask, content, kept))
            && |Masked(mask, content, kept)| == |content| + Growth(PatchesOf(mask, content, kept))
  {
    SortedIsSorted(results);
    var sorted := Sorted(results);
    var kept := Filtered([], sorted);
    FilterKeeps([], sorted);
    FilteredDescends(sorted);
    forall i, j | 0 <= i < j < |kept|
      ensures Disjoint(kept[j], kept[i])
    {
      KeptApart([], sorted, i, j);
    }
    RedactionIsSubstitution(mask, content, kept);
  }

  predicate SameMasks(mask: Masking, a: string, b: string, spans: seq<Span>) {
    forall s :: s in spans ==> mask(s.kind, Slice(a, s.start, s.end)) == mask(s.kind, Slice(b, s.start, s.end))
  }

  predicate Under(spans: seq<Span>, i: int) {
    exists s :: s in spans && s.start <= i < s.end
  }

  lemma {:induction false} SamePatches(mask: Masking, a: string, b: string, spans: seq<Span>)
    requires SameMasks(mask, a, b, spans)
    ensures PatchesOf(mask, a, spans) == PatchesOf(mask, b, spans)
  {
    var p, q := PatchesOf(mask, a, spans), PatchesOf(mask, b, spans);
    forall k | 0 <= k < |spans|
      ensures p[k] == q[k]
    {
      assert spans[k] in spans;
    }
  }

  lemma {:induction false} UnderPatches(mask: Masking, text: string, spans: seq<Span>, i: int)
    requires Under(spans, i)
    ensures exists p :: p in PatchesOf(mask, text, spans) && p.start <= i < p.end
  {
    var s :| s in spans && s.start <= i < s.end;
    var k :| 0 <= k < |spans| && spans[k] == s;
    assert PatchesOf(mask, text, spans)[k] in PatchesOf(mask, text, spans);
  }

  /** Of two texts that differ only under the kept spans, and there only in what the masks hide, the service
    makes the same text. */
  lemma {:induction false} ServiceHides(mask: Masking, a: string, b: string, results: seq<Span>)
    requires |a| == |b| && AllIn(a, results) && AllIn(b, results) && NoEnclosure(Filtered([], Sorted(results)))
    requires SameMasks(mask, a, b, Filtered([], Sorted(results)))
    requires forall i :: 0 <= i < |a| && a[i] != b[i] ==> Under(Filtered([], Sorted(results)), i)
    ensures Masked(mask, a, Filtered([], Sorted(results))) == Masked(mask, b, Filtered([], Sorted(results)))
  {
    var kept := Filtered([], Sorted(results));
    ServiceSubstitutes(mask, a, results);
    ServiceSubstitutes(mask, b, results);
    SamePatches(mask, a, b, kept);
    forall i | 0 <= i < |a| && a[i] != b[i]
      ensures exists p :: p in PatchesOf(mask, a, kept) && p.start <= i < p.end
    {
      UnderPatches(mask, a, kept, i);
    }
    NothingElseShows(a, b, 0, PatchesOf(mask, a, kept));
  }
}
