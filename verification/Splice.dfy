/** Replacing spans of a text by masks, from the right end to the left, and what it amounts to. */
module Splice {

  datatype Patch = Patch(start: nat, end: nat, mask: string)

  function Min(a: nat, b: nat): nat {
    if a <= b then a else b
  }

  /** `text[start:end]`, with bounds beyond the text read as its end. */
  function Slice(text: string, start: nat, end: nat): string {
    if Min(start, |text|) <= Min(end, |text|) then text[Min(start, |text|)..Min(end, |text|)] else ""
  }

  function Replace(text: string, start: nat, end: nat, mask: string): string {
    Slice(text, 0, start) + mask + Slice(text, end, |text|)
  }

  /** Each patch is applied to the result of the ones before it. */
  function Spliced(text: string, patches: seq<Patch>): string {
    if patches == [] then text
    else
      var last := patches[|patches| - 1];
      Replace(Spliced(text, patches[..|patches| - 1]), last.start, last.end, last.mask)
  }

  /** One pass over the original text from `from` on, the last patch of the list being the leftmost. */
  function Substituted(text: string, from: nat, patches: seq<Patch>): string
    requires RightToLeft(text, from, patches)
    decreases |patches|
  {
    if patches == [] then text[from..]
    else
      var left := patches[|patches| - 1];
      text[from..left.start] + left.mask + Substituted(text, left.end, patches[..|patches| - 1])
  }

  /** The patches lie in the text from `from` on, each to the left of the one before it. */
  predicate RightToLeft(text: string, from: nat, patches: seq<Patch>)
    decreases |patches|
  {
    if patches == [] then from <= |text|
    else
      var left := patches[|patches| - 1];
      from <= left.start <= left.end <= |text| && RightToLeft(text, left.end, patches[..|patches| - 1])
  }

  predicate LeftOf(a: Patch, b: Patch) {
    a.end <= b.start
  }

  predicate InText(text: string, p: Patch) {
    p.start <= p.end <= |text|
  }

  lemma {:induction false} RightToLeftFromPairs(text: string, from: nat, patches: seq<Patch>)
    requires from <= |text| && forall i :: 0 <= i < |patches| ==> InText(text, patches[i]) && from <= patches[i].start
    requires forall i, j :: 0 <= i < j < |patches| ==> LeftOf(patches[j], patches[i])
    ensures RightToLeft(text, from, patches)
    decreases |patches|
  {
    if patches != [] {
      var n := |patches| - 1;
      forall i | 0 <= i < n
        ensures patches[n].end <= patches[i].start
      {
        assert LeftOf(patches[n], patches[i]);
      }
      RightToLeftFromPairs(text, patches[n].end, patches[..n]);
    }
  }

  lemma {:induction false} ReplaceBeforeTail(text: string, tail: string, start: nat, end: nat, mask: string)
    requires start <= end <= |text|
    ensures Replace(text[..end] + tail, start, end, mask) == text[..start] + mask + tail
  {
    var done := text[..end] + tail;
    assert done[0..start] == text[..start];
    assert done[end..|done|] == tail;
  }

  /** Everything to the left of the patches applied so far is still the original text. */
  lemma {:induction false} SplicedSuffix(text: string, from: nat, patches: seq<Patch>)
    requires RightToLeft(text, from, patches)
    ensures Spliced(text, patches) == text[..from] + Substituted(text, from, patches)
    decreases |patches|
  {
    if patches == [] {
      assert text == text[..from] + text[from..];
    } else {
      var left, rest := patches[|patches| - 1], patches[..|patches| - 1];
      SplicedSuffix(text, left.end, rest);
      var tail := Substituted(text, left.end, rest);
      ReplaceBeforeTail(text, tail, left.start, left.end, left.mask);
      Regroup(text, from, left.start, left.mask, tail);
    }
  }

  lemma {:induction false} Regroup(text: string, from: nat, start: nat, mask: string, tail: string)
    requires from <= start <= |text|
    ensures text[..start] + mask + tail == text[..from] + (text[from..start] + mask + tail)
  {
    assert text[..start] == text[..from] + text[from..start];
  }

  /** Splicing disjoint patches from right to left is one simultaneous substitution. */
  lemma {:induction false} SplicedIsSubstituted(text: string, patches: seq<Patch>)
    requires RightToLeft(text, 0, patches)
    ensures Spliced(text, patches) == Substituted(text, 0, patches)
  {
    SplicedSuffix(text, 0, patches);
    assert text[..0] == "";
  }

  function Growth(patches: seq<Patch>): int {
    if patches == [] then 0
    else
      var last := patches[|patches| - 1];
      Growth(patches[..|patches| - 1]) + |last.mask| - (last.end - last.start)
  }

  lemma {:induction false} SplicedLength(text: string, from: nat, patches: seq<Patch>)
    requires RightToLeft(text, from, patches)
    ensures |Spliced(text, patches)| == |text| + Growth(patches)
    decreases |patches|
  {
    if patches != [] {
      var left, rest := patches[|patches| - 1], patches[..|patches| - 1];
      SplicedLength(text, left.end, rest);
      SplicedSuffix(text, left.end, rest);
    }
  }

  /** Two texts that agree outside the patches become the same text: nothing under a patch shows, but what
    the mask says. */
  lemma {:induction false} NothingElseShows(a: string, b: string, from: nat, patches: seq<Patch>)
    requires |a| == |b| && RightToLeft(a, from, patches) && RightToLeft(b, from, patches)
    requires forall i :: from <= i < |a| && a[i] != b[i] ==> exists p :: p in patches && p.start <= i < p.end
    ensures Substituted(a, from, patches) == Substituted(b, from, patches)
    decreases |patches|
  {
    if patches == [] {
      assert a[from..] == b[from..];
    } else {
      var left, rest := patches[|patches| - 1], patches[..|patches| - 1];
      StartsAfter(a, left.end, rest);
      assert patches == rest + [left];
      forall i | from <= i < left.start
        ensures a[i] == b[i]
      {
      }
      assert a[from..left.start] == b[from..left.start];
      forall i | left.end <= i < |a| && a[i] != b[i]
        ensures exists p :: p in rest && p.start <= i < p.end
      {
        var p :| p in patches && p.start <= i < p.end;
        assert p in rest;
      }
      NothingElseShows(a, b, left.end, rest);
    }
  }

  lemma {:induction false} StartsAfter(text: string, from: nat, patches: seq<Patch>)
    requires RightToLeft(text, from, patches)
    ensures forall p :: p in patches ==> from <= p.start
    decreases |patches|
  {
    if patches != [] {
      var left, rest := patches[|patches| - 1], patches[..|patches| - 1];
      StartsAfter(text, left.end, rest);
      assert patches == rest + [left];
    }
  }
}
