/** The string tests used to dispatch rules and to recognise sensitive keys. Case is folded for the
  letters A to Z. */
module Text {

  predicate IsUpper(c: char) {
    'A' <= c <= 'Z'
  }

  predicate IsLower(c: char) {
    'a' <= c <= 'z'
  }

  function LowerChar(c: char): char {
    if IsUpper(c) then (c as int - 'A' as int + 'a' as int) as char else c
  }

  function ToLower(s: string): (r: string)
    ensures |r| == |s| && forall i :: 0 <= i < |s| ==> r[i] == LowerChar(s[i])
  {
    if s == "" then "" else [LowerChar(s[0])] + ToLower(s[1..])
  }

  predicate OccursAt(text: string, part: string, i: nat) {
    i + |part| <= |text| && text[i..i + |part|] == part
  }

  predicate Contains(text: string, part: string) {
    exists i: nat :: i <= |text| && OccursAt(text, part, i)
  }

  /** A text contains its parts. */
  lemma {:induction false} ContainsParts(before: string, part: string, after: string)
    ensures Contains(before + part + after, part)
  {
    assert OccursAt(before + part + after, part, |before|);
  }

  /** And what it contains is a part of it. */
  lemma {:induction false} ContainedIsPart(text: string, part: string) returns (before: string, after: string)
    requires Contains(text, part)
    ensures text == before + part + after
  {
    var i: nat :| i <= |text| && OccursAt(text, part, i);
    before, after := text[..i], text[i + |part|..];
  }

  /** The letters a to z of a text, in order. */
  function Letters(s: string): string {
    if s == "" then "" else (if IsLower(s[0]) then [s[0]] else "") + Letters(s[1..])
  }
}
