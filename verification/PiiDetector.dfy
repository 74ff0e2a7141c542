/** The local fallback: joining what the patterns match, and redacting one text with it. */
module PiiDetector {
  import opened Spans
  import opened Splice
  import opened Redaction
  import opened Masks
  import opened Luhn

  /** What the patterns match in a text, kind by kind, from left to right. */
  datatype Candidates = Candidates(
    ssns: seq<Span>,
    cards: seq<Span>,
    emails: seq<Span>,
    phones: seq<Span>,
    addresses: seq<Span>,
    banks: seq<Span>)

  predicate IsDigit(c: char) {
    '0' <= c <= '9'
  }

  function DigitValues(s: string): (d: seq<int>)
    requires forall i :: 0 <= i < |s| ==> IsDigit(s[i])
    ensures |d| == |s| && AllDigits(d) && forall i :: 0 <= i < |s| ==> d[i] == s[i] as int - '0' as int
  {
    if s == "" then []
    else
      var last := s[|s| - 1];
      assert IsDigit(last);
      DigitValues(s[..|s| - 1]) + [last as int - '0' as int]
  }

  /** The pattern of card numbers matches digits, blanks and dashes only. */
  predicate CardText(s: string) {
    forall i :: 0 <= i < |Digits(s)| ==> IsDigit(Digits(s)[i])
  }

  predicate CardValid(content: string, s: Span)
    requires CardText(Slice(content, s.start, s.end))
  {
    LuhnValid(DigitValues(Digits(Slice(content, s.start, s.end))))
  }

  predicate CardTexts(content: string, cards: seq<Span>) {
    forall i :: 0 <= i < |cards| ==> CardText(Slice(content, cards[i].start, cards[i].end))
  }

  function ValidCards(content: string, cards: seq<Span>): seq<Span>
    requires CardTexts(content, cards)
  {
    if cards == [] then []
    else
      var n := |cards| - 1;
      assert forall i :: 0 <= i < n ==> cards[..n][i] == cards[i];
      ValidCards(content, cards[..n]) + if CardValid(content, cards[n]) then [cards[n]] else []
  }

  /** The matches that are not bank accounts. */
  function Others(content: string, c: Candidates): seq<Span>
    requires CardTexts(content, c.cards)
  {
    c.ssns + ValidCards(content, c.cards) + c.emails + c.phones + c.addresses
  }

  function Detected(content: string, c: Candidates): seq<Span>
    requires CardTexts(content, c.cards)
  {
    Sorted(Filtered(Others(content, c), c.banks))
  }

  method Detect(content: string, c: Candidates) returns (matches: seq<Span>)
    requires CardTexts(content, c.cards)
    ensures matches == Detected(content, c)
  {
    matches := c.ssns;
    for i := 0 to |c.cards|
      invariant matches == c.ssns + ValidCards(content, c.cards[..i])
    {
      assert c.cards[..i + 1][..i] == c.cards[..i];
      assert CardTexts(content, c.cards[..i + 1]);
      assert CardText(Slice(content, c.cards[i].start, c.cards[i].end));
      var clean := Digits(Slice(content, c.cards[i].start, c.cards[i].end));
      var valid := LuhnCheck(DigitValues(clean));
      if valid {
        matches := matches + [c.cards[i]];
      }
    }
    assert c.cards[..|c.cards|] == c.cards;
    matches := matches + c.emails;
    matches := matches + c.phones;
    matches := matches + c.addresses;
    matches := Filter(matches, c.banks);
    matches := SortByStart(matches);
  }

  method RedactStringLocal(content: string, c: Candidates) returns (text: string, matches: seq<Span>)
    requires CardTexts(content, c.cards)
    ensures matches == Detected(content, c)
    ensures text == Spliced(content, PatchesOf(LocalMask, content, matches))
  {
    matches := Detect(content, c);
    text := MaskDetected(LocalMask, content, matches);
  }

  // ---------------------------------------------------------------- what is reported

  lemma {:induction false} CardsReported(content: string, cards: seq<Span>, s: Span)
    requires CardTexts(content, cards)
    ensures s in ValidCards(content, cards) <==>
              s in cards && LuhnValid(DigitValues(Digits(Slice(content, s.start, s.end))))
  {
    if cards != [] {
      var n := |cards| - 1;
      assert CardTexts(content, cards[..n]);
      CardsReported(content, cards[..n], s);
      assert cards == cards[..n] + [cards[n]];
    }
  }

  /** Everything the patterns match is reported, but for card numbers that fail the Luhn check, and bank accounts
    that overlap a match reported before them. */
  lemma {:induction false} DetectedExactly(content: string, c: Candidates, s: Span)
    requires CardTexts(content, c.cards)
    ensures (s in c.ssns || s in c.emails || s in c.phones || s in c.addresses
             || (s in c.cards && LuhnValid(DigitValues(Digits(Slice(content, s.start, s.end))))))
            <==> s in Others(content, c)
    ensures s in Others(content, c) ==> s in Detected(content, c)
    ensures s in Detected(content, c) ==> s in Others(content, c) || s in c.banks
    ensures s in c.banks && s !in Detected(content, c) ==>
              exists m :: m in Detected(content, c)
                  && (m.start <= s.start < m.end || m.start < s.end <= m.end)
  {
    CardsReported(content, c.cards, s);
    var others := Others(content, c);
    FilterKeeps(others, c.banks);
    SortedIsSorted(Filtered(others, c.banks));
    if s in c.banks && s !in Detected(content, c) {
      DroppedOverlaps(others, c.banks, s);
      var m :| m in Filtered(others, c.banks) && Overlaps(s, m);
      assert m in Detected(content, c);
    }
  }

  /** Matches that start at the same place come in the order of the kinds: social security numbers, cards,
    addresses of e-mail, phones, addresses, and bank accounts last. */
  lemma {:induction false} SameStartInOrder(content: string, c: Candidates, start: nat)
    requires CardTexts(content, c.cards)
    ensures StartingAt(c.ssns, start) + StartingAt(ValidCards(content, c.cards), start) + StartingAt(c.emails, start)
            + StartingAt(c.phones, start) + StartingAt(c.addresses, start)
            <= StartingAt(Detected(content, c), start)
  {
    var cards, others := ValidCards(content, c.cards), Others(content, c);
    var joined := Filtered(others, c.banks);
    FilterKeeps(others, c.banks);
    SortIsStable(joined, start);
    var banks := joined[|others|..];
    assert joined == others + banks;
    StartingAtSplits(others, banks, start);
    StartingAtSplits(c.ssns + cards + c.emails + c.phones, c.addresses, start);
    StartingAtSplits(c.ssns + cards + c.emails, c.phones, start);
    StartingAtSplits(c.ssns + cards, c.emails, start);
    StartingAtSplits(c.ssns, cards, start);
  }

  // ---------------------------------------------------------------- bank accounts

  /** A bank account that is reported stands apart from every other match, or strictly encloses it; one that
    is not overlaps a match that is. */
  lemma {:induction false} BankAccountsStandApart(content: string, c: Candidates, bank: Span)
    requires CardTexts(content, c.cards) && Nonempty(Others(content, c)) && Nonempty(c.banks)
    requires bank in c.banks && bank !in Others(content, c)
    ensures if bank in Detected(content, c)
            then forall m :: m in Others(content, c) ==> Disjoint(bank, m) || Encloses(bank, m)
            else OverlapsAny(bank, Detected(content, c))
  {
    var others := Others(content, c);
    var joined := Filtered(others, c.banks);
    SortedIsSorted(joined);
    FilterKeeps(others, c.banks);
    if bank in joined {
      var j :| 0 <= j < |joined| && joined[j] == bank;
      assert forall k :: 0 <= k < |others| ==> joined[k] == others[k] && joined[k] in others;
      forall m | m in others
        ensures Disjoint(bank, m) || Encloses(bank, m)
      {
        var i :| 0 <= i < |others| && others[i] == m;
        KeptApart(others, c.banks, i, j);
      }
    } else {
      DroppedOverlaps(others, c.banks, bank);
      var added :| added in joined && Overlaps(bank, added);
      assert added in Detected(content, c);
    }
  }

  /** When the matches lie apart, the fallback replaces each by the mask of what it covered, in the original
    text, and nothing else. */
  lemma {:induction false} FallbackSubstitutes(content: string, c: Candidates)
    requires CardTexts(content, c.cards) && AllIn(content, Detected(content, c)) && AllApart(Detected(content, c))
    ensures var patches := PatchesOf(LocalMask, content, Detected(content, c));
            && RightToLeft(content, 0, patches)
            && Spliced(content, patches) == Substituted(content, 0, patches)
            && |Spliced(content, patches)| == |content| + Growth(patches)
  {
    SortedIsSorted(Filtered(Others(content, c), c.banks));
    RedactionIsSubstitution(LocalMask, content, Detected(content, c));
  }
}
