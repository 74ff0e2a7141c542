/** Masks and sensitive keys, as the Python service and the TypeScript fallback compute them. */
module Masks {
  import opened Text
  import opened Spans

  /** `val[-4:]`. */
  function LastFour(val: string): string {
    if |val| <= 4 then val else val[|val| - 4..]
  }

  function Digits(val: string): string {
    if val == "" then ""
    else (if val[0] == '-' || val[0] == ' ' then "" else [val[0]]) + Digits(val[1..])
  }

  /** The position of the first `c`, or the length of the text. */
  function Find(s: string, c: char): (i: nat)
    ensures i <= |s| && c !in s[..i] && (i < |s| ==> s[i] == c)
    ensures c in s <==> i < |s|
  {
    if s == "" then 0
    else if s[0] == c then 0
    else
      var i := 1 + Find(s[1..], c);
      assert s[..i] == [s[0]] + s[1..][..i - 1];
      i
  }

  /** `get_mask` of the service. */
  function ServiceMask(kind: PiiKind, val: string): string {
    match kind
    case Ssn => "XXX-XX-" + LastFour(val)
    case CreditCard => "XXXX-XXXX-XXXX-" + LastFour(Digits(val))
    case BankAccount => "XXXXXX" + LastFour(val)
    case Address => "[REDACTED ADDRESS]"
    case Email =>
      var at := Find(val, '@');
      if 0 < at < |val| then [val[0]] + "***@" + val[at + 1..] else "[REDACTED EMAIL]"
    case Phone => "XXX-XXX-" + LastFour(val)
    case Person => "[REDACTED_NAME]"
  }

  /** `getMask` of the fallback; `split("@")` keeps what stands between the first two signs. */
  function LocalMask(kind: PiiKind, value: string): string {
    match kind
    case Ssn => "XXX-XX-" + LastFour(value)
    case CreditCard => "XXXX-XXXX-XXXX-" + LastFour(Digits(value))
    case BankAccount => "XXXXXX" + LastFour(value)
    case Address => "[REDACTED ADDRESS]"
    case Email =>
      var at := Find(value, '@');
      if at == |value| then "[REDACTED EMAIL]"
      else
        var after := value[at + 1..];
        var domain := after[..Find(after, '@')];
        if at == 0 || domain == "" then "[REDACTED EMAIL]" else [value[0]] + "***@" + domain
    case Phone => "XXX-XXX-" + LastFour(value)
    case Person => "[REDACTED]"
  }

  /** A proper address: a local part, one sign, a domain; or nothing that resembles one. */
  predicate PlainEmail(val: string) {
    var at := Find(val, '@');
    0 < at < |val| ==> val[at + 1..] != "" && '@' !in val[at + 1..]
  }

  /** Service and fallback agree on every mask but those of persons, whom only the service detects, and of
    e-mail addresses with an empty domain or a second sign. */
  lemma {:induction false} MasksAgreeExactly(kind: PiiKind, val: string)
    ensures ServiceMask(kind, val) == LocalMask(kind, val) <==> kind != Person && (kind == Email ==> PlainEmail(val))
  {
    if kind == Person {
      assert "[REDACTED_NAME]"[9] != "[REDACTED]"[9];
    } else if kind == Email {
      EmailMasksAgree(val);
    }
  }

  lemma {:induction false} EmailMasksAgree(val: string)
    ensures ServiceMask(Email, val) == LocalMask(Email, val) <==> PlainEmail(val)
  {
    var at := Find(val, '@');
    if 0 < at < |val| {
      var after := val[at + 1..];
      var k := Find(after, '@');
      var mine, theirs := ServiceMask(Email, val), LocalMask(Email, val);
      assert mine == [val[0]] + "***@" + after;
      if k == 0 {
        assert mine[1] == '*' && theirs[1] == 'R';
      } else if k < |after| {
        assert |mine| == 5 + |after| && |theirs| == 5 + k;
      } else {
        assert after[..k] == after;
      }
    }
  }

  // ---------------------------------------------------------------- sensitive keys

  const SENSITIVE := [
    "ssn", "socialsecurity", "creditcard", "ccnumber", "pan", "bankaccount", "accountnumber", "routingnumber",
    "address", "street", "email", "phone", "phonenumber", "dateofbirth", "dob"]

  /** The key, lower-cased and reduced to its letters, contains one of the sensitive words. */
  predicate SensitiveKey(key: string) {
    exists i :: 0 <= i < |SENSITIVE| && Contains(Letters(ToLower(key)), SENSITIVE[i])
  }

  function KindFromKey(key: string): PiiKind {
    var k := ToLower(key);
    if Contains(k, "ssn") || Contains(k, "social") then Ssn
    else if Contains(k, "card") || Contains(k, "cc") || Contains(k, "pan") then CreditCard
    else if Contains(k, "bank") || Contains(k, "account") then BankAccount
    else if Contains(k, "address") || Contains(k, "street") then Address
    else if Contains(k, "email") then Email
    else Phone
  }

  lemma {:induction false} LettersSplit(a: string, b: string)
    ensures Letters(a + b) == Letters(a) + Letters(b)
  {
    if a == "" {
      assert a + b == b;
    } else {
      LettersSplit(a[1..], b);
      assert (a + b)[1..] == a[1..] + b && (a + b)[0] == a[0];
      TextsAssociate(if IsLower(a[0]) then [a[0]] else "", Letters(a[1..]), Letters(b));
    }
  }

  lemma {:induction false} TextsAssociate(a: string, b: string, c: string)
    ensures a + (b + c) == a + b + c
  {
  }

  lemma {:induction false} ToLowerSplit(a: string, b: string)
    ensures ToLower(a + b) == ToLower(a) + ToLower(b)
  {
    var l := ToLower(a + b);
    assert forall i :: 0 <= i < |l| ==> l[i] == (ToLower(a) + ToLower(b))[i];
  }

  lemma {:induction false} ContainsInside(before: string, text: string, after: string, part: string)
    requires Contains(text, part)
    ensures Contains(before + text + after, part)
  {
    var i: nat :| i <= |text| && OccursAt(text, part, i);
    var whole := before + text + after;
    assert whole[|before| + i..|before| + i + |part|] == text[i..i + |part|];
    assert OccursAt(whole, part, |before| + i);
  }

  /** Whatever stands around a sensitive key, an index or other words, the whole stays sensitive. */
  lemma {:induction false} SensitiveInside(before: string, key: string, after: string)
    requires SensitiveKey(key)
    ensures SensitiveKey(before + key + after)
  {
    var i :| 0 <= i < |SENSITIVE| && Contains(Letters(ToLower(key)), SENSITIVE[i]);
    ToLowerSplit(before + key, after);
    ToLowerSplit(before, key);
    LettersSplit(ToLower(before) + ToLower(key), ToLower(after));
    LettersSplit(ToLower(before), ToLower(key));
    ContainsInside(Letters(ToLower(before)), Letters(ToLower(key)), Letters(ToLower(after)), SENSITIVE[i]);
    assert Contains(Letters(ToLower(before + key + after)), SENSITIVE[i]);
  }

  /** The words that make a key sensitive. */
  lemma {:induction false} SensitiveWords(key: string)
    ensures var k := Letters(ToLower(key));
            SensitiveKey(key) <==>
              || Contains(k, "ssn") || Contains(k, "socialsecurity") || Contains(k, "creditcard")
              || Contains(k, "ccnumber") || Contains(k, "pan") || Contains(k, "bankaccount")
              || Contains(k, "accountnumber") || Contains(k, "routingnumber") || Contains(k, "address")
              || Contains(k, "street") || Contains(k, "email") || Contains(k, "phone") || Contains(k, "phonenumber")
              || Contains(k, "dateofbirth") || Contains(k, "dob")
  {
    var k := Letters(ToLower(key));
    forall i | 0 <= i < |SENSITIVE| && Contains(k, SENSITIVE[i])
      ensures SensitiveKey(key)
    {
    }
    WordsListed();
  }

  lemma {:induction false} WordsListed()
    ensures |SENSITIVE| == 15
    ensures SENSITIVE[0] == "ssn" && SENSITIVE[1] == "socialsecurity" && SENSITIVE[2] == "creditcard"
    ensures SENSITIVE[3] == "ccnumber" && SENSITIVE[4] == "pan" && SENSITIVE[5] == "bankaccount"
    ensures SENSITIVE[6] == "accountnumber" && SENSITIVE[7] == "routingnumber" && SENSITIVE[8] == "address"
    ensures SENSITIVE[9] == "street" && SENSITIVE[10] == "email" && SENSITIVE[11] == "phone"
    ensures SENSITIVE[12] == "phonenumber" && SENSITIVE[13] == "dateofbirth" && SENSITIVE[14] == "dob"
  {
  }

  /** Capitals, blanks, dashes and whatever else is no letter make no difference to a key. */
  lemma {:induction false} SensitiveIgnores(a: string, c: char, b: string)
    ensures !('a' <= c <= 'z') && !('A' <= c <= 'Z') ==> SensitiveKey(a + [c] + b) == SensitiveKey(a + b)
    ensures 'a' <= c <= 'z' ==>
              SensitiveKey(a + [(c as int - 32) as char] + b) == SensitiveKey(a + [c] + b)
  {
    ToLowerSplit(a, b);
    LettersSplit(ToLower(a), ToLower(b));
    LettersAround(a, c, b);
    assert Letters(ToLower(a)) + "" == Letters(ToLower(a));
    if 'a' <= c <= 'z' {
      LettersAround(a, (c as int - 32) as char, b);
    }
  }

  /** Of a key only the letters from a to z count, once it is in lower case. */
  lemma {:induction false} LettersKept(a: string, c: char, b: string)
    ensures Letters("") == ""
    ensures Letters(a + [c] + b) == Letters(a) + (if 'a' <= c <= 'z' then [c] else "") + Letters(b)
  {
    LettersSplit(a + [c], b);
    LettersSplit(a, [c]);
    assert [c][1..] == "";
  }

  lemma {:induction false} LettersAround(a: string, c: char, b: string)
    ensures Letters(ToLower(a + [c] + b))
            == Letters(ToLower(a)) + (if IsLower(LowerChar(c)) then [LowerChar(c)] else "") + Letters(ToLower(b))
  {
    ToLowerSplit(a + [c], b);
    ToLowerSplit(a, [c]);
    LettersSplit(ToLower(a) + ToLower([c]), ToLower(b));
    LettersSplit(ToLower(a), ToLower([c]));
    assert ToLower([c]) == [LowerChar(c)];
    assert [LowerChar(c)][1..] == "";
  }

  // ---------------------------------------------------------------- what a mask shows

  lemma {:induction false} DigitsSplit(a: string, b: string)
    ensures Digits(a + b) == Digits(a) + Digits(b)
  {
    if a == "" {
      assert a + b == b;
    } else {
      DigitsSplit(a[1..], b);
      assert (a + b)[1..] == a[1..] + b && (a + b)[0] == a[0];
      TextsAssociate(if a[0] == '-' || a[0] == ' ' then "" else [a[0]], Digits(a[1..]), Digits(b));
    }
  }

  /** Of a name nothing shows. */
  lemma {:induction false} NothingOfNames(val: string)
    ensures ServiceMask(Person, val) == "[REDACTED_NAME]" && LocalMask(Person, val) == "[REDACTED]"
  {
  }

  /** Blanks and dashes are dropped, and nothing else. */
  lemma {:induction false} DigitsDrop(a: string, c: char, b: string)
    ensures Digits(a + [c] + b) == Digits(a) + (if c == '-' || c == ' ' then "" else [c]) + Digits(b)
    ensures Digits("") == ""
  {
    DigitsSplit(a + [c], b);
    DigitsSplit(a, [c]);
    assert [c][1..] == "";
  }

  lemma {:induction false} FindFirst(s: string, c: char, i: nat)
    requires i < |s| && s[i] == c && c !in s[..i]
    ensures Find(s, c) == i
  {
    if i > 0 {
      assert s[..i] == [s[0]] + s[1..][..i - 1];
      FindFirst(s[1..], c, i - 1);
    }
  }

  /** Of an e-mail address the service shows the first character and the domain, if there is a local part. */
  lemma {:induction false} EmailShows(local: string, domain: string)
    requires '@' !in local
    ensures ServiceMask(Email, local + "@" + domain)
            == if local == "" then "[REDACTED EMAIL]" else [local[0]] + "***@" + domain
  {
    var val := local + "@" + domain;
    var at := Find(val, '@');
    assert val[..|local|] == local;
    FindFirst(val, '@', |local|);
    assert val[at + 1..] == domain;
    assert local != "" ==> val[0] == local[0];
  }

  /** The fallback drops what follows a second sign, and shows nothing without a domain. */
  lemma {:induction false} EmailShowsLocally(local: string, domain: string, rest: string)
    requires '@' !in local && '@' !in domain && (rest == "" || rest[0] == '@')
    ensures LocalMask(Email, local + "@" + domain + rest)
            == if local == "" || domain == "" then "[REDACTED EMAIL]" else [local[0]] + "***@" + domain
  {
    var val, after := local + "@" + domain + rest, domain + rest;
    assert val[..|local|] == local && val[|local|] == '@';
    FindFirst(val, '@', |local|);
    assert val[|local| + 1..] == after;
    assert after[..|domain|] == domain;
    if rest == "" {
      assert after == domain;
    } else {
      FindFirst(after, '@', |domain|);
    }
    assert local != "" ==> val[0] == local[0];
  }

  lemma {:induction false} NoAddress(val: string)
    requires '@' !in val
    ensures ServiceMask(Email, val) == LocalMask(Email, val) == "[REDACTED EMAIL]"
  {
  }
}
