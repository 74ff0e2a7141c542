/** What becomes of the strings of a tree: those under sensitive keys are masked by the kind the key stands for,
  whatever they say, and the others by what is detected in them. */
module SensitiveKeys {
  import opened Types
  import opened Decimals
  import opened Text
  import opened Spans
  import opened Splice
  import opened Masks
  import opened Redaction
  import opened TreeRedaction
  import opened TreeProperties

  // ---------------------------------------------------------------- the key of a string

  lemma {:induction false} KeyGoesOn(path: string, more: string)
    requires '.' !in more
    ensures KeyName(path + more) == KeyName(path) + more
  {
    if more == "" {
      assert path + more == path;
    } else {
      var n := |more| - 1;
      var whole := path + more;
      assert more == more[..n] + [more[n]];
      assert whole[|whole| - 1] == more[n] && whole[..|whole| - 1] == path + more[..n];
      KeyGoesOn(path, more[..n]);
      Regrouped(KeyName(path), more[..n], [more[n]]);
    }
  }

  lemma {:induction false} Regrouped(a: string, b: string, c: string)
    ensures a + b + c == a + (b + c)
  {
  }

  lemma {:induction false} KeyStartsAgain(path: string, key: string)
    ensures KeyName(path + "." + key) == KeyName(key)
  {
    var whole := path + "." + key;
    if key == "" {
      assert whole[|whole| - 1] == '.';
    } else {
      var n := |key| - 1;
      assert whole[|whole| - 1] == key[n] && whole[..|whole| - 1] == path + "." + key[..n];
      KeyStartsAgain(path, key[..n]);
    }
  }

  /** The key of a field is its name, or what follows the last dot of the name; an item of a list keeps the key of
    the list, with its index behind it. */
  lemma {:induction false} KeysOfPaths(path: string, key: string, index: nat)
    ensures KeyName(FieldPath(path, key)) == KeyName(key) && ('.' !in key ==> KeyName(key) == key)
    ensures KeyName(ItemPath(path, index)) == KeyName(path) + ("[" + Natural(index) + "]")
  {
    KeyOfField(path, key);
    KeyOfItem(path, index);
  }

  lemma {:induction false} KeyOfField(path: string, key: string)
    ensures KeyName(FieldPath(path, key)) == KeyName(key) && ('.' !in key ==> KeyName(key) == key)
  {
    if path != "" {
      KeyStartsAgain(path, key);
    }
    if '.' !in key {
      KeyGoesOn("", key);
      assert "" + key == key;
    }
  }

  lemma {:induction false} KeyOfItem(path: string, index: nat)
    ensures KeyName(ItemPath(path, index)) == KeyName(path) + ("[" + Natural(index) + "]")
  {
    var digits := Natural(index);
    NaturalText(index);
    KeyGoesOn(path, "[" + digits + "]");
    Bracketed(path, digits);
  }

  lemma {:induction false} Bracketed(path: string, digits: string)
    ensures path + "[" + digits + "]" == path + ("[" + digits + "]")
  {
  }

  // ---------------------------------------------------------------- the masks of the kinds

  function LastOf(text: string, n: nat): string {
    if |text| <= n then text else text[|text| - n..]
  }

  /** What a string under a sensitive key becomes, by the words the key contains; `email` is what an e-mail
    address becomes. */
  predicate MaskedUnder(key: string, text: string, email: string, after: string) {
    var k := ToLower(key);
    if Contains(k, "ssn") || Contains(k, "social") then after == "XXX-XX-" + LastOf(text, 4)
    else if Contains(k, "card") || Contains(k, "cc") || Contains(k, "pan") then
      after == "XXXX-XXXX-XXXX-" + LastOf(Digits(text), 4)
    else if Contains(k, "bank") || Contains(k, "account") then after == "XXXXXX" + LastOf(text, 4)
    else if Contains(k, "address") || Contains(k, "street") then after == "[REDACTED ADDRESS]"
    else if Contains(k, "email") then after == email
    else after == "XXX-XXX-" + LastOf(text, 4)
  }

  lemma {:induction false} MaskOfKey(key: string, text: string)
    ensures MaskedUnder(key, text, ServiceMask(Email, text), ServiceMask(KindFromKey(key), text))
    ensures MaskedUnder(key, text, LocalMask(Email, text), LocalMask(KindFromKey(key), text))
  {
  }

  // ---------------------------------------------------------------- the strings of a redacted tree

  function TextAt(v: Json, i: nat): string
    requires i < |Strings(v, "")|
  {
    Strings(v, "")[i].text
  }

  function KeyAt(v: Json, i: nat): string
    requires i < |Strings(v, "")|
  {
    KeyName(Strings(v, "")[i].path)
  }

  lemma {:induction false} TextAfter(leaf: LeafPolicy, v: Json, i: nat)
    requires i < |Strings(v, "")|
    ensures i < |Strings(Redacted(leaf, v, ""), "")|
    ensures TextAt(Redacted(leaf, v, ""), i) == leaf(Strings(v, "")[i].path, TextAt(v, i)).text
  {
    WalkIsPointwise(leaf, v, "");
  }

  /** In the service, a string under a sensitive key is masked by the kind of the key, at any depth and whatever the
    analyser finds in it. */
  lemma {:induction false} SensitiveStringsAreMasked(analyze: string -> seq<Span>, v: Json, i: nat)
    requires i < |Strings(v, "")| && SensitiveKey(KeyAt(v, i))
    ensures var w := Redacted(ServiceLeaf(analyze), v, "");
            && i < |Strings(w, "")|
            && MaskedUnder(KeyAt(v, i), TextAt(v, i), ServiceMask(Email, TextAt(v, i)), TextAt(w, i))
  {
    TextAfter(ServiceLeaf(analyze), v, i);
    MaskOfKey(KeyAt(v, i), TextAt(v, i));
    assert ServiceLeaf(analyze)(Strings(v, "")[i].path, TextAt(v, i))
           == ServiceResult(analyze, Strings(v, "")[i].path, TextAt(v, i));
  }

  /** In the fallback too, unless something is detected in it. */
  lemma {:induction false} SensitiveStringsAreMaskedLocally(detect: string -> seq<Span>, v: Json, i: nat)
    requires i < |Strings(v, "")| && SensitiveKey(KeyAt(v, i)) && detect(TextAt(v, i)) == []
    ensures var w := Redacted(LocalLeaf(detect), v, "");
            && i < |Strings(w, "")|
            && MaskedUnder(KeyAt(v, i), TextAt(v, i), LocalMask(Email, TextAt(v, i)), TextAt(w, i))
  {
    TextAfter(LocalLeaf(detect), v, i);
    MaskOfKey(KeyAt(v, i), TextAt(v, i));
    assert LocalLeaf(detect)(Strings(v, "")[i].path, TextAt(v, i))
           == LocalResult(detect, Strings(v, "")[i].path, TextAt(v, i));
  }

  /** Under other keys the service replaces what is detected and kept, each span by the mask of what it covers, and
    nothing else. */
  lemma {:induction false} DetectedStringsAreMasked(analyze: string -> seq<Span>, v: Json, i: nat)
    requires i < |Strings(v, "")| && !SensitiveKey(KeyAt(v, i))
    requires var text := TextAt(v, i);
             AllIn(text, analyze(text)) && NoEnclosure(Filtered([], Sorted(analyze(text))))
    ensures var w, text := Redacted(ServiceLeaf(analyze), v, ""), TextAt(v, i);
            var patches := PatchesOf(ServiceMask, text, Filtered([], Sorted(analyze(text))));
            && i < |Strings(w, "")| && RightToLeft(text, 0, patches)
            && TextAt(w, i) == Substituted(text, 0, patches)
  {
    var text := TextAt(v, i);
    TextAfter(ServiceLeaf(analyze), v, i);
    ServiceSubstitutes(ServiceMask, text, analyze(text));
    assert ServiceLeaf(analyze)(Strings(v, "")[i].path, text)
           == ServiceResult(analyze, Strings(v, "")[i].path, text);
  }

  /** The fallback replaces what is detected under any key; where nothing is, it leaves strings under other keys
    alone. */
  lemma {:induction false} DetectedStringsAreMaskedLocally(detect: string -> seq<Span>, v: Json, i: nat)
    requires i < |Strings(v, "")|
    requires var text := TextAt(v, i); AllIn(text, detect(text)) && Descending(detect(text)) && AllApart(detect(text))
    ensures var w, text := Redacted(LocalLeaf(detect), v, ""), TextAt(v, i);
            var patches := PatchesOf(LocalMask, text, detect(text));
            && i < |Strings(w, "")| && RightToLeft(text, 0, patches)
            && (detect(text) != [] ==> TextAt(w, i) == Substituted(text, 0, patches))
            && (detect(text) == [] && !SensitiveKey(KeyAt(v, i)) ==> TextAt(w, i) == text)
  {
    var text := TextAt(v, i);
    TextAfter(LocalLeaf(detect), v, i);
    RedactionIsSubstitution(LocalMask, text, detect(text));
    assert LocalLeaf(detect)(Strings(v, "")[i].path, text) == LocalResult(detect, Strings(v, "")[i].path, text);
  }

  // ---------------------------------------------------------------- what is reported

  predicate KindNamed(key: string, kind: PiiKind) {
    var k := ToLower(key);
    if Contains(k, "ssn") || Contains(k, "social") then kind == Ssn
    else if Contains(k, "card") || Contains(k, "cc") || Contains(k, "pan") then kind == CreditCard
    else if Contains(k, "bank") || Contains(k, "account") then kind == BankAccount
    else if Contains(k, "address") || Contains(k, "street") then kind == Address
    else if Contains(k, "email") then kind == Email
    else kind == Phone
  }

  lemma {:induction false} MatchesOfString(leaf: LeafPolicy, strings: seq<StringAt>, i: nat, m: Match)
    requires i < |strings| && m in leaf(strings[i].path, strings[i].text).matches
    ensures m in Reported(leaf, strings)
  {
    if i < |strings| - 1 {
      MatchesOfString(leaf, strings[..|strings| - 1], i, m);
    }
  }

  /** A string under a sensitive key is reported at its path, with the kind its key stands for, by the service
    always, and by the fallback when nothing is detected in it. */
  lemma {:induction false} SensitiveKinds(find: string -> seq<Span>, v: Json, i: nat, kind: PiiKind)
    requires i < |Strings(v, "")| && SensitiveKey(KeyAt(v, i)) && KindNamed(KeyAt(v, i), kind)
    ensures Match(Strings(v, "")[i].path, kind) in MatchesIn(ServiceLeaf(find), v, "")
    ensures find(TextAt(v, i)) == [] ==> Match(Strings(v, "")[i].path, kind) in MatchesIn(LocalLeaf(find), v, "")
  {
    var s := Strings(v, "")[i];
    WalkIsPointwise(ServiceLeaf(find), v, "");
    WalkIsPointwise(LocalLeaf(find), v, "");
    assert KindFromKey(KeyAt(v, i)) == kind;
    assert ServiceResult(find, s.path, s.text).matches == [Match(s.path, kind)];
    MatchesOfString(ServiceLeaf(find), Strings(v, ""), i, Match(s.path, kind));
    if find(s.text) == [] {
      assert LocalResult(find, s.path, s.text).matches == [Match(s.path, kind)];
      MatchesOfString(LocalLeaf(find), Strings(v, ""), i, Match(s.path, kind));
    }
  }

  // ---------------------------------------------------------------- what stays hidden

  /** Two strings at a path that may stand for each other. */
  type Likeness = (string, string, string) -> bool

  /** The same tree, but for strings that are alike at their paths. */
  predicate SameBut(alike: Likeness, v: Json, w: Json, path: string)
    decreases v
  {
    match v
    case JStr(s) => w.JStr? && alike(path, s, w.s)
    case JArr(items) => w.JArr? && SameItemsBut(alike, items, w.items, path)
    case JObj(fields) => w.JObj? && SameFieldsBut(alike, fields, w.fields, path)
    case JNull => w == v
    case JBool(_) => w == v
    case JNum(_) => w == v
  }

  predicate SameItemsBut(alike: Likeness, a: seq<Json>, b: seq<Json>, path: string)
    decreases a
  {
    && |a| == |b|
    && (a != [] ==>
          var n := |a| - 1;
          SameItemsBut(alike, a[..n], b[..n], path) && SameBut(alike, a[n], b[n], ItemPath(path, n)))
  }

  predicate SameFieldsBut(alike: Likeness, a: seq<Field>, b: seq<Field>, path: string)
    decreases a
  {
    && |a| == |b|
    && (a != [] ==>
          var n := |a| - 1;
          && SameFieldsBut(alike, a[..n], b[..n], path) && a[n].key == b[n].key
          && SameBut(alike, a[n].value, b[n].value, FieldPath(path, a[n].key)))
  }

  ghost predicate Hides(leaf: LeafPolicy, alike: Likeness) {
    forall path: string, s: string, t: string :: alike(path, s, t) ==> leaf(path, s) == leaf(path, t)
  }

  lemma {:induction false} LikeTreesBecomeEqual(leaf: LeafPolicy, alike: Likeness, v: Json, w: Json, path: string)
    requires Hides(leaf, alike) && SameBut(alike, v, w, path)
    ensures Redacted(leaf, v, path) == Redacted(leaf, w, path) && MatchesIn(leaf, v, path) == MatchesIn(leaf, w, path)
    decreases v
  {
    if v.JStr? {
      assert leaf(path, v.s) == leaf(path, w.s);
    } else if v.JArr? {
      LikeItemsBecomeEqual(leaf, alike, v.items, w.items, path);
    } else if v.JObj? {
      LikeFieldsBecomeEqual(leaf, alike, v.fields, w.fields, path);
    }
  }

  lemma {:induction false} LikeItemsBecomeEqual(leaf: LeafPolicy, alike: Likeness, a: seq<Json>, b: seq<Json>,
                                                path: string)
    requires Hides(leaf, alike) && SameItemsBut(alike, a, b, path)
    ensures RedactedItems(leaf, a, path) == RedactedItems(leaf, b, path)
    ensures MatchesInItems(leaf, a, path) == MatchesInItems(leaf, b, path)
    decreases a
  {
    if a != [] {
      var n := |a| - 1;
      LikeItemsBecomeEqual(leaf, alike, a[..n], b[..n], path);
      LikeTreesBecomeEqual(leaf, alike, a[n], b[n], ItemPath(path, n));
    }
  }

  lemma {:induction false} LikeFieldsBecomeEqual(leaf: LeafPolicy, alike: Likeness, a: seq<Field>, b: seq<Field>,
                                                 path: string)
    requires Hides(leaf, alike) && SameFieldsBut(alike, a, b, path)
    ensures RedactedFields(leaf, a, path) == RedactedFields(leaf, b, path)
    ensures MatchesInFields(leaf, a, path) == MatchesInFields(leaf, b, path)
    decreases a
  {
    if a != [] {
      var n := |a| - 1;
      LikeFieldsBecomeEqual(leaf, alike, a[..n], b[..n], path);
      LikeTreesBecomeEqual(leaf, alike, a[n].value, b[n].value, FieldPath(path, a[n].key));
    }
  }

  /** The same string, or two under a sensitive key with the same mask. */
  function EqualMasks(mask: Masking): Likeness {
    (path: string, s: string, t: string) =>
      s == t || (SensitiveKey(KeyName(path))
          && mask(KindFromKey(KeyName(path)), s) == mask(KindFromKey(KeyName(path)), t))
  }

  /** Of trees that differ only under sensitive keys, and there only in what the masks hide, the service makes the
    same tree and the same matches: nothing else about the strings gets through. */
  lemma {:induction false} SecretsStayHidden(analyze: string -> seq<Span>, v: Json, w: Json)
    requires SameBut(EqualMasks(ServiceMask), v, w, "")
    ensures Redacted(ServiceLeaf(analyze), v, "") == Redacted(ServiceLeaf(analyze), w, "")
    ensures MatchesIn(ServiceLeaf(analyze), v, "") == MatchesIn(ServiceLeaf(analyze), w, "")
  {
    var leaf, alike := ServiceLeaf(analyze), EqualMasks(ServiceMask);
    forall path: string, s: string, t: string | alike(path, s, t)
      ensures leaf(path, s) == leaf(path, t)
    {
      assert leaf(path, s) == ServiceResult(analyze, path, s) && leaf(path, t) == ServiceResult(analyze, path, t);
    }
    LikeTreesBecomeEqual(leaf, alike, v, w, "");
  }

  /** As `EqualMasks`, and nothing is detected in strings that differ. */
  function EqualMasksUndetected(detect: string -> seq<Span>): Likeness {
    (path: string, s: string, t: string) =>
      s == t || (EqualMasks(LocalMask)(path, s, t) && detect(s) == [] && detect(t) == [])
  }

  /** So does the fallback, where nothing is detected in the strings that differ. */
  lemma {:induction false} SecretsStayHiddenLocally(detect: string -> seq<Span>, v: Json, w: Json)
    requires SameBut(EqualMasksUndetected(detect), v, w, "")
    ensures Redacted(LocalLeaf(detect), v, "") == Redacted(LocalLeaf(detect), w, "")
    ensures MatchesIn(LocalLeaf(detect), v, "") == MatchesIn(LocalLeaf(detect), w, "")
  {
    var leaf, alike := LocalLeaf(detect), EqualMasksUndetected(detect);
    forall path: string, s: string, t: string | alike(path, s, t)
      ensures leaf(path, s) == leaf(path, t)
    {
      SameLocally(detect, path, s, t);
    }
    LikeTreesBecomeEqual(leaf, alike, v, w, "");
  }

  lemma {:induction false} SameLocally(detect: string -> seq<Span>, path: string, s: string, t: string)
    requires EqualMasksUndetected(detect)(path, s, t)
    ensures LocalLeaf(detect)(path, s) == LocalLeaf(detect)(path, t)
  {
    if s != t {
      assert EqualMasks(LocalMask)(path, s, t);
      assert LocalResult(detect, path, s) == LocalResult(detect, path, t);
    }
  }
}
