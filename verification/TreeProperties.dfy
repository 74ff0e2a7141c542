/** What tree redaction keeps and what it reports, for values of any depth, whichever policy is applied to
  the strings. */
module TreeProperties {
  import opened Types
  import opened Spans
  import opened Splice
  import opened Masks
  import opened Redaction
  import opened TreeRedaction

  // ---------------------------------------------------------------- shape

  /** The same tree, but for the text of its strings. */
  predicate SameShape(a: Json, b: Json)
    decreases a
  {
    match a
    case JStr(_) => b.JStr?
    case JArr(items) => b.JArr? && SameItems(items, b.items)
    case JObj(fields) => b.JObj? && SameFields(fields, b.fields)
    case JNull => b == a
    case JBool(_) => b == a
    case JNum(_) => b == a
  }

  predicate SameItems(a: seq<Json>, b: seq<Json>)
    decreases a
  {
    |a| == |b| && (a != [] ==> SameItems(a[..|a| - 1], b[..|b| - 1]) && SameShape(a[|a| - 1], b[|b| - 1]))
  }

  predicate SameFields(a: seq<Field>, b: seq<Field>)
    decreases a
  {
    && |a| == |b|
    && (a != [] ==>
          && SameFields(a[..|a| - 1], b[..|b| - 1])
          && a[|a| - 1].key == b[|b| - 1].key && SameShape(a[|a| - 1].value, b[|b| - 1].value))
  }

  lemma {:induction false} ShapeIsKept(leaf: LeafPolicy, v: Json, path: string)
    ensures SameShape(v, Redacted(leaf, v, path))
    decreases v
  {
    if v.JArr? {
      ItemsKeepShape(leaf, v.items, path);
    } else if v.JObj? {
      FieldsKeepShape(leaf, v.fields, path);
    }
  }

  lemma {:induction false} ItemsKeepShape(leaf: LeafPolicy, items: seq<Json>, path: string)
    ensures SameItems(items, RedactedItems(leaf, items, path))
    decreases items
  {
    if items != [] {
      var n := |items| - 1;
      ItemsKeepShape(leaf, items[..n], path);
      ShapeIsKept(leaf, items[n], ItemPath(path, n));
      assert RedactedItems(leaf, items, path)[..n] == RedactedItems(leaf, items[..n], path);
    }
  }

  lemma {:induction false} FieldsKeepShape(leaf: LeafPolicy, fields: seq<Field>, path: string)
    ensures SameFields(fields, RedactedFields(leaf, fields, path))
    decreases fields
  {
    if fields != [] {
      var n := |fields| - 1;
      FieldsKeepShape(leaf, fields[..n], path);
      ShapeIsKept(leaf, fields[n].value, FieldPath(path, fields[n].key));
      assert RedactedFields(leaf, fields, path)[..n] == RedactedFields(leaf, fields[..n], path);
    }
  }

  // ---------------------------------------------------------------- strings and their paths

  datatype StringAt = StringAt(path: string, text: string)

  function Strings(v: Json, path: string): seq<StringAt>
    decreases v
  {
    match v
    case JStr(s) => [StringAt(path, s)]
    case JArr(items) => StringsInItems(items, path)
    case JObj(fields) => StringsInFields(fields, path)
    case JNull => []
    case JBool(_) => []
    case JNum(_) => []
  }

  function StringsInItems(items: seq<Json>, path: string): seq<StringAt>
    decreases items
  {
    if items == [] then []
    else
      var n := |items| - 1;
      StringsInItems(items[..n], path) + Strings(items[n], ItemPath(path, n))
  }

  function StringsInFields(fields: seq<Field>, path: string): seq<StringAt>
    decreases fields
  {
    if fields == [] then []
    else
      var last := fields[|fields| - 1];
      StringsInFields(fields[..|fields| - 1], path) + Strings(last.value, FieldPath(path, last.key))
  }

  /** The policy applied to each string in turn. */
  function Applied(leaf: LeafPolicy, strings: seq<StringAt>): (r: seq<StringAt>)
    ensures |r| == |strings|
    ensures forall i :: 0 <= i < |r| ==> r[i] == StringAt(strings[i].path, leaf(strings[i].path, strings[i].text).text)
  {
    if strings == [] then []
    else
      var last := strings[|strings| - 1];
      Applied(leaf, strings[..|strings| - 1]) + [StringAt(last.path, leaf(last.path, last.text).text)]
  }

  function Reported(leaf: LeafPolicy, strings: seq<StringAt>): seq<Match> {
    if strings == [] then []
    else
      var last := strings[|strings| - 1];
      Reported(leaf, strings[..|strings| - 1]) + leaf(last.path, last.text).matches
  }

  lemma {:induction false} AppliedSplits(leaf: LeafPolicy, a: seq<StringAt>, b: seq<StringAt>)
    ensures Applied(leaf, a + b) == Applied(leaf, a) + Applied(leaf, b)
  {
    var whole, parts := Applied(leaf, a + b), Applied(leaf, a) + Applied(leaf, b);
    forall i | 0 <= i < |a| + |b|
      ensures whole[i] == parts[i]
    {
      if i < |a| {
        assert (a + b)[i] == a[i];
      } else {
        assert (a + b)[i] == b[i - |a|];
      }
    }
  }

  lemma {:induction false} ReportedGrows(leaf: LeafPolicy, strings: seq<StringAt>, last: StringAt)
    ensures Reported(leaf, strings + [last]) == Reported(leaf, strings) + leaf(last.path, last.text).matches
  {
    assert (strings + [last])[..|strings|] == strings;
  }

  lemma {:induction false} ReportedSplits(leaf: LeafPolicy, a: seq<StringAt>, b: seq<StringAt>)
    ensures Reported(leaf, a + b) == Reported(leaf, a) + Reported(leaf, b)
  {
    if b == [] {
      assert a + b == a;
    } else {
      var front, last := b[..|b| - 1], b[|b| - 1];
      ReportedSplits(leaf, a, front);
      ReportedGrows(leaf, a + front, last);
      ReportedGrows(leaf, front, last);
      assert a + b == a + front + [last] && b == front + [last];
    }
  }

  /** The walk is the policy applied to the strings, each at its own path, in order. */
  lemma {:induction false} WalkIsPointwise(leaf: LeafPolicy, v: Json, path: string)
    ensures Strings(Redacted(leaf, v, path), path) == Applied(leaf, Strings(v, path))
    ensures MatchesIn(leaf, v, path) == Reported(leaf, Strings(v, path))
    decreases v
  {
    if v.JStr? {
      var one := [StringAt(path, v.s)];
      assert one[..0] == [];
      assert Applied(leaf, one)[0] == StringAt(path, leaf(path, v.s).text);
    } else if v.JArr? {
      ItemsArePointwise(leaf, v.items, path);
    } else if v.JObj? {
      FieldsArePointwise(leaf, v.fields, path);
    }
  }

  lemma {:induction false} ItemsArePointwise(leaf: LeafPolicy, items: seq<Json>, path: string)
    ensures StringsInItems(RedactedItems(leaf, items, path), path) == Applied(leaf, StringsInItems(items, path))
    ensures MatchesInItems(leaf, items, path) == Reported(leaf, StringsInItems(items, path))
    decreases items
  {
    if items != [] {
      var n := |items| - 1;
      ItemsArePointwise(leaf, items[..n], path);
      WalkIsPointwise(leaf, items[n], ItemPath(path, n));
      assert RedactedItems(leaf, items, path)[..n] == RedactedItems(leaf, items[..n], path);
      AppliedSplits(leaf, StringsInItems(items[..n], path), Strings(items[n], ItemPath(path, n)));
      ReportedSplits(leaf, StringsInItems(items[..n], path), Strings(items[n], ItemPath(path, n)));
    }
  }

  lemma {:induction false} FieldsArePointwise(leaf: LeafPolicy, fields: seq<Field>, path: string)
    ensures StringsInFields(RedactedFields(leaf, fields, path), path) == Applied(leaf, StringsInFields(fields, path))
    ensures MatchesInFields(leaf, fields, path) == Reported(leaf, StringsInFields(fields, path))
    decreases fields
  {
    if fields != [] {
      var n := |fields| - 1;
      FieldsArePointwise(leaf, fields[..n], path);
      var p := FieldPath(path, fields[n].key);
      WalkIsPointwise(leaf, fields[n].value, p);
      assert RedactedFields(leaf, fields, path)[..n] == RedactedFields(leaf, fields[..n], path);
      AppliedSplits(leaf, StringsInFields(fields[..n], path), Strings(fields[n].value, p));
      ReportedSplits(leaf, StringsInFields(fields[..n], path), Strings(fields[n].value, p));
    }
  }

  // ---------------------------------------------------------------- what is reported

  predicate ReportsPath(matches: seq<Match>, path: string) {
    exists m :: m in matches && m.path == path
  }

  /** A changed string is reported, and matches name the path they were found at. */
  predicate HonestAt(leaf: LeafPolicy, path: string, text: string) {
    && (leaf(path, text).text != text ==> leaf(path, text).matches != [])
    && (forall m :: m in leaf(path, text).matches ==> m.path == path)
  }

  ghost predicate Honest(leaf: LeafPolicy) {
    forall path: string, text: string :: HonestAt(leaf, path, text)
  }

  lemma {:induction false} ReportedPaths(leaf: LeafPolicy, strings: seq<StringAt>, path: string)
    requires Honest(leaf)
    ensures ReportsPath(Reported(leaf, strings), path) <==>
              exists i :: 0 <= i < |strings| && strings[i].path == path && leaf(path, strings[i].text).matches != []
  {
    if strings != [] {
      var n := |strings| - 1;
      var last := strings[n];
      var front := Reported(leaf, strings[..n]);
      var mine := leaf(last.path, last.text).matches;
      ReportedPaths(leaf, strings[..n], path);
      assert HonestAt(leaf, last.path, last.text);
      if mine != [] {
        assert mine[0] in Reported(leaf, strings) && mine[0].path == last.path;
      }
      assert forall m :: m in Reported(leaf, strings) <==> m in front || m in mine;
      assert forall i :: 0 <= i < n ==> strings[..n][i] == strings[i];
    }
  }

  /** Every string that changed has its path among the matches, and every match has the path of a string;
    strings, keys, list lengths and other leaves stay where they were. */
  lemma {:induction false} ChangesAreReported(leaf: LeafPolicy, v: Json, i: nat)
    requires Honest(leaf) && i < |Strings(v, "")|
    ensures SameShape(v, Redacted(leaf, v, ""))
    ensures |Strings(Redacted(leaf, v, ""), "")| == |Strings(v, "")|
    ensures Strings(Redacted(leaf, v, ""), "")[i].path == Strings(v, "")[i].path
    ensures Strings(Redacted(leaf, v, ""), "")[i].text != Strings(v, "")[i].text ==>
              ReportsPath(MatchesIn(leaf, v, ""), Strings(v, "")[i].path)
    ensures forall path :: ReportsPath(MatchesIn(leaf, v, ""), path) ==>
              exists k :: 0 <= k < |Strings(v, "")| && Strings(v, "")[k].path == path
  {
    ShapeIsKept(leaf, v, "");
    WalkIsPointwise(leaf, v, "");
    var s := Strings(v, "")[i];
    assert HonestAt(leaf, s.path, s.text);
    ReportedPaths(leaf, Strings(v, ""), s.path);
    forall path | ReportsPath(MatchesIn(leaf, v, ""), path)
      ensures exists k :: 0 <= k < |Strings(v, "")| && Strings(v, "")[k].path == path
    {
      ReportedPaths(leaf, Strings(v, ""), path);
    }
  }

  // ---------------------------------------------------------------- the two policies

  function MatchesAt(path: string, spans: seq<Span>): (r: seq<Match>)
    ensures |r| == |spans| && forall i :: 0 <= i < |r| ==> r[i] == Match(path, spans[i].kind)
  {
    if spans == [] then []
    else MatchesAt(path, spans[..|spans| - 1]) + [Match(path, spans[|spans| - 1].kind)]
  }

  /** The service: a sensitive key decides, whatever the text; otherwise the analyser does. */
  function ServiceResult(analyze: string -> seq<Span>, path: string, text: string): LeafResult {
    var key := KeyName(path);
    if SensitiveKey(key) then LeafResult(ServiceMask(KindFromKey(key), text), [Match(path, KindFromKey(key))])
    else
      var kept := Filtered([], Sorted(analyze(text)));
      LeafResult(Masked(ServiceMask, text, kept), MatchesAt(path, kept))
  }

  /** The fallback: what is detected decides; a sensitive key only when nothing is. */
  function LocalResult(detect: string -> seq<Span>, path: string, text: string): LeafResult {
    var matches, key := detect(text), KeyName(path);
    if matches != [] then LeafResult(Spliced(text, PatchesOf(LocalMask, text, matches)), MatchesAt(path, matches))
    else if SensitiveKey(key) then LeafResult(LocalMask(KindFromKey(key), text), [Match(path, KindFromKey(key))])
    else LeafResult(text, [])
  }

  function ServiceLeaf(analyze: string -> seq<Span>): LeafPolicy {
    (path: string, text: string) => ServiceResult(analyze, path, text)
  }

  function LocalLeaf(detect: string -> seq<Span>): LeafPolicy {
    (path: string, text: string) => LocalResult(detect, path, text)
  }

  lemma {:induction false} ServiceIsHonest(analyze: string -> seq<Span>)
    ensures Honest(ServiceLeaf(analyze))
  {
    forall path: string, text: string
      ensures HonestAt(ServiceLeaf(analyze), path, text)
    {
      assert ServiceLeaf(analyze)(path, text) == ServiceResult(analyze, path, text);
    }
  }

  lemma {:induction false} LocalIsHonest(detect: string -> seq<Span>)
    ensures Honest(LocalLeaf(detect))
  {
    forall path: string, text: string
      ensures HonestAt(LocalLeaf(detect), path, text)
    {
      assert LocalLeaf(detect)(path, text) == LocalResult(detect, path, text);
    }
  }

  lemma {:induction false} SensitiveKeyReported(leaf: LeafPolicy, v: Json, i: nat)
    requires Honest(leaf) && i < |Strings(v, "")|
    requires leaf(Strings(v, "")[i].path, Strings(v, "")[i].text).matches != []
    ensures ReportsPath(MatchesIn(leaf, v, ""), Strings(v, "")[i].path)
  {
    WalkIsPointwise(leaf, v, "");
    ReportedPaths(leaf, Strings(v, ""), Strings(v, "")[i].path);
  }

  /** Whatever is detected or not, a string under a sensitive key is reported by both. */
  lemma {:induction false} SensitiveKeysAreReported(find: string -> seq<Span>, v: Json, i: nat)
    requires i < |Strings(v, "")| && SensitiveKey(KeyName(Strings(v, "")[i].path))
    ensures ReportsPath(MatchesIn(ServiceLeaf(find), v, ""), Strings(v, "")[i].path)
    ensures ReportsPath(MatchesIn(LocalLeaf(find), v, ""), Strings(v, "")[i].path)
  {
    var s := Strings(v, "")[i];
    ServiceIsHonest(find);
    LocalIsHonest(find);
    assert ServiceResult(find, s.path, s.text).matches != [] && LocalResult(find, s.path, s.text).matches != [];
    SensitiveKeyReported(ServiceLeaf(find), v, i);
    SensitiveKeyReported(LocalLeaf(find), v, i);
  }
}
