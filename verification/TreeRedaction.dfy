/** Redacting a tree of parameters, string by string, in the service and in the fallback. */
module TreeRedaction {
  import opened Types
  import opened Decimals
  import opened Spans

  datatype Match = Match(path: string, kind: PiiKind)

  datatype LeafResult = LeafResult(text: string, matches: seq<Match>)

  /** What becomes of the string at a path. */
  type LeafPolicy = (string, string) -> LeafResult

  // ---------------------------------------------------------------- paths

  function ItemPath(path: string, index: nat): string {
    path + "[" + Natural(index) + "]"
  }

  function FieldPath(path: string, key: string): string {
    if path == "" then key else path + "." + key
  }

  /** What follows the last dot. */
  function KeyName(path: string): string {
    if path == "" then ""
    else if path[|path| - 1] == '.' then ""
    else KeyName(path[..|path| - 1]) + [path[|path| - 1]]
  }

  // ---------------------------------------------------------------- the walk

  function Redacted(leaf: LeafPolicy, v: Json, path: string): Json
    decreases v
  {
    match v
    case JStr(s) => JStr(leaf(path, s).text)
    case JArr(items) => JArr(RedactedItems(leaf, items, path))
    case JObj(fields) => JObj(RedactedFields(leaf, fields, path))
    case JNull => v
    case JBool(_) => v
    case JNum(_) => v
  }

  function RedactedItems(leaf: LeafPolicy, items: seq<Json>, path: string): (r: seq<Json>)
    ensures |r| == |items|
    decreases items
  {
    if items == [] then []
    else
      var n := |items| - 1;
      RedactedItems(leaf, items[..n], path) + [Redacted(leaf, items[n], ItemPath(path, n))]
  }

  function RedactedFields(leaf: LeafPolicy, fields: seq<Field>, path: string): (r: seq<Field>)
    ensures |r| == |fields|
    decreases fields
  {
    if fields == [] then []
    else
      var last := fields[|fields| - 1];
      RedactedFields(leaf, fields[..|fields| - 1], path)
      + [Field(last.key, Redacted(leaf, last.value, FieldPath(path, last.key)))]
  }

  function MatchesIn(leaf: LeafPolicy, v: Json, path: string): seq<Match>
    decreases v
  {
    match v
    case JStr(s) => leaf(path, s).matches
    case JArr(items) => MatchesInItems(leaf, items, path)
    case JObj(fields) => MatchesInFields(leaf, fields, path)
    case JNull => []
    case JBool(_) => []
    case JNum(_) => []
  }

  function MatchesInItems(leaf: LeafPolicy, items: seq<Json>, path: string): seq<Match>
    decreases items
  {
    if items == [] then []
    else
      var n := |items| - 1;
      MatchesInItems(leaf, items[..n], path) + MatchesIn(leaf, items[n], ItemPath(path, n))
  }

  function MatchesInFields(leaf: LeafPolicy, fields: seq<Field>, path: string): seq<Match>
    decreases fields
  {
    if fields == [] then []
    else
      var last := fields[|fields| - 1];
      MatchesInFields(leaf, fields[..|fields| - 1], path) + MatchesIn(leaf, last.value, FieldPath(path, last.key))
  }

  /** `redact_value`: each level collects the results and the matches of its children. */
  method RedactValue(leaf: LeafPolicy, v: Json, path: string) returns (redacted: Json, matches: seq<Match>)
    ensures redacted == Redacted(leaf, v, path) && matches == MatchesIn(leaf, v, path)
    decreases v
  {
    redacted, matches := v, [];
    if v.JStr? {
      var r := leaf(path, v.s);
      redacted, matches := JStr(r.text), r.matches;
    } else if v.JArr? {
      var list;
      list, matches := RedactList(leaf, v.items, path);
      redacted := JArr(list);
    } else if v.JObj? {
      var dict;
      dict, matches := RedactDict(leaf, v.fields, path);
      redacted := JObj(dict);
    }
  }

  method RedactList(leaf: LeafPolicy, items: seq<Json>, path: string) returns (list: seq<Json>, matches: seq<Match>)
    ensures list == RedactedItems(leaf, items, path) && matches == MatchesInItems(leaf, items, path)
    decreases items
  {
    list, matches := [], [];
    for i := 0 to |items|
      invariant list == RedactedItems(leaf, items[..i], path) && matches == MatchesInItems(leaf, items[..i], path)
    {
      assert items[..i + 1][..i] == items[..i];
      var item, itemMatches := RedactValue(leaf, items[i], ItemPath(path, i));
      list := list + [item];
      matches := matches + itemMatches;
    }
    assert items[..|items|] == items;
  }

  method RedactDict(leaf: LeafPolicy, fields: seq<Field>, path: string) returns (dict: seq<Field>, matches: seq<Match>)
    ensures dict == RedactedFields(leaf, fields, path) && matches == MatchesInFields(leaf, fields, path)
    decreases fields
  {
    dict, matches := [], [];
    for i := 0 to |fields|
      invariant dict == RedactedFields(leaf, fields[..i], path) && matches == MatchesInFields(leaf, fields[..i], path)
    {
      assert fields[..i + 1][..i] == fields[..i];
      var value, valueMatches := RedactValue(leaf, fields[i].value, FieldPath(path, fields[i].key));
      dict := dict + [Field(fields[i].key, value)];
      matches := matches + valueMatches;
    }
    assert fields[..|fields|] == fields;
  }

  /** The fallback: `recurse` with the counter and the list it shares. */
  class LocalRedaction {
    var redactedCount: nat
    var matches: seq<Match>

    constructor ()
      ensures redactedCount == 0 && matches == []
    {
      redactedCount, matches := 0, [];
    }

    method Recurse(leaf: LeafPolicy, v: Json, path: string) returns (redacted: Json)
      modifies this
      ensures redacted == Redacted(leaf, v, path)
      ensures matches == old(matches) + MatchesIn(leaf, v, path)
      ensures redactedCount - |matches| == old(redactedCount - |matches|)
      decreases v
    {
      redacted := v;
      if v.JStr? {
        var r := leaf(path, v.s);
        redactedCount := redactedCount + |r.matches|;
        matches := matches + r.matches;
        redacted := JStr(r.text);
      } else if v.JArr? {
        var list := RecurseItems(leaf, v.items, path);
        redacted := JArr(list);
      } else if v.JObj? {
        var result := RecurseFields(leaf, v.fields, path);
        redacted := JObj(result);
      }
    }

    method RecurseItems(leaf: LeafPolicy, items: seq<Json>, path: string) returns (list: seq<Json>)
      modifies this
      ensures list == RedactedItems(leaf, items, path)
      ensures matches == old(matches) + MatchesInItems(leaf, items, path)
      ensures redactedCount - |matches| == old(redactedCount - |matches|)
      decreases items
    {
      list := [];
      for i := 0 to |items|
        invariant list == RedactedItems(leaf, items[..i], path)
        invariant matches == old(matches) + MatchesInItems(leaf, items[..i], path)
        invariant redactedCount - |matches| == old(redactedCount - |matches|)
      {
        assert items[..i + 1][..i] == items[..i];
        ghost var found, more := MatchesInItems(leaf, items[..i], path), MatchesIn(leaf, items[i], ItemPath(path, i));
        var item := Recurse(leaf, items[i], ItemPath(path, i));
        assert matches == old(matches) + (found + more);
        list := list + [item];
      }
      assert items[..|items|] == items;
    }

    method RecurseFields(leaf: LeafPolicy, fields: seq<Field>, path: string) returns (result: seq<Field>)
      modifies this
      ensures result == RedactedFields(leaf, fields, path)
      ensures matches == old(matches) + MatchesInFields(leaf, fields, path)
      ensures redactedCount - |matches| == old(redactedCount - |matches|)
      decreases fields
    {
      result := [];
      for i := 0 to |fields|
        invariant result == RedactedFields(leaf, fields[..i], path)
        invariant matches == old(matches) + MatchesInFields(leaf, fields[..i], path)
        invariant redactedCount - |matches| == old(redactedCount - |matches|)
      {
        assert fields[..i + 1][..i] == fields[..i];
        var value := Recurse(leaf, fields[i].value, FieldPath(path, fields[i].key));
        result := result + [Field(fields[i].key, value)];
      }
      assert fields[..|fields|] == fields;
    }
  }

  /** `redactParametersLocal`. */
  method RedactParametersLocal(leaf: LeafPolicy, parameters: Json)
    returns (redacted: Json, redactedCount: nat, matches: seq<Match>)
    ensures redacted == Redacted(leaf, parameters, "") && matches == MatchesIn(leaf, parameters, "")
    ensures redactedCount == |matches|
  {
    var local := new LocalRedaction();
    redacted := local.Recurse(leaf, parameters, "");
    redactedCount, matches := local.redactedCount, local.matches;
  }
}
