/** The security validator: size, signature, and the scan of the parameters for prompt injection, control
  characters, excessive nesting and oversized arrays. */
module SecurityValidator {
  import opened Types

  datatype SecuritySettings = SecuritySettings(detectInjection: bool, maxRequestBytes: nat, requireSignatures: bool)

  /** What is known of the raw request, and how many injection patterns a text matches. */
  datatype Scanner = Scanner(requestBytes: nat, signed: bool, injections: string -> nat)

  const MAX_LENGTH := 10000
  const MAX_NESTING := 5
  const MAX_ARRAY := 100

  const NESTING := ValidationFailure("EXCESSIVE_NESTING", SevHigh)
  const ARRAY_SIZE := ValidationFailure("EXCESSIVE_ARRAY_SIZE", SevHigh)
  const CONTENT := ValidationFailure("PROMPT_INJECTION_OR_CHAR_VIOLATION", SevHigh)
  const TOO_LARGE := ValidationFailure("REQUEST_SIZE_LIMIT", SevCritical)
  const UNSIGNED := ValidationFailure("SIGNATURE_REQUIRED", SevCritical)

  // ---------------------------------------------------------------- the scan

  predicate Printable(s: string) {
    forall i :: 0 <= i < |s| ==> ' ' <= s[i] <= '~' || s[i] in "\n\r\t"
  }

  function TextIssues(scanner: Scanner, s: string): nat {
    scanner.injections(s) + if Printable(s) then 0 else 1
  }

  function KeyIssues(key: string): nat {
    if Printable(key) then 0 else 1
  }

  /** The texts in a value that violate the content boundary, down to the nesting limit. */
  function Issues(scanner: Scanner, v: Json, depth: nat): nat
    decreases v
  {
    if depth > MAX_NESTING then 0
    else
      match v
      case JStr(s) => TextIssues(scanner, s)
      case JArr(items) => ItemIssues(scanner, items, depth + 1)
      case JObj(fields) => FieldIssues(scanner, fields, depth + 1)
      case JNull => 0
      case JBool(_) => 0
      case JNum(_) => 0
  }

  function ItemIssues(scanner: Scanner, items: seq<Json>, depth: nat): nat
    decreases items
  {
    if items == [] then 0
    else ItemIssues(scanner, items[..|items| - 1], depth) + Issues(scanner, items[|items| - 1], depth)
  }

  function FieldIssues(scanner: Scanner, fields: seq<Field>, depth: nat): nat
    decreases fields
  {
    if fields == [] then 0
    else
      var last := fields[|fields| - 1];
      FieldIssues(scanner, fields[..|fields| - 1], depth) + KeyIssues(last.key) + Issues(scanner, last.value, depth)
  }

  /** The failures the scan reports on its way: nesting and array sizes. */
  function ScanFailures(v: Json, depth: nat): seq<ValidationFailure>
    decreases v
  {
    if depth > MAX_NESTING then [NESTING]
    else
      match v
      case JArr(items) => (if |items| > MAX_ARRAY then [ARRAY_SIZE] else []) + ItemFailures(items, depth + 1)
      case JObj(fields) => FieldFailures(fields, depth + 1)
      case JStr(_) => []
      case JNull => []
      case JBool(_) => []
      case JNum(_) => []
  }

  function ItemFailures(items: seq<Json>, depth: nat): seq<ValidationFailure>
    decreases items
  {
    if items == [] then []
    else ItemFailures(items[..|items| - 1], depth) + ScanFailures(items[|items| - 1], depth)
  }

  function FieldFailures(fields: seq<Field>, depth: nat): seq<ValidationFailure>
    decreases fields
  {
    if fields == [] then []
    else FieldFailures(fields[..|fields| - 1], depth) + ScanFailures(fields[|fields| - 1].value, depth)
  }

  /** The closure `scanParams` with the lists it pushes to. */
  class ParameterScan {
    var issues: nat
    var failures: seq<ValidationFailure>

    constructor (failures: seq<ValidationFailure>)
      ensures this.failures == failures && issues == 0
    {
      this.failures := failures;
      issues := 0;
    }

    method ScanParams(scanner: Scanner, v: Json, depth: nat)
      modifies this
      ensures issues == old(issues) + Issues(scanner, v, depth)
      ensures failures == old(failures) + ScanFailures(v, depth)
      decreases v
    {
      if depth > MAX_NESTING {
        failures := failures + [NESTING];
        return;
      }
      if v.JStr? {
        issues := issues + scanner.injections(v.s);
        if !Printable(v.s) {
          issues := issues + 1;
        }
      } else if v.JArr? {
        if |v.items| > MAX_ARRAY {
          failures := failures + [ARRAY_SIZE];
        }
        ScanItems(scanner, v.items, depth + 1);
      } else if v.JObj? {
        ScanFields(scanner, v.fields, depth + 1);
      }
    }

    method ScanItems(scanner: Scanner, items: seq<Json>, depth: nat)
      modifies this
      ensures issues == old(issues) + ItemIssues(scanner, items, depth)
      ensures failures == old(failures) + ItemFailures(items, depth)
      decreases items
    {
      for i := 0 to |items|
        invariant issues == old(issues) + ItemIssues(scanner, items[..i], depth)
        invariant failures == old(failures) + ItemFailures(items[..i], depth)
      {
        assert items[..i + 1][..i] == items[..i];
        ScanParams(scanner, items[i], depth);
      }
      assert items[..|items|] == items;
    }

    method ScanFields(scanner: Scanner, fields: seq<Field>, depth: nat)
      modifies this
      ensures issues == old(issues) + FieldIssues(scanner, fields, depth)
      ensures failures == old(failures) + FieldFailures(fields, depth)
      decreases fields
    {
      for i := 0 to |fields|
        invariant issues == old(issues) + FieldIssues(scanner, fields[..i], depth)
        invariant failures == old(failures) + FieldFailures(fields[..i], depth)
      {
        assert fields[..i + 1][..i] == fields[..i];
        if !Printable(fields[i].key) {
          issues := issues + 1;
        }
        ScanParams(scanner, fields[i].value, depth);
      }
      assert fields[..|fields|] == fields;
    }
  }

  // ---------------------------------------------------------------- what the scan reports

  /** The nesting depth of a value: 1 for a leaf or an empty container. */
  function Depth(v: Json): (d: nat)
    ensures d >= 1
    decreases v
  {
    if v.JArr? then 1 + ItemsDepth(v.items)
    else if v.JObj? then 1 + FieldsDepth(v.fields)
    else 1
  }

  function ItemsDepth(items: seq<Json>): nat
    decreases items
  {
    if items == [] then 0 else Max(ItemsDepth(items[..|items| - 1]), Depth(items[|items| - 1]))
  }

  function FieldsDepth(fields: seq<Field>): nat
    decreases fields
  {
    if fields == [] then 0 else Max(FieldsDepth(fields[..|fields| - 1]), Depth(fields[|fields| - 1].value))
  }

  lemma {:induction false} ArrayFailures(v: Json, depth: nat)
    requires v.JArr? && depth <= MAX_NESTING
    ensures forall f :: f in ScanFailures(v, depth) <==>
              (|v.items| > MAX_ARRAY && f == ARRAY_SIZE) || f in ItemFailures(v.items, depth + 1)
  {
    assert ScanFailures(v, depth)
        == (if |v.items| > MAX_ARRAY then [ARRAY_SIZE] else []) + ItemFailures(v.items, depth + 1);
  }

  /** Nesting is reported exactly when the value is deeper than the limit leaves room for, and every
    failure of the scan is HIGH. */
  lemma {:induction false} NestingIsReported(v: Json, depth: nat)
    ensures NESTING in ScanFailures(v, depth) <==> depth + Depth(v) > 6
    ensures forall f :: f in ScanFailures(v, depth) ==> f.severity == SevHigh
    decreases v
  {
    if depth <= MAX_NESTING {
      if v.JArr? {
        ItemNesting(v.items, depth + 1);
        NamesDiffer();
        ArrayFailures(v, depth);
      } else if v.JObj? {
        FieldNesting(v.fields, depth + 1);
      }
    }
  }

  lemma {:induction false} ItemNesting(items: seq<Json>, depth: nat)
    requires depth <= MAX_NESTING + 1
    ensures NESTING in ItemFailures(items, depth) <==> depth + ItemsDepth(items) > MAX_NESTING + 1
    ensures forall f :: f in ItemFailures(items, depth) ==> f.severity == SevHigh
    decreases items
  {
    if items != [] {
      ItemNesting(items[..|items| - 1], depth);
      NestingIsReported(items[|items| - 1], depth);
    }
  }

  lemma {:induction false} FieldNesting(fields: seq<Field>, depth: nat)
    requires depth <= MAX_NESTING + 1
    ensures NESTING in FieldFailures(fields, depth) <==> depth + FieldsDepth(fields) > MAX_NESTING + 1
    ensures forall f :: f in FieldFailures(fields, depth) ==> f.severity == SevHigh
    decreases fields
  {
    if fields != [] {
      FieldNesting(fields[..|fields| - 1], depth);
      NestingIsReported(fields[|fields| - 1].value, depth);
    }
  }

  /** An array of more than a hundred items stands within the nesting limit. */
  predicate LargeArray(v: Json, depth: nat)
    decreases v
  {
    depth <= 5 &&
    if v.JArr? then |v.items| > 100 || LargeAmong(v.items, depth + 1)
    else v.JObj? && LargeUnder(v.fields, depth + 1)
  }

  predicate LargeAmong(items: seq<Json>, depth: nat)
    decreases items
  {
    items != [] && (LargeAmong(items[..|items| - 1], depth) || LargeArray(items[|items| - 1], depth))
  }

  predicate LargeUnder(fields: seq<Field>, depth: nat)
    decreases fields
  {
    fields != [] && (LargeUnder(fields[..|fields| - 1], depth) || LargeArray(fields[|fields| - 1].value, depth))
  }

  /** An oversized array is reported exactly when there is one within the nesting limit; and the scan reports
    nothing but nesting and array sizes. */
  lemma {:induction false} ArraySizeIsReported(v: Json, depth: nat)
    ensures ARRAY_SIZE in ScanFailures(v, depth) <==> LargeArray(v, depth)
    ensures forall f :: f in ScanFailures(v, depth) ==> f == NESTING || f == ARRAY_SIZE
    decreases v
  {
    NamesDiffer();
    if depth <= MAX_NESTING {
      if v.JArr? {
        ItemSizes(v.items, depth + 1);
        ArrayFailures(v, depth);
      } else if v.JObj? {
        FieldSizes(v.fields, depth + 1);
      }
    }
  }

  lemma {:induction false} NamesDiffer()
    ensures NESTING != ARRAY_SIZE
  {
    assert NESTING.rule[10] == 'N' && ARRAY_SIZE.rule[10] == 'A';
  }

  lemma {:induction false} ItemSizes(items: seq<Json>, depth: nat)
    ensures ARRAY_SIZE in ItemFailures(items, depth) <==> LargeAmong(items, depth)
    ensures forall f :: f in ItemFailures(items, depth) ==> f == NESTING || f == ARRAY_SIZE
    decreases items
  {
    if items != [] {
      ItemSizes(items[..|items| - 1], depth);
      ArraySizeIsReported(items[|items| - 1], depth);
    }
  }

  lemma {:induction false} FieldSizes(fields: seq<Field>, depth: nat)
    ensures ARRAY_SIZE in FieldFailures(fields, depth) <==> LargeUnder(fields, depth)
    ensures forall f :: f in FieldFailures(fields, depth) ==> f == NESTING || f == ARRAY_SIZE
    decreases fields
  {
    if fields != [] {
      FieldSizes(fields[..|fields| - 1], depth);
      ArraySizeIsReported(fields[|fields| - 1].value, depth);
    }
  }

  // ---------------------------------------------------------------- what violates the content boundary

  predicate Boundary(c: char) {
    ' ' <= c <= '~' || c == '\n' || c == '\r' || c == '\t'
  }

  /** A text within the nesting limit matches an injection pattern or holds a character that is neither printable
    ASCII nor white space, or a key does the latter. */
  predicate BadText(scanner: Scanner, v: Json, depth: nat)
    decreases v
  {
    depth <= 5 &&
    if v.JStr? then scanner.injections(v.s) > 0 || exists i :: 0 <= i < |v.s| && !Boundary(v.s[i])
    else if v.JArr? then BadAmong(scanner, v.items, depth + 1)
    else v.JObj? && BadUnder(scanner, v.fields, depth + 1)
  }

  predicate BadAmong(scanner: Scanner, items: seq<Json>, depth: nat)
    decreases items
  {
    items != [] && (BadAmong(scanner, items[..|items| - 1], depth) || BadText(scanner, items[|items| - 1], depth))
  }

  predicate BadUnder(scanner: Scanner, fields: seq<Field>, depth: nat)
    decreases fields
  {
    fields != [] &&
    (var last := fields[|fields| - 1];
     || BadUnder(scanner, fields[..|fields| - 1], depth)
     || (exists i :: 0 <= i < |last.key| && !Boundary(last.key[i]))
     || BadText(scanner, last.value, depth))
  }

  lemma {:induction false} PrintableExactly(s: string)
    ensures Printable(s) <==> forall i :: 0 <= i < |s| ==> Boundary(s[i])
  {
  }

  /** The scan finds an issue if and only if there is a violation. */
  lemma {:induction false} IssuesExactly(scanner: Scanner, v: Json, depth: nat)
    ensures Issues(scanner, v, depth) > 0 <==> BadText(scanner, v, depth)
    decreases v
  {
    if v.JStr? {
      PrintableExactly(v.s);
    } else if v.JArr? {
      ItemIssuesExactly(scanner, v.items, depth + 1);
    } else if v.JObj? {
      FieldIssuesExactly(scanner, v.fields, depth + 1);
    }
  }

  lemma {:induction false} ItemIssuesExactly(scanner: Scanner, items: seq<Json>, depth: nat)
    ensures ItemIssues(scanner, items, depth) > 0 <==> BadAmong(scanner, items, depth)
    decreases items
  {
    if items != [] {
      ItemIssuesExactly(scanner, items[..|items| - 1], depth);
      IssuesExactly(scanner, items[|items| - 1], depth);
    }
  }

  lemma {:induction false} FieldIssuesExactly(scanner: Scanner, fields: seq<Field>, depth: nat)
    ensures FieldIssues(scanner, fields, depth) > 0 <==> BadUnder(scanner, fields, depth)
    decreases fields
  {
    if fields != [] {
      FieldIssuesExactly(scanner, fields[..|fields| - 1], depth);
      PrintableExactly(fields[|fields| - 1].key);
      IssuesExactly(scanner, fields[|fields| - 1].value, depth);
    }
  }

  // ---------------------------------------------------------------- validate

  datatype SecurityResult = SecurityResult(
    checks: seq<ValidationCheck>,
    failures: seq<ValidationFailure>,
    riskScore: int)

  function StatusIf(failed: bool): CheckStatus {
    if failed then FAIL else PASS
  }

  predicate Oversized(settings: SecuritySettings, scanner: Scanner) {
    scanner.requestBytes > if settings.maxRequestBytes == 0 then MAX_LENGTH else settings.maxRequestBytes
  }

  predicate MissingSignature(settings: SecuritySettings, scanner: Scanner) {
    settings.requireSignatures && !scanner.signed
  }

  predicate BadContent(settings: SecuritySettings, scanner: Scanner, parameters: Json) {
    settings.detectInjection && Issues(scanner, parameters, 1) > 0
  }

  const SIZE_CHECK := "Request Size Check"
  const SIGNATURE_CHECK := "Signature Check"
  const CONTENT_CHECK := "Content Boundary Check"

  function SecurityChecks(settings: SecuritySettings, scanner: Scanner, parameters: Json): seq<ValidationCheck> {
    [ValidationCheck("sec_0", SIZE_CHECK, StatusIf(Oversized(settings, scanner)), None),
     ValidationCheck("sec_1", SIGNATURE_CHECK, StatusIf(MissingSignature(settings, scanner)), None)] +
    if settings.detectInjection
    then [ValidationCheck("sec_2", CONTENT_CHECK, StatusIf(BadContent(settings, scanner, parameters)), None)]
    else []
  }

  function EnvelopeFailures(settings: SecuritySettings, scanner: Scanner): seq<ValidationFailure> {
    (if Oversized(settings, scanner) then [TOO_LARGE] else []) +
    (if MissingSignature(settings, scanner) then [UNSIGNED] else [])
  }

  function ContentFailures(settings: SecuritySettings, scanner: Scanner, parameters: Json): seq<ValidationFailure> {
    (if settings.detectInjection then ScanFailures(parameters, 1) else []) +
    (if BadContent(settings, scanner, parameters) then [CONTENT] else [])
  }

  function SecurityFailures(settings: SecuritySettings, scanner: Scanner, parameters: Json): seq<ValidationFailure> {
    EnvelopeFailures(settings, scanner) + ContentFailures(settings, scanner, parameters)
  }

  function SecurityRisk(settings: SecuritySettings, scanner: Scanner, parameters: Json): int {
    if Oversized(settings, scanner) || MissingSignature(settings, scanner) then 100
    else if SecurityFailures(settings, scanner, parameters) != [] then 80
    else 0
  }

  predicate IsCritical(f: ValidationFailure) {
    f.severity == SevCritical
  }

  /** Critical failures are the size and the signature, and nothing else. */
  lemma {:induction false} CriticalSecurity(settings: SecuritySettings, scanner: Scanner, parameters: Json)
    ensures (exists f :: f in SecurityFailures(settings, scanner, parameters) && IsCritical(f))
            <==> Oversized(settings, scanner) || MissingSignature(settings, scanner)
  {
    NestingIsReported(parameters, 1);
    var all := SecurityFailures(settings, scanner, parameters);
    if Oversized(settings, scanner) {
      assert TOO_LARGE in all && IsCritical(TOO_LARGE);
    } else if MissingSignature(settings, scanner) {
      assert UNSIGNED in all && IsCritical(UNSIGNED);
    }
  }

  method ScanContent(settings: SecuritySettings, scanner: Scanner, parameters: Json, before: seq<ValidationFailure>)
    returns (failures: seq<ValidationFailure>, status: CheckStatus)
    requires settings.detectInjection
    ensures failures == before + ContentFailures(settings, scanner, parameters)
    ensures status == StatusIf(BadContent(settings, scanner, parameters))
  {
    var scan := new ParameterScan(before);
    scan.ScanParams(scanner, parameters, 1);
    failures := scan.failures;
    status := PASS;
    if scan.issues > 0 {
      failures := failures + [CONTENT];
      status := FAIL;
    }
  }

  method Validate(settings: SecuritySettings, scanner: Scanner, parameters: Json) returns (r: SecurityResult)
    ensures r.checks == SecurityChecks(settings, scanner, parameters)
    ensures r.failures == SecurityFailures(settings, scanner, parameters)
    ensures r.riskScore == SecurityRisk(settings, scanner, parameters)
  {
    var failures: seq<ValidationFailure> := [];
    var size, signature := PASS, PASS;
    var maxSize := if settings.maxRequestBytes != 0 then settings.maxRequestBytes else MAX_LENGTH;
    if scanner.requestBytes > maxSize {
      failures := failures + [TOO_LARGE];
      size := FAIL;
    }
    if settings.requireSignatures && !scanner.signed {
      failures := failures + [UNSIGNED];
      signature := FAIL;
    }
    var checks := [ValidationCheck("sec_0", SIZE_CHECK, size, None), ValidationCheck("sec_1", SIGNATURE_CHECK,
        signature, None)];
    assert failures == EnvelopeFailures(settings, scanner);
    if settings.detectInjection {
      var content;
      failures, content := ScanContent(settings, scanner, parameters, failures);
      checks := checks + [ValidationCheck("sec_2", CONTENT_CHECK, content, None)];
    }
    CriticalSecurity(settings, scanner, parameters);
    var critical := exists f :: f in failures && IsCritical(f);
    var risk := if |failures| > 0 then (if critical then 100 else 80) else 0;
    r := SecurityResult(checks, failures, risk);
  }

  predicate AllPass(checks: seq<ValidationCheck>) {
    forall i :: 0 <= i < |checks| ==> checks[i].status == PASS
  }

  lemma {:induction false} PassingChecks(settings: SecuritySettings, scanner: Scanner, v: Json)
    ensures AllPass(SecurityChecks(settings, scanner, v)) <==>
              !Oversized(settings, scanner) && !MissingSignature(settings, scanner) && !BadContent(settings, scanner, v)
  {
    var checks := SecurityChecks(settings, scanner, v);
    assert checks[0].status == StatusIf(Oversized(settings, scanner));
    assert checks[1].status == StatusIf(MissingSignature(settings, scanner));
    assert settings.detectInjection ==> checks[2].status == StatusIf(BadContent(settings, scanner, v));
  }

  /** Failures without a failed check, exactly: the scan is on, size, signature and texts are in order, and
    the parameters are nested too deeply or hold an oversized array within the nesting limit. */
  lemma {:induction false} FailureBesidePassingChecks(settings: SecuritySettings, scanner: Scanner, v: Json)
    ensures SecurityFailures(settings, scanner, v) != [] && AllPass(SecurityChecks(settings, scanner, v)) <==>
              && settings.detectInjection
              && !Oversized(settings, scanner) && !MissingSignature(settings, scanner) && !BadText(scanner, v, 1)
              && (Depth(v) > 5 || LargeArray(v, 1))
  {
    NestingIsReported(v, 1);
    ArraySizeIsReported(v, 1);
    IssuesExactly(scanner, v, 1);
    PassingChecks(settings, scanner, v);
    var scanned := ScanFailures(v, 1);
    if scanned != [] {
      assert scanned[0] in scanned;
    }
  }

  /** The risk is 1.0 for a request that is too large or lacks its signature, 0.8 for parameters that violate the
    content boundary, are nested more than five deep, or hold an array of more than a hundred items, and
    otherwise none. */
  lemma {:induction false} RiskExactly(settings: SecuritySettings, scanner: Scanner, v: Json)
    ensures SecurityRisk(settings, scanner, v) ==
              if scanner.requestBytes > (if settings.maxRequestBytes == 0 then 10000 else settings.maxRequestBytes)
                 || (settings.requireSignatures && !scanner.signed) then 100
              else if settings.detectInjection && (BadText(scanner, v, 1) || Depth(v) > 5 || LargeArray(v, 1)) then 80
              else 0
  {
    IssuesExactly(scanner, v, 1);
    PassingChecks(settings, scanner, v);
    FailureBesidePassingChecks(settings, scanner, v);
    NestingIsReported(v, 1);
    ArraySizeIsReported(v, 1);
  }

  /** The three checks: each fails if and only if there is what it looks for. */
  lemma {:induction false} ChecksExactly(settings: SecuritySettings, scanner: Scanner, v: Json)
    ensures var checks := SecurityChecks(settings, scanner, v);
            && |checks| == (if settings.detectInjection then 3 else 2)
            && (forall i :: 0 <= i < |checks| ==> checks[i].status == PASS || checks[i].status == FAIL)
            && (checks[0].status == FAIL <==>
                  scanner.requestBytes > if settings.maxRequestBytes == 0 then 10000 else settings.maxRequestBytes)
            && (checks[1].status == FAIL <==> settings.requireSignatures && !scanner.signed)
            && (settings.detectInjection ==> (checks[2].status == FAIL <==> BadText(scanner, v, 1)))
  {
    IssuesExactly(scanner, v, 1);
  }
}
