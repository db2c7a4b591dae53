/**
 * src/lib/bom/parser.ts: what happens to the tokenizer's header records
 * (missing fields, quantity parsing, blank-row filter), the extended rows
 * built from them, and row validation.
 */
module BomParser {
  import opened Utils
  import opened Text
  import opened BomTypes

  /** One record from the CSV tokenizer, keyed by lower-cased header; `None` is a missing column. */
  datatype CsvRecord = CsvRecord(
    comment: Option<string>,
    designator: Option<string>,
    footprint: Option<string>,
    lcsc: Option<string>,
    quantity: Option<string>)

  datatype TokenizerError = TokenizerError(row: int, message: string)

  /** What the tokenizer hands back: records and the errors it met. */
  datatype Tokenized = Tokenized(data: seq<CsvRecord>, errors: seq<TokenizerError>)

  /** `x || ''` for an optional string field. */
  function OrEmpty(o: Option<string>): string {
    match o
    case None => ""
    case Some(s) => s
  }

  // ----- parseInt(text, 10) -----

  /** The white-space characters `parseInt` skips that this model recognises. */
  predicate IsJsSpace(c: char) {
    c == ' ' || c == '\t' || c == '\n' || c == '\r' || c == '\U{000B}' || c == '\U{000C}'
    || c == '\U{00A0}' || c == '\U{FEFF}'
  }

  function TrimStart(s: string): (r: string)
    ensures |r| <= |s|
    ensures r == [] || !IsJsSpace(r[0])
  {
    if s != [] && IsJsSpace(s[0]) then TrimStart(s[1..]) else s
  }

  /** The longest prefix made of decimal digits. */
  function DigitPrefix(s: string): (d: string)
    ensures AllDigits(d) && d <= s
    ensures |d| < |s| ==> !IsDigit(s[|d|])
  {
    if s != [] && IsDigit(s[0]) then [s[0]] + DigitPrefix(s[1..]) else []
  }

  /** `parseInt(s, 10)`; `None` stands for `NaN`. */
  function ParseInt(s: string): Option<int> {
    var t := TrimStart(s);
    var negative := |t| > 0 && t[0] == '-';
    var u := if |t| > 0 && (t[0] == '-' || t[0] == '+') then t[1..] else t;
    var d := DigitPrefix(u);
    if d == [] then None
    else
      var v: int := DigitsValue(d);
      Some(if negative then -v else v)
  }

  /** `parseInt(row.quantity || '0', 10) || 0`. */
  function ParseQuantity(q: Option<string>): int {
    var text := if OrEmpty(q) == "" then "0" else OrEmpty(q);
    match ParseInt(text)
    case None => 0
    case Some(v) => v
  }

  lemma DigitPrefixOfDigits(s: string)
    requires AllDigits(s)
    ensures DigitPrefix(s) == s
  {
  }

  /** A quantity column holding the decimal text of `n` yields `n`. */
  lemma ParseQuantityOfNatText(n: nat)
    ensures ParseQuantity(Some(NatToString(n))) == n
  {
    var s := NatToString(n);
    assert TrimStart(s) == s;
    DigitPrefixOfDigits(s);
    DigitsValueOfNatToString(n);
  }

  /**
   * A missing or empty column, blank text, or text that does not start with
   * a number gives quantity 0.
   */
  lemma ParseQuantityDefaultsToZero(q: Option<string>)
    requires q.Some? ==> var t := TrimStart(q.value);
      t == [] || (!IsDigit(t[0]) && t[0] != '-' && t[0] != '+')
    ensures ParseQuantity(q) == 0
  {
    if OrEmpty(q) == "" {
      assert TrimStart("0") == "0";
      assert DigitPrefix("0") == "0";
      assert DigitsValue("0") == 0;
    }
  }

  // ----- parseBomCsv -----

  function ToOriginal(rec: CsvRecord): OriginalRow {
    OriginalRow(OrEmpty(rec.comment), OrEmpty(rec.designator), OrEmpty(rec.footprint),
                OrEmpty(rec.lcsc), ParseQuantity(rec.quantity))
  }

  /** A row that survives the `row.designator || row.comment` filter. */
  predicate NonBlank(row: OriginalRow) {
    row.designator != "" || row.comment != ""
  }

  /** The map-then-filter chain applied to the tokenizer records. */
  function MapRecords(data: seq<CsvRecord>): (rows: seq<OriginalRow>)
    ensures forall i | 0 <= i < |rows| :: NonBlank(rows[i])
    ensures |rows| <= |data|
  {
    if data == [] then []
    else
      var rest := MapRecords(data[..|data| - 1]);
      var row := ToOriginal(data[|data| - 1]);
      if NonBlank(row) then
        var r := rest + [row];
        assert forall i | 0 <= i < |rest| :: r[i] == rest[i];
        r
      else rest
  }

  /** Every row comes from some record. */
  lemma {:induction false} MapRecordsFromRecords(data: seq<CsvRecord>, i: nat)
    requires i < |MapRecords(data)|
    ensures exists j | 0 <= j < |data| :: MapRecords(data)[i] == ToOriginal(data[j])
  {
    var last := |data| - 1;
    var rest := MapRecords(data[..last]);
    var row := ToOriginal(data[last]);
    if i < |rest| {
      assert MapRecords(data)[i] == rest[i] by {
        if NonBlank(row) {
          assert MapRecords(data) == rest + [row];
        }
      }
      MapRecordsFromRecords(data[..last], i);
      var j :| 0 <= j < last && rest[i] == ToOriginal(data[..last][j]);
      assert data[..last][j] == data[j];
    } else {
      assert MapRecords(data) == rest + [row];
      assert MapRecords(data)[i] == ToOriginal(data[last]);
    }
  }

  /** The filter keeps order: records are processed independently, left to right. */
  lemma {:induction false} MapRecordsAppend(a: seq<CsvRecord>, b: seq<CsvRecord>)
    ensures MapRecords(a + b) == MapRecords(a) + MapRecords(b)
    decreases |b|
  {
    if b == [] {
      assert a + b == a;
    } else {
      var b' := b[..|b| - 1];
      assert (a + b)[..|a + b| - 1] == a + b';
      MapRecordsAppend(a, b');
    }
  }

  /** Every record with a designator or a comment becomes a row. */
  lemma {:induction false} MapRecordsKeepsNonBlank(data: seq<CsvRecord>, i: nat)
    requires i < |data| && NonBlank(ToOriginal(data[i]))
    ensures ToOriginal(data[i]) in MapRecords(data)
  {
    assert data == data[..i] + [data[i]] + data[i + 1..];
    MapRecordsAppend(data[..i] + [data[i]], data[i + 1..]);
    MapRecordsAppend(data[..i], [data[i]]);
    assert MapRecords([data[i]]) == [ToOriginal(data[i])] by {
      assert [data[i]][..0] == [];
    }
  }

  /**
   * `parseBomCsv` after tokenising: any tokenizer error is reported with the
   * first error's row and message; otherwise the mapped, non-blank rows.
   */
  function ParseBomCsv(t: Tokenized): (r: Result<seq<OriginalRow>, string>)
    ensures r.Err? <==> t.errors != []
    ensures r.Err? ==> r.error == "CSV parsing error at row " + IntToString(t.errors[0].row)
                                  + ": " + t.errors[0].message
    ensures r.Ok? ==> r.value == MapRecords(t.data)
    ensures r.Ok? ==> forall i | 0 <= i < |r.value| :: NonBlank(r.value[i])
  {
    if t.errors != [] then
      Err("CSV parsing error at row " + IntToString(t.errors[0].row) + ": " + t.errors[0].message)
    else
      Ok(MapRecords(t.data))
  }

  // ----- convertToExtended -----

  /** `bom-${index}-${Date.now()}`, with the clock reading `now` as a parameter. */
  function RowId(index: nat, now: nat): string {
    "bom-" + NatToString(index) + "-" + NatToString(now)
  }

  /** The longest run of decimal digits at the start of `s`. */
  function LeadingDigits(s: string): (r: string)
    ensures AllDigits(r) && r <= s
  {
    if s == [] || !IsDigit(s[0]) then [] else [s[0]] + LeadingDigits(s[1..])
  }

  lemma {:induction false} LeadingDigitsOf(a: string, rest: string)
    requires AllDigits(a) && (rest == [] || !IsDigit(rest[0]))
    ensures LeadingDigits(a + rest) == a
  {
    if a == [] {
      assert a + rest == rest;
    } else {
      assert (a + rest)[0] == a[0] && (a + rest)[1..] == a[1..] + rest;
      LeadingDigitsOf(a[1..], rest);
      assert [a[0]] + a[1..] == a;
    }
  }

  /**
   * Ids for different indices differ whatever the clock read for each: the
   * index is the digits that follow "bom-".
   */
  lemma RowIdsDistinct(i: nat, j: nat, ti: nat, tj: nat)
    requires i != j
    ensures RowId(i, ti) != RowId(j, tj)
  {
    var a, b := NatToString(i), NatToString(j);
    DigitsValueOfNatToString(i);
    DigitsValueOfNatToString(j);
    var x, y := RowId(i, ti), RowId(j, tj);
    var ra, rb := "-" + NatToString(ti), "-" + NatToString(tj);
    assert x == "bom-" + (a + ra) && |"bom-"| == 4;
    assert y == "bom-" + (b + rb);
    assert x[4..] == a + ra;
    assert y[4..] == b + rb;
    LeadingDigitsOf(a, ra);
    LeadingDigitsOf(b, rb);
  }

  /** The status a freshly loaded row starts in. */
  function InitialStatus(lcsc: string): (s: Status)
    ensures s == Pending <==> StartsWithC(lcsc)
    ensures s == Skipped <==> !StartsWithC(lcsc)
  {
    if StartsWithC(lcsc) then Pending else Skipped
  }

  function Extend(row: OriginalRow, index: nat, now: nat): Row {
    Row(RowId(index, now), row.comment, row.designator, row.footprint, row.lcsc, row.quantity,
        None, InitialStatus(row.lcsc), None, None, None)
  }

  /**
   * `convertToExtended`: one extended row per input row, in order. `clock(i)`
   * is what `Date.now()` returns while row `i` is converted.
   */
  function ConvertToExtended(rows: seq<OriginalRow>, clock: nat -> nat): (r: seq<Row>)
    ensures |r| == |rows|
    ensures forall i | 0 <= i < |r| ::
      && r[i].comment == rows[i].comment && r[i].designator == rows[i].designator
      && r[i].footprint == rows[i].footprint && r[i].lcsc == rows[i].lcsc
      && r[i].quantity == rows[i].quantity
      && (r[i].fetchStatus == Pending <==> StartsWithC(rows[i].lcsc))
      && (r[i].fetchStatus == Skipped <==> !StartsWithC(rows[i].lcsc))
      && r[i].lcscInfo.None? && r[i].errorMessage.None?
      && r[i].unitPrice.None? && r[i].totalPrice.None?
    ensures forall i | 0 <= i < |r| :: r[i].id == RowId(i, clock(i))
    ensures forall i, j | 0 <= i < j < |r| :: r[i].id != r[j].id
  {
    var r := seq(|rows|, i requires 0 <= i < |rows| => Extend(rows[i], i, clock(i)));
    assert forall i | 0 <= i < |r| :: r[i] == Extend(rows[i], i, clock(i));
    assert forall i, j | 0 <= i < j < |r| :: r[i].id != r[j].id by {
      forall i, j | 0 <= i < j < |r| ensures r[i].id != r[j].id {
        RowIdsDistinct(i, j, clock(i), clock(j));
      }
    }
    r
  }

  /** A row can start out pending although the validator rejects its part number. */
  lemma PendingButInvalid()
    ensures var r := ConvertToExtended([OriginalRow("10k", "R1", "R_0402", "Cabc", 1)], (i: nat) => 0);
      r[0].fetchStatus == Pending && RowErrors(OriginalRow("10k", "R1", "R_0402", "Cabc", 1)) != []
  {
    assert "Cabc"[1..][0] == 'a' && !IsDigit('a');
  }

  // ----- validateBomRow / validateBom -----

  const DesignatorRequired := "Designator is required"
  const QuantityNotPositive := "Quantity must be positive"
  const BadPartNumber := "Invalid LCSC part number format (should be C followed by numbers)"

  /** The messages `validateBomRow` produces for a row, in check order. */
  function RowErrors(row: OriginalRow): seq<string> {
    (if row.designator == "" then [DesignatorRequired] else [])
    + (if row.quantity <= 0 then [QuantityNotPositive] else [])
    + (if row.lcsc != "" && !IsPartNumber(row.lcsc) then [BadPartNumber] else [])
  }

  /** A row passes exactly when it has a designator, a positive quantity and an empty or well-formed part number. */
  lemma RowErrorsEmptyIff(row: OriginalRow)
    ensures RowErrors(row) == [] <==>
      row.designator != "" && row.quantity > 0 && (row.lcsc == "" || IsPartNumber(row.lcsc))
  {
  }

  method ValidateBomRow(row: OriginalRow) returns (errors: seq<string>)
    ensures DesignatorRequired in errors <==> row.designator == ""
    ensures QuantityNotPositive in errors <==> row.quantity <= 0
    ensures BadPartNumber in errors <==> row.lcsc != "" && !IsPartNumber(row.lcsc)
    ensures errors == RowErrors(row)
  {
    errors := [];
    if row.designator == "" {
      errors := errors + [DesignatorRequired];
    }
    if row.quantity <= 0 {
      errors := errors + [QuantityNotPositive];
    }
    if row.lcsc != "" && !IsPartNumber(row.lcsc) {
      errors := errors + [BadPartNumber];
    }
  }

  function RowPrefix(index: nat): string {
    "Row " + NatToString(index + 1) + ": "
  }

  function Prefixed(index: nat, messages: seq<string>): (r: seq<string>)
    ensures |r| == |messages|
    ensures forall k | 0 <= k < |r| :: r[k] == RowPrefix(index) + messages[k]
  {
    seq(|messages|, k requires 0 <= k < |messages| => RowPrefix(index) + messages[k])
  }

  /** All messages of `validateBom`: rows in order, each row's checks in order. */
  function BomErrors(rows: seq<OriginalRow>): seq<string> {
    if rows == [] then []
    else BomErrors(rows[..|rows| - 1]) + Prefixed(|rows| - 1, RowErrors(rows[|rows| - 1]))
  }

  /** The BOM has no messages exactly when every row passes on its own. */
  lemma {:induction false} BomErrorsEmptyIff(rows: seq<OriginalRow>)
    ensures BomErrors(rows) == [] <==> forall i | 0 <= i < |rows| :: RowErrors(rows[i]) == []
  {
    if rows != [] {
      var init := rows[..|rows| - 1];
      BomErrorsEmptyIff(init);
      assert forall i | 0 <= i < |init| :: init[i] == rows[i];
    }
  }

  lemma BomErrorsSnoc(rows: seq<OriginalRow>, i: nat)
    requires i < |rows|
    ensures BomErrors(rows[..i + 1]) == BomErrors(rows[..i]) + Prefixed(i, RowErrors(rows[i]))
  {
    assert rows[..i + 1][..i] == rows[..i];
  }

  lemma PrefixedSnoc(index: nat, messages: seq<string>, k: nat)
    requires k < |messages|
    ensures Prefixed(index, messages[..k + 1]) == Prefixed(index, messages[..k]) + [RowPrefix(index) + messages[k]]
  {
  }

  /** The inner `rowErrors.forEach` of `validateBom`: row `index`'s messages, prefixed, pushed onto `errors`. */
  method PushPrefixed(errors: seq<string>, index: nat, rowErrors: seq<string>) returns (r: seq<string>)
    ensures r == errors + Prefixed(index, rowErrors)
  {
    r := errors;
    var k := 0;
    while k < |rowErrors|
      invariant 0 <= k <= |rowErrors|
      invariant r == errors + Prefixed(index, rowErrors[..k])
    {
      PrefixedSnoc(index, rowErrors, k);
      r := r + ["Row " + NatToString(index + 1) + ": " + rowErrors[k]];
      k := k + 1;
    }
    assert rowErrors[..k] == rowErrors;
  }

  method ValidateBom(rows: seq<OriginalRow>) returns (valid: bool, errors: seq<string>)
    ensures errors == BomErrors(rows)
    ensures valid <==> forall i | 0 <= i < |rows| :: RowErrors(rows[i]) == []
  {
    errors := [];
    var i := 0;
    while i < |rows|
      invariant 0 <= i <= |rows|
      invariant errors == BomErrors(rows[..i])
    {
      var rowErrors := ValidateBomRow(rows[i]);
      errors := PushPrefixed(errors, i, rowErrors);
      BomErrorsSnoc(rows, i);
      i := i + 1;
    }
    assert rows[..i] == rows;
    valid := |errors| == 0;
    BomErrorsEmptyIff(rows);
  }
}
