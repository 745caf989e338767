/**
 * The converter page: tool 1 keeps the CSV rows whose analysis date falls in
 * a period of months, row by row as the parser delivers them; tool 2
 * normalises the supplier rows of a spreadsheet and of a complementary CSV
 * and concatenates them.
 */
module Conversor {
  import opened Wrappers
  import opened JsStrings

  // ------------------------------------------------------------ period filter

  /**
   * `parseInt(year) * 100 + parseInt(month)` of a `YYYY-MM` month input;
   * None stands for NaN (an unreadable or missing part).
   */
  function MonthValue(input: string): Option<int> {
    MonthOfParts(Split(input, '-'))
  }

  /** The year and month parts of a split month input; a missing month part is NaN. */
  function MonthOfParts(parts: seq<string>): Option<int> {
    if |parts| >= 2 then Combine(ParseInt(parts[0]), ParseInt(parts[1])) else None
  }

  /** `high * 100 + low`, NaN when either is NaN. */
  function Combine(high: Option<int>, low: Option<int>): Option<int> {
    if high.Some? && low.Some? then Some(high.value * 100 + low.value) else None
  }

  /** One parsed CSV row: its `Data Análise` cell (None when missing or not a string) and its other cells. */
  datatype CsvRow = CsvRow(dataAnalise: Option<string>, cells: seq<string>)

  /** What the parser hands to each step: the row and the header names it saw. */
  datatype StepResult = StepResult(row: CsvRow, fields: Option<seq<string>>)

  /**
   * `ano*100 + mes` of the date part before the first space, when that part
   * splits on `/` into day, month and year; None for NaN or a different shape.
   */
  function RowValue(d: string): Option<int> {
    DateOfParts(Split(Split(d, ' ')[0], '/'))
  }

  /** Day, month and year parts give year*100 + month; any other number of parts is NaN. */
  function DateOfParts(parts: seq<string>): Option<int> {
    if |parts| != 3 then None else Combine(ParseInt(parts[2]), ParseInt(parts[1]))
  }

  /**
   * The row test of the step callback: a non-empty date string whose value
   * lies in [rangeStart, rangeEnd]. A NaN anywhere fails every comparison.
   */
  predicate KeepRow(row: CsvRow, rangeStart: Option<int>, rangeEnd: Option<int>) {
    row.dataAnalise.Some? && row.dataAnalise.value != "" &&
    InRange(RowValue(row.dataAnalise.value), rangeStart, rangeEnd)
  }

  predicate InRange(v: Option<int>, lo: Option<int>, hi: Option<int>) {
    v.Some? && lo.Some? && hi.Some? && lo.value <= v.value <= hi.value
  }

  /** The rows kept from a sequence of rows, in their order. */
  function Kept(rows: seq<CsvRow>, rangeStart: Option<int>, rangeEnd: Option<int>): (r: seq<CsvRow>)
    ensures |r| <= |rows|
    decreases |rows|
  {
    if |rows| == 0 then []
    else
      var x := rows[|rows| - 1];
      Kept(rows[..|rows| - 1], rangeStart, rangeEnd) + (if KeepRow(x, rangeStart, rangeEnd) then [x] else [])
  }

  /** The header names after a sequence of steps: the first step that offers them sets them. */
  function HeadersAfter(steps: seq<StepResult>): seq<string>
    decreases |steps|
  {
    if |steps| == 0 then []
    else
      var before := HeadersAfter(steps[..|steps| - 1]);
      var fields := steps[|steps| - 1].fields;
      if |before| == 0 && fields.Some? then fields.value else before
  }

  function RowsOf(steps: seq<StepResult>): (rows: seq<CsvRow>)
    ensures |rows| == |steps|
    ensures forall i :: 0 <= i < |steps| ==> rows[i] == steps[i].row
  {
    seq(|steps|, i requires 0 <= i < |steps| => steps[i].row)
  }

  /** The state tool 1 builds while the file is parsed. */
  class CsvFilter {
    var filteredData: seq<CsvRow>
    var headers: seq<string>
    var rowCount: nat
    const rangeStart: Option<int>
    const rangeEnd: Option<int>

    /** Starting a run: both bounds read from the month inputs, nothing kept yet. */
    constructor (startInput: string, endInput: string)
      ensures rangeStart == MonthValue(startInput) && rangeEnd == MonthValue(endInput)
      ensures filteredData == [] && headers == [] && rowCount == 0
    {
      rangeStart := MonthValue(startInput);
      rangeEnd := MonthValue(endInput);
      filteredData := [];
      headers := [];
      rowCount := 0;
    }

    /** The `step` callback. */
    method Step(result: StepResult)
      modifies this
      ensures rowCount == old(rowCount) + 1
      ensures filteredData == old(filteredData) + (if KeepRow(result.row, rangeStart, rangeEnd) then [result.row] else [])
      ensures headers == if |old(headers)| == 0 && result.fields.Some? then result.fields.value else old(headers)
    {
      rowCount := rowCount + 1;
      if KeepRow(result.row, rangeStart, rangeEnd) {
        filteredData := filteredData + [result.row];
      }
      if |headers| == 0 && result.fields.Some? {
        headers := result.fields.value;
      }
    }
  }

  /**
   * `processarCSV` over the rows the parser delivers: each row goes through
   * the step callback once, in order. None when a period input is empty.
   */
  method ProcessCsv(steps: seq<StepResult>, startInput: string, endInput: string)
    returns (outcome: Option<(seq<CsvRow>, seq<string>, nat)>)
    ensures startInput == "" || endInput == "" <==> outcome.None?
    ensures outcome.Some? ==> (outcome.value ==
      (Kept(RowsOf(steps), MonthValue(startInput), MonthValue(endInput)), HeadersAfter(steps), |steps|))
  {
    if startInput == "" || endInput == "" {
      return None;
    }
    var f := new CsvFilter(startInput, endInput);
    var i := 0;
    while i < |steps|
      invariant 0 <= i <= |steps|
      invariant f.rangeStart == MonthValue(startInput) && f.rangeEnd == MonthValue(endInput)
      invariant f.filteredData == Kept(RowsOf(steps[..i]), f.rangeStart, f.rangeEnd)
      invariant f.headers == HeadersAfter(steps[..i])
      invariant f.rowCount == i
    {
      assert steps[..i + 1][..i] == steps[..i];
      assert RowsOf(steps[..i + 1])[..i] == RowsOf(steps[..i]);
      f.Step(steps[i]);
      i := i + 1;
    }
    assert steps[..i] == steps;
    outcome := Some((f.filteredData, f.headers, f.rowCount));
  }

  // -------------------------------------------------------- period lemmas

  /** A `YYYY-MM` month input reads as year*100 + month. */
  lemma MonthValueOf(year: nat, month: nat)
    ensures MonthValue(NatToString(year) + "-" + PadStart(NatToString(month), 2, '0')) == Some(year * 100 + month)
  {
    var y := NatToString(year);
    var m := PadStart(NatToString(month), 2, '0');
    ParseIntPadded(year, 0);
    ParseIntPadded(month, 2);
    assert PadStart(y, 0, '0') == y;
    SplitAt2(y, '-', m);
    MonthValueParts(y + "-" + m, y, m, year, month);
  }

  lemma MonthValueParts(input: string, y: string, m: string, a: int, b: int)
    requires Split(input, '-') == [y, m] && ParseInt(y) == Some(a) && ParseInt(m) == Some(b)
    ensures MonthValue(input) == Some(a * 100 + b)
  {
    MonthOfPair(y, m, a, b);
  }

  lemma MonthOfPair(y: string, m: string, a: int, b: int)
    requires ParseInt(y) == Some(a) && ParseInt(m) == Some(b)
    ensures MonthOfParts([y, m]) == Some(a * 100 + b)
  {
    assert [y, m][0] == y && [y, m][1] == m;
  }

  /** Two digit strings joined by a non-digit split back into the two. */
  lemma SplitAt2(a: string, c: char, b: string)
    requires AllDigits(a) && AllDigits(b) && !IsDigit(c)
    ensures Split(a + [c] + b, c) == [a, b]
  {
    DigitsExclude(a, c);
    DigitsExclude(b, c);
    SplitTwo(a, c, b);
  }

  /** The date part before the first space of `day/month/year[ time]`. */
  lemma DatePart(date: string, rest: string)
    requires ' ' !in date
    requires rest == "" || rest[0] == ' '
    ensures Split(date + rest, ' ')[0] == date
  {
    if rest == "" {
      assert date + rest == date;
      SplitAbsent(date, ' ');
    } else {
      assert date + rest == date + [' '] + rest[1..];
      SplitAt(date, ' ', rest[1..]);
    }
  }

  lemma DateFields(d: string, m: string, y: string)
    requires AllDigits(d) && AllDigits(m) && AllDigits(y)
    ensures ' ' !in d + "/" + m + "/" + y
    ensures Split(d + "/" + m + "/" + y, '/') == [d, m, y]
  {
    DigitsExclude(d, '/');
    DigitsExclude(m, '/');
    DigitsExclude(y, '/');
    SplitThree(d, m, y, '/');
    DigitsExclude(d, ' ');
    DigitsExclude(m, ' ');
    DigitsExclude(y, ' ');
    JoinedExclude(d, m, y, '/', ' ');
  }

  lemma RowValueParts(date: string, d: string, m: string, y: string, mes: int, ano: int)
    requires Split(Split(date, ' ')[0], '/') == [d, m, y]
    requires ParseInt(m) == Some(mes) && ParseInt(y) == Some(ano)
    ensures RowValue(date) == Some(ano * 100 + mes)
  {
    DateOfTriple(d, m, y, mes, ano);
  }

  lemma DateOfTriple(d: string, m: string, y: string, mes: int, ano: int)
    requires ParseInt(m) == Some(mes) && ParseInt(y) == Some(ano)
    ensures DateOfParts([d, m, y]) == Some(ano * 100 + mes)
  {
    assert [d, m, y][1] == m && [d, m, y][2] == y;
  }

  /** The text of a `DD/MM/YYYY` date, with an optional time after a space. */
  function DateText(day: nat, month: nat, year: nat, rest: string): string {
    PadStart(NatToString(day), 2, '0') + "/" + PadStart(NatToString(month), 2, '0') + "/" + NatToString(year) + rest
  }

  /** A `DD/MM/YYYY` date, with or without a time after it, has the value year*100 + month. */
  lemma RowValueOf(day: nat, month: nat, year: nat, rest: string)
    requires rest == "" || rest[0] == ' '
    ensures RowValue(DateText(day, month, year, rest)) == Some(year * 100 + month)
  {
    var d := PadStart(NatToString(day), 2, '0');
    var m := PadStart(NatToString(month), 2, '0');
    var y := NatToString(year);
    ParseIntPadded(day, 2);
    ParseIntPadded(month, 2);
    ParseIntPadded(year, 0);
    assert PadStart(y, 0, '0') == y;
    var date := d + "/" + m + "/" + y;
    DateFields(d, m, y);
    DatePart(date, rest);
    assert DateText(day, month, year, rest) == date + rest;
    RowValueParts(date + rest, d, m, y, month, year);
  }

  /**
   * A row dated `DD/MM/YYYY`, with or without a time, is kept exactly when
   * year*100 + month lies in the period, both ends included.
   */
  lemma KeepRowOfDate(day: nat, month: nat, year: nat, rest: string, cells: seq<string>, lo: int, hi: int)
    requires rest == "" || rest[0] == ' '
    ensures KeepRow(CsvRow(Some(DateText(day, month, year, rest)), cells), Some(lo), Some(hi)) <==>
      lo <= year * 100 + month <= hi
  {
    RowValueOf(day, month, year, rest);
  }

  /** A row with a missing date, or a date with no `/`, is never kept. */
  lemma UndatedNeverKept(row: CsvRow, rangeStart: Option<int>, rangeEnd: Option<int>)
    requires row.dataAnalise.None? || '/' !in row.dataAnalise.value
    ensures !KeepRow(row, rangeStart, rangeEnd)
  {
    if row.dataAnalise.Some? {
      var d := row.dataAnalise.value;
      var head := Split(d, ' ')[0];
      SplitHead(d, ' ');
      assert '/' !in head by {
        forall i | 0 <= i < |head| ensures head[i] != '/' { assert head[i] == d[i]; }
      }
      SplitAbsent(head, '/');
    }
  }

  /** A row is kept exactly when it is one of the rows and passes the date filter. */
  lemma {:induction false} KeptMembers(rows: seq<CsvRow>, lo: Option<int>, hi: Option<int>)
    ensures forall x :: x in Kept(rows, lo, hi) <==> x in rows && KeepRow(x, lo, hi)
    decreases |rows|
  {
    if |rows| > 0 {
      var init := rows[..|rows| - 1];
      KeptMembers(init, lo, hi);
      assert rows == init + [rows[|rows| - 1]];
    }
  }

  /** Tool 1 keeps input order: the rows kept from two stretches are those of each, in turn. */
  lemma {:induction false} KeptAppend(a: seq<CsvRow>, b: seq<CsvRow>, lo: Option<int>, hi: Option<int>)
    ensures Kept(a + b, lo, hi) == Kept(a, lo, hi) + Kept(b, lo, hi)
    decreases |b|
  {
    if |b| > 0 {
      var b' := b[..|b| - 1];
      var x := b[|b| - 1];
      KeptAppend(a, b', lo, hi);
      assert (a + b)[..|a + b| - 1] == a + b';
      assert (a + b)[|a + b| - 1] == x;
      var tail := if KeepRow(x, lo, hi) then [x] else [];
      assert Kept(a + b, lo, hi) == Kept(a + b', lo, hi) + tail;
      assert Kept(b, lo, hi) == Kept(b', lo, hi) + tail;
    } else {
      assert a + b == a;
    }
  }

  /** The headers are those of the first step that offers a non-empty list; later steps never change them. */
  lemma {:induction false} HeadersFromFirst(steps: seq<StepResult>, f: seq<string>)
    requires |steps| > 0 && steps[0].fields == Some(f) && |f| > 0
    ensures HeadersAfter(steps) == f
    decreases |steps|
  {
    if |steps| > 1 {
      HeadersFromFirst(steps[..|steps| - 1], f);
    }
  }

  // ----------------------------------------------------- supplier merge

  predicate IsAsciiAlnum(c: char) {
    'a' <= c <= 'z' || 'A' <= c <= 'Z' || IsDigit(c)
  }

  /** `replace(/[^a-zA-Z0-9]/g, '')`: the ASCII letters and digits, in order. */
  function CleanId(s: string): (r: string)
    ensures |r| <= |s|
    ensures forall i :: 0 <= i < |r| ==> IsAsciiAlnum(r[i])
    decreases |s|
  {
    if |s| == 0 then [] else (if IsAsciiAlnum(s[0]) then [s[0]] else []) + CleanId(s[1..])
  }

  /** A cell read as text: `cell ? String(cell) : ""`. */
  function Text(cell: Option<string>): string {
    cell.GetOr("")
  }

  /** A spreadsheet row: `CPF_CNPJ`, `NOME_FORNECEDOR`, `DATA_CADASTRO`, `TIPO_DE_CADASTRO`. */
  datatype ExcelRow = ExcelRow(cpfCnpj: Option<string>, nome: Option<string>, data: Option<string>, tipo: Option<string>)

  /** A complementary CSV row: `CNPJ` and `RAZÃO SOCIAL`. */
  datatype ExtraRow = ExtraRow(cnpj: Option<string>, razao: Option<string>)

  /** One output record. */
  datatype Supplier = Supplier(cpfCnpj: string, nome: string, dataCadastro: string, tipo: string)

  function OrDefault(s: string, default: string): string {
    if s == "" then default else s
  }

  function NormalizeExcel(r: ExcelRow): Supplier {
    Supplier(CleanId(Text(r.cpfCnpj)), Trim(Text(r.nome)),
      OrDefault(Trim(Text(r.data)), "0"), OrDefault(Trim(Text(r.tipo)), "null"))
  }

  function NormalizeExtra(r: ExtraRow): Supplier {
    Supplier(CleanId(Text(r.cnpj)), Trim(Text(r.razao)), "0", "null")
  }

  /** `[...listaExcelProcessada, ...listaCSVProcessada]`. */
  function Merge(excel: seq<ExcelRow>, extra: seq<ExtraRow>): (r: seq<Supplier>)
    ensures |r| == |excel| + |extra|
    ensures forall i :: 0 <= i < |excel| ==> r[i] == NormalizeExcel(excel[i])
    ensures forall j :: 0 <= j < |extra| ==> r[|excel| + j] == NormalizeExtra(extra[j])
  {
    seq(|excel|, i requires 0 <= i < |excel| => NormalizeExcel(excel[i]))
      + seq(|extra|, j requires 0 <= j < |extra| => NormalizeExtra(extra[j]))
  }

  // ----------------------------------------------------- merge lemmas

  /** Letters and digits are kept, in order, and cleaning twice changes nothing. */
  lemma {:induction false} CleanIdOfClean(s: string)
    requires forall i :: 0 <= i < |s| ==> IsAsciiAlnum(s[i])
    ensures CleanId(s) == s
    decreases |s|
  {
    if |s| > 0 {
      CleanIdOfClean(s[1..]);
    }
  }

  lemma CleanIdIdempotent(s: string)
    ensures CleanId(CleanId(s)) == CleanId(s)
  {
    CleanIdOfClean(CleanId(s));
  }

  /** Cleaning keeps every digit: the digits of a cleaned id are those of the raw one. */
  lemma {:induction false} CleanIdKeepsDigits(s: string)
    ensures OnlyDigits(CleanId(s)) == OnlyDigits(s)
    decreases |s|
  {
    if |s| > 0 {
      CleanIdKeepsDigits(s[1..]);
      var head := if IsAsciiAlnum(s[0]) then [s[0]] else [];
      OnlyDigitsAppend(head, CleanId(s[1..]));
      if IsAsciiAlnum(s[0]) {
        assert OnlyDigits(head) == if IsDigit(s[0]) then [s[0]] else [];
      } else {
        assert OnlyDigits(head) == [];
      }
    }
  }

  /** An empty (after trimming) registration date becomes "0" and type "null"; otherwise the trimmed text. */
  lemma ExcelDefaults(r: ExcelRow)
    ensures Trim(Text(r.data)) == "" ==> NormalizeExcel(r).dataCadastro == "0"
    ensures Trim(Text(r.data)) != "" ==> NormalizeExcel(r).dataCadastro == Trim(Text(r.data))
    ensures Trim(Text(r.tipo)) == "" ==> NormalizeExcel(r).tipo == "null"
    ensures Trim(Text(r.tipo)) != "" ==> NormalizeExcel(r).tipo == Trim(Text(r.tipo))
  {
  }

  /** A well-formed output record: an id of letters and digits, and date and type never blank. */
  predicate WellFormed(s: Supplier) {
    (forall i :: 0 <= i < |s.cpfCnpj| ==> IsAsciiAlnum(s.cpfCnpj[i]))
    && s.dataCadastro != "" && s.tipo != ""
    && !IsJsSpace(s.dataCadastro[0]) && !IsJsSpace(s.tipo[0])
  }

  lemma ExcelWellFormed(r: ExcelRow)
    ensures WellFormed(NormalizeExcel(r))
  {
    var s := NormalizeExcel(r);
    Filled(Trim(Text(r.data)), "0");
    Filled(Trim(Text(r.tipo)), "null");
    assert s.dataCadastro == OrDefault(Trim(Text(r.data)), "0");
    assert s.tipo == OrDefault(Trim(Text(r.tipo)), "null");
  }

  /** A trimmed value or its default is never blank. */
  lemma Filled(s: string, default: string)
    requires s == [] || !IsJsSpace(s[0])
    requires default != [] && !IsJsSpace(default[0])
    ensures OrDefault(s, default) != [] && !IsJsSpace(OrDefault(s, default)[0])
  {
  }

  lemma ExtraWellFormed(r: ExtraRow)
    ensures WellFormed(NormalizeExtra(r))
  {
  }

  /**
   * Every merged record is well formed; the spreadsheet rows come first and
   * the complementary rows after them, each group in its input order.
   */
  lemma MergeWellFormed(excel: seq<ExcelRow>, extra: seq<ExtraRow>)
    ensures forall k :: 0 <= k < |Merge(excel, extra)| ==> WellFormed(Merge(excel, extra)[k])
  {
    var r := Merge(excel, extra);
    forall k | 0 <= k < |r| ensures WellFormed(r[k]) {
      if k < |excel| {
        ExcelWellFormed(excel[k]);
      } else {
        ExtraWellFormed(extra[k - |excel|]);
      }
    }
  }

  /** The merge is the normalised spreadsheet rows followed by the normalised complementary rows. */
  lemma MergeSplits(excel: seq<ExcelRow>, extra: seq<ExtraRow>)
    ensures Merge(excel, extra) == Merge(excel, []) + Merge([], extra)
  {
  }
}
