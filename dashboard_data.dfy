/**
 * The request dashboard's rows: the derived date fields added to every
 * spreadsheet row (`processRawData`) and the filter bar (`applyFilters`),
 * which keeps the rows inside a period of analysis dates and matching the
 * analyst, situation and state chosen ("all" matches every row).
 */
module DashboardData {
  import opened Wrappers
  import opened Calendar
  import opened DashboardDates

  /** One spreadsheet row: the columns the dashboard reads; a missing column is None. */
  datatype RawRow = RawRow(
    solicitacao: Option<string>,   // "Data Solicitacao"
    analise: Option<string>,       // "Data Análise"
    analista: Option<string>,      // "Usuario Analista"
    situacao: Option<string>,      // "Situação Solicitação"
    uf: Option<string>)            // "Codigo Uf"

  /** A row with its derived fields. */
  datatype Row = Row(
    raw: RawRow,
    dataSolicitacao: Option<Instant>,
    dataAnalise: Option<Instant>,
    tempoAnalise: Option<int>,
    mesAnoAnalise: Option<string>,
    diaAnalise: Option<string>)

  function ProcessRow(r: RawRow): Row {
    var ds := SafeParseDate(r.solicitacao);
    var da := SafeParseDate(r.analise);
    Row(r, ds, da,
      if ds.Some? && da.Some? then DifferenceInDays(da, ds) else None,
      if da.Some? then Some(MonthKey(da.value.day)) else None,
      if da.Some? then Some(FormatDate(StartOfDay(da), IsoDay)) else None)
  }

  /** `processRawData`: every row is kept, in order, with its derived fields. */
  function ProcessRawData(data: seq<RawRow>): (rows: seq<Row>)
    ensures |rows| == |data|
    ensures forall i :: 0 <= i < |data| ==> rows[i] == ProcessRow(data[i])
  {
    seq(|data|, i requires 0 <= i < |data| => ProcessRow(data[i]))
  }

  /**
   * The analysis time is known exactly when both dates were read, and is the
   * number of days from the request to the analysis; the month key and the
   * day key are known exactly when the analysis date was read, and the day key
   * reads back as the start of that day.
   */
  lemma ProcessRowFields(r: RawRow)
    ensures var p := ProcessRow(r);
      && p.raw == r
      && (p.tempoAnalise.Some? <==> p.dataSolicitacao.Some? && p.dataAnalise.Some?)
      && (p.tempoAnalise.Some? ==>
            DayNumber(p.dataAnalise.value.day) == DayNumber(p.dataSolicitacao.value.day) + p.tempoAnalise.value)
      && (p.mesAnoAnalise.Some? <==> p.dataAnalise.Some?)
      && (p.diaAnalise.Some? <==> p.dataAnalise.Some?)
      && (p.dataAnalise.Some? && p.dataAnalise.value.day.year >= 100 ==>
            SafeParseDate(p.diaAnalise) == StartOfDay(p.dataAnalise))
  {
    var p := ProcessRow(r);
    if p.dataAnalise.Some? && p.dataAnalise.value.day.year >= 100 {
      var s := StartOfDay(p.dataAnalise).value;
      IsoRoundTrip(s);
      assert StartOfDay(Some(s)) == StartOfDay(p.dataAnalise);
    }
  }

  // ---------------------------------------------------------------- filters

  /** The filter bar: a period of analysis days (either end may be open) and three choices. */
  datatype Criteria = Criteria(
    start: Option<Instant>,
    end: Option<Instant>,
    analyst: string,
    situation: string,
    uf: string)

  /** The filter values as the application reads them from its inputs. */
  function CriteriaOf(startInput: string, endInput: string, analyst: string, situation: string, uf: string): Criteria {
    Criteria(
      if startInput != "" then StartOfDay(SafeParseDate(Some(startInput))) else None,
      if endInput != "" then StartOfDay(SafeParseDate(Some(endInput))) else None,
      analyst, situation, uf)
  }

  /**
   * The date test: a row without an analysis date passes only while no date
   * bound is active; otherwise start <= day < the day after the end.
   */
  predicate DateMatch(row: Row, c: Criteria) {
    var a := StartOfDay(row.dataAnalise);
    if a.None? then c.start.None? && c.end.None?
    else
      (c.start.None? || DayNumber(c.start.value.day) <= DayNumber(a.value.day))
      && (c.end.None? || DayNumber(a.value.day) < DayNumber(c.end.value.day) + 1)
  }

  /** `choice === "all" || row[column] === choice`. */
  predicate ChoiceMatch(choice: string, field: Option<string>) {
    choice == "all" || field == Some(choice)
  }

  predicate RowMatches(row: Row, c: Criteria) {
    DateMatch(row, c)
    && ChoiceMatch(c.analyst, row.raw.analista)
    && ChoiceMatch(c.situation, row.raw.situacao)
    && ChoiceMatch(c.uf, row.raw.uf)
  }

  /** `allData.filter(...)`: the matching rows, in their order. */
  function FilterRows(rows: seq<Row>, c: Criteria): (r: seq<Row>)
    ensures |r| <= |rows|
    ensures forall x :: x in r <==> x in rows && RowMatches(x, c)
    decreases |rows|
  {
    if |rows| == 0 then []
    else
      var rest := FilterRows(rows[..|rows| - 1], c);
      var x := rows[|rows| - 1];
      assert rows == rows[..|rows| - 1] + [x];
      if RowMatches(x, c) then rest + [x] else rest
  }

  /** The dashboard's state: every loaded row, and the rows the filters let through. */
  class Dashboard {
    var allData: seq<Row>
    var filteredData: seq<Row>

    constructor ()
      ensures allData == [] && filteredData == []
    {
      allData := [];
      filteredData := [];
    }

    /** Loading the consolidated rows: everything is shown until a filter changes. */
    method Load(data: seq<RawRow>)
      modifies this
      ensures allData == ProcessRawData(data) && filteredData == allData
    {
      allData := ProcessRawData(data);
      filteredData := allData;
    }

    /** `applyFilters`. */
    method ApplyFilters(startInput: string, endInput: string, analyst: string, situation: string, uf: string)
      modifies this
      ensures allData == old(allData)
      ensures filteredData == FilterRows(allData, CriteriaOf(startInput, endInput, analyst, situation, uf))
    {
      filteredData := FilterRows(allData, CriteriaOf(startInput, endInput, analyst, situation, uf));
    }
  }

  // ---------------------------------------------------------------- lemmas

  /** A row without an analysis date passes the date test exactly when no bound is set. */
  lemma UndatedRow(row: Row, c: Criteria)
    requires row.dataAnalise.None?
    ensures DateMatch(row, c) <==> c.start.None? && c.end.None?
  {
  }

  /** A dated row passes exactly when its day lies in the period, both ends included. */
  lemma DatedRow(row: Row, c: Criteria)
    requires row.dataAnalise.Some?
    ensures DateMatch(row, c) <==>
      (c.start.None? || DayNumber(c.start.value.day) <= DayNumber(row.dataAnalise.value.day))
      && (c.end.None? || DayNumber(row.dataAnalise.value.day) <= DayNumber(c.end.value.day))
  {
  }

  /** With no date bound and "all" everywhere, every row is shown. */
  lemma {:induction false} NoFilterKeepsAll(rows: seq<Row>, c: Criteria)
    requires c.start.None? && c.end.None?
    requires c.analyst == "all" && c.situation == "all" && c.uf == "all"
    ensures FilterRows(rows, c) == rows
    decreases |rows|
  {
    if |rows| > 0 {
      NoFilterKeepsAll(rows[..|rows| - 1], c);
      assert rows == rows[..|rows| - 1] + [rows[|rows| - 1]];
    }
  }

  /** Filtering the filtered rows again changes nothing. */
  lemma {:induction false} FilterIdempotent(rows: seq<Row>, c: Criteria)
    ensures FilterRows(FilterRows(rows, c), c) == FilterRows(rows, c)
    decreases |rows|
  {
    if |rows| > 0 {
      var init := rows[..|rows| - 1];
      var x := rows[|rows| - 1];
      FilterIdempotent(init, c);
      if RowMatches(x, c) {
        var r := FilterRows(init, c) + [x];
        assert r[..|r| - 1] == FilterRows(init, c);
      }
    }
  }
}
