/**
 * The financial and time summary of a contract family (`calcularResumoContrato`):
 * a root contract together with every record whose `parentId` names it.
 */
module ContractSummary {
  import opened Wrappers
  import opened Calendar
  import opened ContractModel

  datatype Summary = Summary(
    totalPago: real,
    valorTotal: real,
    valorRestante: real,
    diasTotais: int,
    diasPassadosNum: int,
    diasRestantesNum: int,
    percValor: real,
    percTempo: real,
    dataFimFinal: Date)

  /** The aggregate end date is not a valid date; `toISOString` throws. */
  datatype SummaryError = InvalidEndDate

  /** What one record adds to the family value: value and term amendments add their `valorTotal`. */
  function ValueDelta(c: Contract): real {
    if HasKind(c, Valor) || HasKind(c, Prazo) then c.data.valorTotal else 0.0
  }

  /** The running family value after visiting `cs`, starting from `base`. */
  function AggValue(base: real, cs: seq<Contract>): real
    decreases |cs|
  {
    if |cs| == 0 then base else AggValue(base, cs[..|cs| - 1]) + ValueDelta(cs[|cs| - 1])
  }

  /**
   * One step of the end-date scan: a term amendment whose end date is later
   * replaces the running end. An unreadable date on either side compares false.
   */
  function ExtendEnd(cur: Option<Date>, c: Contract): (r: Option<Date>)
    ensures r == cur || (HasKind(c, Prazo) && r == c.data.dataFim)
  {
    if HasKind(c, Prazo) && c.data.dataFim.Some? && cur.Some?
       && DayNumber(c.data.dataFim.value) > DayNumber(cur.value)
    then c.data.dataFim
    else cur
  }

  function AggEnd(base: Option<Date>, cs: seq<Contract>): Option<Date>
    decreases |cs|
  {
    if |cs| == 0 then base else ExtendEnd(AggEnd(base, cs[..|cs| - 1]), cs[|cs| - 1])
  }

  /** Σ over the records of the payments each holds. */
  function FamilyPaid(cs: seq<Contract>): real
    decreases |cs|
  {
    if |cs| == 0 then 0.0 else FamilyPaid(cs[..|cs| - 1]) + PaymentsTotal(cs[|cs| - 1].pagamentos)
  }

  /** Total days, days elapsed and days left for a validity period seen on `today`. */
  function DayCounts(start: Option<Date>, end: Date, today: Date): (int, int, int) {
    if start.None? then (0, 0, 0)
    else
      var totais := DayNumber(end) - DayNumber(start.value) + 1;
      if DayNumber(today) < DayNumber(start.value) then (totais, 0, totais)
      else if DayNumber(today) > DayNumber(end) then (totais, totais, 0)
      else
        var passados := DayNumber(today) - DayNumber(start.value) + 1;
        (totais, passados, totais - passados)
  }

  function Min100(x: real): real { if x < 100.0 then x else 100.0 }

  function Percent(part: real, whole: real): real {
    if whole > 0.0 then Min100(part / whole * 100.0) else 0.0
  }

  /** The summary of the family of `root` in `store`, seen on `today`. */
  function SummaryOf(store: seq<Contract>, root: Contract, today: Date): Result<Summary, SummaryError> {
    var todos := Family(store, root);
    SummaryFrom(root.data.dataInicio, AggValue(root.data.valorTotal, todos),
                AggEnd(root.data.dataFim, todos), FamilyPaid(todos), today)
  }

  /** The summary built from the family totals: value, end date and payments. */
  function SummaryFrom(start: Option<Date>, valor: real, fim: Option<Date>, pago: real, today: Date)
    : Result<Summary, SummaryError>
  {
    if fim.None? then Err(InvalidEndDate)
    else
      var (totais, passados, restantes) := DayCounts(start, fim.value, today);
      Ok(Summary(pago, valor, valor - pago, totais, passados, restantes,
                 Percent(pago, valor), Percent(passados as real, totais as real), fim.value))
  }

  /** The payment `reduce` of one record. */
  method SumPayments(ps: seq<Payment>) returns (sum: real)
    ensures sum == PaymentsTotal(ps)
  {
    sum := 0.0;
    var j := 0;
    while j < |ps|
      invariant 0 <= j <= |ps|
      invariant sum == PaymentsTotal(ps[..j])
    {
      assert ps[..j + 1][..j] == ps[..j];
      sum := sum + ps[j].info.valorPago;
      j := j + 1;
    }
    assert ps[..j] == ps;
  }

  /** The `forEach` over the family: value, end date and payments in one pass. */
  method ScanFamily(todos: seq<Contract>, baseValue: real, baseEnd: Option<Date>)
    returns (valor: real, fim: Option<Date>, pago: real)
    ensures valor == AggValue(baseValue, todos)
    ensures fim == AggEnd(baseEnd, todos)
    ensures pago == FamilyPaid(todos)
  {
    valor, fim, pago := baseValue, baseEnd, 0.0;
    var i := 0;
    while i < |todos|
      invariant 0 <= i <= |todos|
      invariant valor == AggValue(baseValue, todos[..i])
      invariant fim == AggEnd(baseEnd, todos[..i])
      invariant pago == FamilyPaid(todos[..i])
    {
      var c := todos[i];
      ScanStep(todos, i, baseValue, baseEnd);
      var sub := SumPayments(c.pagamentos);
      pago := pago + sub;
      if c.aditivo.Some? {
        if c.aditivo.value.tipo == Valor || c.aditivo.value.tipo == Prazo {
          valor := valor + c.data.valorTotal;
        }
        if c.aditivo.value.tipo == Prazo {
          if c.data.dataFim.Some? && fim.Some? && DayNumber(c.data.dataFim.value) > DayNumber(fim.value) {
            fim := c.data.dataFim;
          }
        }
      }
      i := i + 1;
    }
    assert todos[..i] == todos;
  }

  /** One more record of the family adds its value, its end date and its payments to the totals. */
  lemma ScanStep(todos: seq<Contract>, i: int, baseValue: real, baseEnd: Option<Date>)
    requires 0 <= i < |todos|
    ensures AggValue(baseValue, todos[..i + 1]) == AggValue(baseValue, todos[..i]) + ValueDelta(todos[i])
    ensures AggEnd(baseEnd, todos[..i + 1]) == ExtendEnd(AggEnd(baseEnd, todos[..i]), todos[i])
    ensures FamilyPaid(todos[..i + 1]) == FamilyPaid(todos[..i]) + PaymentsTotal(todos[i].pagamentos)
  {
    assert todos[..i + 1][..i] == todos[..i];
  }

  /** `calcularResumoContrato`. */
  method Summarize(store: seq<Contract>, root: Contract, today: Date) returns (r: Result<Summary, SummaryError>)
    ensures r == SummaryOf(store, root, today)
  {
    var todos := Family(store, root);
    var valor, fim, pago := ScanFamily(todos, root.data.valorTotal, root.data.dataFim);
    if fim.None? {
      return Err(InvalidEndDate);
    }
    var (totais, passados, restantes) := DayCounts(root.data.dataInicio, fim.value, today);
    r := Ok(Summary(pago, valor, valor - pago, totais, passados, restantes,
                    Percent(pago, valor), Percent(passados as real, totais as real), fim.value));
  }

  // ---------------------------------------------------------------------------
  // What the summary promises.

  /** Manager/inspector and "other" amendments change neither the family value nor its end date. */
  lemma {:induction false} NonFinancialAmendmentsInert(base: real, end: Option<Date>, cs: seq<Contract>)
    requires forall k :: 0 <= k < |cs| ==> !HasKind(cs[k], Valor) && !HasKind(cs[k], Prazo)
    ensures AggValue(base, cs) == base
    ensures AggEnd(end, cs) == end
    decreases |cs|
  {
    if |cs| > 0 {
      NonFinancialAmendmentsInert(base, end, cs[..|cs| - 1]);
    }
  }

  /**
   * The aggregate end date is the latest of the starting end date and the
   * valid end dates of the term amendments, and it is one of them; an
   * unreadable starting end date stays unreadable.
   */
  lemma AggEndIsLatest(end: Option<Date>, cs: seq<Contract>)
    ensures end.None? ==> AggEnd(end, cs).None?
    ensures end.Some? ==> AggEnd(end, cs).Some? && DayNumber(AggEnd(end, cs).value) >= DayNumber(end.value)
    ensures end.Some? ==> forall k :: 0 <= k < |cs| && HasKind(cs[k], Prazo) && cs[k].data.dataFim.Some? ==>
              DayNumber(cs[k].data.dataFim.value) <= DayNumber(AggEnd(end, cs).value)
    ensures AggEnd(end, cs) == end ||
            exists k :: 0 <= k < |cs| && HasKind(cs[k], Prazo) && AggEnd(end, cs) == cs[k].data.dataFim
  {
    AggEndGrows(end, cs);
    if end.Some? {
      AggEndUpper(end, cs);
    }
    AggEndSource(end, cs);
  }

  lemma {:induction false} AggEndGrows(end: Option<Date>, cs: seq<Contract>)
    ensures end.None? ==> AggEnd(end, cs).None?
    ensures end.Some? ==> AggEnd(end, cs).Some? && DayNumber(AggEnd(end, cs).value) >= DayNumber(end.value)
    decreases |cs|
  {
    if |cs| > 0 {
      AggEndGrows(end, cs[..|cs| - 1]);
    }
  }

  lemma {:induction false} AggEndUpper(end: Option<Date>, cs: seq<Contract>)
    requires end.Some?
    ensures AggEnd(end, cs).Some?
    ensures forall k :: 0 <= k < |cs| && HasKind(cs[k], Prazo) && cs[k].data.dataFim.Some? ==>
              DayNumber(cs[k].data.dataFim.value) <= DayNumber(AggEnd(end, cs).value)
    decreases |cs|
  {
    if |cs| > 0 {
      var init := cs[..|cs| - 1];
      AggEndUpper(end, init);
      var prev := AggEnd(end, init);
      var last := cs[|cs| - 1];
      ExtendEndStep(prev, last);
      var cur := AggEnd(end, cs);
      assert cur == ExtendEnd(prev, last);
      forall k | 0 <= k < |cs| && HasKind(cs[k], Prazo) && cs[k].data.dataFim.Some?
        ensures DayNumber(cs[k].data.dataFim.value) <= DayNumber(cur.value)
      {
        if k < |init| {
          assert cs[k] == init[k];
        }
      }
    }
  }

  /** One scan step never moves a readable end date back, and it reaches a later term amendment's end. */
  lemma ExtendEndStep(cur: Option<Date>, c: Contract)
    requires cur.Some?
    ensures ExtendEnd(cur, c).Some?
    ensures DayNumber(cur.value) <= DayNumber(ExtendEnd(cur, c).value)
    ensures HasKind(c, Prazo) && c.data.dataFim.Some? ==>
              DayNumber(c.data.dataFim.value) <= DayNumber(ExtendEnd(cur, c).value)
  {
  }

  lemma {:induction false} AggEndSource(end: Option<Date>, cs: seq<Contract>)
    ensures AggEnd(end, cs) == end ||
            exists k :: 0 <= k < |cs| && HasKind(cs[k], Prazo) && AggEnd(end, cs) == cs[k].data.dataFim
    decreases |cs|
  {
    if |cs| > 0 {
      var init := cs[..|cs| - 1];
      AggEndSource(end, init);
      var prev := AggEnd(end, init);
      if AggEnd(end, cs) != prev {
        assert HasKind(cs[|cs| - 1], Prazo) && AggEnd(end, cs) == cs[|cs| - 1].data.dataFim;
      } else if prev != end {
        var k :| 0 <= k < |init| && HasKind(init[k], Prazo) && prev == init[k].data.dataFim;
        assert cs[k] == init[k];
      }
    }
  }

  /** The family value is the root value plus the value of every value or term amendment. */
  lemma {:induction false} AggValueAppend(base: real, cs: seq<Contract>, ds: seq<Contract>)
    ensures AggValue(base, cs + ds) == AggValue(AggValue(base, cs), ds)
    decreases |ds|
  {
    if |ds| == 0 {
      assert cs + ds == cs;
    } else {
      assert (cs + ds)[..|cs + ds| - 1] == cs + ds[..|ds| - 1];
      AggValueAppend(base, cs, ds[..|ds| - 1]);
    }
  }

  /** Registering one more amendment of a root raises the family value by what that amendment adds. */
  lemma NewAmendmentValue(store: seq<Contract>, root: Contract, c: Contract)
    requires c.parentId == Some(root.id)
    ensures AggValue(root.data.valorTotal, Family(store + [c], root))
         == AggValue(root.data.valorTotal, Family(store, root)) + ValueDelta(c)
  {
    assert (store + [c])[..|store + [c]| - 1] == store;
    assert Family(store + [c], root) == Family(store, root) + [c];
    AggValueAppend(root.data.valorTotal, Family(store, root), [c]);
  }

  /** The family payments are every payment of every record of the family. */
  lemma {:induction false} FamilyPaidAppend(cs: seq<Contract>, ds: seq<Contract>)
    ensures FamilyPaid(cs + ds) == FamilyPaid(cs) + FamilyPaid(ds)
    decreases |ds|
  {
    if |ds| == 0 {
      assert cs + ds == cs;
    } else {
      assert (cs + ds)[..|cs + ds| - 1] == cs + ds[..|ds| - 1];
      FamilyPaidAppend(cs, ds[..|ds| - 1]);
    }
  }

  /** Elapsed and remaining days always add up to the total, and they are clamped at both ends. */
  lemma DayCountsPartition(start: Date, end: Date, today: Date)
    ensures var (t, p, r) := DayCounts(Some(start), end, today);
      && t == DayNumber(end) - DayNumber(start) + 1
      && p + r == t
      && (DayNumber(today) < DayNumber(start) ==> p == 0)
      && (DayNumber(start) <= DayNumber(today) ==> p == DayNumber(today) - DayNumber(start) + 1 || p == t)
      && (DayNumber(today) > DayNumber(end) && DayNumber(today) >= DayNumber(start) ==> r == 0)
      && (DayNumber(start) <= DayNumber(today) <= DayNumber(end) ==> 1 <= p <= t)
  {
  }

  /** The percentages lie in [0, 100] whenever their parts are not negative. */
  lemma {:induction false} PercentBounds(part: real, whole: real)
    ensures Percent(part, whole) <= 100.0
    ensures whole <= 0.0 ==> Percent(part, whole) == 0.0
    ensures part >= 0.0 ==> Percent(part, whole) >= 0.0
    ensures whole > 0.0 && part >= whole ==> Percent(part, whole) == 100.0
  {
    if whole > 0.0 && part >= whole {
      assert part / whole >= 1.0;
    }
    if whole > 0.0 && part >= 0.0 {
      assert part / whole >= 0.0;
    }
  }

  /** The time percentage is at most 100 and never negative. */
  lemma SummaryPercentages(store: seq<Contract>, root: Contract, today: Date)
    requires SummaryOf(store, root, today).Ok?
    ensures var s := SummaryOf(store, root, today).value;
      && 0.0 <= s.percTempo <= 100.0
      && s.percValor <= 100.0
      && s.diasPassadosNum + s.diasRestantesNum == s.diasTotais
      && s.valorRestante == s.valorTotal - s.totalPago
  {
    var todos := Family(store, root);
    var fim := AggEnd(root.data.dataFim, todos);
    var s := SummaryOf(store, root, today).value;
    PercentBounds(s.totalPago, s.valorTotal);
    var (t, p, r) := DayCounts(root.data.dataInicio, fim.value, today);
    if root.data.dataInicio.Some? {
      DayCountsPartition(root.data.dataInicio.value, fim.value, today);
      if t > 0 {
        assert 0 <= p <= t;
      }
    }
    PercentBounds(p as real, t as real);
  }

  /** The summary fails exactly when the root's own end date is unreadable. */
  lemma SummaryFailsIff(store: seq<Contract>, root: Contract, today: Date)
    ensures SummaryOf(store, root, today).Err? <==> root.data.dataFim.None?
    ensures SummaryOf(store, root, today).Ok? ==>
      DayNumber(SummaryOf(store, root, today).value.dataFimFinal) >= DayNumber(root.data.dataFim.value)
  {
    AggEndIsLatest(root.data.dataFim, Family(store, root));
  }
}
