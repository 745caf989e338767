/**
 * The figures of the contract detail view (`renderizarModalVisualizar`):
 * the consolidated payment list and its order, the spending-rate analysis,
 * the per-year and per-item series, and the current manager and inspectors.
 */
module ContractView {
  import opened Wrappers
  import opened Calendar
  import opened ContractModel
  import opened ContractSummary
  import opened Sorting
  import opened GroupSum

  // ---------------------------------------------------------------------------
  // Consolidated payments.

  /** A payment together with the id of the record it was registered on (`origemContratoId`). */
  datatype TaggedPayment = TaggedPayment(origem: string, p: Payment)

  function Tag(origem: string, ps: seq<Payment>): (r: seq<TaggedPayment>)
    ensures |r| == |ps|
    ensures forall k :: 0 <= k < |r| ==> r[k] == TaggedPayment(origem, ps[k])
  {
    seq(|ps|, k requires 0 <= k < |ps| => TaggedPayment(origem, ps[k]))
  }

  /** The root's payments, then each amendment's payments, each tagged with its record. */
  function Consolidate(cs: seq<Contract>): seq<TaggedPayment>
    decreases |cs|
  {
    if |cs| == 0 then [] else Consolidate(cs[..|cs| - 1]) + Tag(cs[|cs| - 1].id, cs[|cs| - 1].pagamentos)
  }

  function ConsolidatedPayments(store: seq<Contract>, root: Contract): seq<TaggedPayment> {
    Consolidate(Family(store, root))
  }

  function TaggedTotal(ts: seq<TaggedPayment>): real
    decreases |ts|
  {
    if |ts| == 0 then 0.0 else TaggedTotal(ts[..|ts| - 1]) + ts[|ts| - 1].p.info.valorPago
  }

  lemma {:induction false} TaggedTotalAppend(a: seq<TaggedPayment>, b: seq<TaggedPayment>)
    ensures TaggedTotal(a + b) == TaggedTotal(a) + TaggedTotal(b)
    decreases |b|
  {
    if |b| == 0 {
      assert a + b == a;
    } else {
      assert (a + b)[..|a + b| - 1] == a + b[..|b| - 1];
      TaggedTotalAppend(a, b[..|b| - 1]);
    }
  }

  lemma {:induction false} TagTotal(origem: string, ps: seq<Payment>)
    ensures TaggedTotal(Tag(origem, ps)) == PaymentsTotal(ps)
    decreases |ps|
  {
    if |ps| > 0 {
      var init := ps[..|ps| - 1];
      TagTotal(origem, init);
      assert Tag(origem, ps)[..|ps| - 1] == Tag(origem, init);
    }
  }

  /** The consolidated list holds exactly the payments the summary adds up. */
  lemma {:induction false} ConsolidatedTotal(cs: seq<Contract>)
    ensures TaggedTotal(Consolidate(cs)) == FamilyPaid(cs)
    decreases |cs|
  {
    if |cs| > 0 {
      var last := cs[|cs| - 1];
      ConsolidatedTotal(cs[..|cs| - 1]);
      TaggedTotalAppend(Consolidate(cs[..|cs| - 1]), Tag(last.id, last.pagamentos));
      TagTotal(last.id, last.pagamentos);
    }
  }

  /** Every consolidated entry is a payment of the record its tag names, and every payment is listed. */
  lemma {:induction false} ConsolidatedOrigin(cs: seq<Contract>)
    ensures forall t :: t in Consolidate(cs) ==>
      exists c :: c in cs && c.id == t.origem && t.p in c.pagamentos
    ensures forall c, q :: c in cs && q in c.pagamentos ==> TaggedPayment(c.id, q) in Consolidate(cs)
    decreases |cs|
  {
    if |cs| > 0 {
      var init := cs[..|cs| - 1];
      var last := cs[|cs| - 1];
      ConsolidatedOrigin(init);
      assert cs == init + [last];
      forall t | t in Consolidate(cs)
        ensures exists c :: c in cs && c.id == t.origem && t.p in c.pagamentos
      {
        if t in Consolidate(init) {
          var c :| c in init && c.id == t.origem && t.p in c.pagamentos;
          assert c in cs;
        } else {
          var k :| 0 <= k < |last.pagamentos| && Tag(last.id, last.pagamentos)[k] == t;
          assert last in cs;
        }
      }
      forall c, q | c in cs && q in c.pagamentos
        ensures TaggedPayment(c.id, q) in Consolidate(cs)
      {
        if c in init {
        } else {
          assert c == last;
          var k :| 0 <= k < |last.pagamentos| && last.pagamentos[k] == q;
          assert Tag(last.id, last.pagamentos)[k] == TaggedPayment(c.id, q);
        }
      }
    }
  }

  // ---------------------------------------------------------------------------
  // The order of the payment table.

  /**
   * The table comparator: payments with a service period start come first,
   * ordered by it; ties and payments without one are ordered by payment date.
   * The sign is what matters.
   */
  function PaymentCompare(a: TaggedPayment, b: TaggedPayment): int {
    var da := a.p.info.periodoDe;
    var db := b.p.info.periodoDe;
    if da.Some? && db.None? then -1
    else if da.None? && db.Some? then 1
    else if da.None? && db.None? then DayNumber(a.p.info.data) - DayNumber(b.p.info.data)
    else if DayNumber(da.value) == DayNumber(db.value) then DayNumber(a.p.info.data) - DayNumber(b.p.info.data)
    else DayNumber(da.value) - DayNumber(db.value)
  }

  function PaymentLe(a: TaggedPayment, b: TaggedPayment): bool {
    PaymentCompare(a, b) <= 0
  }

  /** The comparator sorts by the key (no period start?, period start, payment date). */
  function PaymentKey(t: TaggedPayment): (int, int, int) {
    var d := t.p.info.periodoDe;
    (if d.Some? then 0 else 1, if d.Some? then DayNumber(d.value) else 0, DayNumber(t.p.info.data))
  }

  predicate KeyLe(x: (int, int, int), y: (int, int, int)) {
    x.0 < y.0 || (x.0 == y.0 && (x.1 < y.1 || (x.1 == y.1 && x.2 <= y.2)))
  }

  lemma PaymentLeIsKeyOrder(a: TaggedPayment, b: TaggedPayment)
    ensures PaymentLe(a, b) <==> KeyLe(PaymentKey(a), PaymentKey(b))
  {
  }

  /** The comparator is consistent, so the table order is well defined. */
  lemma PaymentLeTotalPreorder()
    ensures TotalPreorder(PaymentLe)
  {
    forall a, b ensures PaymentLe(a, b) || PaymentLe(b, a) {
      PaymentLeIsKeyOrder(a, b);
      PaymentLeIsKeyOrder(b, a);
    }
    forall a, b, c | PaymentLe(a, b) && PaymentLe(b, c) ensures PaymentLe(a, c) {
      PaymentLeIsKeyOrder(a, b);
      PaymentLeIsKeyOrder(b, c);
      PaymentLeIsKeyOrder(a, c);
    }
  }

  function PaymentTable(ts: seq<TaggedPayment>): seq<TaggedPayment> {
    Sort(ts, PaymentLe)
  }

  /**
   * The table is a permutation of the consolidated payments, ordered by the
   * comparator; every payment with a period start precedes every payment without.
   */
  lemma PaymentTableOrdered(ts: seq<TaggedPayment>)
    ensures multiset(PaymentTable(ts)) == multiset(ts)
    ensures SortedBy(PaymentTable(ts), PaymentLe)
    ensures forall i, j :: 0 <= i < j < |PaymentTable(ts)| && PaymentTable(ts)[j].p.info.periodoDe.Some? ==>
              PaymentTable(ts)[i].p.info.periodoDe.Some?
  {
    PaymentLeTotalPreorder();
    SortSorted(ts, PaymentLe);
  }

  // ---------------------------------------------------------------------------
  // Spending rate ("burn rate").

  /** Days per month used by the analysis. */
  const DaysPerMonth: real := 30.44

  /** Day numbers of the service period ends (`periodoAte`) of the payments that have one. */
  function PeriodEnds(ts: seq<TaggedPayment>): (r: seq<int>)
    ensures |r| <= |ts|
    decreases |ts|
  {
    if |ts| == 0 then []
    else
      var rest := PeriodEnds(ts[..|ts| - 1]);
      var last := ts[|ts| - 1].p.info.periodoAte;
      if last.Some? then rest + [DayNumber(last.value)] else rest
  }

  function MinOf(s: seq<int>): (m: int)
    requires |s| > 0
    ensures m in s && forall x :: x in s ==> m <= x
  {
    if |s| == 1 then s[0]
    else
      var r := MinOf(s[1..]);
      assert s == [s[0]] + s[1..];
      if s[0] <= r then s[0] else r
  }

  function MaxOf(s: seq<int>): (m: int)
    requires |s| > 0
    ensures m in s && forall x :: x in s ==> x <= m
  {
    if |s| == 1 then s[0]
    else
      var r := MaxOf(s[1..]);
      assert s == [s[0]] + s[1..];
      if s[0] >= r then s[0] else r
  }

  /** Months covered by the payments: span of their period ends, at least one; zero without any. */
  function PaymentMonths(ts: seq<TaggedPayment>): real {
    var ends := PeriodEnds(ts);
    if |ends| == 0 then 0.0
    else
      var m := (MaxOf(ends) - MinOf(ends)) as real / DaysPerMonth;
      if m < 1.0 then 1.0 else m
  }

  datatype BurnRate = BurnRate(
    meses: real,
    gastoMedioMensal: real,
    percentDesvio: real,
    /** Days the remaining value lasts at the current rate; None is `Infinity`. */
    diasRestantesValor: Option<real>,
    alerta: bool)

  function BurnRateOf(ts: seq<TaggedPayment>, totalPago: real, estimativaMensal: real,
                      valorRestante: real, diasRestantesNum: int): BurnRate
  {
    BurnRateOver(PaymentMonths(ts), totalPago, estimativaMensal, valorRestante, diasRestantesNum)
  }

  /** The burn-rate figures for a given month count. */
  function BurnRateOver(meses: real, totalPago: real, estimativaMensal: real,
                        valorRestante: real, diasRestantesNum: int): BurnRate
  {
    var gasto := if meses > 0.0 then totalPago / meses else 0.0;
    var desvio := if estimativaMensal > 0.0 && gasto > 0.0 then (gasto / estimativaMensal - 1.0) * 100.0 else 0.0;
    var runway := if gasto > 0.0 then Some(valorRestante / gasto * DaysPerMonth) else None;
    var alerta := runway.Some? && runway.value < diasRestantesNum as real;
    BurnRate(meses, gasto, desvio, runway, alerta)
  }

  /** No dated payment means no months; otherwise at least one month and at least the span in months. */
  lemma PaymentMonthsRange(ts: seq<TaggedPayment>)
    ensures PeriodEnds(ts) == [] ==> PaymentMonths(ts) == 0.0
    ensures PeriodEnds(ts) != [] ==> PaymentMonths(ts) >= 1.0
    ensures PeriodEnds(ts) != [] ==>
      PaymentMonths(ts) * DaysPerMonth >= (MaxOf(PeriodEnds(ts)) - MinOf(PeriodEnds(ts))) as real
  {
  }

  /** The period ends are exactly those of the dated payments. */
  lemma {:induction false} PeriodEndsComplete(ts: seq<TaggedPayment>)
    ensures forall k :: 0 <= k < |ts| && ts[k].p.info.periodoAte.Some? ==>
      DayNumber(ts[k].p.info.periodoAte.value) in PeriodEnds(ts)
    ensures PeriodEnds(ts) == [] <==> forall k :: 0 <= k < |ts| ==> ts[k].p.info.periodoAte.None?
    decreases |ts|
  {
    if |ts| > 0 {
      var init := ts[..|ts| - 1];
      PeriodEndsComplete(init);
      forall k | 0 <= k < |ts| && ts[k].p.info.periodoAte.Some?
        ensures DayNumber(ts[k].p.info.periodoAte.value) in PeriodEnds(ts)
      {
        if k < |init| {
          assert init[k] == ts[k];
        }
      }
      if PeriodEnds(ts) == [] {
        forall k | 0 <= k < |ts| ensures ts[k].p.info.periodoAte.None? {
          if k < |init| {
            assert init[k] == ts[k];
          }
        }
      }
      if forall k :: 0 <= k < |ts| ==> ts[k].p.info.periodoAte.None? {
        forall k | 0 <= k < |init| ensures init[k].p.info.periodoAte.None? {
          assert init[k] == ts[k];
        }
      }
    }
  }

  /** Every period end comes from a dated payment, and every dated payment gives one. */
  lemma {:induction false} PeriodEndsMembers(ts: seq<TaggedPayment>)
    ensures forall x :: x in PeriodEnds(ts) <==>
      exists t :: t in ts && t.p.info.periodoAte.Some? && DayNumber(t.p.info.periodoAte.value) == x
    decreases |ts|
  {
    if |ts| > 0 {
      var init, last := ts[..|ts| - 1], ts[|ts| - 1];
      PeriodEndsMembers(init);
      assert ts == init + [last];
      forall x | x in PeriodEnds(ts) ensures
        exists t :: t in ts && t.p.info.periodoAte.Some? && DayNumber(t.p.info.periodoAte.value) == x
      {
        if x in PeriodEnds(init) {
          var t :| t in init && t.p.info.periodoAte.Some? && DayNumber(t.p.info.periodoAte.value) == x;
          assert t in ts;
        } else {
          assert last in ts;
        }
      }
      forall x, t | t in ts && t.p.info.periodoAte.Some? && DayNumber(t.p.info.periodoAte.value) == x
        ensures x in PeriodEnds(ts)
      {
        if t != last {
          assert t in init;
        }
      }
    }
  }

  lemma MinMaxMembersOnly(s: seq<int>, u: seq<int>)
    requires |s| > 0 && |u| > 0 && forall x :: x in s <==> x in u
    ensures MinOf(s) == MinOf(u) && MaxOf(s) == MaxOf(u)
  {
    assert MinOf(s) in u && MinOf(u) in s;
    assert MaxOf(s) in u && MaxOf(u) in s;
  }

  /** The month count depends only on which payments there are, not on their order. */
  lemma PaymentMonthsOrderFree(ts: seq<TaggedPayment>, us: seq<TaggedPayment>)
    requires multiset(ts) == multiset(us)
    ensures PaymentMonths(ts) == PaymentMonths(us)
  {
    PeriodEndsMembers(ts);
    PeriodEndsMembers(us);
    forall t ensures t in ts <==> t in us {
      assert t in ts <==> t in multiset(ts);
      assert t in us <==> t in multiset(us);
    }
    var a, b := PeriodEnds(ts), PeriodEnds(us);
    assert forall x :: x in a <==> x in b;
    if |a| > 0 {
      assert a[0] in b;
      MinMaxMembersOnly(a, b);
    }
  }

  /**
   * The alert is raised exactly when money is being spent and the remaining
   * value, spent at the current monthly rate, runs out before the remaining days.
   */
  lemma BurnRateAlert(ts: seq<TaggedPayment>, totalPago: real, estimativaMensal: real,
                      valorRestante: real, diasRestantesNum: int)
    ensures var b := BurnRateOf(ts, totalPago, estimativaMensal, valorRestante, diasRestantesNum);
      b.alerta <==> (b.gastoMedioMensal > 0.0 &&
        valorRestante * DaysPerMonth < diasRestantesNum as real * b.gastoMedioMensal)
  {
    BurnRateOverAlert(PaymentMonths(ts), totalPago, estimativaMensal, valorRestante, diasRestantesNum);
  }

  lemma BurnRateOverAlert(meses: real, totalPago: real, estimativaMensal: real,
                          valorRestante: real, diasRestantesNum: int)
    ensures var b := BurnRateOver(meses, totalPago, estimativaMensal, valorRestante, diasRestantesNum);
      b.alerta <==> (b.gastoMedioMensal > 0.0 &&
        valorRestante * DaysPerMonth < diasRestantesNum as real * b.gastoMedioMensal)
  {
    var b := BurnRateOver(meses, totalPago, estimativaMensal, valorRestante, diasRestantesNum);
    var g := b.gastoMedioMensal;
    if g > 0.0 {
      RunwayCompare(valorRestante, g, diasRestantesNum as real);
    }
  }

  /** Comparing a runway in days with the days left, cleared of the division. */
  lemma RunwayCompare(v: real, g: real, n: real)
    requires g > 0.0
    ensures v / g * DaysPerMonth < n <==> v * DaysPerMonth < n * g
  {
    var q := v / g;
    assert q * g == v;
    assert q * DaysPerMonth * g == v * DaysPerMonth;
    if q * DaysPerMonth < n {
      assert q * DaysPerMonth * g < n * g;
    } else {
      assert q * DaysPerMonth * g >= n * g;
    }
  }

  /** The monthly rate never exceeds what was paid, and it is zero without a dated payment. */
  lemma BurnRateBounds(ts: seq<TaggedPayment>, totalPago: real, estimativaMensal: real,
                       valorRestante: real, diasRestantesNum: int)
    requires totalPago >= 0.0
    ensures var b := BurnRateOf(ts, totalPago, estimativaMensal, valorRestante, diasRestantesNum);
      && 0.0 <= b.gastoMedioMensal <= totalPago
      && (PeriodEnds(ts) == [] ==> b.gastoMedioMensal == 0.0 && b.diasRestantesValor.None? && !b.alerta)
      && (PeriodEnds(ts) != [] && totalPago > 0.0 ==> b.gastoMedioMensal > 0.0 && b.diasRestantesValor.Some?)
  {
    var m := PaymentMonths(ts);
    PaymentMonthsRange(ts);
    if m > 0.0 {
      RateAtMostTotal(totalPago, m);
    }
  }

  lemma RateAtMostTotal(total: real, months: real)
    requires total >= 0.0 && months >= 1.0
    ensures 0.0 <= total / months <= total
    ensures total > 0.0 ==> total / months > 0.0
  {
    assert total / months * months == total;
    assert total <= total * months;
  }

  /** The deviation from the monthly estimate is positive exactly when the rate exceeds the estimate. */
  lemma BurnRateDeviation(ts: seq<TaggedPayment>, totalPago: real, estimativaMensal: real,
                          valorRestante: real, diasRestantesNum: int)
    requires estimativaMensal > 0.0
    ensures var b := BurnRateOf(ts, totalPago, estimativaMensal, valorRestante, diasRestantesNum);
      b.gastoMedioMensal > 0.0 ==> (b.percentDesvio > 0.0 <==> b.gastoMedioMensal > estimativaMensal)
  {
    var b := BurnRateOf(ts, totalPago, estimativaMensal, valorRestante, diasRestantesNum);
    if b.gastoMedioMensal > 0.0 {
      DeviationSign(b.gastoMedioMensal, estimativaMensal);
    }
  }

  /**
   * The burn-rate panel of the detail view: the payment table of the family
   * and the totals, remaining value and remaining days of its summary. A
   * summary that fails (an unreadable end date) leaves no panel.
   */
  function DetailBurnRate(store: seq<Contract>, root: Contract, today: Date): (r: Option<BurnRate>)
    ensures r.Some? <==> SummaryOf(store, root, today).Ok?
  {
    match SummaryOf(store, root, today)
    case Err(_) => None
    case Ok(s) =>
      Some(BurnRateOf(PaymentTable(ConsolidatedPayments(store, root)), s.totalPago,
                      root.data.estimativaMensal, s.valorRestante, s.diasRestantesNum))
  }

  /**
   * Read from the summary, the monthly spend spreads exactly the money of the
   * payment table over the payment months, and a contract whose period is
   * over and whose value is not overspent raises no alert.
   */
  lemma DetailBurnRateOfSummary(store: seq<Contract>, root: Contract, today: Date)
    requires SummaryOf(store, root, today).Ok?
    ensures var s := SummaryOf(store, root, today).value;
      var b := DetailBurnRate(store, root, today).value;
      && b.meses == PaymentMonths(ConsolidatedPayments(store, root))
      && (b.meses > 0.0 ==> b.gastoMedioMensal == TaggedTotal(ConsolidatedPayments(store, root)) / b.meses)
      && (b.meses == 0.0 ==> b.gastoMedioMensal == 0.0 && !b.alerta)
      && (s.diasRestantesNum == 0 && s.valorRestante >= 0.0 ==> !b.alerta)
  {
    var s := SummaryOf(store, root, today).value;
    var cs := ConsolidatedPayments(store, root);
    var ts := PaymentTable(cs);
    var b := BurnRateOf(ts, s.totalPago, root.data.estimativaMensal, s.valorRestante, s.diasRestantesNum);
    assert DetailBurnRate(store, root, today) == Some(b);
    PaymentTableOrdered(cs);
    PaymentMonthsOrderFree(ts, cs);
    assert s.totalPago == FamilyPaid(Family(store, root));
    ConsolidatedTotal(Family(store, root));
    assert TaggedTotal(cs) == s.totalPago;
    BurnRateSpread(ts, s.totalPago, root.data.estimativaMensal, s.valorRestante, s.diasRestantesNum);
  }

  /** The spend spreads the total over the months; a runway of at least 0 days never beats 0 days left. */
  lemma BurnRateSpread(ts: seq<TaggedPayment>, totalPago: real, estimativaMensal: real,
                       valorRestante: real, diasRestantesNum: int)
    ensures var b := BurnRateOf(ts, totalPago, estimativaMensal, valorRestante, diasRestantesNum);
      && (b.meses > 0.0 ==> b.gastoMedioMensal * b.meses == totalPago)
      && (b.meses == 0.0 ==> b.gastoMedioMensal == 0.0 && !b.alerta)
      && (diasRestantesNum == 0 && valorRestante >= 0.0 ==> !b.alerta)
  {
    var b := BurnRateOf(ts, totalPago, estimativaMensal, valorRestante, diasRestantesNum);
    if b.gastoMedioMensal > 0.0 && valorRestante >= 0.0 {
      assert valorRestante / b.gastoMedioMensal >= 0.0;
    }
  }

  lemma DeviationSign(g: real, e: real)
    requires g > 0.0 && e > 0.0
    ensures (g / e - 1.0) * 100.0 > 0.0 <==> g > e
  {
    assert g / e * e == g;
  }

  // ---------------------------------------------------------------------------
  // Per-year and per-item series.

  /** A payment counts for the year of its period end when it has one and a positive value. */
  function YearContrib(t: TaggedPayment): seq<Contrib<int>> {
    var info := t.p.info;
    if info.periodoAte.Some? && info.valorPago > 0.0 then [Contrib(info.periodoAte.value.year, info.valorPago)] else []
  }

  function YearContribs(ts: seq<TaggedPayment>): seq<Contrib<int>>
    decreases |ts|
  {
    if |ts| == 0 then [] else YearContribs(ts[..|ts| - 1]) + YearContrib(ts[|ts| - 1])
  }

  const UndescribedItem: string := "Item não descrito"

  /** A line item counts with quantity × unit value when that is positive; unreadable quantities are 0. */
  function LineContrib(it: LineItem): seq<Contrib<string>> {
    var v := it.quantidade.GetOr(0.0) * it.valorUnitario;
    if v > 0.0 then [Contrib(if it.descricao == "" then UndescribedItem else it.descricao, v)] else []
  }

  function LineContribs(items: seq<LineItem>): seq<Contrib<string>>
    decreases |items|
  {
    if |items| == 0 then [] else LineContribs(items[..|items| - 1]) + LineContrib(items[|items| - 1])
  }

  function ItemContribs(ts: seq<TaggedPayment>): seq<Contrib<string>>
    decreases |ts|
  {
    if |ts| == 0 then [] else ItemContribs(ts[..|ts| - 1]) + LineContribs(ts[|ts| - 1].p.detalhes)
  }

  /** Extending a running grouping by one contribution is grouping the longer list. */
  lemma GroupStep<K>(cs: seq<Contrib<K>>, c: Contrib<K>)
    ensures Group(cs + [c]) == Upsert(Group(cs), c)
    ensures AmountSum(cs + [c]) == AmountSum(cs) + c.amount
  {
    assert (cs + [c])[..|cs|] == cs;
  }

  /**
   * The inner `forEach` over the line items of one payment: an item whose
   * quantity × unit value is positive adds that value under its description
   * (LineContrib is that test and that value).
   */
  method AccumulateItems(before: seq<Contrib<string>>, items: seq<LineItem>,
                         porItem0: seq<Entry<string>>, total0: real)
    returns (porItem: seq<Entry<string>>, valorTotalItens: real)
    requires porItem0 == Group(before) && total0 == AmountSum(before)
    ensures porItem == Group(before + LineContribs(items))
    ensures valorTotalItens == AmountSum(before + LineContribs(items))
  {
    porItem, valorTotalItens := porItem0, total0;
    var j := 0;
    assert before + LineContribs(items[..0]) == before;
    while j < |items|
      invariant 0 <= j <= |items|
      invariant porItem == Group(before + LineContribs(items[..j]))
      invariant valorTotalItens == AmountSum(before + LineContribs(items[..j]))
    {
      var lc := LineContrib(items[j]);
      if lc != [] {
        ItemAppended(before, items, j, lc[0]);
        porItem := Upsert(porItem, lc[0]);
        valorTotalItens := valorTotalItens + lc[0].amount;
      } else {
        ItemSkipped(before, items, j);
      }
      j := j + 1;
    }
    assert items[..j] == items;
  }

  lemma ItemsStep(before: seq<Contrib<string>>, items: seq<LineItem>, j: nat)
    requires j < |items|
    ensures before + LineContribs(items[..j + 1]) == (before + LineContribs(items[..j])) + LineContrib(items[j])
  {
    assert items[..j + 1][..j] == items[..j];
  }

  lemma ItemAppended(before: seq<Contrib<string>>, items: seq<LineItem>, j: nat, c: Contrib<string>)
    requires j < |items| && LineContrib(items[j]) == [c]
    ensures Group(before + LineContribs(items[..j + 1])) == Upsert(Group(before + LineContribs(items[..j])), c)
    ensures AmountSum(before + LineContribs(items[..j + 1])) == AmountSum(before + LineContribs(items[..j])) + c.amount
  {
    ItemsStep(before, items, j);
    GroupStep(before + LineContribs(items[..j]), c);
  }

  lemma ItemSkipped(before: seq<Contrib<string>>, items: seq<LineItem>, j: nat)
    requires j < |items| && LineContrib(items[j]) == []
    ensures before + LineContribs(items[..j + 1]) == before + LineContribs(items[..j])
  {
    ItemsStep(before, items, j);
  }

  /** The single pass over the sorted payments that fills the year and item accumulators. */
  method AccumulateSeries(ts: seq<TaggedPayment>)
    returns (porAno: seq<Entry<int>>, porItem: seq<Entry<string>>, valorTotalItens: real)
    ensures porAno == Group(YearContribs(ts))
    ensures porItem == Group(ItemContribs(ts))
    ensures valorTotalItens == AmountSum(ItemContribs(ts))
  {
    porAno, porItem, valorTotalItens := [], [], 0.0;
    var i := 0;
    while i < |ts|
      invariant 0 <= i <= |ts|
      invariant porAno == Group(YearContribs(ts[..i]))
      invariant porItem == Group(ItemContribs(ts[..i]))
      invariant valorTotalItens == AmountSum(ItemContribs(ts[..i]))
    {
      var info := ts[i].p.info;
      SeriesStep(ts, i);
      if info.periodoAte.Some? && info.valorPago > 0.0 {
        YearCounted(ts, i);
        porAno := Upsert(porAno, Contrib(info.periodoAte.value.year, info.valorPago));
      } else {
        YearSkipped(ts, i);
      }
      porItem, valorTotalItens := AccumulateItems(ItemContribs(ts[..i]), ts[i].p.detalhes, porItem, valorTotalItens);
      i := i + 1;
    }
    assert ts[..i] == ts;
  }

  lemma YearCounted(ts: seq<TaggedPayment>, i: nat)
    requires i < |ts|
    requires ts[i].p.info.periodoAte.Some? && ts[i].p.info.valorPago > 0.0
    ensures Group(YearContribs(ts[..i + 1]))
      == Upsert(Group(YearContribs(ts[..i])), Contrib(ts[i].p.info.periodoAte.value.year, ts[i].p.info.valorPago))
  {
    SeriesStep(ts, i);
    GroupStep(YearContribs(ts[..i]), Contrib(ts[i].p.info.periodoAte.value.year, ts[i].p.info.valorPago));
  }

  lemma YearSkipped(ts: seq<TaggedPayment>, i: nat)
    requires i < |ts|
    requires !(ts[i].p.info.periodoAte.Some? && ts[i].p.info.valorPago > 0.0)
    ensures YearContribs(ts[..i + 1]) == YearContribs(ts[..i])
  {
    SeriesStep(ts, i);
    assert YearContribs(ts[..i]) + YearContrib(ts[i]) == YearContribs(ts[..i]);
  }

  lemma SeriesStep(ts: seq<TaggedPayment>, i: nat)
    requires i < |ts|
    ensures YearContribs(ts[..i + 1]) == YearContribs(ts[..i]) + YearContrib(ts[i])
    ensures ItemContribs(ts[..i + 1]) == ItemContribs(ts[..i]) + LineContribs(ts[i].p.detalhes)
  {
    assert ts[..i + 1][..i] == ts[..i];
  }

  function YearLe(a: Entry<int>, b: Entry<int>): bool { a.key <= b.key }

  /** `dadosAnuais`: the year entries in ascending year order. */
  function AnnualSeries(porAno: seq<Entry<int>>): seq<Entry<int>> {
    Sort(porAno, YearLe)
  }

  /** The annual series is the year totals, reordered by ascending year. */
  lemma AnnualSeriesOrdered(porAno: seq<Entry<int>>)
    ensures multiset(AnnualSeries(porAno)) == multiset(porAno)
    ensures forall i, j :: 0 <= i < j < |AnnualSeries(porAno)| ==>
      AnnualSeries(porAno)[i].key <= AnnualSeries(porAno)[j].key
  {
    SortSorted(porAno, YearLe);
  }

  datatype Share = Share(descricao: string, total: real, percentual: real)

  function Shares(porItem: seq<Entry<string>>, valorTotalItens: real): (r: seq<Share>)
    ensures |r| == |porItem|
  {
    seq(|porItem|, k requires 0 <= k < |porItem| =>
      Share(porItem[k].key, porItem[k].total,
            if valorTotalItens > 0.0 then porItem[k].total / valorTotalItens * 100.0 else 0.0))
  }

  function ShareLe(a: Share, b: Share): bool { a.total >= b.total }

  /** `dadosConsumo`: the item shares by descending total. */
  function ConsumptionSeries(porItem: seq<Entry<string>>, valorTotalItens: real): seq<Share> {
    Sort(Shares(porItem, valorTotalItens), ShareLe)
  }

  function PercentSum(ss: seq<Share>): real
    decreases |ss|
  {
    if |ss| == 0 then 0.0 else ss[0].percentual + PercentSum(ss[1..])
  }

  lemma {:induction false} PercentSumScaled(es: seq<Entry<string>>, total: real)
    requires total > 0.0
    ensures PercentSum(Shares(es, total)) == TotalSum(es) / total * 100.0
    decreases |es|
  {
    if |es| > 0 {
      PercentSumScaled(es[1..], total);
      assert Shares(es, total)[1..] == Shares(es[1..], total);
      assert Shares(es, total)[0].percentual == es[0].total / total * 100.0;
      ScaledAdd(es[0].total, TotalSum(es[1..]), total);
    }
  }

  lemma ScaledAdd(a: real, b: real, t: real)
    requires t > 0.0
    ensures a / t * 100.0 + b / t * 100.0 == (a + b) / t * 100.0
  {
  }

  lemma ScaledSelf(t: real)
    requires t > 0.0
    ensures t / t * 100.0 == 100.0
  {
  }

  /** The item shares add up to 100% whenever some line item had a positive value. */
  lemma ConsumptionSharesAddUp(ts: seq<TaggedPayment>)
    requires AmountSum(ItemContribs(ts)) > 0.0
    ensures PercentSum(Shares(Group(ItemContribs(ts)), AmountSum(ItemContribs(ts)))) == 100.0
  {
    var cs := ItemContribs(ts);
    var t := AmountSum(cs);
    GroupTotal(cs);
    PercentSumScaled(Group(cs), t);
    ScaledSelf(t);
  }

  /** The consumption series is the shares, reordered by descending total. */
  lemma ConsumptionSeriesOrdered(porItem: seq<Entry<string>>, valorTotalItens: real)
    ensures multiset(ConsumptionSeries(porItem, valorTotalItens)) == multiset(Shares(porItem, valorTotalItens))
    ensures forall i, j :: 0 <= i < j < |ConsumptionSeries(porItem, valorTotalItens)| ==>
      ConsumptionSeries(porItem, valorTotalItens)[i].total >= ConsumptionSeries(porItem, valorTotalItens)[j].total
  {
    SortSorted(Shares(porItem, valorTotalItens), ShareLe);
  }

  // ---------------------------------------------------------------------------
  // Current manager and inspectors.

  const NoManager: Person := Person("N/D", "")

  predicate ValidGestor(c: Contract) {
    HasKind(c, GestorFiscal) && c.aditivo.value.gestor.Some? && c.aditivo.value.gestor.value.nome != ""
  }

  predicate ValidFiscais(c: Contract) {
    HasKind(c, GestorFiscal) && |c.aditivo.value.fiscais| > 0
  }

  /** Amendment `k` is the newest one naming a manager. */
  predicate NewestGestor(ads: seq<Contract>, k: int) {
    0 <= k < |ads| && ValidGestor(ads[k]) && forall m :: k < m < |ads| ==> !ValidGestor(ads[m])
  }

  /** One step of the newest-first scan over the amendments. */
  function ManagerStep(state: (Person, seq<Person>), c: Contract): (Person, seq<Person>) {
    var (gestor, fiscais) := state;
    (if ValidGestor(c) && gestor.nome == "N/D" then c.aditivo.value.gestor.value else gestor,
     if ValidFiscais(c) && |fiscais| == 0 then c.aditivo.value.fiscais else fiscais)
  }

  /** The state after scanning `ads` from its last element to its first. */
  function Managers(ads: seq<Contract>): (Person, seq<Person>)
    decreases |ads|
  {
    if |ads| == 0 then (NoManager, []) else ManagerStep(Managers(ads[1..]), ads[0])
  }

  /** `[...aditivos].reverse().forEach(...)`. */
  method CurrentManagers(ads: seq<Contract>) returns (gestor: Person, fiscais: seq<Person>)
    ensures (gestor, fiscais) == Managers(ads)
  {
    gestor, fiscais := NoManager, [];
    var i := |ads|;
    while i > 0
      invariant 0 <= i <= |ads|
      invariant (gestor, fiscais) == Managers(ads[i..])
    {
      i := i - 1;
      var c := ads[i];
      assert ads[i..][1..] == ads[i + 1..];
      if c.aditivo.Some? && c.aditivo.value.tipo == GestorFiscal {
        if gestor.nome == "N/D" && c.aditivo.value.gestor.Some? && c.aditivo.value.gestor.value.nome != "" {
          gestor := c.aditivo.value.gestor.value;
        }
        if |fiscais| == 0 && |c.aditivo.value.fiscais| > 0 {
          fiscais := c.aditivo.value.fiscais;
        }
      }
    }
  }

  /**
   * The inspectors are those of the newest manager/inspector amendment that
   * lists any, or none when no such amendment does.
   */
  lemma {:induction false} FiscaisAreNewest(ads: seq<Contract>)
    ensures |Managers(ads).1| == 0 <==> forall k :: 0 <= k < |ads| ==> !ValidFiscais(ads[k])
    ensures |Managers(ads).1| > 0 ==>
      exists k :: (0 <= k < |ads| && ValidFiscais(ads[k]) && Managers(ads).1 == ads[k].aditivo.value.fiscais
        && forall m :: k < m < |ads| ==> !ValidFiscais(ads[m]))
    decreases |ads|
  {
    if |ads| > 0 {
      var tail := ads[1..];
      FiscaisAreNewest(tail);
      if |Managers(tail).1| > 0 {
        var k :| 0 <= k < |tail| && ValidFiscais(tail[k]) && Managers(tail).1 == tail[k].aditivo.value.fiscais
          && forall m :: k < m < |tail| ==> !ValidFiscais(tail[m]);
        assert ads[k + 1] == tail[k];
        forall m | k + 1 < m < |ads| ensures !ValidFiscais(ads[m]) {
          assert ads[m] == tail[m - 1];
        }
      } else {
        forall m | 0 < m < |ads| ensures !ValidFiscais(ads[m]) {
          assert ads[m] == tail[m - 1];
        }
      }
      if forall k :: 0 <= k < |ads| ==> !ValidFiscais(ads[k]) {
        forall k | 0 <= k < |tail| ensures !ValidFiscais(tail[k]) {
          assert tail[k] == ads[k + 1];
        }
      }
    }
  }

  /**
   * The manager is the default when no amendment names a valid one; it is the
   * manager of the newest amendment naming one, unless that manager is itself
   * called "N/D" (then the scan goes on to older amendments).
   */
  lemma {:induction false} GestorIsNewest(ads: seq<Contract>)
    ensures (forall k :: 0 <= k < |ads| ==> !ValidGestor(ads[k])) ==> Managers(ads).0 == NoManager
    ensures forall k :: NewestGestor(ads, k) && ads[k].aditivo.value.gestor.value.nome != "N/D" ==>
      Managers(ads).0 == ads[k].aditivo.value.gestor.value
    ensures forall k :: NewestGestor(ads, k) && ads[k].aditivo.value.gestor.value.nome == "N/D" ==>
      Managers(ads).0 == if exists j :: 0 <= j < k && ValidGestor(ads[j]) then Managers(ads[..k]).0
                         else ads[k].aditivo.value.gestor.value
    decreases |ads|
  {
    forall k | NewestGestor(ads, k) && ads[k].aditivo.value.gestor.value.nome == "N/D"
      ensures Managers(ads).0 == if exists j :: 0 <= j < k && ValidGestor(ads[j]) then Managers(ads[..k]).0
                                 else ads[k].aditivo.value.gestor.value
    {
      GestorNamedND(ads, k);
    }
    if |ads| > 0 {
      var tail := ads[1..];
      GestorIsNewest(tail);
      if forall k :: 0 <= k < |ads| ==> !ValidGestor(ads[k]) {
        forall k | 0 <= k < |tail| ensures !ValidGestor(tail[k]) {
          assert tail[k] == ads[k + 1];
        }
      }
      forall k | NewestGestor(ads, k) && ads[k].aditivo.value.gestor.value.nome != "N/D"
        ensures Managers(ads).0 == ads[k].aditivo.value.gestor.value
      {
        if k > 0 {
          assert tail[k - 1] == ads[k];
          forall m | k - 1 < m < |tail| ensures !ValidGestor(tail[m]) {
            assert tail[m] == ads[m + 1];
          }
        } else {
          forall m | 0 <= m < |tail| ensures !ValidGestor(tail[m]) {
            assert tail[m] == ads[m + 1];
          }
          assert Managers(tail).0 == NoManager;
        }
      }
    }
  }

  /** The manager half of the newest-first scan, started from any manager. */
  function GestorFrom(g: Person, ads: seq<Contract>): Person
    decreases |ads|
  {
    if |ads| == 0 then g
    else
      var h := GestorFrom(g, ads[1..]);
      if ValidGestor(ads[0]) && h.nome == "N/D" then ads[0].aditivo.value.gestor.value else h
  }

  lemma {:induction false} ManagersGestor(ads: seq<Contract>)
    ensures Managers(ads).0 == GestorFrom(NoManager, ads)
    decreases |ads|
  {
    if |ads| > 0 {
      ManagersGestor(ads[1..]);
    }
  }

  /** Scanning a list is scanning its newer part, then its older part from there. */
  lemma {:induction false} GestorFromSplit(g: Person, ads: seq<Contract>, k: int)
    requires 0 <= k <= |ads|
    ensures GestorFrom(g, ads) == GestorFrom(GestorFrom(g, ads[k..]), ads[..k])
    decreases k
  {
    if k == 0 {
      assert ads[0..] == ads;
    } else {
      GestorFromSplit(g, ads[1..], k - 1);
      assert ads[1..][k - 1..] == ads[k..];
      assert ads[..k][1..] == ads[1..][..k - 1];
    }
  }

  lemma {:induction false} GestorFromNone(g: Person, ads: seq<Contract>)
    requires forall j :: 0 <= j < |ads| ==> !ValidGestor(ads[j])
    ensures GestorFrom(g, ads) == g
    decreases |ads|
  {
    if |ads| > 0 {
      assert forall j :: 0 <= j < |ads[1..]| ==> ads[1..][j] == ads[j + 1];
      GestorFromNone(g, ads[1..]);
    }
  }

  /** Two starts both named "N/D" end alike once some record names a manager. */
  lemma {:induction false} GestorFromUnnamed(g1: Person, g2: Person, ads: seq<Contract>)
    requires g1.nome == "N/D" && g2.nome == "N/D"
    requires exists j :: 0 <= j < |ads| && ValidGestor(ads[j])
    ensures GestorFrom(g1, ads) == GestorFrom(g2, ads)
    decreases |ads|
  {
    var tail := ads[1..];
    if exists j :: 0 <= j < |tail| && ValidGestor(tail[j]) {
      GestorFromUnnamed(g1, g2, tail);
    } else {
      GestorFromNone(g1, tail);
      GestorFromNone(g2, tail);
      forall j | 1 <= j < |ads| ensures !ValidGestor(ads[j]) {
        assert ads[j] == tail[j - 1];
      }
    }
  }

  /** A newest manager who is itself named "N/D" gives way to an older named one, if any. */
  lemma GestorNamedND(ads: seq<Contract>, k: int)
    requires NewestGestor(ads, k) && ads[k].aditivo.value.gestor.value.nome == "N/D"
    ensures Managers(ads).0 == if exists j :: 0 <= j < k && ValidGestor(ads[j]) then Managers(ads[..k]).0
                               else ads[k].aditivo.value.gestor.value
  {
    var p := ads[k].aditivo.value.gestor.value;
    ManagersGestor(ads);
    ManagersGestor(ads[..k]);
    GestorFromSplit(NoManager, ads, k);
    var newer := ads[k..];
    assert newer[1..] == ads[k + 1..];
    GestorFromNone(NoManager, ads[k + 1..]);
    assert GestorFrom(NoManager, newer) == p;
    var older := ads[..k];
    if exists j :: 0 <= j < k && ValidGestor(ads[j]) {
      var j :| 0 <= j < k && ValidGestor(ads[j]);
      assert older[j] == ads[j];
      GestorFromUnnamed(p, NoManager, older);
    } else {
      GestorFromNone(p, older);
    }
  }
}
