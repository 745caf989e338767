/**
 * The home page: the greeting by hour, the contract figures it recomputes
 * from the contract store, the count of granted ("deferida") requests in the
 * message history, and the filter of the quotes list.
 */
module Home {
  import opened Wrappers
  import opened JsStrings
  import opened Calendar

  // --------------------------------------------------------------- greeting

  /** The greeting of `updateTime` for the hour of the clock. */
  function Greeting(hour: int): string {
    if 5 <= hour < 12 then "Bom dia"
    else if 12 <= hour < 18 then "Boa tarde"
    else "Boa noite"
  }

  /** Morning from 5 to 11, afternoon from 12 to 17, night otherwise; the initial "Olá" is never shown. */
  lemma GreetingByHour(hour: int)
    ensures Greeting(hour) == "Bom dia" <==> 5 <= hour < 12
    ensures Greeting(hour) == "Boa tarde" <==> 12 <= hour < 18
    ensures Greeting(hour) == "Boa noite" <==> hour < 5 || hour >= 18
    ensures Greeting(hour) != "Olá"
  {
  }

  // ------------------------------------------------------ contract figures

  /** `vigenciaFim`: missing, a date, or a text `new Date` cannot read. */
  datatype EndField = NoEnd | EndDate(date: Date) | BadEnd

  /** The fields of a stored contract the home page reads. */
  datatype StoredContract = StoredContract(
    id: int,
    parentId: Option<int>,   // None when missing (an amendment has its root's id)
    status: string,          // "" when missing
    vigenciaFim: EndField,
    valorGlobal: real,       // already parsed; 0 when missing
    pagamentos: nat)         // the number of payments; 0 when missing

  datatype ContractStats = ContractStats(ativos: nat, vencendo: nat, valorTotal: real, qtdPagamentos: nat)

  /** `!c.parentId`: a missing parent id and the falsy id 0 both mark a root. */
  predicate WithoutParent(c: StoredContract) {
    c.parentId.None? || c.parentId == Some(0)
  }

  /** `(db.contratos || []).filter(c => !c.parentId)`. */
  function Roots(cs: seq<StoredContract>): seq<StoredContract>
    decreases |cs|
  {
    if |cs| == 0 then []
    else Roots(cs[..|cs| - 1]) + (if WithoutParent(cs[|cs| - 1]) then [cs[|cs| - 1]] else [])
  }

  /** The roots are the stored contracts without a parent, and no more of them. */
  lemma {:induction false} RootsMembers(cs: seq<StoredContract>)
    ensures |Roots(cs)| <= |cs|
    ensures forall x :: x in Roots(cs) <==> x in cs && WithoutParent(x)
    decreases |cs|
  {
    if |cs| > 0 {
      var x := cs[|cs| - 1];
      RootsMembers(cs[..|cs| - 1]);
      assert cs == cs[..|cs| - 1] + [x];
    }
  }

  /** The status, defaulting to "Ativo", is neither "Vencido/Encerrado" nor "Encerrado". */
  predicate Active(c: StoredContract) {
    var status := if c.status == "" then "Ativo" else c.status;
    status != "Vencido/Encerrado" && status != "Encerrado"
  }

  /** Days from today to the end of the term: 100 when there is no end, None (NaN) when it cannot be read. */
  function DaysLeft(c: StoredContract, today: Date): Option<int> {
    match c.vigenciaFim
    case NoEnd => Some(100)
    case EndDate(d) => Some(DayNumber(d) - DayNumber(today))
    case BadEnd => None
  }

  predicate Expiring(c: StoredContract, today: Date) {
    var left := DaysLeft(c, today);
    left.Some? && left.value < 90 && left.value >= 0
  }

  function CountActive(rs: seq<StoredContract>): nat
    decreases |rs|
  {
    if |rs| == 0 then 0 else CountActive(rs[..|rs| - 1]) + (if Active(rs[|rs| - 1]) then 1 else 0)
  }

  function CountExpiring(rs: seq<StoredContract>, today: Date): nat
    decreases |rs|
  {
    if |rs| == 0 then 0
    else
      var c := rs[|rs| - 1];
      CountExpiring(rs[..|rs| - 1], today) + (if Active(c) && Expiring(c, today) then 1 else 0)
  }

  function ActiveValue(rs: seq<StoredContract>): real
    decreases |rs|
  {
    if |rs| == 0 then 0.0
    else
      var c := rs[|rs| - 1];
      ActiveValue(rs[..|rs| - 1]) + (if Active(c) then c.valorGlobal else 0.0)
  }

  /** `item.id === id || item.parentId === id`: a root and its amendments. */
  function Family(cs: seq<StoredContract>, id: int): seq<StoredContract>
    decreases |cs|
  {
    if |cs| == 0 then []
    else
      var x := cs[|cs| - 1];
      Family(cs[..|cs| - 1], id) + (if x.id == id || x.parentId == Some(id) then [x] else [])
  }

  /** A family holds exactly the contract with that id and the contracts whose parent it is. */
  lemma {:induction false} FamilyMembers(cs: seq<StoredContract>, id: int)
    ensures forall x :: x in Family(cs, id) <==> x in cs && (x.id == id || x.parentId == Some(id))
    decreases |cs|
  {
    if |cs| > 0 {
      var x := cs[|cs| - 1];
      FamilyMembers(cs[..|cs| - 1], id);
      assert cs == cs[..|cs| - 1] + [x];
    }
  }

  function PaymentCount(cs: seq<StoredContract>): nat
    decreases |cs|
  {
    if |cs| == 0 then 0 else PaymentCount(cs[..|cs| - 1]) + cs[|cs| - 1].pagamentos
  }

  /** The payments of each root's family, summed over the roots. */
  function FamilyPayments(cs: seq<StoredContract>, rs: seq<StoredContract>): nat
    decreases |rs|
  {
    if |rs| == 0 then 0 else FamilyPayments(cs, rs[..|rs| - 1]) + PaymentCount(Family(cs, rs[|rs| - 1].id))
  }

  /** The figures of the home page, in terms of the roots of the store. */
  function StatsOf(cs: seq<StoredContract>, today: Date): ContractStats {
    var rs := Roots(cs);
    ContractStats(CountActive(rs), CountExpiring(rs, today), ActiveValue(rs), FamilyPayments(cs, rs))
  }

  /** `forceUpdateContratos` on the parsed store, with today's date passed in. */
  method ForceUpdateContratos(contratos: seq<StoredContract>, today: Date) returns (stats: ContractStats)
    ensures stats == StatsOf(contratos, today)
  {
    var contratosPai := Roots(contratos);
    var ativos, vencendo, totalValor, qtdPagamentos := ScanRoots(contratos, contratosPai, today);
    stats := ContractStats(ativos, vencendo, totalValor, qtdPagamentos);
  }

  /** The `forEach` over the root contracts, accumulating the four figures. */
  method ScanRoots(contratos: seq<StoredContract>, contratosPai: seq<StoredContract>, today: Date)
    returns (ativos: nat, vencendo: nat, totalValor: real, qtdPagamentos: nat)
    ensures ativos == CountActive(contratosPai)
    ensures vencendo == CountExpiring(contratosPai, today)
    ensures totalValor == ActiveValue(contratosPai)
    ensures qtdPagamentos == FamilyPayments(contratos, contratosPai)
  {
    totalValor := 0.0;
    ativos := 0;
    vencendo := 0;
    qtdPagamentos := 0;
    var i := 0;
    while i < |contratosPai|
      invariant 0 <= i <= |contratosPai|
      invariant ativos == CountActive(contratosPai[..i])
      invariant vencendo == CountExpiring(contratosPai[..i], today)
      invariant totalValor == ActiveValue(contratosPai[..i])
      invariant qtdPagamentos == FamilyPayments(contratos, contratosPai[..i])
    {
      var c := contratosPai[i];
      RootStep(contratos, contratosPai, i, today);
      var diasRestantes := DaysLeft(c, today);
      var familia := Family(contratos, c.id);
      var familyCount := CountFamilyPayments(familia);
      qtdPagamentos := qtdPagamentos + familyCount;
      if Active(c) {
        totalValor := totalValor + c.valorGlobal;
        ativos := ativos + 1;
        if diasRestantes.Some? && diasRestantes.value < 90 && diasRestantes.value >= 0 {
          vencendo := vencendo + 1;
        }
      }
      i := i + 1;
    }
    assert contratosPai[..i] == contratosPai;
  }

  /** The inner `forEach` that adds up the payment counts of one family. */
  method CountFamilyPayments(familia: seq<StoredContract>) returns (n: nat)
    ensures n == PaymentCount(familia)
  {
    n := 0;
    var k := 0;
    while k < |familia|
      invariant 0 <= k <= |familia|
      invariant n == PaymentCount(familia[..k])
    {
      assert familia[..k + 1][..k] == familia[..k];
      n := n + familia[k].pagamentos;
      k := k + 1;
    }
    assert familia[..k] == familia;
  }

  /** One more root adds its own share to each running figure. */
  lemma RootStep(cs: seq<StoredContract>, rs: seq<StoredContract>, i: nat, today: Date)
    requires i < |rs|
    ensures CountActive(rs[..i + 1]) == CountActive(rs[..i]) + (if Active(rs[i]) then 1 else 0)
    ensures CountExpiring(rs[..i + 1], today) == CountExpiring(rs[..i], today) + (if Active(rs[i]) && Expiring(rs[i], today) then 1 else 0)
    ensures ActiveValue(rs[..i + 1]) == ActiveValue(rs[..i]) + (if Active(rs[i]) then rs[i].valorGlobal else 0.0)
    ensures FamilyPayments(cs, rs[..i + 1]) == FamilyPayments(cs, rs[..i]) + PaymentCount(Family(cs, rs[i].id))
  {
    assert rs[..i + 1][..i] == rs[..i];
  }

  // ------------------------------------------------ contract figure lemmas

  lemma {:induction false} ExpiringAtMostActive(rs: seq<StoredContract>, today: Date)
    ensures CountExpiring(rs, today) <= CountActive(rs) <= |rs|
    decreases |rs|
  {
    if |rs| > 0 {
      ExpiringAtMostActive(rs[..|rs| - 1], today);
    }
  }

  /** Fewer contracts are about to expire than are active, and no more are active than there are roots. */
  lemma VencendoAtMostAtivos(cs: seq<StoredContract>, today: Date)
    ensures StatsOf(cs, today).vencendo <= StatsOf(cs, today).ativos <= |Roots(cs)|
  {
    ExpiringAtMostActive(Roots(cs), today);
  }

  /** A contract is about to expire exactly when it has a readable end date 0 to 89 days ahead. */
  lemma ExpiringWindow(c: StoredContract, today: Date)
    ensures Expiring(c, today) <==>
      c.vigenciaFim.EndDate? && 0 <= DayNumber(c.vigenciaFim.date) - DayNumber(today) < 90
  {
  }

  /** An amendment added to the store changes none of the active-contract figures. */
  lemma AmendmentNotCounted(cs: seq<StoredContract>, a: StoredContract, today: Date)
    requires !WithoutParent(a)
    ensures StatsOf(cs + [a], today).ativos == StatsOf(cs, today).ativos
    ensures StatsOf(cs + [a], today).vencendo == StatsOf(cs, today).vencendo
    ensures StatsOf(cs + [a], today).valorTotal == StatsOf(cs, today).valorTotal
  {
    assert (cs + [a])[..|cs + [a]| - 1] == cs;
    assert Roots(cs + [a]) == Roots(cs);
  }

  /** Every stored contract with the same status. */
  function Restatus(cs: seq<StoredContract>, status: string): (r: seq<StoredContract>)
    ensures |r| == |cs|
    ensures forall i :: 0 <= i < |cs| ==> r[i] == cs[i].(status := status)
  {
    seq(|cs|, i requires 0 <= i < |cs| => cs[i].(status := status))
  }

  lemma RestatusAppend(a: seq<StoredContract>, b: seq<StoredContract>, status: string)
    ensures Restatus(a + b, status) == Restatus(a, status) + Restatus(b, status)
  {
  }

  lemma RestatusInit(cs: seq<StoredContract>, status: string)
    requires |cs| > 0
    ensures Restatus(cs, status)[..|cs| - 1] == Restatus(cs[..|cs| - 1], status)
    ensures Restatus(cs, status)[|cs| - 1] == cs[|cs| - 1].(status := status)
  {
  }

  lemma {:induction false} RootsRestatus(cs: seq<StoredContract>, status: string)
    ensures Roots(Restatus(cs, status)) == Restatus(Roots(cs), status)
    decreases |cs|
  {
    if |cs| > 0 {
      var init := cs[..|cs| - 1];
      RootsRestatus(init, status);
      RestatusInit(cs, status);
      var tail := if WithoutParent(cs[|cs| - 1]) then [cs[|cs| - 1]] else [];
      RestatusAppend(Roots(init), tail, status);
    }
  }

  /** Restating every contract restates each family and nothing more. */
  lemma {:induction false} FamilyRestatus(cs: seq<StoredContract>, status: string, id: int)
    ensures Family(Restatus(cs, status), id) == Restatus(Family(cs, id), status)
    decreases |cs|
  {
    if |cs| > 0 {
      var init := cs[..|cs| - 1];
      var x := cs[|cs| - 1];
      FamilyRestatus(init, status, id);
      RestatusInit(cs, status);
      var tail := if x.id == id || x.parentId == Some(id) then [x] else [];
      RestatusAppend(Family(init, id), tail, status);
    }
  }

  lemma {:induction false} PaymentCountRestatus(cs: seq<StoredContract>, status: string)
    ensures PaymentCount(Restatus(cs, status)) == PaymentCount(cs)
    decreases |cs|
  {
    if |cs| > 0 {
      PaymentCountRestatus(cs[..|cs| - 1], status);
      RestatusInit(cs, status);
    }
  }

  lemma {:induction false} FamilyPaymentsRestatus(cs: seq<StoredContract>, rs: seq<StoredContract>, status: string)
    ensures FamilyPayments(Restatus(cs, status), Restatus(rs, status)) == FamilyPayments(cs, rs)
    decreases |rs|
  {
    if |rs| > 0 {
      FamilyPaymentsRestatus(cs, rs[..|rs| - 1], status);
      RestatusInit(rs, status);
      FamilyRestatus(cs, status, rs[|rs| - 1].id);
      PaymentCountRestatus(Family(cs, rs[|rs| - 1].id), status);
    }
  }

  /** The payment count covers every root's family whatever the statuses: restating every contract leaves it unchanged. */
  lemma PaymentsIgnoreStatus(cs: seq<StoredContract>, status: string, today: Date)
    ensures StatsOf(Restatus(cs, status), today).qtdPagamentos == StatsOf(cs, today).qtdPagamentos
  {
    RootsRestatus(cs, status);
    FamilyPaymentsRestatus(cs, Roots(cs), status);
  }

  // ---------------------------------------------------------- deferidas

  /** One message of the generator's history: its status ("" when missing) and its text. */
  datatype HistoryItem = HistoryItem(status: string, message: Option<string>)

  /** The status decides when present; otherwise the message must contain `*Deferida*`. */
  predicate IsDeferida(h: HistoryItem) {
    if h.status != "" then h.status == "Deferida"
    else h.message.Some? && Includes(h.message.value, "*Deferida*")
  }

  /** `all.filter(isDeferida).length`. */
  function CountDeferidas(all: seq<HistoryItem>): (n: nat)
    ensures n <= |all|
    ensures n == |all| <==> forall i :: 0 <= i < |all| ==> IsDeferida(all[i])
    ensures n == 0 <==> forall i :: 0 <= i < |all| ==> !IsDeferida(all[i])
    decreases |all|
  {
    if |all| == 0 then 0
    else
      var init := all[..|all| - 1];
      var rest := CountDeferidas(init);
      assert forall i :: 0 <= i < |init| ==> init[i] == all[i];
      rest + (if IsDeferida(all[|all| - 1]) then 1 else 0)
  }

  /** `(deferidas / total) * 100` when there are messages, else 0; between 0 and 100. */
  function PercentDeferidas(all: seq<HistoryItem>): (p: real)
    ensures 0.0 <= p <= 100.0
    ensures p == 100.0 <==> |all| > 0 && forall i :: 0 <= i < |all| ==> IsDeferida(all[i])
  {
    var total := |all|;
    var deferidas := CountDeferidas(all);
    if total > 0 then Ratio(deferidas, total) else 0.0
  }

  function Ratio(part: nat, total: nat): (p: real)
    requires 0 < total && part <= total
    ensures 0.0 <= p <= 100.0
    ensures p == 100.0 <==> part == total
  {
    part as real / total as real * 100.0
  }

  /** A status, when present, decides alone; the message then does not matter. */
  lemma StatusDecides(h: HistoryItem, message: Option<string>)
    requires h.status != ""
    ensures IsDeferida(h) <==> h.status == "Deferida"
    ensures IsDeferida(h.(message := message)) == IsDeferida(h)
  {
  }

  // ------------------------------------------------------------- quotes

  /** A quote of the collection: its text, author ("" when missing) and category. */
  datatype Quote = Quote(frase: string, autor: string, categoria: string)

  /** The attributes a rendered quote carries: its text, author and category in lower case. */
  datatype QuoteItem = QuoteItem(texto: string, autor: string, categoria: string)

  function AuthorName(q: Quote): string {
    if q.autor == "" then "Desconhecido" else q.autor
  }

  function ItemOf(q: Quote): QuoteItem {
    QuoteItem(ToLower(q.frase), ToLower(AuthorName(q)), ToLower(q.categoria))
  }

  /** The three conditions of the quote `applyFilters`, on the lower-cased terms. */
  predicate Visible(item: QuoteItem, text: string, author: string, category: string) {
    Includes(item.texto, ToLower(text))
    && (ToLower(author) == "" || item.autor == ToLower(author))
    && (ToLower(category) == "" || item.categoria == ToLower(category))
  }

  function CountVisible(items: seq<QuoteItem>, text: string, author: string, category: string): (n: nat)
    ensures n <= |items|
    decreases |items|
  {
    if |items| == 0 then 0
    else
      var last := if Visible(items[|items| - 1], text, author, category) then 1 else 0;
      CountVisible(items[..|items| - 1], text, author, category) + last
  }

  /** The quote `applyFilters`: which items are displayed, and the count shown. */
  method ApplyQuoteFilters(items: seq<QuoteItem>, text: string, author: string, category: string)
    returns (displayed: seq<bool>, visibleCount: nat)
    ensures |displayed| == |items|
    ensures forall i :: 0 <= i < |items| ==> (displayed[i] <==> Visible(items[i], text, author, category))
    ensures visibleCount == CountVisible(items, text, author, category)
  {
    var textTerm := ToLower(text);
    var authorTerm := ToLower(author);
    var categoryTerm := ToLower(category);
    displayed := [];
    visibleCount := 0;
    var i := 0;
    while i < |items|
      invariant 0 <= i <= |items|
      invariant |displayed| == i
      invariant forall j :: 0 <= j < i ==> (displayed[j] <==> Visible(items[j], text, author, category))
      invariant visibleCount == CountVisible(items[..i], text, author, category)
    {
      var item := items[i];
      assert items[..i + 1][..i] == items[..i];
      var matchText := Includes(item.texto, textTerm);
      var matchAuthor := authorTerm == "" || item.autor == authorTerm;
      var matchCategory := categoryTerm == "" || item.categoria == categoryTerm;
      if matchText && matchAuthor && matchCategory {
        displayed := displayed + [true];
        visibleCount := visibleCount + 1;
      } else {
        displayed := displayed + [false];
      }
      i := i + 1;
    }
    assert items[..i] == items;
  }

  // -------------------------------------------------------- quote lemmas

  lemma {:induction false} CountVisibleAll(items: seq<QuoteItem>, text: string, author: string, category: string)
    requires forall i :: 0 <= i < |items| ==> Visible(items[i], text, author, category)
    ensures CountVisible(items, text, author, category) == |items|
    decreases |items|
  {
    if |items| > 0 {
      CountVisibleAll(items[..|items| - 1], text, author, category);
    }
  }

  /** With all three terms empty every quote is visible. */
  lemma EmptyFiltersShowAll(items: seq<QuoteItem>)
    ensures CountVisible(items, "", "", "") == |items|
  {
    forall i | 0 <= i < |items| ensures Visible(items[i], "", "", "") {
      assert ToLower("") == "";
      assert "" <= items[i].texto;
    }
    CountVisibleAll(items, "", "", "");
  }

  /** Choosing a quote's author and category in the selects keeps that quote visible. */
  lemma SelectedQuoteVisible(q: Quote)
    ensures Visible(ItemOf(q), "", AuthorName(q), q.categoria)
  {
    assert ToLower("") == "";
    assert "" <= ItemOf(q).texto;
  }

  /** The search ignores case: a term and its upper-case form select the same quotes. */
  lemma SearchIgnoresCase(item: QuoteItem, text: string, author: string, category: string)
    ensures Visible(item, ToUpper(text), ToUpper(author), ToUpper(category)) == Visible(item, text, author, category)
  {
    LowerOfUpper(text);
    LowerOfUpper(author);
    LowerOfUpper(category);
  }

  lemma LowerOfUpper(s: string)
    ensures ToLower(ToUpper(s)) == ToLower(s)
  {
    forall i | 0 <= i < |s| ensures ToLower(ToUpper(s))[i] == ToLower(s)[i] {
      LowerUpperChar(s[i]);
    }
  }
}
