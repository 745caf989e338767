/**
 * The in-memory contract list and the operations that change it:
 * saving a contract or amendment (`salvarContrato`), saving a payment
 * (`salvarPagamento`), adding a line item (`salvarDetalheItem`) and the two
 * deletions (`excluirPagamento`, `excluirItemDetalhe`).
 *
 * The ids a new record receives (built from the clock) are parameters.
 */
module ContractStore {
  import opened Wrappers
  import opened Calendar
  import opened JsStrings
  import opened ContractModel
  import opened ContractSummary

  /** What the amendment part of the contract form holds. */
  datatype AmendmentForm = AmendmentForm(
    tipo: Option<AditivoKind>,
    numero: string,
    processoSei: string,
    linkSei: string,
    justificativa: string,
    dataAssinatura: string,
    gestorNome: string,
    gestorMatricula: string,
    fiscalRows: seq<Person>)

  datatype SaveError =
    | GestorRequired          // manager/inspector amendment without a manager name
    | FiscalRequired          // ... without a complete inspector row
    | ParentNotFound          // reading the root's end date fails
    | AmendmentFieldsMissing  // kind, number, process, justification or signing date empty
    | ContractNotFound

  const CooperacaoTecnica: string := "Cooperacao Tecnica"

  /** The inspector rows with both a name and a registration number, in form order. */
  function FilledFiscais(rows: seq<Person>): (r: seq<Person>)
    ensures |r| <= |rows|
    ensures forall p :: p in r <==> p in rows && p.nome != "" && p.matricula != ""
    decreases |rows|
  {
    if |rows| == 0 then []
    else
      var rest := FilledFiscais(rows[..|rows| - 1]);
      var p := rows[|rows| - 1];
      assert rows == rows[..|rows| - 1] + [p];
      if p.nome != "" && p.matricula != "" then rest + [p] else rest
  }

  /** `input.value.trim() || null`. */
  function OptionalText(s: string): (r: Option<string>)
    ensures r.Some? ==> r.value != "" && r.value == Trim(s)
    ensures r.None? <==> Trim(s) == ""
  {
    var t := Trim(s);
    if t == "" then None else Some(t)
  }

  predicate GeneralFieldsFilled(af: AmendmentForm) {
    af.tipo.Some? && af.numero != "" && af.processoSei != "" && af.justificativa != "" && af.dataAssinatura != ""
  }

  function AmendmentRecord(af: AmendmentForm, kind: AditivoKind, gestor: Option<Person>, fiscais: seq<Person>): Aditivo {
    Aditivo(kind, af.numero, af.processoSei, OptionalText(af.linkSei), af.justificativa, af.dataAssinatura, gestor, fiscais)
  }

  /** A cooperation agreement carries no value and no monthly estimate. */
  function ApplyContractType(form: ContractData): ContractData {
    if form.tipoContrato == CooperacaoTecnica then form.(valorTotal := 0.0, estimativaMensal := 0.0) else form
  }

  /**
   * The record data `salvarContrato` stores, or why it refuses: the rules for
   * cooperation agreements, manager/inspector amendments and value
   * amendments, then the validation of the general amendment fields.
   */
  function PrepareContract(store: seq<Contract>, form: ContractData, parentId: string, af: AmendmentForm)
    : Result<(ContractData, Option<Aditivo>), SaveError>
  {
    var base := ApplyContractType(form);
    if parentId == "" then Ok((base, None))
    else if af.tipo == Some(GestorFiscal) then
      var fiscais := FilledFiscais(af.fiscalRows);
      var ip := FindContract(store, parentId);
      if af.gestorNome == "" then Err(GestorRequired)
      else if |fiscais| == 0 then Err(FiscalRequired)
      else if ip < 0 then Err(ParentNotFound)
      else if !GeneralFieldsFilled(af) then Err(AmendmentFieldsMissing)
      else Ok((base.(valorTotal := 0.0, dataFim := store[ip].data.dataFim),
               Some(AmendmentRecord(af, GestorFiscal, Some(Person(af.gestorNome, af.gestorMatricula)), fiscais))))
    else if af.tipo == Some(Valor) then
      var ip := FindContract(store, parentId);
      if ip < 0 then Err(ParentNotFound)
      else if !GeneralFieldsFilled(af) then Err(AmendmentFieldsMissing)
      else Ok((base.(dataFim := store[ip].data.dataFim), Some(AmendmentRecord(af, Valor, None, []))))
    else if !GeneralFieldsFilled(af) then Err(AmendmentFieldsMissing)
    else Ok((base, Some(AmendmentRecord(af, af.tipo.value, None, []))))
  }

  /** `{...old, ...contratoData}`: id, parent and payments survive; the amendment data is replaced when submitted. */
  function MergeRecord(old_: Contract, data: ContractData, aditivo: Option<Aditivo>): Contract {
    old_.(data := data, aditivo := if aditivo.Some? then aditivo else old_.aditivo)
  }

  function NewRecord(newId: string, parentId: string, data: ContractData, aditivo: Option<Aditivo>): Contract {
    Contract(newId, if parentId == "" then None else Some(parentId), data, aditivo, [])
  }

  /** The list after storing prepared data: edit the record `id` (if present) or append a new one. */
  function StoreContract(store: seq<Contract>, id: string, parentId: string,
                         data: ContractData, aditivo: Option<Aditivo>, newId: string): seq<Contract>
  {
    if id != "" then
      var i := FindContract(store, id);
      if i < 0 then store else store[i := MergeRecord(store[i], data, aditivo)]
    else store + [NewRecord(newId, parentId, data, aditivo)]
  }

  // ---------------------------------------------------------------------------
  // Payments and line items of one record.

  /** Replace the form fields of the first payment with that id; keep its id and line items. */
  function EditPayment(ps: seq<Payment>, pagamentoId: string, info: PaymentData): seq<Payment> {
    var i := FindPayment(ps, pagamentoId);
    if i < 0 then ps else ps[i := ps[i].(info := info)]
  }

  function AddPayment(ps: seq<Payment>, newId: string, info: PaymentData): seq<Payment> {
    ps + [Payment(newId, info, [])]
  }

  /** `pagamentos.filter(p => p.id !== pagamentoId)`. */
  function RemovePayment(ps: seq<Payment>, pagamentoId: string): (r: seq<Payment>)
    ensures |r| <= |ps|
    ensures forall p :: p in r <==> p in ps && p.id != pagamentoId
    decreases |ps|
  {
    if |ps| == 0 then []
    else
      var rest := RemovePayment(ps[..|ps| - 1], pagamentoId);
      var p := ps[|ps| - 1];
      assert ps == ps[..|ps| - 1] + [p];
      if p.id != pagamentoId then rest + [p] else rest
  }

  /** The payments a deletion removes. */
  function PaymentsWithId(ps: seq<Payment>, pagamentoId: string): seq<Payment>
    decreases |ps|
  {
    if |ps| == 0 then []
    else
      var rest := PaymentsWithId(ps[..|ps| - 1], pagamentoId);
      var p := ps[|ps| - 1];
      if p.id == pagamentoId then rest + [p] else rest
  }

  /** `detalhes.filter(item => item.id !== itemId)`. */
  function RemoveItem(items: seq<LineItem>, itemId: string): (r: seq<LineItem>)
    ensures |r| <= |items|
    ensures forall it :: it in r <==> it in items && it.id != itemId
    decreases |items|
  {
    if |items| == 0 then []
    else
      var rest := RemoveItem(items[..|items| - 1], itemId);
      var it := items[|items| - 1];
      assert items == items[..|items| - 1] + [it];
      if it.id != itemId then rest + [it] else rest
  }

  /** Replace the line items of the first payment with that id; no such payment, no change. */
  function UpdateItems(ps: seq<Payment>, pagamentoId: string, items: seq<LineItem>): seq<Payment> {
    var i := FindPayment(ps, pagamentoId);
    if i < 0 then ps else ps[i := ps[i].(detalhes := items)]
  }

  class ContractStore {
    var contratos: seq<Contract>

    constructor (initial: seq<Contract>)
      ensures contratos == initial
    {
      contratos := initial;
    }

    /** `salvarContrato`: `id` empty means a new record, `parentId` empty a root contract. */
    method SaveContract(id: string, parentId: string, form: ContractData, af: AmendmentForm, newId: string)
      returns (r: Result<(), SaveError>)
      modifies this
      ensures PrepareContract(old(contratos), form, parentId, af).Err? ==>
        r == Err(PrepareContract(old(contratos), form, parentId, af).error) && contratos == old(contratos)
      ensures PrepareContract(old(contratos), form, parentId, af).Ok? ==> (r.Ok? &&
        var (data, aditivo) := PrepareContract(old(contratos), form, parentId, af).value;
        contratos == StoreContract(old(contratos), id, parentId, data, aditivo, newId))
    {
      var base := ApplyContractType(form);
      var prepared: (ContractData, Option<Aditivo>) := (base, None);
      if parentId != "" {
        var ip := FindContract(contratos, parentId);
        if af.tipo == Some(GestorFiscal) {
          var fiscais := CollectFiscais(af.fiscalRows);
          if af.gestorNome == "" {
            return Err(GestorRequired);
          }
          if |fiscais| == 0 {
            return Err(FiscalRequired);
          }
          if ip < 0 {
            return Err(ParentNotFound);
          }
          prepared := (base.(valorTotal := 0.0, dataFim := contratos[ip].data.dataFim),
                       Some(AmendmentRecord(af, GestorFiscal, Some(Person(af.gestorNome, af.gestorMatricula)), fiscais)));
        } else if af.tipo == Some(Valor) {
          if ip < 0 {
            return Err(ParentNotFound);
          }
          prepared := (base.(dataFim := contratos[ip].data.dataFim), Some(AmendmentRecord(af, Valor, None, [])));
        } else if af.tipo.Some? {
          prepared := (base, Some(AmendmentRecord(af, af.tipo.value, None, [])));
        }
        if !GeneralFieldsFilled(af) {
          return Err(AmendmentFieldsMissing);
        }
      }
      var (data, aditivo) := prepared;
      if id != "" {
        var index := FindContract(contratos, id);
        if index > -1 {
          contratos := contratos[index := MergeRecord(contratos[index], data, aditivo)];
        }
      } else {
        contratos := contratos + [NewRecord(newId, parentId, data, aditivo)];
      }
      r := Ok(());
    }

    /** `salvarPagamento`: returns the id of a newly added payment. */
    method SavePayment(contratoId: string, pagamentoId: string, info: PaymentData, newId: string)
      returns (r: Result<Option<string>, SaveError>)
      modifies this
      ensures FindContract(old(contratos), contratoId) < 0 ==> r == Err(ContractNotFound) && contratos == old(contratos)
      ensures var i := FindContract(old(contratos), contratoId);
        i >= 0 ==> var c := old(contratos)[i];
          && r == Ok(if pagamentoId == "" then Some(newId) else None)
          && contratos == old(contratos)[i := c.(pagamentos :=
               if pagamentoId != "" then EditPayment(c.pagamentos, pagamentoId, info)
               else AddPayment(c.pagamentos, newId, info))]
    {
      var i := FindContract(contratos, contratoId);
      if i < 0 {
        return Err(ContractNotFound);
      }
      var c := contratos[i];
      if pagamentoId != "" {
        var index := FindPayment(c.pagamentos, pagamentoId);
        if index > -1 {
          var p := c.pagamentos[index];
          contratos := contratos[i := c.(pagamentos := c.pagamentos[index := p.(info := info)])];
        }
        r := Ok(None);
      } else {
        contratos := contratos[i := c.(pagamentos := c.pagamentos + [Payment(newId, info, [])])];
        r := Ok(Some(newId));
      }
    }

    /** `salvarDetalheItem`: silently does nothing when the contract or the payment is missing. */
    method SaveLineItem(contratoId: string, pagamentoId: string, item: LineItem)
      modifies this
      ensures var i := FindContract(old(contratos), contratoId);
        contratos == if i < 0 then old(contratos) else
          var c := old(contratos)[i];
          var j := FindPayment(c.pagamentos, pagamentoId);
          if j < 0 then old(contratos)
          else old(contratos)[i := c.(pagamentos := UpdateItems(c.pagamentos, pagamentoId, c.pagamentos[j].detalhes + [item]))]
    {
      var i := FindContract(contratos, contratoId);
      if i < 0 {
        return;
      }
      var c := contratos[i];
      var j := FindPayment(c.pagamentos, pagamentoId);
      if j < 0 {
        return;
      }
      var p := c.pagamentos[j];
      contratos := contratos[i := c.(pagamentos := c.pagamentos[j := p.(detalhes := p.detalhes + [item])])];
    }

    /** `excluirPagamento`. */
    method DeletePayment(contratoId: string, pagamentoId: string)
      modifies this
      ensures var i := FindContract(old(contratos), contratoId);
        contratos == if i < 0 then old(contratos) else
          old(contratos)[i := old(contratos)[i].(pagamentos := RemovePayment(old(contratos)[i].pagamentos, pagamentoId))]
    {
      var i := FindContract(contratos, contratoId);
      if i < 0 {
        return;
      }
      var c := contratos[i];
      contratos := contratos[i := c.(pagamentos := RemovePayment(c.pagamentos, pagamentoId))];
    }

    /** `excluirItemDetalhe`. */
    method DeleteLineItem(contratoId: string, pagamentoId: string, itemId: string)
      modifies this
      ensures var i := FindContract(old(contratos), contratoId);
        contratos == if i < 0 then old(contratos) else
          var c := old(contratos)[i];
          var j := FindPayment(c.pagamentos, pagamentoId);
          if j < 0 then old(contratos)
          else old(contratos)[i := c.(pagamentos := UpdateItems(c.pagamentos, pagamentoId, RemoveItem(c.pagamentos[j].detalhes, itemId)))]
    {
      var i := FindContract(contratos, contratoId);
      if i < 0 {
        return;
      }
      var c := contratos[i];
      var j := FindPayment(c.pagamentos, pagamentoId);
      if j < 0 {
        return;
      }
      var p := c.pagamentos[j];
      contratos := contratos[i := c.(pagamentos := c.pagamentos[j := p.(detalhes := RemoveItem(p.detalhes, itemId))])];
    }
  }

  /** The `forEach` over the inspector rows. */
  method CollectFiscais(rows: seq<Person>) returns (fiscais: seq<Person>)
    ensures fiscais == FilledFiscais(rows)
  {
    fiscais := [];
    var i := 0;
    while i < |rows|
      invariant 0 <= i <= |rows|
      invariant fiscais == FilledFiscais(rows[..i])
    {
      assert rows[..i + 1][..i] == rows[..i];
      if rows[i].nome != "" && rows[i].matricula != "" {
        fiscais := fiscais + [rows[i]];
      }
      i := i + 1;
    }
    assert rows[..i] == rows;
  }

  // ---------------------------------------------------------------------------
  // What saving guarantees.

  /**
   * A saved manager/inspector amendment names a manager and at least one
   * complete inspector, carries no value and keeps its root's end date.
   */
  lemma ManagerAmendmentShape(store: seq<Contract>, form: ContractData, parentId: string, af: AmendmentForm)
    requires parentId != "" && af.tipo == Some(GestorFiscal)
    requires PrepareContract(store, form, parentId, af).Ok?
    ensures var (data, ad) := PrepareContract(store, form, parentId, af).value;
      && ad.Some? && ad.value.tipo == GestorFiscal
      && ad.value.gestor.Some? && ad.value.gestor.value.nome != ""
      && |ad.value.fiscais| > 0
      && (forall p :: p in ad.value.fiscais ==> p in af.fiscalRows && p.nome != "" && p.matricula != "")
      && data.valorTotal == 0.0
      && data.dataFim == store[FindContract(store, parentId)].data.dataFim
  {
  }

  /** A value amendment keeps its root's end date; a cooperation agreement carries no money. */
  lemma ValueAndCooperationRules(store: seq<Contract>, form: ContractData, parentId: string, af: AmendmentForm)
    requires PrepareContract(store, form, parentId, af).Ok?
    ensures var (data, ad) := PrepareContract(store, form, parentId, af).value;
      && (parentId != "" && af.tipo == Some(Valor) ==> data.dataFim == store[FindContract(store, parentId)].data.dataFim)
      && (form.tipoContrato == CooperacaoTecnica ==> data.valorTotal == 0.0 && data.estimativaMensal == 0.0)
      && (parentId == "" <==> ad.None?)
      && (parentId != "" ==> GeneralFieldsFilled(af) && ad.value.tipo == af.tipo.value)
  {
  }

  /** A root contract is always accepted; an amendment only with its general fields filled. */
  lemma PrepareAcceptsRoots(store: seq<Contract>, form: ContractData, af: AmendmentForm)
    ensures PrepareContract(store, form, "", af) == Ok((ApplyContractType(form), None))
  {
  }

  /** Editing keeps every other record, and the edited record keeps its id, parent and payments. */
  lemma EditKeepsIdentity(store: seq<Contract>, id: string, parentId: string,
                          data: ContractData, aditivo: Option<Aditivo>, newId: string)
    requires id != ""
    ensures var r := StoreContract(store, id, parentId, data, aditivo, newId);
      var i := FindContract(store, id);
      && |r| == |store|
      && (forall k :: 0 <= k < |store| && k != i ==> r[k] == store[k])
      && (i >= 0 ==> r[i].id == store[i].id && r[i].parentId == store[i].parentId
                     && r[i].pagamentos == store[i].pagamentos && r[i].data == data)
  {
  }

  /** Creating appends one record with the new id, no payments, and the given parent. */
  lemma CreateAppends(store: seq<Contract>, parentId: string,
                      data: ContractData, aditivo: Option<Aditivo>, newId: string)
    ensures var r := StoreContract(store, "", parentId, data, aditivo, newId);
      && r[..|store|] == store && |r| == |store| + 1
      && r[|store|].id == newId && r[|store|].pagamentos == []
      && (parentId == "" <==> IsRoot(r[|store|]))
      && (parentId != "" ==> r[|store|].parentId == Some(parentId))
  {
  }

  /** Creating a manager/inspector amendment leaves its family's value and end date as they were. */
  lemma NewManagerAmendmentInert(store: seq<Contract>, root: Contract, form: ContractData, af: AmendmentForm, newId: string)
    requires af.tipo == Some(GestorFiscal) && root.id != ""
    requires PrepareContract(store, form, root.id, af).Ok?
    ensures var (data, ad) := PrepareContract(store, form, root.id, af).value;
      var store' := StoreContract(store, "", root.id, data, ad, newId);
      && AggValue(root.data.valorTotal, Family(store', root)) == AggValue(root.data.valorTotal, Family(store, root))
      && AggEnd(root.data.dataFim, Family(store', root)) == AggEnd(root.data.dataFim, Family(store, root))
  {
    var (data, ad) := PrepareContract(store, form, root.id, af).value;
    var c := NewRecord(newId, root.id, data, ad);
    var store' := StoreContract(store, "", root.id, data, ad, newId);
    assert store' == store + [c];
    NewAmendmentValue(store, root, c);
    assert (store + [c])[..|store + [c]| - 1] == store;
    assert Family(store', root) == Family(store, root) + [c];
    assert Family(store', root)[..|Family(store', root)| - 1] == Family(store, root);
  }

  /** Editing a payment changes only its form fields and the total by the change of its value. */
  lemma {:induction false} EditPaymentEffect(ps: seq<Payment>, pagamentoId: string, info: PaymentData)
    ensures var r := EditPayment(ps, pagamentoId, info);
      && |r| == |ps|
      && (forall k :: 0 <= k < |ps| ==> r[k].id == ps[k].id && r[k].detalhes == ps[k].detalhes)
      && var i := FindPayment(ps, pagamentoId);
        PaymentsTotal(r) == if i < 0 then PaymentsTotal(ps) else PaymentsTotal(ps) - ps[i].info.valorPago + info.valorPago
  {
    var i := FindPayment(ps, pagamentoId);
    if i >= 0 {
      PaymentsTotalUpdate(ps, i, ps[i].(info := info));
    }
  }

  lemma {:induction false} PaymentsTotalUpdate(ps: seq<Payment>, i: int, q: Payment)
    requires 0 <= i < |ps|
    ensures PaymentsTotal(ps[i := q]) == PaymentsTotal(ps) - ps[i].info.valorPago + q.info.valorPago
  {
    assert ps == ps[..i] + [ps[i]] + ps[i + 1..];
    assert ps[i := q] == ps[..i] + [q] + ps[i + 1..];
    PaymentsTotalAppend(ps[..i] + [ps[i]], ps[i + 1..]);
    PaymentsTotalAppend(ps[..i] + [q], ps[i + 1..]);
    PaymentsTotalAppend(ps[..i], [ps[i]]);
    PaymentsTotalAppend(ps[..i], [q]);
  }

  /** Adding a payment raises the total by its value. */
  lemma AddPaymentTotal(ps: seq<Payment>, newId: string, info: PaymentData)
    ensures PaymentsTotal(AddPayment(ps, newId, info)) == PaymentsTotal(ps) + info.valorPago
  {
    assert AddPayment(ps, newId, info)[..|ps|] == ps;
  }

  /** Deleting removes exactly the payments with that id, and their value from the total. */
  lemma {:induction false} RemovePaymentTotal(ps: seq<Payment>, pagamentoId: string)
    ensures PaymentsTotal(RemovePayment(ps, pagamentoId)) == PaymentsTotal(ps) - PaymentsTotal(PaymentsWithId(ps, pagamentoId))
    decreases |ps|
  {
    if |ps| > 0 {
      var init := ps[..|ps| - 1];
      var p := ps[|ps| - 1];
      RemovePaymentTotal(init, pagamentoId);
      if p.id != pagamentoId {
        PaymentsTotalAppend(RemovePayment(init, pagamentoId), [p]);
      } else {
        PaymentsTotalAppend(PaymentsWithId(init, pagamentoId), [p]);
      }
    }
  }

  /** Deleting twice is deleting once. */
  lemma {:induction false} RemovePaymentIdempotent(ps: seq<Payment>, pagamentoId: string)
    ensures RemovePayment(RemovePayment(ps, pagamentoId), pagamentoId) == RemovePayment(ps, pagamentoId)
    decreases |ps|
  {
    if |ps| > 0 {
      var init := ps[..|ps| - 1];
      var p := ps[|ps| - 1];
      RemovePaymentIdempotent(init, pagamentoId);
      var once := RemovePayment(init, pagamentoId);
      if p.id != pagamentoId {
        assert (once + [p])[..|once + [p]| - 1] == once;
      }
    }
  }

  /** Deleting a line item twice is deleting it once. */
  lemma {:induction false} RemoveItemIdempotent(items: seq<LineItem>, itemId: string)
    ensures RemoveItem(RemoveItem(items, itemId), itemId) == RemoveItem(items, itemId)
    decreases |items|
  {
    if |items| > 0 {
      var init := items[..|items| - 1];
      var it := items[|items| - 1];
      RemoveItemIdempotent(init, itemId);
      var once := RemoveItem(init, itemId);
      if it.id != itemId {
        assert (once + [it])[..|once + [it]| - 1] == once;
      }
    }
  }

  // ---------------------------------------------------------------- order

  /** `r` is `s` with some elements left out, the rest in their order (matched from the end). */
  predicate IsSubsequence<T(==)>(r: seq<T>, s: seq<T>)
    decreases |s|
  {
    if |r| == 0 then true
    else if |s| == 0 then false
    else if r[|r| - 1] == s[|s| - 1] then IsSubsequence(r[..|r| - 1], s[..|s| - 1])
    else IsSubsequence(r, s[..|s| - 1])
  }

  lemma {:induction false} SubsequenceDropLast<T>(r: seq<T>, s: seq<T>)
    requires |r| > 0 && IsSubsequence(r, s)
    ensures IsSubsequence(r[..|r| - 1], s)
    decreases |s|, 0
  {
    var init := s[..|s| - 1];
    if r[|r| - 1] == s[|s| - 1] {
      SubsequenceExtend(r[..|r| - 1], init, s[|s| - 1]);
      assert init + [s[|s| - 1]] == s;
    } else {
      SubsequenceDropLast(r, init);
      SubsequenceExtend(r[..|r| - 1], init, s[|s| - 1]);
      assert init + [s[|s| - 1]] == s;
    }
  }

  lemma {:induction false} SubsequenceExtend<T>(r: seq<T>, s: seq<T>, x: T)
    requires IsSubsequence(r, s)
    ensures IsSubsequence(r, s + [x])
    decreases |s|, 1
  {
    assert (s + [x])[..|s|] == s;
    if |r| > 0 && r[|r| - 1] == x {
      SubsequenceDropLast(r, s);
    }
  }

  /** Deleting payments keeps the others in their stored order. */
  lemma {:induction false} RemovePaymentInOrder(ps: seq<Payment>, pagamentoId: string)
    ensures IsSubsequence(RemovePayment(ps, pagamentoId), ps)
    decreases |ps|
  {
    if |ps| > 0 {
      var init, p := ps[..|ps| - 1], ps[|ps| - 1];
      var rest := RemovePayment(init, pagamentoId);
      RemovePaymentInOrder(init, pagamentoId);
      if p.id != pagamentoId {
        assert (rest + [p])[..|rest|] == rest;
      } else {
        SubsequenceExtend(rest, init, p);
        assert init + [p] == ps;
      }
    }
  }

  /** Deleting line items keeps the others in their stored order. */
  lemma {:induction false} RemoveItemInOrder(items: seq<LineItem>, itemId: string)
    ensures IsSubsequence(RemoveItem(items, itemId), items)
    decreases |items|
  {
    if |items| > 0 {
      var init, it := items[..|items| - 1], items[|items| - 1];
      var rest := RemoveItem(init, itemId);
      RemoveItemInOrder(init, itemId);
      if it.id != itemId {
        assert (rest + [it])[..|rest|] == rest;
      } else {
        SubsequenceExtend(rest, init, it);
        assert init + [it] == items;
      }
    }
  }
}
