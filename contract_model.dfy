/**
 * The records of the contract management application. Root contracts and
 * amendments ("aditivos") live in one flat list: a root has no `parentId`,
 * an amendment carries the id of its root in `parentId` and an `aditivo`
 * record saying what kind of amendment it is. Payments are owned by the
 * record they were registered on, and line items by their payment.
 *
 * Dates are calendar dates (None for an empty or unreadable date field);
 * money is exact (`real`).
 */
module ContractModel {
  import opened Wrappers
  import opened Calendar

  /** The `aditivo.tipo` values: value, term, manager/inspectors, other. */
  datatype AditivoKind = Valor | Prazo | GestorFiscal | Outro

  /** A manager (gestor) or an inspector (fiscal). */
  datatype Person = Person(nome: string, matricula: string)

  /** A contracting unit (unidade) or a supplier (empresa). */
  datatype Party = Party(nome: string, cnpj: string, endereco: string, rep: string)

  datatype Aditivo = Aditivo(
    tipo: AditivoKind,
    numero: string,
    processoSei: string,
    linkSei: Option<string>,
    justificativa: string,
    dataAssinatura: string,
    gestor: Option<Person>,
    fiscais: seq<Person>)

  /** A line item of a payment; `quantidade` is None when its input was not a number. */
  datatype LineItem = LineItem(id: string, descricao: string, quantidade: Option<real>, valorUnitario: real)

  /** Everything the payment form writes. */
  datatype PaymentData = PaymentData(
    data: Date,
    valorPago: real,
    notaFiscal: string,
    processoPagamentoSei: string,
    linkPagamentoSei: Option<string>,
    periodoDe: Option<Date>,
    periodoAte: Option<Date>,
    isTRD: bool)

  datatype Payment = Payment(id: string, info: PaymentData, detalhes: seq<LineItem>)

  /** Everything the contract form writes (steps 1 to 3). */
  datatype ContractData = ContractData(
    unidade: Party,
    empresa: Party,
    processoSei: string,
    numeroContrato: string,
    tipoContrato: string,
    objeto: string,
    estimativaMensal: real,
    tempoContrato: string,
    dataAssinatura: Option<Date>,
    dataInicio: Option<Date>,
    linkSei: Option<string>,
    valorTotal: real,
    dataFim: Option<Date>)

  datatype Contract = Contract(
    id: string,
    parentId: Option<string>,
    data: ContractData,
    aditivo: Option<Aditivo>,
    pagamentos: seq<Payment>)

  predicate IsRoot(c: Contract) { c.parentId.None? }

  predicate HasKind(c: Contract, k: AditivoKind) { c.aditivo.Some? && c.aditivo.value.tipo == k }

  /** `db.contratos.filter(c => c.parentId === rootId)`: the amendments of a root, in store order. */
  function Amendments(store: seq<Contract>, rootId: string): (r: seq<Contract>)
    ensures |r| <= |store|
    decreases |store|
  {
    if |store| == 0 then []
    else
      var rest := Amendments(store[..|store| - 1], rootId);
      var c := store[|store| - 1];
      if c.parentId == Some(rootId) then rest + [c] else rest
  }

  /** The amendments of a root are exactly the records of the store that name it as parent. */
  lemma {:induction false} AmendmentsMembers(store: seq<Contract>, rootId: string)
    ensures forall c :: c in Amendments(store, rootId) <==> c in store && c.parentId == Some(rootId)
    decreases |store|
  {
    if |store| > 0 {
      var init := store[..|store| - 1];
      AmendmentsMembers(init, rootId);
      assert store == init + [store[|store| - 1]];
    }
  }

  /** A root and its amendments, root first (`[contratoPai, ...aditivos]`). */
  function Family(store: seq<Contract>, root: Contract): seq<Contract> {
    [root] + Amendments(store, root.id)
  }

  /** `findIndex(x => x.id === id)` over the ids of a list: the first position holding `id`, or -1. */
  function FirstIndex(ids: seq<string>, id: string): (i: int)
    ensures -1 <= i < |ids|
    ensures i >= 0 ==> ids[i] == id
    ensures forall k :: 0 <= k < (if i < 0 then |ids| else i) ==> ids[k] != id
  {
    if |ids| == 0 then -1
    else if ids[0] == id then 0
    else
      var j := FirstIndex(ids[1..], id);
      if j < 0 then -1 else 1 + j
  }

  /** The ids of a list of records, read through `id`. */
  function Ids<R>(xs: seq<R>, id: R -> string): (ids: seq<string>)
    ensures |ids| == |xs| && forall k :: 0 <= k < |xs| ==> ids[k] == id(xs[k])
  {
    seq(|xs|, k requires 0 <= k < |xs| => id(xs[k]))
  }

  /** `db.contratos.findIndex(c => c.id === id)`: the first record with that id, or -1. */
  function FindContract(store: seq<Contract>, id: string): (i: int)
    ensures -1 <= i < |store|
    ensures i >= 0 ==> store[i].id == id
    ensures forall k :: 0 <= k < (if i < 0 then |store| else i) ==> store[k].id != id
  {
    FirstIndex(Ids(store, (c: Contract) => c.id), id)
  }

  /** `pagamentos.findIndex(p => p.id === id)`: the first payment with that id, or -1. */
  function FindPayment(ps: seq<Payment>, id: string): (i: int)
    ensures -1 <= i < |ps|
    ensures i >= 0 ==> ps[i].id == id
    ensures forall k :: 0 <= k < (if i < 0 then |ps| else i) ==> ps[k].id != id
  {
    FirstIndex(Ids(ps, (p: Payment) => p.id), id)
  }

  /** Σ valorPago over a list of payments (the `reduce` in the summary). */
  function PaymentsTotal(ps: seq<Payment>): real
    decreases |ps|
  {
    if |ps| == 0 then 0.0 else PaymentsTotal(ps[..|ps| - 1]) + ps[|ps| - 1].info.valorPago
  }

  lemma {:induction false} PaymentsTotalAppend(a: seq<Payment>, b: seq<Payment>)
    ensures PaymentsTotal(a + b) == PaymentsTotal(a) + PaymentsTotal(b)
    decreases |b|
  {
    if |b| == 0 {
      assert a + b == a;
    } else {
      assert (a + b)[..|a + b| - 1] == a + b[..|b| - 1];
      PaymentsTotalAppend(a, b[..|b| - 1]);
    }
  }
}
