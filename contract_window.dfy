/**
 * The payment window of a term amendment (`renderizarModalDetalharAditivo`):
 * the root and its term amendments are ordered by end date, and a term
 * amendment covers the days from the day after the previous record's end
 * up to its own end. The window lists the root's payments whose service
 * period ends inside it.
 */
module ContractWindow {
  import opened Wrappers
  import opened Calendar
  import opened ContractModel
  import opened Sorting

  datatype AmendmentPeriod =
    | NotFound            // the amendment or the root is not in the store
    | NotAnAmendment      // the record found has no amendment data
    | NoPayments          // manager/inspector amendments have no payments
    | CannotFilter        // value and "other" amendments have no period
    | UnreadableEndDate   // a record of the chain has no valid end date
    | NotInChain          // the amendment is not a term amendment of that root
    | NoPrevious          // nothing ends before the amendment in the chain
    | Period(inicio: Date, fim: Date, pagamentos: seq<Payment>)

  /** `db.contratos.filter(c => c.parentId === rootId && c.aditivo.tipo === 'Prazo')`. */
  function TermAmendments(store: seq<Contract>, rootId: string): (r: seq<Contract>)
    ensures |r| <= |store|
    decreases |store|
  {
    if |store| == 0 then []
    else
      var rest := TermAmendments(store[..|store| - 1], rootId);
      var c := store[|store| - 1];
      if c.parentId == Some(rootId) && HasKind(c, Prazo) then rest + [c] else rest
  }

  /** The chain members besides the root are exactly the term amendments of that root. */
  lemma {:induction false} TermAmendmentsMembers(store: seq<Contract>, rootId: string)
    ensures forall c :: c in TermAmendments(store, rootId) <==>
      c in store && c.parentId == Some(rootId) && HasKind(c, Prazo)
    decreases |store|
  {
    if |store| > 0 {
      var init := store[..|store| - 1];
      TermAmendmentsMembers(init, rootId);
      assert store == init + [store[|store| - 1]];
    }
  }

  function EndKey(c: Contract): int {
    if c.data.dataFim.Some? then DayNumber(c.data.dataFim.value) else 0
  }

  /** The chain comparator: by end date. */
  function EndLe(a: Contract, b: Contract): bool { EndKey(a) <= EndKey(b) }

  lemma EndLeTotalPreorder()
    ensures TotalPreorder(EndLe)
  {
  }

  predicate AllEndsReadable(cs: seq<Contract>) {
    forall k :: 0 <= k < |cs| ==> cs[k].data.dataFim.Some?
  }

  /** The root and its term amendments, in the order the chain sort gives them. */
  function TermChain(store: seq<Contract>, root: Contract, rootId: string): seq<Contract> {
    Sort([root] + TermAmendments(store, rootId), EndLe)
  }

  /** The root's payments with a service period end in [inicio, fim], in stored order. */
  function PaymentsInPeriod(ps: seq<Payment>, inicio: Date, fim: Date): (r: seq<Payment>)
    ensures |r| <= |ps|
    ensures forall p :: p in r <==> p in ps && InPeriod(p, inicio, fim)
    decreases |ps|
  {
    if |ps| == 0 then []
    else
      var rest := PaymentsInPeriod(ps[..|ps| - 1], inicio, fim);
      var p := ps[|ps| - 1];
      assert ps == ps[..|ps| - 1] + [p];
      if InPeriod(p, inicio, fim) then rest + [p] else rest
  }

  predicate InPeriod(p: Payment, inicio: Date, fim: Date) {
    p.info.periodoAte.Some?
    && DayNumber(inicio) <= DayNumber(p.info.periodoAte.value) <= DayNumber(fim)
  }

  function AmendmentPeriodOf(store: seq<Contract>, aditivoId: string, rootId: string): AmendmentPeriod {
    var ia := FindContract(store, aditivoId);
    var ir := FindContract(store, rootId);
    if ia < 0 || ir < 0 then NotFound
    else
      var ad := store[ia];
      var root := store[ir];
      if ad.aditivo.None? then NotAnAmendment
      else if ad.aditivo.value.tipo == GestorFiscal then NoPayments
      else if ad.aditivo.value.tipo == Valor || ad.aditivo.value.tipo == Outro then CannotFilter
      else ChainPeriod(TermChain(store, root, rootId), root, ad, aditivoId)
  }

  /** The window of amendment `ad` (with id `aditivoId`) in the ordered chain of `root`. */
  function ChainPeriod(chain: seq<Contract>, root: Contract, ad: Contract, aditivoId: string): AmendmentPeriod {
    var idx := FindContract(chain, aditivoId);
    if idx < 0 then NotInChain
    else if !AllEndsReadable(chain) || ad.data.dataFim.None? then UnreadableEndDate
    else if idx == 0 then NoPrevious
    else
      var inicio := NextDay(chain[idx - 1].data.dataFim.value);
      var fim := ad.data.dataFim.value;
      Period(inicio, fim, PaymentsInPeriod(root.pagamentos, inicio, fim))
  }

  // ---------------------------------------------------------------------------
  // The windows of a chain.

  /** The window of chain position `k`: from the day after record k-1 ends to the end of record k. */
  function WindowStart(chain: seq<Contract>, k: int): Date
    requires 1 <= k < |chain| && AllEndsReadable(chain)
  {
    NextDay(chain[k - 1].data.dataFim.value)
  }

  function WindowEnd(chain: seq<Contract>, k: int): Date
    requires 0 <= k < |chain| && AllEndsReadable(chain)
  {
    chain[k].data.dataFim.value
  }

  /** Each window starts the day after the previous one ends: consecutive windows leave no gap. */
  lemma WindowsAbut(chain: seq<Contract>, k: int)
    requires AllEndsReadable(chain) && 1 <= k < |chain|
    ensures DayNumber(WindowStart(chain, k)) == DayNumber(WindowEnd(chain, k - 1)) + 1
  {
    NextDayNumber(chain[k - 1].data.dataFim.value);
  }

  /** In an end-date-ordered chain, a later window starts after every earlier window ends. */
  lemma WindowsDisjoint(chain: seq<Contract>, k: int, m: int)
    requires AllEndsReadable(chain) && SortedBy(chain, EndLe)
    requires 1 <= k < m < |chain|
    ensures DayNumber(WindowEnd(chain, k)) < DayNumber(WindowStart(chain, m))
  {
    NextDayNumber(chain[m - 1].data.dataFim.value);
    if k < m - 1 {
      assert EndLe(chain[k], chain[m - 1]);
    }
  }

  /** So a payment date falls in at most one window of the chain. */
  lemma PaymentInOneWindow(chain: seq<Contract>, d: Date, k: int, m: int)
    requires AllEndsReadable(chain) && SortedBy(chain, EndLe)
    requires 1 <= k < |chain| && 1 <= m < |chain|
    requires DayNumber(WindowStart(chain, k)) <= DayNumber(d) <= DayNumber(WindowEnd(chain, k))
    requires DayNumber(WindowStart(chain, m)) <= DayNumber(d) <= DayNumber(WindowEnd(chain, m))
    ensures k == m
  {
    if k < m {
      WindowsDisjoint(chain, k, m);
    } else if m < k {
      WindowsDisjoint(chain, m, k);
    }
  }

  /** The chain is the root and its term amendments, ordered by end date. */
  lemma TermChainOrdered(store: seq<Contract>, root: Contract, rootId: string)
    ensures multiset(TermChain(store, root, rootId)) == multiset([root] + TermAmendments(store, rootId))
    ensures SortedBy(TermChain(store, root, rootId), EndLe)
  {
    EndLeTotalPreorder();
    SortSorted([root] + TermAmendments(store, rootId), EndLe);
  }

  /**
   * A period answer is the window of the amendment's position in the chain,
   * and lists exactly the root payments whose service period ends inside it.
   */
  lemma ChainPeriodIsWindow(chain: seq<Contract>, root: Contract, ad: Contract, aditivoId: string)
    requires ChainPeriod(chain, root, ad, aditivoId).Period?
    ensures AllEndsReadable(chain)
    ensures var r := ChainPeriod(chain, root, ad, aditivoId);
      && (exists k :: 1 <= k < |chain| && chain[k].id == aditivoId && r.inicio == WindowStart(chain, k))
      && r.fim == ad.data.dataFim.value
      && forall p :: p in r.pagamentos <==> p in root.pagamentos && InPeriod(p, r.inicio, r.fim)
  {
    var idx := FindContract(chain, aditivoId);
    assert 1 <= idx < |chain| && chain[idx].id == aditivoId;
  }

  /** No two stored records share an id (ids are creation timestamps). */
  predicate UniqueIds(store: seq<Contract>) {
    forall i, j :: 0 <= i < j < |store| ==> store[i].id != store[j].id
  }

  /**
   * With distinct ids, the amendment found in the store is the chain record
   * at its position, so a period answer is exactly that position's window.
   */
  lemma AmendmentPeriodIsWindow(store: seq<Contract>, aditivoId: string, rootId: string)
    requires UniqueIds(store)
    requires AmendmentPeriodOf(store, aditivoId, rootId).Period?
    ensures var r := AmendmentPeriodOf(store, aditivoId, rootId);
      var chain := TermChain(store, store[FindContract(store, rootId)], rootId);
      exists k :: 1 <= k < |chain| && AllEndsReadable(chain)
        && chain[k] == store[FindContract(store, aditivoId)]
        && r.inicio == WindowStart(chain, k) && r.fim == WindowEnd(chain, k)
  {
    var ia, ir := FindContract(store, aditivoId), FindContract(store, rootId);
    PeriodIsChainStep(store, aditivoId, rootId);
    var ad, root := store[ia], store[ir];
    var chain := TermChain(store, root, rootId);
    ChainPeriodIsWindow(chain, root, ad, aditivoId);
    var idx := FindContract(chain, aditivoId);
    assert 1 <= idx < |chain| && chain[idx].id == aditivoId;
    ChainRecordStored(store, root, rootId, chain[idx]);
    var j :| 0 <= j < |store| && store[j] == chain[idx];
    assert j == ia;
  }

  /** A period answer comes from the chain step on the records found. */
  lemma PeriodIsChainStep(store: seq<Contract>, aditivoId: string, rootId: string)
    requires AmendmentPeriodOf(store, aditivoId, rootId).Period?
    ensures FindContract(store, aditivoId) >= 0 && FindContract(store, rootId) >= 0
    ensures var root := store[FindContract(store, rootId)];
      AmendmentPeriodOf(store, aditivoId, rootId)
        == ChainPeriod(TermChain(store, root, rootId), root, store[FindContract(store, aditivoId)], aditivoId)
  {
  }

  /** Every record of the chain of a stored root is a stored record. */
  lemma ChainRecordStored(store: seq<Contract>, root: Contract, rootId: string, c: Contract)
    requires root in store && c in TermChain(store, root, rootId)
    ensures c in store
  {
    TermChainOrdered(store, root, rootId);
    TermAmendmentsMembers(store, rootId);
    assert c in multiset([root] + TermAmendments(store, rootId));
    if c != root {
      assert c in TermAmendments(store, rootId);
    }
  }

  /**
   * A missing amendment or root gives NotFound; otherwise each kind of
   * amendment gets its own answer, and only term amendments can get a period.
   */
  lemma PeriodOnlyForTermAmendments(store: seq<Contract>, aditivoId: string, rootId: string)
    ensures (FindContract(store, aditivoId) < 0 || FindContract(store, rootId) < 0) <==>
              AmendmentPeriodOf(store, aditivoId, rootId) == NotFound
    ensures FindContract(store, aditivoId) >= 0 && FindContract(store, rootId) >= 0 ==>
      var ad := store[FindContract(store, aditivoId)];
      && (ad.aditivo.None? <==> AmendmentPeriodOf(store, aditivoId, rootId) == NotAnAmendment)
      && (HasKind(ad, GestorFiscal) <==> AmendmentPeriodOf(store, aditivoId, rootId) == NoPayments)
      && (HasKind(ad, Valor) || HasKind(ad, Outro) <==> AmendmentPeriodOf(store, aditivoId, rootId) == CannotFilter)
      && (AmendmentPeriodOf(store, aditivoId, rootId).Period? ==> HasKind(ad, Prazo))
  {
    if FindContract(store, aditivoId) >= 0 && FindContract(store, rootId) >= 0 {
      FoundPeriodKinds(store, aditivoId, rootId);
    }
  }

  lemma FoundPeriodKinds(store: seq<Contract>, aditivoId: string, rootId: string)
    requires FindContract(store, aditivoId) >= 0 && FindContract(store, rootId) >= 0
    ensures AmendmentPeriodOf(store, aditivoId, rootId) != NotFound
    ensures var ad := store[FindContract(store, aditivoId)];
      && (ad.aditivo.None? <==> AmendmentPeriodOf(store, aditivoId, rootId) == NotAnAmendment)
      && (HasKind(ad, GestorFiscal) <==> AmendmentPeriodOf(store, aditivoId, rootId) == NoPayments)
      && (HasKind(ad, Valor) || HasKind(ad, Outro) <==> AmendmentPeriodOf(store, aditivoId, rootId) == CannotFilter)
      && (AmendmentPeriodOf(store, aditivoId, rootId).Period? ==> HasKind(ad, Prazo))
  {
    var ad := store[FindContract(store, aditivoId)];
    var root := store[FindContract(store, rootId)];
    var r := AmendmentPeriodOf(store, aditivoId, rootId);
    if ad.aditivo.None? {
      assert r == NotAnAmendment;
    } else if ad.aditivo.value.tipo == GestorFiscal {
      assert r == NoPayments;
    } else if ad.aditivo.value.tipo == Valor || ad.aditivo.value.tipo == Outro {
      assert r == CannotFilter;
    } else {
      var chain := TermChain(store, root, rootId);
      assert r == ChainPeriod(chain, root, ad, aditivoId);
      ChainPeriodAnswers(chain, root, ad, aditivoId);
    }
  }

  /**
   * The chain step answers by the amendment's place in the chain: not in the
   * chain first (whatever the order), then an unreadable end date, then first
   * in the chain (no previous record), and otherwise a period; never an answer
   * that belongs to the kind checks.
   */
  lemma ChainPeriodAnswers(chain: seq<Contract>, root: Contract, ad: Contract, aditivoId: string)
    ensures ChainPeriod(chain, root, ad, aditivoId) !in {NotFound, NotAnAmendment, NoPayments, CannotFilter}
    ensures (ChainPeriod(chain, root, ad, aditivoId) == NotInChain) <==>
              forall k :: 0 <= k < |chain| ==> chain[k].id != aditivoId
    ensures (ChainPeriod(chain, root, ad, aditivoId) == UnreadableEndDate) <==>
              (exists k :: 0 <= k < |chain| && chain[k].id == aditivoId)
              && (!AllEndsReadable(chain) || ad.data.dataFim.None?)
    ensures AllEndsReadable(chain) && ad.data.dataFim.Some? ==>
      && ((ChainPeriod(chain, root, ad, aditivoId) == NoPrevious) <==>
            |chain| > 0 && chain[0].id == aditivoId)
      && (ChainPeriod(chain, root, ad, aditivoId).Period? <==>
            exists k :: 1 <= k < |chain| && chain[k].id == aditivoId
                   && forall j :: 0 <= j < k ==> chain[j].id != aditivoId)
  {
    var idx := FindContract(chain, aditivoId);
    if idx >= 0 {
      assert chain[idx].id == aditivoId;
    }
  }
}
