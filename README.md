# cockpit-gestao — a Dafny model of its core logic

cockpit-gestao is a browser "cockpit" for a public-procurement office. It is a
set of small single-page apps. This project models the logic of four of them
and proves properties about that logic:

- **contratos**, the contract manager. Root contracts and their amendments
  ("aditivos") share one flat list. An amendment names its root in `parentId`.
  It also carries an `aditivo` record whose kind is `Valor`, `Prazo`,
  `GestorFiscal` or `Outro`. The model covers:
  - the family summary (`calcularResumoContrato`): aggregate value, end date,
    amount paid, day counts and percentages;
  - the payment window of a term amendment (`renderizarModalDetalharAditivo`);
  - the figures of the detail view (`renderizarModalVisualizar`): the
    consolidated and sorted payments, the burn-rate analysis, the per-year
    and per-item series, and the current manager and inspectors;
  - the operations that change the list: `salvarContrato`, `salvarPagamento`,
    `salvarDetalheItem`, `excluirPagamento` and `excluirItemDetalhe`;
  - the text helpers: `formatDate`/`parseDate`, the BRL input masks and
    `parseBRL`, `capitalizeWords`, `getItemColor`, and the CNPJ auto-fill lookup.
- **dashboard**, the request dashboard. The model covers:
  - its date helpers (`_native_safeParseDate`, `_native_startOfDay`,
    `_native_differenceInDays`, `_native_formatDate`);
  - the row preparation (`processRawData`) and the filter bar (`applyFilters`);
  - the `stats` helpers `mean`, `median`, `groupBy`, `countBy` and `getTopN`;
  - the analysis-time histogram.
- **conversor**, the converter. The model covers the month-period filter of
  the CSV step callback, and the Excel/CSV supplier normalisation and merge.
- **home**, the home page. The model covers:
  - the greeting by hour;
  - the contract figures recomputed from the contract store;
  - the count of granted ("deferida") requests;
  - the quote list filter.

Mutable state keeps the source's form:
- `ContractStore.ContractStore` is a class over the contract list.
- `DashboardData.Dashboard` holds `allData` and `filteredData`.
- `Conversor.CsvFilter` holds the rows, headers and row count that the step
  callback updates.
- The loops of the source are methods with loop invariants. Each is proved
  equal to a specification function: `ScanFamily`, `SumPayments`,
  `AccumulateSeries`, `CurrentManagers`, `AutoFill`, `Histogram`,
  `ScanRoots`, `ApplyQuoteFilters`, `ProcessCsv` and `CollectFiscais`.
- The lemmas state the properties of those functions.

Inputs that come from outside become parameters:
- "today" is a calendar date;
- the hour of the clock is an integer;
- the ids built from `Date.now()` are strings;
- parsed spreadsheet and CSV rows are records.

Dates are proleptic Gregorian calendar dates, compared through a day number
(`Calendar.DayNumber`). Money is exact (`real`). The date for one day later is
`Calendar.NextDay`.

Shared pieces:
- `JsStrings` models the JavaScript string and number conversions:
  `split`/`join`, `includes`, case mapping, `trim`, `padStart`, `parseInt`,
  `parseFloat`, `Number` and `replace`.
- `Sorting` models `Array.prototype.sort` with a consistent comparator, which
  is a stable sort.
- `GroupSum` models a plain object used as a dictionary of running sums.

## Model

| member | source | states |
|---|---|---|
| ContractSummary.Summarize | apps/contratos/script.js:680-760 | the summary method returns exactly the summary of the family (root first, then its amendments in store order) |
| ContractSummary.ScanFamily | apps/contratos/script.js:692-712 | the one-pass `forEach` yields the family value, the aggregate end date and the family payments as the specification functions define them |
| ContractSummary.SumPayments | apps/contratos/script.js:694 | the payment `reduce` of a record is the sum of its `valorPago` |
| ContractSummary.NonFinancialAmendmentsInert | apps/contratos/script.js:697-711 | records that are neither value nor term amendments change neither the family value nor the end date |
| ContractSummary.AggEndIsLatest | apps/contratos/script.js:686-710 | the aggregate end date is never earlier than the root's, is at least every readable term-amendment end, and is one of those dates; an unreadable root end stays unreadable |
| ContractSummary.ExtendEndStep | apps/contratos/script.js:705-709 | one step of the end-date scan never moves a readable end back, and it reaches a term amendment's later end |
| ContractSummary.AggValueAppend | apps/contratos/script.js:685-702 | the family value is a left fold: scanning two stretches is scanning the first, then the second from its result |
| ContractSummary.NewAmendmentValue | apps/contratos/script.js:682-702 | saving one more amendment of a root raises the family value by that amendment's `valorTotal` when it is a value or term amendment, and by 0 otherwise |
| ContractSummary.FamilyPaidAppend | apps/contratos/script.js:692-694 | the total paid adds up over every record of the family, with no TRD or date exclusion |
| ContractSummary.DayCountsPartition | apps/contratos/script.js:725-737 | total = end − start + 1; elapsed + remaining = total in every branch; elapsed is 0 before the start; remaining is 0 after the end; elapsed is counted inclusively inside the period |
| ContractSummary.PercentBounds | apps/contratos/script.js:739-757 | each percentage is capped at 100, is 0 for a non-positive denominator, is non-negative for a non-negative part, and is exactly 100 once the part reaches the whole |
| ContractSummary.SummaryPercentages | apps/contratos/script.js:714-757 | for every summary: percTempo lies in [0, 100]; percValor ≤ 100; elapsed + remaining days = total days; valorRestante = value − paid, unclamped |
| ContractSummary.SummaryFailsIff | apps/contratos/script.js:680-760 | the summary fails (the `toISOString` of an invalid date throws) exactly when the root's own end date is unreadable; otherwise its final end is never before the root's |
| ContractModel.AmendmentsMembers | apps/contratos/script.js:682 | the amendments of a root are exactly the stored records whose `parentId` is that root's id |
| ContractModel.FindContract | apps/contratos/script.js:1675 | `findIndex`: −1 when no record has the id; otherwise the first index holding it |
| ContractModel.FirstIndex | apps/contratos/script.js:1675 | the `findIndex` search on ids: −1 exactly when the id is absent; otherwise the first position holding it |
| ContractModel.FindPayment | apps/contratos/script.js:1737 | `findIndex` on payments: −1 when absent; otherwise the first index with that id |
| ContractModel.PaymentsTotalAppend | apps/contratos/script.js:694 | the payment sum is additive over concatenation |
| ContractWindow.TermAmendmentsMembers | apps/contratos/script.js:1384-1386 | the chain members besides the root are exactly the stored term amendments of that root |
| ContractWindow.TermChainOrdered | apps/contratos/script.js:1384-1387 | the chain is a permutation of the root plus its term amendments, sorted by end date |
| ContractWindow.PaymentsInPeriod | apps/contratos/script.js:1416-1420 | a root payment is listed exactly when its `periodoAte` is set and lies in [start, end]; at most as many as the root's payments |
| ContractWindow.ChainPeriodIsWindow | apps/contratos/script.js:1390-1420 | a period answer runs from the day after the previous chain record's end to the amendment's own end, and lists exactly the root payments whose period ends inside it |
| ContractWindow.AmendmentPeriodIsWindow | apps/contratos/script.js:1333-1413 | with distinct ids, the amendment found is the chain record at its position, and a period answer is exactly that position's window, start and end |
| ContractWindow.PeriodOnlyForTermAmendments | apps/contratos/script.js:1333-1379 | the answer is NotFound exactly when the amendment or the root is missing; once both are found, a record without amendment data gives NotAnAmendment, a manager/inspector amendment gives NoPayments; value and "other" amendments give CannotFilter; only a term amendment reaches the chain |
| ContractWindow.ChainPeriodAnswers | apps/contratos/script.js:1384-1406 | the chain step answers not-in-chain exactly when no chain record has the id; UnreadableEndDate exactly when some record has it and some chain record or the amendment has no readable end; otherwise no-previous exactly when the first chain record has it, and a period exactly when its first occurrence is past the first place; never a kind answer |
| ContractWindow.WindowsAbut | apps/contratos/script.js:1398-1413 | each window starts the day after the previous window ends |
| ContractWindow.WindowsDisjoint | apps/contratos/script.js:1384-1413 | in the end-date-ordered chain, a later window starts after every earlier one ends |
| ContractWindow.PaymentInOneWindow | apps/contratos/script.js:1409-1420 | a payment date falls in at most one amendment window |
| ContractWindow.EndLeTotalPreorder | apps/contratos/script.js:1387 | the chain comparator is total and transitive |
| ContractView.Tag | apps/contratos/script.js:824-828 | each consolidated payment is the original payment with the id of the record it came from |
| ContractView.ConsolidatedTotal | apps/contratos/script.js:824-831 | the consolidated list holds exactly the money the summary counts as paid |
| ContractView.ConsolidatedOrigin | apps/contratos/script.js:824-831 | every consolidated entry is a payment of the record its tag names, and every family payment is listed with its record's id |
| ContractView.PaymentLeTotalPreorder | apps/contratos/script.js:834-861 | the table comparator is a total preorder, so the sort is well defined |
| ContractView.PaymentLeIsKeyOrder | apps/contratos/script.js:834-861 | the comparator is the lexicographic order on (has no period start, period start, payment date) |
| ContractView.PaymentTableOrdered | apps/contratos/script.js:834-861 | the table is a permutation of the consolidated payments, ordered by the comparator; a payment with a period start never follows one without |
| ContractView.MinOf | apps/contratos/script.js:881 | `Math.min` of the period ends is one of them and no larger than any |
| ContractView.MaxOf | apps/contratos/script.js:882 | `Math.max` of the period ends is one of them and no smaller than any |
| ContractView.PeriodEndsComplete | apps/contratos/script.js:875-880 | every payment with a `periodoAte` contributes its day; there are none exactly when no payment has one |
| ContractView.PeriodEndsMembers | apps/contratos/script.js:875-880 | the period ends are exactly the days of the dated payments |
| ContractView.PaymentMonthsOrderFree | apps/contratos/script.js:875-892 | the month count depends only on which payments there are, not on their order |
| ContractView.PaymentMonthsRange | apps/contratos/script.js:876-892 | no dated payment gives 0 months; otherwise at least 1 month and at least the date span / 30.44 |
| ContractView.BurnRateAlert | apps/contratos/script.js:895-907 | the alert holds exactly when the monthly spend is positive (runway finite) and the runway is below the remaining days |
| ContractView.BurnRateBounds | apps/contratos/script.js:876-905 | the monthly spend lies in [0, totalPago]; with no dated payment it is 0, the runway is Infinity and there is no alert; with a dated payment and money paid the runway is finite |
| ContractView.BurnRateSpread | apps/contratos/script.js:895-907 | the monthly spend times the months is the total paid; with no months there is no spend and no alert; a runway on a value not overspent never beats 0 remaining days |
| ContractView.DetailBurnRate | apps/contratos/script.js:813-907 | the burn-rate panel exists exactly when the family summary it reads succeeds |
| ContractView.DetailBurnRateOfSummary | apps/contratos/script.js:875-907 | fed from the family summary and the sorted payment table, the month count is that of the consolidated payments in any order, and the monthly spend is their money over those months; no months means no spend and no alert; a contract whose period is over and whose value is not overspent raises no alert |
| ContractView.BurnRateDeviation | apps/contratos/script.js:898-900 | with a positive estimate and spend, the deviation is positive exactly when the spend exceeds the estimate |
| ContractView.AccumulateSeries | apps/contratos/script.js:911-935 | the single pass fills the per-year totals, the per-item totals and their grand total as grouping the year and item contributions would |
| ContractView.AccumulateItems | apps/contratos/script.js:922-933 | the inner pass over line items adds each positive quantity × unit value under its description, and to the grand total |
| ContractView.GroupStep | apps/contratos/script.js:915-930 | one more contribution updates the running dictionary exactly as grouping the longer list |
| ContractView.AnnualSeriesOrdered | apps/contratos/script.js:938-941 | the annual series is the year totals reordered by ascending year |
| ContractView.ConsumptionSeriesOrdered | apps/contratos/script.js:943-947 | the consumption series is the item shares reordered by descending total |
| ContractView.ConsumptionSharesAddUp | apps/contratos/script.js:943-947 | when some line item has a positive value, the item percentages add up to 100 |
| ContractView.CurrentManagers | apps/contratos/script.js:952-967 | the newest-first scan over the amendments yields the manager and inspectors that Managers defines |
| ContractView.FiscaisAreNewest | apps/contratos/script.js:956-966 | the inspectors are those of the newest manager/inspector amendment with a non-empty list, and are empty when there is none |
| ContractView.GestorIsNewest | apps/contratos/script.js:952-961 | the manager is "N/D" when no amendment names one; otherwise it is the newest named one; when that one is itself called "N/D", the manager is the newest earlier named one, or that "N/D" person when there is none |
| ContractStore.ContractStore.SaveContract | apps/contratos/script.js:1598-1698 | a refused save leaves the list unchanged and reports why; an accepted one edits the record (keeping id, parent and payments) or appends a new record, with the prepared data |
| ContractStore.ContractStore.SavePayment | apps/contratos/script.js:1712-1755 | without the contract, an error and no change; editing replaces the form fields of the first payment with the id and keeps its id and items; a new payment is appended with no items; other records are untouched |
| ContractStore.ContractStore.SaveLineItem | apps/contratos/script.js:1774-1795 | appends the item to the payment's items; a missing contract or payment means no change |
| ContractStore.ContractStore.DeletePayment | apps/contratos/script.js:1799-1803 | the contract's payments become those with another id, in order; everything else stays |
| ContractStore.ContractStore.DeleteLineItem | apps/contratos/script.js:1811-1817 | the payment's items become those with another id, in order; everything else stays |
| ContractStore.CollectFiscais | apps/contratos/script.js:1633-1641 | the loop over inspector rows keeps the complete rows in form order |
| ContractStore.FilledFiscais | apps/contratos/script.js:1638 | an inspector is kept exactly when both name and registration number are filled |
| ContractStore.OptionalText | apps/contratos/script.js:1621 | `trim()` or null: None exactly for blank text, otherwise the trimmed text |
| ContractStore.ManagerAmendmentShape | apps/contratos/script.js:1627-1655 | a saved manager/inspector amendment has a named manager, at least one complete inspector and value 0, and keeps its root's end date |
| ContractStore.ValueAndCooperationRules | apps/contratos/script.js:1610-1663 | a value amendment keeps its root's end date; a cooperation agreement has no value and no monthly estimate |
| ContractStore.PrepareAcceptsRoots | apps/contratos/script.js:1610-1616 | a root contract is always accepted, with only the cooperation rule applied |
| ContractStore.EditKeepsIdentity | apps/contratos/script.js:1673-1683 | editing keeps every other record and the edited record's id, parent and payments |
| ContractStore.CreateAppends | apps/contratos/script.js:1684-1698 | creating appends one record with the new id, the given parent and no payments |
| ContractStore.NewManagerAmendmentInert | apps/contratos/script.js:1627-1655 | creating a manager/inspector amendment leaves the family value and end date unchanged |
| ContractStore.EditPaymentEffect | apps/contratos/script.js:1735-1744 | editing a payment keeps length, ids and items, and changes the total by the value difference |
| ContractStore.AddPaymentTotal | apps/contratos/script.js:1745-1752 | a new payment raises the total by its value |
| ContractStore.RemovePayment | apps/contratos/script.js:1803 | the kept payments are exactly those with another id |
| ContractStore.RemovePaymentTotal | apps/contratos/script.js:1803 | deleting lowers the total by exactly the payments with that id |
| ContractStore.RemovePaymentInOrder | apps/contratos/script.js:1803 | the kept payments keep their stored order |
| ContractStore.RemovePaymentIdempotent | apps/contratos/script.js:1803 | deleting twice is deleting once |
| ContractStore.RemoveItem | apps/contratos/script.js:1817 | the kept line items are exactly those with another id |
| ContractStore.RemoveItemInOrder | apps/contratos/script.js:1817 | the kept line items keep their stored order |
| ContractStore.RemoveItemIdempotent | apps/contratos/script.js:1817 | deleting an item twice is deleting it once |
| ContractText.FormatIsoDate | apps/contratos/script.js:30-40 | "YYYY-MM-DD" is shown as "DD/MM/YYYY" |
| ContractText.ParseBrazilianDate | apps/contratos/script.js:42-46 | "DD/MM/YYYY" is stored as "YYYY-MM-DD" |
| ContractText.DateRoundTrip | apps/contratos/script.js:30-46 | parseDate(formatDate(iso)) gives the ISO text back |
| ContractText.FormatDateIdempotent | apps/contratos/script.js:30-40 | formatting an already formatted value changes nothing |
| ContractText.ParseDateTwoParts | apps/contratos/script.js:44-45 | a date with only two parts puts "undefined" where the year goes |
| ContractText.ItemColor | apps/contratos/script.js:49-61 | the colour is one of the four chart colours |
| ContractText.ItemColorIgnoresCase | apps/contratos/script.js:50 | the colour does not depend on letter case |
| ContractText.ItemColorOfMarkers | apps/contratos/script.js:51-58 | a "cnd…" item is orange; a "faixa 2…" item is never grey |
| ContractText.GroupThousandsDigits | apps/contratos/script.js:77-96 | thousands grouping only inserts dots: removing them, or keeping only digits, gives the digits back |
| ContractText.GroupThousandsLength | apps/contratos/script.js:77-96 | grouping adds one dot per full group of three digits after the first |
| ContractText.StripLeadingZerosValue | apps/contratos/script.js:76-95 | dropping leading zeros keeps the value of the digits |
| ContractText.WholeAndFraction | apps/contratos/script.js:71-95 | the typed digits equal whole·10^decimals + fraction in value |
| ContractText.MaskShape | apps/contratos/script.js:64-99 | the mask is empty exactly when no digit was typed; otherwise it is "<grouped whole>,<fraction of `decimals` digits>" |
| ContractText.ParseMaskedAmount | apps/contratos/script.js:64-105 | `parseBRL` of a masked input is the typed digits read with `decimals` fraction digits (0 for none) |
| ContractText.MaskIdempotent | apps/contratos/script.js:64-99 | masking a masked value again changes nothing |
| ContractText.CapitalizeWordsLength | apps/contratos/script.js:108-117 | capitalising keeps the length |
| ContractText.LowerCapitalized | apps/contratos/script.js:111-116 | lower-casing a capitalised lower-case word gives the word back |
| ContractText.CapitalizeWordsIdempotent | apps/contratos/script.js:108-117 | capitalising twice is capitalising once |
| ContractText.FirstPartySpec | apps/contratos/script.js:2284-2325 | a party is found exactly when some stored party's CNPJ digits match; it comes from the first contract with a match, preferring the field looked up first |
| ContractText.LookupCnpjSpec | apps/contratos/script.js:2279-2325 | nothing is found for fewer than 14 typed digits; otherwise the first matching party, as above |
| ContractText.AutoFill | apps/contratos/script.js:2279-2335 | the loop with its early exit fills the form from exactly the party the lookup finds, with name and representative capitalised, and fills nothing when none |
| DashboardDates.MakeDate | apps/dashboard/script.js:19-41 | a built date has the given month and day, and the given year from 100 on |
| DashboardDates.SafeParseDate | apps/dashboard/script.js:10-51 | a missing or empty text gives null; a parsed date has a valid time of day |
| DashboardDates.StartOfDay | apps/dashboard/script.js:58-63 | null for null; otherwise the same day at 00:00:00 |
| DashboardDates.DifferenceInDaysDays | apps/dashboard/script.js:71-86 | null exactly when an argument is missing; the time of day does not matter; the same calendar day gives 0 |
| DashboardDates.DifferenceInDaysAlgebra | apps/dashboard/script.js:71-86 | swapping the arguments negates the difference, and differences add up along a path |
| DashboardDates.DifferenceInDaysNextDay | apps/dashboard/script.js:71-86 | from a day to the next day is 1 day |
| DashboardDates.IsoRoundTrip | apps/dashboard/script.js:14-22 | writing a date as "yyyy-MM-dd" and reading it back gives the start of the same day (years ≥ 100) |
| DashboardDates.TwoDigitsReads | apps/dashboard/script.js:97-98 | month and day are written as two digits that read back as the number |
| DashboardDates.MonthKeyShape | apps/dashboard/script.js:235-239 | the month key is "YYYY-MM", with a zero-padded month that reads back |
| DashboardDates.ShortFormShape | apps/dashboard/script.js:103-104 | "dd/MM/yy" is the two-digit day, the two-digit month and the last two digits of the year |
| DashboardDates.LastTwoValue | apps/dashboard/script.js:104 | `substr(-2)` of a year of at least two digits is the year modulo 100 |
| DashboardData.ProcessRawData | apps/dashboard/script.js:208-263 | every row is kept, in order, with its derived fields |
| DashboardData.ProcessRowFields | apps/dashboard/script.js:213-243 | the analysis time is set exactly when both dates parse, and is their day difference; the month and day keys are set exactly when the analysis date parses; the day key reads back as that day's start |
| DashboardData.Dashboard.Load | apps/dashboard/script.js:208-263 | loading stores the processed rows and shows all of them |
| DashboardData.Dashboard.ApplyFilters | apps/dashboard/script.js:324-368 | the filtered rows are those of allData matching the criteria read from the inputs; allData is unchanged |
| DashboardData.FilterRows | apps/dashboard/script.js:345-367 | a row is kept exactly when it is one of the rows and matches all four tests |
| DashboardData.UndatedRow | apps/dashboard/script.js:346-352 | a row without an analysis date passes the date test exactly when neither bound is set |
| DashboardData.DatedRow | apps/dashboard/script.js:343-358 | a dated row passes exactly when start ≤ its day ≤ end, both ends included |
| DashboardData.NoFilterKeepsAll | apps/dashboard/script.js:337-366 | no date bound and "all" everywhere keep every row |
| DashboardData.FilterIdempotent | apps/dashboard/script.js:345-367 | filtering the filtered rows again changes nothing |
| DashboardStats.MeanBounds | apps/dashboard/script.js:393-394 | the mean lies between any lower and upper bound of the values |
| DashboardStats.EmptyStats | apps/dashboard/script.js:393-396 | mean and median are 0 for no values |
| DashboardStats.MedianOfSorted | apps/dashboard/script.js:395-402 | on sorted values the median is the middle element, or the mean of the two middle elements |
| DashboardStats.MedianOrderFree | apps/dashboard/script.js:397 | the median does not depend on the order of the values |
| DashboardStats.MedianBetween | apps/dashboard/script.js:395-402 | the median lies between two of the values |
| DashboardStats.GroupByCorrect | apps/dashboard/script.js:411-415 | the groups have distinct keys; a key that occurs gets exactly the items with that key, in input order; other keys get no group |
| DashboardStats.GroupBySizes | apps/dashboard/script.js:411-415 | the groups together hold as many items as the input |
| DashboardStats.CountByCorrect | apps/dashboard/script.js:416-420 | the keys are distinct; each occurring key counts its items and no other key has a count; the counts add up to the input length |
| DashboardStats.TopNSpec | apps/dashboard/script.js:421-424 | at most n entries, taken from the input, in non-increasing count order, each at least as frequent as any entry left out |
| DashboardCharts.ValidTimes | apps/dashboard/script.js:669-671 | the valid times are exactly the non-null, non-negative analysis times |
| DashboardCharts.MaxTempo | apps/dashboard/script.js:672 | `Math.max(...tempos, 30)` is at least 30 and every time, and is 30 or one of the times |
| DashboardCharts.BinSize | apps/dashboard/script.js:673 | the bin width is 1, 2 or 5 |
| DashboardCharts.BinSizeNeverOne | apps/dashboard/script.js:672-673 | since the maximum is at least 30, one-day bins never occur |
| DashboardCharts.Histogram | apps/dashboard/script.js:669-687 | the labels reach just past the largest time, and each count is the number of valid times in its bin |
| DashboardCharts.EveryTimeHasBin | apps/dashboard/script.js:676-686 | every time up to the maximum has an existing label |
| DashboardCharts.HistogramTotal | apps/dashboard/script.js:669-687 | every valid time lands in exactly one bin: the counts add up to the number of valid times |
| Conversor.MonthValueOf | apps/conversor/script.js:38-43 | a "YYYY-MM" input reads as year·100 + month |
| Conversor.RowValueOf | apps/conversor/script.js:71-75 | a "DD/MM/YYYY[ time]" date has the value year·100 + month |
| Conversor.KeepRowOfDate | apps/conversor/script.js:70-76 | a dated row is kept exactly when year·100 + month lies in [rangeStart, rangeEnd] |
| Conversor.UndatedNeverKept | apps/conversor/script.js:70-72 | a row with a missing date, or a date with no '/', is never kept |
| Conversor.KeptMembers | apps/conversor/script.js:76 | a row is kept exactly when it is one of the rows and passes the date test |
| Conversor.KeptAppend | apps/conversor/script.js:60-79 | kept rows keep input order across the stream |
| Conversor.HeadersFromFirst | apps/conversor/script.js:79 | the headers are those of the first step that offers some; later steps never change them |
| Conversor.CsvFilter.Step | apps/conversor/script.js:60-80 | one callback counts the row, appends it when kept, and sets the headers only if none were set |
| Conversor.ProcessCsv | apps/conversor/script.js:35-80 | no period means no run; otherwise the result is the kept rows in order, the first headers and the row count |
| Conversor.CleanId | apps/conversor/script.js:146-173 | the cleaned id holds only ASCII letters and digits |
| Conversor.CleanIdIdempotent | apps/conversor/script.js:146-173 | cleaning twice is cleaning once |
| Conversor.CleanIdKeepsDigits | apps/conversor/script.js:146-173 | cleaning keeps every digit of the raw id |
| Conversor.ExcelDefaults | apps/conversor/script.js:178-183 | a blank registration date becomes "0" and a blank type "null"; otherwise the trimmed text |
| Conversor.ExcelWellFormed | apps/conversor/script.js:169-191 | a normalised spreadsheet row has a clean id and a date and type that are never blank |
| Conversor.ExtraWellFormed | apps/conversor/script.js:142-156 | a normalised CSV row has a clean id, date "0" and type "null" |
| Conversor.Merge | apps/conversor/script.js:197-208 | the merged list is every spreadsheet row, then every CSV row, each normalised; its length is the sum of the two |
| Conversor.MergeWellFormed | apps/conversor/script.js:142-197 | every merged record is well formed |
| Conversor.MergeSplits | apps/conversor/script.js:197 | the merge is the normalised spreadsheet part followed by the normalised CSV part |
| Home.GreetingByHour | apps/home/script.js:51-56 | morning for 5 to 11, afternoon for 12 to 17, night otherwise; the initial "Olá" is never shown |
| Home.RootsMembers | apps/home/script.js:239 | the roots are exactly the stored contracts whose parent id is falsy: missing or 0 |
| Home.FamilyMembers | apps/home/script.js:260-262 | a family is exactly the root and the contracts whose parent it is |
| Home.ForceUpdateContratos | apps/home/script.js:233-279 | the four figures are those StatsOf defines over the root contracts |
| Home.ScanRoots | apps/home/script.js:246-272 | the `forEach` accumulators equal the active count, the expiring count, the active value and the family payment count |
| Home.CountFamilyPayments | apps/home/script.js:263-265 | the inner loop adds up the payment counts of the family |
| Home.VencendoAtMostAtivos | apps/home/script.js:267-271 | expiring ≤ active ≤ number of roots |
| Home.ExpiringWindow | apps/home/script.js:251-270 | a contract is expiring exactly when it has a readable end date 0 to 89 days ahead |
| Home.AmendmentNotCounted | apps/home/script.js:239-271 | adding a record with a truthy parent id (an amendment) changes none of the active-contract figures |
| Home.PaymentsIgnoreStatus | apps/home/script.js:259-265 | the payment count does not depend on the statuses |
| Home.CountDeferidas | apps/home/script.js:307-310 | deferidas ≤ total; all exactly when every item is deferida; none exactly when no item is |
| Home.PercentDeferidas | apps/home/script.js:315-316 | the percentage lies in [0, 100], and is 100 exactly when there are messages and all are deferida |
| Home.StatusDecides | apps/home/script.js:308 | when a status is present, the item is deferida exactly when the status is "Deferida", whatever the message says |
| Home.ApplyQuoteFilters | apps/home/script.js:553-579 | each item is displayed exactly when it is visible, and the count is the number of visible items |
| Home.EmptyFiltersShowAll | apps/home/script.js:553-579 | with all three terms empty every quote is visible |
| Home.SelectedQuoteVisible | apps/home/script.js:519-572 | choosing a quote's own author and category keeps it visible |
| Home.SearchIgnoresCase | apps/home/script.js:554-556 | the filter does not depend on the case of the terms |
| Sorting.SortSorted | apps/dashboard/script.js:397 | the comparator sort is ordered and a permutation of its input |
| Sorting.SortedUnique | apps/dashboard/script.js:397 | without ties between distinct values, the sorted arrangement of a multiset is unique |
| Sorting.SortOfSorted | apps/dashboard/script.js:397 | sorting sorted values changes nothing |
| Sorting.SortStable | apps/dashboard/script.js:397 | the sort is stable: the elements that tie with any given value appear in the result in their input order |
| GroupSum.GroupCorrect | apps/dashboard/script.js:416-420 | the entries have distinct keys; each key that received a contribution has the sum of what it received; other keys have no entry |
| GroupSum.GroupTotal | apps/dashboard/script.js:416-420 | the entry totals add up to the contributions |
| JsStrings.JoinSplit | apps/contratos/script.js:111-116 | `join` undoes `split` on the same separator |
| JsStrings.SplitJoin | apps/contratos/script.js:111-116 | `split` undoes `join` for parts free of the separator |
| JsStrings.ParseIntPadded | apps/conversor/script.js:42-74 | `parseInt` reads back a decimal number, with or without leading zeros |
| JsStrings.ParseFloatDecimal | apps/contratos/script.js:104 | `parseFloat` of "<digits>.<digits>" is the decimal value it spells |
| JsStrings.ToNumberPadded | apps/dashboard/script.js:19 | `Number` reads back a zero-padded decimal number |
| JsStrings.OnlyDigitsIdempotent | apps/contratos/script.js:65 | removing non-digits twice is removing them once |
| JsStrings.ToLowerIdempotent | apps/contratos/script.js:50 | lower-casing twice is lower-casing once |
| JsStrings.IndexOf | apps/contratos/script.js:104 | the first position of the character, or −1 exactly when it is absent |
| Calendar.NextDayNumber | apps/contratos/script.js:1411 | the next calendar day has the next day number |

## Left out

- DOM and rendering are not modelled:
  - the HTML building, Chart.js charts, modals, toasts and the form stepper (`validateStep`, `saveStepData`);
  - `renderTeamPerformance` and the other panels;
  - the histogram label strings (a bin is identified by its index).
- I/O is not modelled, because the model starts from parsed records:
  - localStorage, IndexedDB and `fetch`;
  - Papa.parse and XLSX reading, CSV writing (`Papa.unparse`) and Blob downloads;
  - the PDF reports and JSON import/export.
- Timers, the clock and randomness are not modelled. "Today", the hour and the `Date.now()` ids are parameters.
- Daylight saving and time zones are not modelled. Dates are compared by day number. The contract manager and the dashboard read dates at local midnight, and for them that is what the source computes outside DST shifts. The home page does not; see the Home.DaysLeft line below.
- Home.DaysLeft and Home.ExpiringWindow: the day count is the difference of day numbers. The home page instead reads `vigenciaFim` as UTC midnight and subtracts the current instant, so its count depends on the time zone and the hour. In UTC−3 it is one less from 21:00 local time on: a contract ending that day counts −1 and is not expiring, and one ending 90 days ahead counts 89 and is.
- Home.WithoutParent: home models integer ids, for which only 0 is falsy. The contract manager writes string ids (`contrato_` followed by a timestamp). For those, "" is falsy and "0" is truthy, and the model does not cover that.
- DashboardDates.MakeDate: month, day or time fields out of range give None. JavaScript would normalise them into a neighbouring month or day.
- JsStrings.ToNumber reads only a digit string after trimming, or the empty string as 0. JavaScript's `Number` also reads a sign, a fraction, hex and an exponent ("+5", "1.5", "0x10", "1e1"). So the date constructor of the dashboard, which truncates such values, reads "2024-01-1.5" as 1 January 2024, where the model gives None.
- DashboardDates.SafeParseDate: the engine's native date parser, tried last, is not modelled. Text that neither the "-" branch nor the "/" branch reads gives None.
- JsStrings.LowerChar and JsStrings.UpperChar map case exactly only for ASCII and for the Latin-1 letters other than U+00DF (sharp s), U+00B5 (micro sign) and U+00FF (y diaeresis). Those three and every character outside Latin-1 are left unchanged. JavaScript upper-cases sharp s to the two letters "SS", sends the micro sign to U+039C and y diaeresis to U+0178, and maps letters of the other Unicode blocks. The texts the application cases (item descriptions, names, quote searches) are Portuguese, and the model does not cover full Unicode case tables.
- ItemColorIgnoresCase: proved under that case mapping only. In JavaScript, "emißão" is grey but its upper-case form lowers to "emissão", which gets another colour.
- CapitalizeWordsLength: proved under that case mapping only. JavaScript capitalises "ßa" to the three letters "SSa".
- LowerCapitalized: proved under that case mapping only. JavaScript capitalises "ßa" to "SSa", which lowers to "ssa".
- CapitalizeWordsIdempotent: proved under that case mapping only. JavaScript capitalises "ßa" to "SSa", and capitalising that again gives "Ssa".
- SearchIgnoresCase: proved under that case mapping only. In JavaScript, a search for "µ" and a search for its upper-case form give different matches.
- ContractWindow.TermAmendments: a record that names the root as parent but has no `aditivo` is skipped. The chain filter of the source would throw reading its `tipo`. `ContractStore.ContractStore.SaveContract` never creates such a record: a new record with a parent gets an `aditivo`, and an edit never removes one. An imported store could still hold one.
- Locale formatting is not modelled, because it is display only: `toLocaleString`, `formatCurrency`, `toFixed` in the deferida percentage, and `formatMoneyCompact`.
- `stdDev` is not modelled, because it needs `Math.sqrt`.
- Floating-point rounding is not modelled, because all money and ratios are exact `real`s.
- NaN from unreadable numbers is modelled only where the source tests for it:
  - `parseInt` in the conversor is modelled (None);
  - `parseFloat(x) || 0` on stored values is assumed already applied, so records hold numbers;
  - a line item quantity that is not a number counts as 0.
- ContractView.PaymentLeTotalPreorder and ContractView.PaymentTableOrdered: a payment's `data` is a required, readable date, and a `periodoDe` that is set but unreadable counts as absent. In the source, an empty `data` or such a `periodoDe` makes the comparator return NaN, and the engine's order is then implementation-defined.
- JsStrings.ParseFloat reads digits with an optional fraction only. It leaves out the exponent and "Infinity": JavaScript reads `parseFloat("1e3")` as 1000, the model as 1. It is applied only in `parseBRL`, whose input comes from the BRL input masks. Those keep only digits and separators, so the input never holds either.
- ContractView.PeriodEndsComplete: a `periodoAte` text that is set but unreadable counts as absent. The source would carry NaN into the month count.
- ContractView.AccumulateSeries: the annual series drops a payment with a positive value whose `periodoAte` is set but unreadable. The source keys it under the year `getFullYear()` gives, NaN, and charts a "NaN" year.
- ContractWindow.AmendmentPeriodIsWindow requires distinct record ids, as the creation timestamps give. With a duplicated id the source takes the start from the chain record that `findIndex` finds and the end from the record that `find` finds, and those can be different records.
- ContractWindow.TermChainOrdered: if the amendment is in its chain and some chain record has no readable end date, the window answer is UnreadableEndDate. The source's comparator would then return NaN, and the engine's sort order would be implementation-defined.
- DashboardStats.GroupByCorrect: a key is any value with equality. JavaScript turns object keys into strings and lists integer-like keys first. That key order of `Object.keys` is not modelled.
- GroupSum.GroupCorrect: the same key-order limitation applies to `Object.keys`.
- Home.PercentDeferidas: the exact ratio is modelled, before `toFixed(0)` rounding.
- The following app parts are not modelled: the route fallback in main.js, the triple-click detector, the quote selection, the stoic quote cache, and the select-option building.
- The source has no TRD or future-payment exclusion, no fallback to the root's own manager, and no TRD split in the amendment window. The model follows the code in all three.

## Findings

None.
