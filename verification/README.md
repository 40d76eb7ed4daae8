# Factory admin dashboard — client-side rules in Dafny

This project models the client-side logic of a factory administration
dashboard, a React/TypeScript single-page application. It covers:

- the piece-rate salary import (spreadsheet rows, worker and price
  reconciliation, batched submission);
- the wage log search, its summary and raw exports, and the two wage log
  editors;
- the inventory ledger, stocktake and stock-operation pages, product
  creation, and the inventory log query;
- the spec, process, spec-model, wage-price and worker maintenance pages;
- the company ledger transactions and company accounts;
- the role-filtered sidebar, the registration audit, and the login and
  registration form rules.

Each page is one Dafny module, holding immutable datatypes and pure functions.
A method appears only where the page runs a loop worth stating invariants for:
the batched import, the ledger filter, the phone check and the two page
totals.
Requests sent to the server are values the functions return. Server replies,
number parsing and request outcomes are parameters. A request that fails
throws before the page's state is touched, so each page's reaction to a
request takes its outcome (an `ok` flag, the reply, or the record fetched
back) and leaves the state as it was when the request failed. `Common` holds the
JavaScript primitives the pages share: `filter`, `find`, `includes`,
`toLowerCase`, `trim`, `slice` and string comparison.

Three points of the salary import are easy to misread, and the model
states what the code does:

- **Amount guard.** The amount is computed after a zero group size has
  been turned into 1 (`|| 1`), so the `group === 0` branch that would give
  an amount of 0 is dead. `SalaryImport.RowAmountMeaning` states this.
- **Order of the two passes.** The worker pass and the price pass both
  write the row status. They commute on every field except the status,
  which the later pass decides. `SalaryImport.PassesCommuteExceptStatus`
  and `SalaryImport.PassOrderDecidesStatus` state this.
- **Amount uses the unrounded price.** The amount is computed from the
  unrounded price, and the unit price is rounded separately, to two
  decimals (`SalaryImport.PriceRow`).

## Model

| member | source | states |
|---|---|---|
| Common.Filter | src/pages/inventory/InventoryManage.tsx:96-108 | `Array.prototype.filter`: an order-preserving subsequence that keeps exactly the elements satisfying the predicate |
| Common.FilterAll | src/pages/inventory/ProductManage.tsx:203 | a filter every element passes returns the whole list unchanged |
| Common.FilterCongruent | src/pages/SpecModelPage.tsx:84-87 | two filters agreeing on every element give the same list |
| Common.FindFirst | src/pages/SalaryImportPage.tsx:99-101 | `Array.prototype.find`: the first index whose element satisfies the predicate, or none when no element does |
| Common.FindFirstAt | src/pages/WagePricePage.tsx:57-63 | an index whose element matches, with no match before it, is the index `find` returns |
| Common.JsSlice | src/pages/inventory/InventoryManage.tsx:111 | `Array.prototype.slice` with indices clamped to the list: a contiguous piece of the list |
| Common.Contains | src/pages/SpecModelPage.tsx:86 | `String.prototype.includes`: true exactly when the needle occurs at some position of the text |
| Common.ContainsEmpty | src/pages/SpecModelPage.tsx:86 | every text contains the empty string |
| Common.ContainsInEmpty | src/pages/SpecModelPage.tsx:86 | the empty text contains only the empty string |
| Common.Lower | src/pages/ProcessPage.tsx:16 | `toLowerCase` on ASCII letters: same length, each letter folded, other characters unchanged |
| Common.LowerIdempotent | src/pages/ProcessPage.tsx:16 | lower-casing twice is lower-casing once |
| Common.ContainsIgnoreCaseEmpty | src/pages/workers/index.tsx:57-62 | a case-insensitive search for the empty string matches everything, and an empty name matches only the empty search |
| Common.TrimStrips | src/pages/SalaryImportPage.tsx:129 | `String.prototype.trim` removes exactly the leading and trailing white space and keeps the inner text |
| Common.StrLtTotal | src/pages/WageLogSearchPage.tsx:214-216 | string comparison by code units is a strict total order (with `StrLtIrreflexive`, `StrLtTransitive`, `StrLtAsymmetric`) |
| SalaryImport.ImportColumnsMembers | src/pages/SalaryImportPage.tsx:120-124 | a name is a column exactly when it is a sheet header or one of 工人ID, 单价, 金额 |
| SalaryImport.ImportColumnsCounts | src/pages/SalaryImportPage.tsx:120-124 | a page column absent from the headers is added exactly once, and no other header is added or duplicated |
| SalaryImport.ImportColumnsKeepHeaders | src/pages/SalaryImportPage.tsx:121-124 | the headers stay together and in order, behind a 工人ID column that is put first exactly when the sheet lacks one |
| SalaryImport.AssignHeadersKeys | src/pages/SalaryImportPage.tsx:128-130 | the header loop adds exactly the headers as keys of the row object |
| SalaryImport.AssignHeadersLast | src/pages/SalaryImportPage.tsx:128-130 | a header holds the trimmed text of its own cell when no later header repeats it |
| SalaryImport.BuildRowKeys | src/pages/SalaryImportPage.tsx:126-135 | a built row has the key, one entry per header, and the three page columns, and nothing else |
| SalaryImport.BuildRowFixedColumns | src/pages/SalaryImportPage.tsx:127-133 | 工人ID, 单价 and 金额 start at 0, and `key` is the data line index unless a header named `key` overwrote it |
| SalaryImport.BuildRowCells | src/pages/SalaryImportPage.tsx:129 | every other header holds the trimmed text of its cell, `''` for a missing cell; a repeated header holds the last copy's cell |
| SalaryImport.HandleFile | src/pages/SalaryImportPage.tsx:106-142 | an empty sheet leaves columns and rows untouched; otherwise one row per data line, built from that line and its index |
| SalaryImport.WorkerMatch | src/pages/SalaryImportPage.tsx:148 | the matched worker is the first one whose name equals the row's 工人 text exactly |
| SalaryImport.CheckWorkerRow | src/pages/SalaryImportPage.tsx:147-154 | the first exactly named worker's id with status `''`, or id 0 with status `'red'`; every other field is unchanged |
| SalaryImport.RunPass | src/pages/SalaryImportPage.tsx:146-156 | a pass maps every row in place and reports how many rows it missed |
| SalaryImport.PassCountsRedRows | src/pages/SalaryImportPage.tsx:149-171 | when exactly the missed rows turn red, the reported count equals the number of red rows |
| SalaryImport.CheckWorkers | src/pages/SalaryImportPage.tsx:145-157 | every row is checked in place, and the reported count is the number of rows without a worker, which is the number of red rows |
| SalaryImport.CheckWorkersIdempotent | src/pages/SalaryImportPage.tsx:145-157 | running the worker check twice gives the same rows and count as running it once |
| SalaryImport.CheckWorkerRowIdempotent | src/pages/SalaryImportPage.tsx:147-154 | checking an already checked row changes nothing |
| SalaryImport.WorkerColumnsDependOnName | src/pages/SalaryImportPage.tsx:148-153 | two rows with the same worker name get the same worker id and status |
| SalaryImport.FindPrice | src/pages/SalaryImportPage.tsx:98-103 | `Number` of the price of the first spec matching both the process name and the spec name, or 0 when none matches |
| SalaryImport.Quantity | src/pages/SalaryImportPage.tsx:164 | the quantity is the row's number, with a missing, non-numeric or zero value giving 0 |
| SalaryImport.GroupSize | src/pages/SalaryImportPage.tsx:165 | the group size is never 0: 1 when missing, zero or not a number, else the row's number |
| SalaryImport.FixedUnits | src/pages/SalaryImportPage.tsx:172-173 | `toFixed(d)` picks the integer nearest to `x·10^d`, ties away from zero |
| SalaryImport.ToFixed | src/pages/SalaryImportPage.tsx:172-173 | `Number(x.toFixed(d))` is that integer over `10^d`, and NaN stays NaN |
| SalaryImport.Amount | src/pages/SalaryImportPage.tsx:166 | the amount is price times quantity over group size, with 0 for a zero group and NaN propagated from the price |
| SalaryImport.RowAmountMeaning | src/pages/SalaryImportPage.tsx:163-166 | a row's amount is NaN exactly when its price is, and is otherwise price·qty/group; the zero-group branch is never taken |
| SalaryImport.PriceRow | src/pages/SalaryImportPage.tsx:169-174 | status is `'red'` exactly for price 0, else `'green'`; 单价 is the price to 2 decimals and 金额 the amount to 1 decimal; other fields unchanged |
| SalaryImport.CheckPrices | src/pages/SalaryImportPage.tsx:160-178 | every row is priced in place, and the count is the number of rows whose price is 0, which is the number of red rows |
| SalaryImport.ZeroPricedSpecCountsAsUnmatched | src/pages/SalaryImportPage.tsx:160-178 | a spec that matches but is priced 0 counts as unmatched and turns its row red |
| SalaryImport.StampsCommuteExceptStatus | src/pages/SalaryImportPage.tsx:151-174 | the two passes' writes touch disjoint keys except the status |
| SalaryImport.WorkerPassKeepsPriceInputs | src/pages/SalaryImportPage.tsx:147-166 | the worker pass does not change a row's price or amount |
| SalaryImport.PricePassKeepsWorkerInputs | src/pages/SalaryImportPage.tsx:148-174 | the price pass does not change which worker a row matches |
| SalaryImport.PassesCommuteExceptStatus | src/pages/SalaryImportPage.tsx:145-178 | the two passes in either order agree on every field except the status, which the later pass decides |
| SalaryImport.PassOrderDecidesStatus | src/pages/SalaryImportPage.tsx:151-171 | for a known worker with an unpriced spec, the status is `'red'` or `''` depending on which pass ran last |
| SalaryImport.ToRecord | src/pages/SalaryImportPage.tsx:198-208 | a row converts exactly when its worker, process and spec exist (otherwise the `find(...)!` throws and the import stops); the record takes the first matching worker's, process's and spec's ids, and the row's date, price, quantity, group size and amount, with `''` for a falsy remark; its partner is RecordAgreesWithWorkerCheck |
| SalaryImport.RecordAgreesWithWorkerCheck | src/pages/SalaryImportPage.tsx:147-208 | a row that converts carries the worker id the worker check stamps on it, and a row the check marks red for its worker always stops the import |
| SalaryImport.ChunkRecords | src/pages/SalaryImportPage.tsx:198-208 | a chunk converts only when every row converts, giving one record per row in order |
| SalaryImport.NumBatches | src/pages/SalaryImportPage.tsx:189 | the number of batches is ⌈n/500⌉ |
| SalaryImport.Chunk | src/pages/SalaryImportPage.tsx:197-198 | batch k is rows [500k, min(500k+500, n)), which is non-empty and at most 500 rows |
| SalaryImport.ChunksCoverRows | src/pages/SalaryImportPage.tsx:197-198 | the first m batches joined are the first min(500m, n) rows |
| SalaryImport.ChunksPartitionRows | src/pages/SalaryImportPage.tsx:197-198 | all batches joined are exactly the rows, in order |
| SalaryImport.TwelveHundredRowsMakeThreeBatches | src/pages/SalaryImportPage.tsx:188-198 | 1200 rows are sent as batches of 500, 500 and 200 |
| SalaryImport.BatchIndex | src/pages/SalaryImportPage.tsx:197 | the loop reaches batch k exactly when 500k is below the row count |
| SalaryImport.PostInBatches | src/pages/SalaryImportPage.tsx:181-223 | no rows means no request; otherwise batches go out in order, and progress after accepted batch k is min(500k+500, n); the first failing conversion or call stops the loop, and later batches are never sent |
| SalaryImport.ImportToDb | src/pages/SalaryImportPage.tsx:181-223 | each posted batch is the wage-log conversion of its chunk; when the import stops before sending a chunk, that chunk holds a row without an exact worker, process or spec match |
| WageReport.ApplyReply | src/pages/WageLogSearchPage.tsx:109-117 | the logs are the reply's list, or empty when absent; the record count is the reply's, or 0; the displayed sum is the total wage of the rows shown |
| WageReport.ReduceWage | src/pages/WageLogSearchPage.tsx:116 | the left-to-right `reduce` from 0 computes the total wage of the rows |
| WageReport.TotalWageAppend | src/pages/WageLogSearchPage.tsx:116 | the summed wage splits over a concatenation |
| WageReport.PartitionByKey | src/pages/WageLogSearchPage.tsx:140-151 | summing the groups of distinct keys that cover every log gives the total wage: nothing counted twice, nothing lost |
| WageReport.SortedDistinct | src/pages/WageLogSearchPage.tsx:132 | `Array.from(new Set(dates)).sort()`: strictly ascending, holding exactly the given dates |
| WageReport.StrictlySortedUnique | src/pages/WageLogSearchPage.tsx:132 | a strictly ascending list is determined by its elements |
| WageReport.FirstAppearances | src/pages/WageLogSearchPage.tsx:135 | `Array.from(new Set(workers))`: no duplicates, holding exactly the given workers |
| WageReport.FirstSeenBefore | src/pages/WageLogSearchPage.tsx:135 | the distinct workers come in order of first appearance |
| WageReport.PivotExport | src/pages/WageLogSearchPage.tsx:128-169 | no logs means no file; otherwise one row per distinct worker and one cell per date column |
| WageReport.DailyMatchesSummary | src/pages/WageLogSearchPage.tsx:172-206 | the daily export builds the same table and file name as the summary export; only the sheet name differs |
| WageReport.PivotWorkersDistinct | src/pages/WageLogSearchPage.tsx:135-153 | each worker has exactly one row |
| WageReport.PivotRowsHaveLogs | src/pages/WageLogSearchPage.tsx:135 | every row's worker is the worker of some log |
| WageReport.PivotLogsHaveRows | src/pages/WageLogSearchPage.tsx:135 | every log's worker has a row |
| WageReport.PivotDates | src/pages/WageLogSearchPage.tsx:132 | the date columns are the logs' dates, each once, in ascending order |
| WageReport.PivotWorkersFirstSeen | src/pages/WageLogSearchPage.tsx:135-140 | rows come in order of each worker's first log |
| WageReport.PivotCell | src/pages/WageLogSearchPage.tsx:144-148 | each cell is the wage of that worker's logs on that date, and 0 when there are none |
| WageReport.RowTotalIsWorkerWage | src/pages/WageLogSearchPage.tsx:149-151 | a row's 工资合计 is the wage of all of that worker's logs |
| WageReport.PivotAgreesWithDisplayedTotal | src/pages/WageLogSearchPage.tsx:116-151 | the row totals of the export add up to the total shown on the page |
| WageReport.NotBeforeTransitive | src/pages/WageLogSearchPage.tsx:213-217 | the worker-then-date comparator is a total preorder |
| WageReport.SortLogs | src/pages/WageLogSearchPage.tsx:213 | sorting keeps every log: a permutation of the same length; its partners are SortLogsAscending and SortLogsStable |
| WageReport.SortLogsStable | src/pages/WageLogSearchPage.tsx:213-217 | the sort is stable: logs with the same worker and date come out in their input order |
| WageReport.SortLogsAscending | src/pages/WageLogSearchPage.tsx:213-217 | the sorted logs are ascending under the comparator |
| WageReport.RawRowFields | src/pages/WageLogSearchPage.tsx:220-230 | each raw line carries all nine columns of its log — worker, process, group size, spec, date, quantity, price, wage and remark — with `''` for a missing remark |
| WageReport.ExportRaw | src/pages/WageLogSearchPage.tsx:209-230 | no logs means no file; otherwise one line per log |
| WageReport.RawExportIsSortedPermutation | src/pages/WageLogSearchPage.tsx:213-230 | the raw lines are exactly the logs' lines in some order, sorted by worker and then by date |
| InventoryList.EveryIsMatchesSpecs | src/pages/inventory/InventoryManage.tsx:98-103 | the loop over categories accepts a record exactly when every selected, loaded category matches its `spec_json` value |
| InventoryList.NoSelectionMatchesAll | src/pages/inventory/InventoryManage.tsx:100 | with nothing selected every record passes the spec filter |
| InventoryList.FilteredList | src/pages/inventory/InventoryManage.tsx:95-109 | `filteredList` is an order-preserving subsequence keeping exactly the records that pass the spec filter and, when switched on, the low-stock test |
| InventoryList.UnfilteredListIsEverything | src/pages/inventory/InventoryManage.tsx:95-109 | with the switch off and nothing selected, the whole list is shown in order |
| InventoryList.PageContents | src/pages/inventory/InventoryManage.tsx:111 | page p holds at most ten records, starting at record 10(p−1) |
| InventoryList.PagesConcatenate | src/pages/inventory/InventoryManage.tsx:111 | consecutive pages concatenate to a prefix of the list |
| InventoryList.AllPagesShowEverything | src/pages/inventory/InventoryManage.tsx:111 | enough pages show the whole filtered list |
| InventoryList.TextOr | src/pages/inventory/InventoryCheckPage.tsx:154 | `value \|\| fallback` on text: an absent or empty value gives the fallback |
| InventoryManage.KeepRecord | src/pages/inventory/InventoryManage.tsx:96-108 | the filter callback's loop keeps a record exactly when it matches every selected category and passes the low-stock test |
| InventoryManage.FilterLedger | src/pages/inventory/InventoryManage.tsx:95-109 | the record-by-record loop computes the shared filtered list |
| InventoryManage.SelectSpec | src/pages/inventory/InventoryManage.tsx:224-227 | choosing a value for one category changes only that category's selection and returns to page 1 |
| InventoryManage.ToggleLowStock | src/pages/inventory/InventoryManage.tsx:243 | the ledger's switch sets only the flag and keeps the page |
| InventoryManage.QuantityTag | src/pages/inventory/InventoryManage.tsx:166 | the quantity tag is red exactly for low stock, quantity < warning minimum |
| InventoryManage.LowStockListIsRedTagged | src/pages/inventory/InventoryManage.tsx:105-166 | with the switch on, the list shows exactly the records tagged red |
| InventoryManage.ProductOptionsAlwaysEmpty | src/pages/inventory/InventoryManage.tsx:279-281 | the new-inventory product list is always empty |
| InventoryManage.LedgerSubmit | src/pages/inventory/InventoryManage.tsx:116-137 | nothing is sent exactly when the display name, or while initialising the product, is empty; otherwise editing posts an update of the record with the fields as entered, and initialising posts an add with the chosen product, a 0 minimum when none was entered and frozen only when the switch is on |
| InventoryManage.LedgerTitle | src/pages/inventory/InventoryManage.tsx:266 | 编辑库存信息 when a record is current, else 初始化库存; its partner is LedgerTitleMatchesRequest |
| InventoryManage.LedgerDialogSubmit | src/pages/inventory/InventoryManage.tsx:116-143 | a form with an empty required field sends nothing and keeps the dialog; a refused request keeps the dialog; a successful one closes it and clears the record |
| InventoryManage.LedgerTitleMatchesRequest | src/pages/inventory/InventoryManage.tsx:119-135 | whenever a request is sent, the dialog carries the edit title exactly when that request is an update |
| InventoryManage.InitDefaults | src/pages/inventory/InventoryManage.tsx:128-135 | an initialisation form with a product and a display name sends an add for that product, frozen only when the switch was turned on, with a 0 minimum unless one was entered; InitNeverSends shows that the select cannot supply such a product, so the page never reaches this request |
| InventoryManage.InitNeverSends | src/pages/inventory/InventoryManage.tsx:277-281 | since the required product can only be picked among the (always empty) options, the initialisation dialog never sends a request and stays as it is |
| InventoryCheck.CheckListIsShared | src/pages/inventory/InventoryCheckPage.tsx:96-110 | the stocktake list is the shared spec and low-stock filter |
| InventoryCheck.ToggleLowStock | src/pages/inventory/InventoryCheckPage.tsx:204-207 | the switch sets the flag and returns to page 1 |
| InventoryCheck.SelectSpec | src/pages/inventory/InventoryCheckPage.tsx:227-233 | choosing a value sets that category and returns to page 1 |
| InventoryCheck.FilterChangeShowsFirstPage | src/pages/inventory/InventoryCheckPage.tsx:204-233 | after any filter change the first ten matching records are shown |
| InventoryCheck.OpenModal | src/pages/inventory/InventoryCheckPage.tsx:120-133 | a frozen record leaves the page unchanged; otherwise it becomes current, with the count pre-filled with its quantity and an empty remark |
| InventoryCheck.Submit | src/pages/inventory/InventoryCheckPage.tsx:138-163 | nothing without a current record, with the count empty or with the count equal to stock; otherwise one `'adjust'` change whose quantity brings the stock to the count, remark defaulting to 库存盘点; a refused request leaves the page as it was, a successful one closes and resets the dialog |
| InventoryCheck.OpenThenConfirmSendsNothing | src/pages/inventory/InventoryCheckPage.tsx:129-148 | confirming the dialog as opened sends nothing |
| InventoryCheck.FrozenRecordNeverAdjusted | src/pages/inventory/InventoryCheckPage.tsx:121-139 | a frozen record never gets a stocktake change |
| InventoryCheck.StockTagIsRed | src/pages/inventory/InventoryCheckPage.tsx:179-180 | this page's stock tag is red exactly for a stock of 0; its partners are RedStockTakeAddsCount and StockTagDiffersFromLedger |
| InventoryCheck.RedStockTakeAddsCount | src/pages/inventory/InventoryCheckPage.tsx:120-163 | counting a red-tagged (empty) record to any non-zero number sends an adjustment of exactly that number |
| InventoryCheck.StockTagDiffersFromLedger | src/pages/inventory/InventoryCheckPage.tsx:179-180 | a record with stock 0 and minimum 0 is red here although not low stock on the ledger |
| InventoryOperation.OperationListIsSpecFilter | src/pages/inventory/InventoryOperationPage.tsx:97-103 | the list is the shared spec filter with no low-stock condition |
| InventoryOperation.SelectSpec | src/pages/inventory/InventoryOperationPage.tsx:219-225 | choosing a value sets that category and returns to page 1 |
| InventoryOperation.SelectSpecShowsFirstPage | src/pages/inventory/InventoryOperationPage.tsx:219-225 | after a spec change the first ten matching records are shown |
| InventoryOperation.OpenModal | src/pages/inventory/InventoryOperationPage.tsx:118-132 | a frozen record is refused for every action; otherwise the record and action become current, with the quantity cleared and the remark `''` |
| InventoryOperation.Submit | src/pages/inventory/InventoryOperationPage.tsx:138-157 | only with a record, an action and a quantity: one change with remark defaulting to `''`; a refused request leaves the page as it was, a successful one clears record, action and form and closes the dialog |
| InventoryOperation.FrozenRecordNeverChanged | src/pages/inventory/InventoryOperationPage.tsx:119-139 | a frozen record never gets a change from this page |
| InventoryOperation.OpenEnterSubmit | src/pages/inventory/InventoryOperationPage.tsx:118-157 | opening for a record and action and entering a quantity posts exactly that change, and after a refused request confirming again posts the same change |
| InventoryOperation.MinQuantity | src/pages/inventory/InventoryOperationPage.tsx:287 | the lower bound is −999999 for an adjustment and 1 otherwise |
| InventoryOperation.Title | src/pages/inventory/InventoryOperationPage.tsx:258-264 | 入库 for in, 出库 for out, 库存调整 for anything else |
| InventoryOperation.AdjustAloneAllowsNonPositive | src/pages/inventory/InventoryOperationPage.tsx:258-287 | only an adjustment may go below one unit, and it alone carries the adjustment title |
| ProductManage.CleanSpecs | src/pages/inventory/ProductManage.tsx:93-98 | cleaning never adds an entry |
| ProductManage.CleanSpecsKeepsChosen | src/pages/inventory/ProductManage.tsx:93-98 | `spec_json` keeps exactly the entries whose value is present and not `''`, values unchanged |
| ProductManage.AutoNameJoinsCleanSpecs | src/pages/inventory/ProductManage.tsx:82-98 | the generated name is the values of `spec_json` joined in the order their categories were first chosen |
| ProductManage.SetSpec | src/pages/inventory/ProductManage.tsx:265-289 | setting a spec select updates an existing key in place and appends a new key; its partners are SetSpecKeepsDistinct and SetSpecLastWins |
| ProductManage.SetSpecKeepsDistinct | src/pages/inventory/ProductManage.tsx:265-289 | the store's spec keys stay distinct, and setting one adds exactly that key |
| ProductManage.SetSpecLastWins | src/pages/inventory/ProductManage.tsx:265-289 | the last value set for a category wins, in the place the category first took |
| ProductManage.NewChoiceAppendsToName | src/pages/inventory/ProductManage.tsx:79-85 | a value chosen for a category not chosen before is appended to the generated name |
| ProductManage.ChooseSpec | src/pages/inventory/ProductManage.tsx:79-85 | a spec choice sets that key and, while the name is untouched, regenerates the name; its partners are NameFollowsChoiceOrder and TouchedNameKept |
| ProductManage.NameFollowsChoiceOrder | src/pages/inventory/ProductManage.tsx:79-85 | from an empty store, two choices name the product by their values in the order chosen |
| ProductManage.ChoiceOrderDecidesName | src/pages/inventory/ProductManage.tsx:79-85 | choosing 镀锌 then 6m names the product 镀锌6m, and the reverse order names it 6m镀锌 |
| ProductManage.AutoNameEmptyIffNoSpecs | src/pages/inventory/ProductManage.tsx:82-103 | the generated name is empty exactly when no spec is chosen |
| ProductManage.ValuesChanged | src/pages/inventory/ProductManage.tsx:79-85 | while the name is untouched it becomes the generated name; a touched name is left alone |
| ProductManage.TypeName | src/pages/inventory/ProductManage.tsx:79-85 | a keystroke marks the name as touched; a touched name becomes the text typed, while an untouched one is overwritten by the generated name from the stale `nameTouched` |
| ProductManage.ClearName | src/pages/inventory/ProductManage.tsx:79-85 | clearing leaves the name untouched; a touched name becomes empty, while an untouched one is regenerated from the specs |
| ProductManage.SecondKeystrokeSticks | src/pages/inventory/ProductManage.tsx:246-252 | the first keystroke into a generated name is replaced by the generated name, and the second keystroke sticks |
| ProductManage.TouchedNameKept | src/pages/inventory/ProductManage.tsx:79-85 | a name edited by hand survives every spec choice |
| ProductManage.ClearedNameFollowsSpecs | src/pages/inventory/ProductManage.tsx:79-85 | after clearing, the next spec choice regenerates the name |
| ProductManage.Cancel | src/pages/inventory/ProductManage.tsx:231-234 | cancelling closes the dialog and forgets the hand edit |
| ProductManage.AddProduct | src/pages/inventory/ProductManage.tsx:90-112 | no request when no spec is chosen; otherwise the cleaned, non-empty specs with the form's name, code and remark |
| ProductManage.NoneChosenIffClean | src/pages/inventory/ProductManage.tsx:93-103 | the cleaned specs are empty exactly when no spec value is truthy |
| ProductManage.AfterReply | src/pages/inventory/ProductManage.tsx:114-123 | a reply with `success === false` keeps the dialog as entered; any other reply closes it and resets the form to an empty store; its partner is ResetRestartsChoiceOrder |
| ProductManage.ResetRestartsChoiceOrder | src/pages/inventory/ProductManage.tsx:114-123 | after a product is added the store holds no spec key, so the next choices name the next product in their own order |
| ProductManage.NoSpecsNoRequest | src/pages/inventory/ProductManage.tsx:100-103 | a dialog with no chosen spec sends nothing |
| ProductManage.FilteredProducts | src/pages/inventory/ProductManage.tsx:132-139 | an order-preserving subsequence keeping exactly the products whose `spec_json` agrees with every set filter entry |
| ProductManage.ResetListsAll | src/pages/inventory/ProductManage.tsx:203 | the reset filter lists every product in order |
| ProductManage.AgreesWithInventoryFilter | src/pages/inventory/ProductManage.tsx:132-139 | when every filtered code is a loaded category, the product filter is the inventory pages' spec filter |
| InventoryLog.ChangeOf | src/pages/inventory/InventoryLogPage.tsx:103-108 | `change` holds exactly the spec choices that are not undefined, `''` included |
| InventoryLog.BuildQuery | src/pages/inventory/InventoryLogPage.tsx:91-122 | page and size always sent; `change` only when non-empty; `action` as chosen; the dates exactly when a range is set |
| InventoryLog.QueryRecoversSelection | src/pages/inventory/InventoryLogPage.tsx:103-111 | the query's `change` maps each chosen code back to its choice and holds no other code |
| InventoryLog.AllClearedOmitsChange | src/pages/inventory/InventoryLogPage.tsx:109-111 | clearing every spec choice omits `change` |
| InventoryLog.IntOr | src/pages/inventory/InventoryLogPage.tsx:130-135 | `v \|\| fallback` on a number: missing and 0 give the fallback |
| InventoryLog.ApplyReply | src/pages/inventory/InventoryLogPage.tsx:129-135 | the logs are the reply's data, or empty; page and size fall back to the requested ones, and the total to 0; its partners are PagingRoundTrip and ShownPageIsPositive |
| InventoryLog.SilentReplyKeepsRequest | src/pages/inventory/InventoryLogPage.tsx:130-135 | a reply without paging fields shows the requested page, with total 0 |
| InventoryLog.ChangeFilters | src/pages/inventory/InventoryLogPage.tsx:154-156 | any filter change reloads page 1 with the current page size under the new filters |
| InventoryLog.EveryFilterReloadsFirstPage | src/pages/inventory/InventoryLogPage.tsx:154-156 | choosing a spec value, an action or a range reloads page 1 with that filter in the query |
| InventoryLog.ChangePage | src/pages/inventory/InventoryLogPage.tsx:287-288 | moving to another table page keeps the filters and asks for that page; its partner is PagingRoundTrip |
| InventoryLog.PagingRoundTrip | src/pages/inventory/InventoryLogPage.tsx:129-135 | a reply echoing the page and size a page change asked for shows exactly that page, and moving to the page shown asks for it again under the same filters |
| InventoryLog.ShownPageIsPositive | src/pages/inventory/InventoryLogPage.tsx:130-135 | for a positive request and a reply without negative paging fields, the page and size shown are positive |
| InventoryLog.Digits | src/pages/inventory/InventoryLogPage.tsx:182-186 | a number prints as a non-empty string of decimal digits |
| InventoryLog.DigitsRoundTrip | src/pages/inventory/InventoryLogPage.tsx:182-186 | the printed digits read back as the number printed |
| InventoryLog.DigitsInjective | src/pages/inventory/InventoryLogPage.tsx:182-186 | different numbers print differently |
| InventoryLog.ChangeColor | src/pages/inventory/InventoryLogPage.tsx:182-186 | a change is green exactly when it is ≥ 0, else red; its partner is ColorFollowsText |
| InventoryLog.ChangeTextSign | src/pages/inventory/InventoryLogPage.tsx:182-186 | the text starts with `+` exactly for an increase and with `-` exactly for a decrease |
| InventoryLog.ColorFollowsText | src/pages/inventory/InventoryLogPage.tsx:182-186 | the change is red exactly when its text starts with `-` |
| InventoryLog.ZeroChange | src/pages/inventory/InventoryLogPage.tsx:182-186 | a zero change shows as `0` in green |
| InventoryLog.ActionTag | src/pages/inventory/InventoryLogPage.tsx:172-176 | in is 入库 in green, out is 出库 in red, adjust is 调整 in blue; its partner is ActionTagInjective |
| InventoryLog.ActionTagInjective | src/pages/inventory/InventoryLogPage.tsx:172-176 | distinct actions get distinct labels and distinct colours |
| WageLog.FilteredRows | src/pages/WageLogPage.tsx:47-54 | an order-preserving subsequence keeping exactly the rows equal to every set filter |
| WageLog.NoFiltersShowAll | src/pages/WageLogPage.tsx:47-54 | with no filter set the whole table is shown |
| WageLog.FilterNarrows | src/pages/WageLogPage.tsx:47-54 | setting a filter only removes rows |
| WageLog.SavedRow | src/pages/WageLogPage.tsx:176-179 | the saved row's wage is price × quantity whatever the group size; other fields as entered |
| WageLog.Save | src/pages/WageLogPage.tsx:175-189 | when a row has the id the length is kept, and when none has it the saved row is appended; rows with other ids stay unchanged |
| WageLog.SaveGrowsByAtMostOne | src/pages/WageLogPage.tsx:180-186 | saving grows the table by at most one row |
| WageLog.SaveThenFind | src/pages/WageLogPage.tsx:180-186 | after saving, the first row with the id is the saved row, at its old index or at the end |
| WageLog.SaveIdempotent | src/pages/WageLogPage.tsx:175-189 | saving the same record twice is saving it once |
| WageLog.Delete | src/pages/WageLogPage.tsx:121-123 | every row with the id goes; the rest stay in order |
| WageLog.DeleteUndoesNewSave | src/pages/WageLogPage.tsx:121-186 | saving a row with a new id and then deleting that id gives back the table |
| WageLog.NewRow | src/pages/WageLogPage.tsx:192-203 | a new row has group size 1, zero price, quantity and wage, and empty text; its partner is WagesStayConsistent |
| WageLog.WagesStayConsistent | src/pages/WageLogPage.tsx:175-203 | if every row's wage is price × quantity, it stays so after adding a new row and after saving any record |
| WageLog.SaveCorrectsWage | src/pages/WageLogPage.tsx:175-189 | a record whose wage disagrees with its price and quantity never appears in the table after saving it |
| WageLogOld.Coalesce | src/pages/WageLogPageOld.tsx:144 | `a ?? b`: only a missing value falls through, and 0 is kept |
| WageLogOld.OrZero | src/pages/WageLogPageOld.tsx:371-377 | `a \|\| 0`: missing and 0 both give 0 |
| WageLogOld.SavedPrice | src/pages/WageLogPageOld.tsx:143 | the entered price, else the chosen spec's price among the loaded specs, else 0 |
| WageLogOld.SavedPriceFromSpec | src/pages/WageLogPageOld.tsx:143 | with no price entered, the first loaded spec with the chosen id supplies it |
| WageLogOld.SaveBody | src/pages/WageLogPageOld.tsx:136-150 | nothing is sent exactly when a required field (worker, process, spec, quantity, date) is empty; otherwise the body is the form with the resolved price and wage = price × quantity; its partners are NewDialogRefused and DialogClosesOnlyWhenStored |
| WageLogOld.ReplaceById | src/pages/WageLogPageOld.tsx:153-159 | every entry with the edited id is replaced by the stored entry; the others stay in place |
| WageLogOld.ApplySaved | src/pages/WageLogPageOld.tsx:152-172 | a failed request keeps the list; editing replaces by id; creating appends exactly the stored entry |
| WageLogOld.SaveDialog | src/pages/WageLogPageOld.tsx:136-172 | a refused form sends nothing and keeps dialog and list; a failed request chain keeps both; a stored entry closes the dialog and is absorbed into the list |
| WageLogOld.DialogClosesOnlyWhenStored | src/pages/WageLogPageOld.tsx:136-172 | the dialog closes exactly when the required fields are filled and the entry comes back stored, and then the list grows by it or keeps its length as the title says |
| WageLogOld.SavedEntryPlacement | src/pages/WageLogPageOld.tsx:153-164 | editing keeps the length and every other entry; creating adds one entry at the end |
| WageLogOld.ReplaceByIdIdempotent | src/pages/WageLogPageOld.tsx:153-159 | replacing twice with the same entry is replacing once |
| WageLogOld.DeleteEntry | src/pages/WageLogPageOld.tsx:176-186 | a missing id, id 0 or a refused deletion leaves the list; an accepted one removes every entry with the id and keeps the rest in order |
| WageLogOld.DeleteUndoesCreate | src/pages/WageLogPageOld.tsx:160-186 | an entry created with a fresh id is removed again by deleting that id |
| WageLogOld.ProcessChanged | src/pages/WageLogPageOld.tsx:328-331 | choosing a process clears the spec and sets the price to 0, keeping every other field |
| WageLogOld.SpecsAfterProcessChange | src/pages/WageLogPageOld.tsx:328-331 | the spec list is reloaded for a non-zero process and kept otherwise |
| WageLogOld.DisplayedTotalIsSaved | src/pages/WageLogPageOld.tsx:371-377 | whenever the price field holds a number and a body is sent, the total shown is the total sent |
| WageLogOld.ProcessChangeZeroesTotal | src/pages/WageLogPageOld.tsx:328-377 | right after a process change the total shown is 0 and the form is refused until a spec is chosen again |
| WageLogOld.SpecChosen | src/pages/WageLogPageOld.tsx:344-353 | choosing a spec stores it, and with a process and the spec both set a successful price lookup replaces the price; its partner is ProcessThenSpecSavesLookedUpPrice |
| WageLogOld.ProcessThenSpecSavesLookedUpPrice | src/pages/WageLogPageOld.tsx:254-266 | after a process change and a spec choice, the save sends the looked-up price (0 when the lookup failed) and wage = price × quantity |
| WageLogOld.OpenDialog | src/pages/WageLogPageOld.tsx:114-130 | editing loads the entry into the form; creating starts an empty form dated today |
| WageLogOld.DialogTitle | src/pages/WageLogPageOld.tsx:309 | the title says edit exactly when an entry is being edited; its partner is DialogTitleMatchesSave |
| WageLogOld.DialogTitleMatchesSave | src/pages/WageLogPageOld.tsx:152-164 | under the edit title a successful save keeps the list's length; under the create title it appends exactly the stored entry |
| WageLogOld.ReopenedEntryKeepsPrice | src/pages/WageLogPageOld.tsx:114-150 | re-saving an opened entry unchanged is sent, keeping its price and recomputing its wage |
| WageLogOld.NewDialogRefused | src/pages/WageLogPageOld.tsx:123-150 | the create dialog as opened, with only the date set, is refused and sends nothing |
| WageLogOld.ListedEntries | src/pages/WageLogPageOld.tsx:296-303 | an order-preserving subsequence keeping exactly the entries that pass the worker, process and date tests |
| WageLogOld.EmptySearchListsAll | src/pages/WageLogPageOld.tsx:296-303 | an empty search lists every entry |
| WageLogOld.UnknownWorkerHidden | src/pages/WageLogPageOld.tsx:298-299 | under a non-empty worker search, an entry whose worker is unknown is never listed |
| WageLogOld.WorkerSearchMatches | src/pages/WageLogPageOld.tsx:298-299 | the worker test is a case-sensitive substring test on the worker's name |
| Sidebar.VisibleChildren | src/components/Sidebar.tsx:26-80 | a group's visible children are the permitted ones, in menu order, and none when it has no children |
| Sidebar.FilteredItems | src/components/Sidebar.tsx:77-80 | every group is kept with its key and title, and only its permitted children |
| Sidebar.MoreRolesSeeMore | src/components/Sidebar.tsx:26-29 | granting a user more roles never hides an entry |
| Sidebar.NoRolesSeeUnrestricted | src/components/Sidebar.tsx:27-28 | a user without roles sees exactly the entries that ask for none |
| Sidebar.AuditOnlyForAdmins | src/components/Sidebar.tsx:66-71 | the registration audit entry is shown exactly to users with 管理员 |
| Sidebar.OtherEntriesAlwaysShown | src/components/Sidebar.tsx:32-74 | every other configured entry is shown to everyone |
| SpecManage.Resync | src/pages/inventory/SpecManage.tsx:61-74 | no category for an empty list; the first category when none was selected or the selected one is gone; always one of the listed categories |
| SpecManage.ResyncKeepsSelection | src/pages/inventory/SpecManage.tsx:72-73 | a selected category still listed is replaced by the first listed record with its id |
| SpecManage.ResyncIdempotent | src/pages/inventory/SpecManage.tsx:61-74 | resynchronising against the same list again changes nothing |
| SpecManage.AddCategory | src/pages/inventory/SpecManage.tsx:79-84 | opens the category dialog with nothing edited |
| SpecManage.EditCategory | src/pages/inventory/SpecManage.tsx:86-91 | opens the category dialog editing that category |
| SpecManage.AddOption | src/pages/inventory/SpecManage.tsx:102-108 | without a selected category nothing happens; otherwise the option dialog opens with nothing edited |
| SpecManage.EditOption | src/pages/inventory/SpecManage.tsx:110-115 | opens the option dialog editing that option |
| SpecManage.TitleIdentifiesDialog | src/pages/inventory/SpecManage.tsx:246-254 | the four titles are distinct: the title tells category or option, and new or edit |
| SpecManage.CodeFieldOnlyWhenCreatingCategory | src/pages/inventory/SpecManage.tsx:261-269 | the code field is shown exactly in the dialog titled 新增规格分类 |
| SpecManage.HandleOk | src/pages/inventory/SpecManage.tsx:126-157 | nothing is sent and the dialog stays while a required field (name, a new category's code, an option's value) is empty; otherwise the request for the open dialog, none for an option dialog without a selected category, a new option carrying the selected category's id; a failed request keeps the dialog, otherwise it closes |
| SpecManage.NewOptionInCurrentCategory | src/pages/inventory/SpecManage.tsx:140-151 | a new option always belongs to the category selected on confirm |
| SpecManage.RequestsCarryRequiredFields | src/pages/inventory/SpecManage.tsx:126-157 | every request sent carries a non-empty name (and code, for a new category) or a non-empty option value |
| SpecManage.DialogClosesOnlyWhenSaved | src/pages/inventory/SpecManage.tsx:126-157 | an open dialog closes exactly when its required fields are filled and either nothing needed sending or the request succeeded |
| SpecManage.Reloaded | src/pages/inventory/SpecManage.tsx:61-74 | after a reload the selection is resynchronised with the new list |
| SpecManage.AddOptionAfterReload | src/pages/inventory/SpecManage.tsx:61-108 | after a reload the option button opens the dialog exactly when the list is non-empty, unless a dialog was already open |
| WagePrice.SpecNameMeaning | src/pages/WagePricePage.tsx:57-63 | a price shows the name of the first spec with its id, or 未设置 when none has it |
| WagePrice.NamePrices | src/pages/WagePricePage.tsx:53-68 | every price in order, each with its spec name |
| WagePrice.ProcessChanged | src/pages/WagePricePage.tsx:71-76 | choosing a process clears the spec and offers exactly that process's specs, in order |
| WagePrice.Reset | src/pages/WagePricePage.tsx:119-127 | the dialog closes with nothing edited or chosen, no spec list, an empty price and the flag off |
| WagePrice.OpenEdit | src/pages/WagePricePage.tsx:179-188 | editing loads the record's process, spec, price and flag, with its process's specs |
| WagePrice.Submit | src/pages/WagePricePage.tsx:78-117 | nothing when the process, spec or price is missing; otherwise an update of the edited price or an add, carrying the parsed price, the flag and the ids |
| WagePrice.AfterSave | src/pages/WagePricePage.tsx:108-116 | a successful save resets the dialog; a failed one keeps it; its partner is SaveOutcomeDecidesResend |
| WagePrice.SaveOutcomeDecidesResend | src/pages/WagePricePage.tsx:78-127 | after a successful save the dialog refuses to submit, after a failed one it sends the very same request again |
| WagePrice.EditThenSubmit | src/pages/WagePricePage.tsx:78-117 | re-submitting an opened price updates it with its own process, spec and flag |
| WagePrice.ResetRefusesSubmit | src/pages/WagePricePage.tsx:79-127 | a reset dialog refuses to submit |
| WagePrice.ProcessChangeNeedsSpec | src/pages/WagePricePage.tsx:71-85 | after a process change nothing is sent until a spec is chosen |
| WagePrice.FilteredPrices | src/pages/WagePricePage.tsx:209-212 | an order-preserving subsequence keeping exactly the prices whose process name contains the search, ignoring case |
| WagePrice.EmptySearchListsAll | src/pages/WagePricePage.tsx:209-212 | an empty search lists every price |
| WagePrice.UnknownProcessOnlyUnderEmptySearch | src/pages/WagePricePage.tsx:209-212 | a price of an unknown process is listed only under an empty search |
| Transaction.Edit | src/pages/company_ledger/TransactionPage.tsx:115-134 | editing loads the record and offers exactly its company's and its customer's accounts |
| Transaction.CompanyChanged | src/pages/company_ledger/TransactionPage.tsx:427-431 | choosing a company offers only its accounts and clears the chosen company account |
| Transaction.CustomerChanged | src/pages/company_ledger/TransactionPage.tsx:232-238 | choosing a customer offers only its accounts and clears the chosen customer account |
| Transaction.AccountsFollowChoices | src/pages/company_ledger/TransactionPage.tsx:115-134 | after opening a record and changing company or customer, the offered accounts match the form |
| Transaction.ChangesPreserveConsistency | src/pages/company_ledger/TransactionPage.tsx:232-238 | either change keeps offered accounts consistent with the form |
| Transaction.Submit | src/pages/company_ledger/TransactionPage.tsx:214-229 | nothing is sent exactly when one of the six required fields is empty; otherwise an update of the edited id when a non-zero id is edited, else an add, carrying the form; a failed request keeps the dialog, a successful one closes it and resets the form |
| Transaction.SentRequestsAreComplete | src/pages/company_ledger/TransactionPage.tsx:424-477 | every request sent carries company, company account, customer, customer account, amount and direction |
| Transaction.TitleMatchesRequest | src/pages/company_ledger/TransactionPage.tsx:416-417 | whenever a request is sent, the dialog carries the edit title exactly when it is an update |
| Transaction.Create | src/pages/company_ledger/TransactionPage.tsx:107-111 | a new dialog edits no record, starts from an empty form and keeps the account lists offered last |
| Transaction.CreateOffersStaleAccounts | src/pages/company_ledger/TransactionPage.tsx:107-134 | a new dialog offers the previous accounts though no company or customer is chosen, and choosing both restores the match |
| Transaction.PageTotal | src/pages/company_ledger/TransactionPage.tsx:402 | the left-to-right sum of the amounts, missing ones counted as 0 |
| Transaction.AmountSumAppend | src/pages/company_ledger/TransactionPage.tsx:402 | the total splits over a concatenation |
| Transaction.MissingAmountsAddNothing | src/pages/company_ledger/TransactionPage.tsx:402 | transfers without an amount add nothing to the total |
| Transaction.LabelMeaning | src/pages/company_ledger/TransactionPage.tsx:253-266 | an unknown id shows `-`; a known one shows the name of its first entry |
| Transaction.AccountLabel | src/pages/company_ledger/TransactionPage.tsx:267-274 | the account column shows `-` when the id is missing or names no loaded account; its partner is AccountLabelFound |
| Transaction.AccountLabelFound | src/pages/company_ledger/TransactionPage.tsx:267-274 | a known account id shows the number of the first loaded account with that id |
| Transaction.Query | src/pages/company_ledger/TransactionPage.tsx:93-99 | the query is the form as entered, with `start_date` and `end_date` exactly when a range is chosen |
| Transaction.Export | src/pages/company_ledger/TransactionPage.tsx:153-210 | no items means a warning and no file; otherwise one row per item, in order, with the eleven columns company, customer, customer account, direction, amount, method, status, reference number, remark, created and updated |
| Transaction.ExportKeepsAmounts | src/pages/company_ledger/TransactionPage.tsx:179-191 | each exported row keeps its item's amount, missing ones included |
| Transaction.ExportRowsAppend | src/pages/company_ledger/TransactionPage.tsx:179-191 | the rows of a concatenation are the concatenation of the rows |
| Transaction.ApplyList | src/pages/company_ledger/TransactionPage.tsx:101-103 | the reply's rows and total as shown, an empty list and 0 standing in for missing ones; its partner ApplyListTotals relates the query total to the page total (PageTotal) |
| Transaction.ApplyListTotals | src/pages/company_ledger/TransactionPage.tsx:93-104 | for every reply: without data the page total is 0; without `total_amount` the query total is 0 and agrees with the page total exactly when the rows shown sum to 0; a server total equal to the rows' sum shows the same number twice |
| AuditUser.Approve | src/pages/users/AuditUser.tsx:52-66 | no request without a registration id or a role; otherwise the approval, and success clears id and role |
| AuditUser.Reject | src/pages/users/AuditUser.tsx:69-83 | no request without a registration id or with an empty reason; otherwise the rejection, and success clears id and reason |
| AuditUser.CancelApprove | src/pages/users/AuditUser.tsx:135-141 | cancelling the approval clears its id and role and nothing else |
| AuditUser.CancelReject | src/pages/users/AuditUser.tsx:159-162 | cancelling the rejection clears only its id; the typed reason stays |
| AuditUser.DecisionClosesDialog | src/pages/users/AuditUser.tsx:52-83 | a successful decision closes its dialog; a refused one leaves it as it was |
| AuditUser.CancelledReasonReused | src/pages/users/AuditUser.tsx:69-83 | a reason typed and then cancelled is what the next rejection sends |
| AuditUser.IdZeroNeverApproved | src/pages/users/AuditUser.tsx:52-66 | the dialog for registration id 0 opens, but the approval is never sent |
| AuditUser.Tag | src/pages/users/AuditUser.tsx:99-103 | 待审核 is pending, 已通过 is approved, anything else is rejected |
| AuditUser.ActionsOnlyOnPending | src/pages/users/AuditUser.tsx:99-108 | a row's buttons are enabled exactly when it is tagged pending |
| AuditUser.ClickApprove | src/pages/users/AuditUser.tsx:108-114 | an enabled approve button opens the dialog for the row; a disabled one does nothing |
| AuditUser.ClickReject | src/pages/users/AuditUser.tsx:108-122 | an enabled reject button opens the dialog for the row; a disabled one does nothing; its partner is RejectionOnlyForPending |
| AuditUser.RejectionOnlyForPending | src/pages/users/AuditUser.tsx:69-122 | a rejection sent from a row is for a pending registration and names it with the typed reason; a pending row with a non-zero id and a reason is always rejectable |
| AuditUser.ApprovalOnlyForPending | src/pages/users/AuditUser.tsx:52-66 | only a pending registration with a non-zero id can be sent for approval from its row |
| LoginRegister.CheckPhone | src/pages/users/LoginRegister.tsx:177 | the pattern accepts exactly 11 characters: a leading 1 and ten digits |
| LoginRegister.PhoneLengthExact | src/pages/users/LoginRegister.tsx:177 | adding or dropping a character breaks a valid number |
| LoginRegister.ConfirmMeaning | src/pages/users/LoginRegister.tsx:197-206 | a non-empty confirmation is accepted exactly when it equals the password |
| LoginRegister.StoredRoles | src/pages/users/LoginRegister.tsx:53 | the stored roles are the user's, or `[]` when absent |
| LoginRegister.NoRolesUnrestrictedMenu | src/pages/users/LoginRegister.tsx:53 | a user stored without roles sees only the menu entries that ask for none |
| LoginRegister.AfterRegister | src/pages/users/LoginRegister.tsx:92-94 | a successful registration returns to the login tab; a failed one stays; its partner is LoginTabExactlyAfterSuccess |
| LoginRegister.LoginTabExactlyAfterSuccess | src/pages/users/LoginRegister.tsx:70-99 | from the registration tab the login tab shows afterwards exactly when registration succeeded; the login tab is never left |
| CompanyAccount.SearchLabel | src/pages/company_ledger/CompanyAccountPage.tsx:143-149 | the searched text is `children` when it is text, else `label` when it is text, else `''` |
| CompanyAccount.NoLabelMatchesOnlyEmpty | src/pages/company_ledger/CompanyAccountPage.tsx:143-151 | an option without a text label matches only the empty input |
| CompanyAccount.EmptyInputMatchesAll | src/pages/company_ledger/CompanyAccountPage.tsx:151 | the empty input matches every option |
| CompanyAccount.FilterIgnoresInputCase | src/pages/company_ledger/CompanyAccountPage.tsx:151 | the input's case does not change the answer |
| CompanyAccount.HandleCompanyFilter | src/pages/company_ledger/CompanyAccountPage.tsx:28-58 | choosing a company remembers it and asks for page 1 of its accounts; clearing the select empties the filter but, through `fetchAccounts`' default parameter, asks for the previous company; its partners are FilteredReplyShowsCompany and ClearReasksPreviousCompany |
| CompanyAccount.ApplyReply | src/pages/company_ledger/CompanyAccountPage.tsx:36-43 | only a successful reply replaces the list, page and total; its partners are FilteredReplyShowsCompany and FailedReplyMayMismatch |
| CompanyAccount.FailedReplyKeepsList | src/pages/company_ledger/CompanyAccountPage.tsx:36-58 | after a filter change, a failed reply keeps the old list under the new filter |
| CompanyAccount.FilteredReplyShowsCompany | src/pages/company_ledger/CompanyAccountPage.tsx:28-58 | when the server answers a filter change with accounts of the asked company only, the page lists only them under the new filter and page size; a set filter agrees with the query, and a cleared one leaves the query on the previous company |
| CompanyAccount.ClearReasksPreviousCompany | src/pages/company_ledger/CompanyAccountPage.tsx:28-58 | clearing a set filter asks for page 1 of the previous company, so a successful reply lists only that company's accounts while the select shows none |
| CompanyAccount.FailedReplyMayMismatch | src/pages/company_ledger/CompanyAccountPage.tsx:36-58 | a failed reply after a filter change leaves another company's accounts on show whenever the old list had one |
| SpecModelPage.FindProcess | src/pages/SpecModelPage.tsx:85 | the lookup finds a process carrying the id exactly when one exists |
| SpecModelPage.FindProcessFirst | src/pages/SpecModelPage.tsx:85-106 | the lookup returns the first process with the id |
| SpecModelPage.FilteredSpecs | src/pages/SpecModelPage.tsx:84-87 | an order-preserving subsequence keeping exactly the specs whose known process's name contains the search |
| SpecModelPage.UnknownProcessNeverListed | src/pages/SpecModelPage.tsx:85-86 | a spec whose process is unknown is never listed, whatever the search |
| SpecModelPage.KnownProcessListedIff | src/pages/SpecModelPage.tsx:86 | a spec of a known process is listed exactly when its process name contains the search |
| SpecModelPage.EmptySearchListsKnown | src/pages/SpecModelPage.tsx:84-87 | an empty search lists exactly the specs with a known process, in order |
| SpecModelPage.SearchIsCaseSensitive | src/pages/SpecModelPage.tsx:86 | the search is case-sensitive: "a" does not find a process named "A", which the case-insensitive pages would find |
| SpecModelPage.ProcessColumnMeaning | src/pages/SpecModelPage.tsx:105-108 | the process column shows `'-'` for an unknown process and the first matching process's name otherwise |
| SpecModelPage.ListedRowShowsMatchingProcess | src/pages/SpecModelPage.tsx:84-108 | every listed row shows, in its process column, a name containing the search |
| SpecModelPage.InitialValues | src/pages/SpecModelPage.tsx:192-196 | the form starts from the edited spec's name, category and process, or `''`; a process id of 0 also starts as `''` |
| SpecModelPage.ToNumber | src/pages/SpecModelPage.tsx:184 | `Number` leaves a chosen numeric id unchanged |
| SpecModelPage.SubmitForm | src/pages/SpecModelPage.tsx:178-237 | nothing while a required field is empty; otherwise the edited spec's id, or 0, with the typed values and the process id as a number |
| SpecModelPage.EditThenSubmit | src/pages/SpecModelPage.tsx:178-196 | opening a spec and typing only a price sends that spec back with the new price |
| SpecModelPage.UntouchedFormRefused | src/pages/SpecModelPage.tsx:192-204 | an untouched new form is refused, and so is a spec with process id 0 until a process is chosen |
| SpecModelPage.Title | src/pages/SpecModelPage.tsx:151 | 编辑规格型号 exactly while a spec is edited, else 新增规格型号 |
| SpecModelPage.OpenNew | src/pages/SpecModelPage.tsx:136 | the add button shows the dialog without touching `editing` |
| SpecModelPage.Edit | src/pages/SpecModelPage.tsx:79-82 | editing a spec opens the dialog for it |
| SpecModelPage.Cancel | src/pages/SpecModelPage.tsx:74-77 | cancelling closes the dialog and clears `editing` |
| SpecModelPage.HandleSave | src/pages/SpecModelPage.tsx:43-56 | an update of the edited spec or a creation; the dialog closes only on success |
| SpecModelPage.ActionsKeepConsistent | src/pages/SpecModelPage.tsx:43-82 | a spec is edited only while the dialog is shown, after every action |
| SpecModelPage.AddButtonCreates | src/pages/SpecModelPage.tsx:136-151 | from a closed page, the add button always leads to a creation titled 新增规格型号 |
| ProcessPage.LoadProcesses | src/pages/ProcessPage.tsx:11-22 | the fetched processes whose lower-cased name contains the lower-cased search, in order; a failed fetch keeps the list |
| ProcessPage.EmptySearchKeepsAll | src/pages/ProcessPage.tsx:11-17 | an empty search keeps every fetched process, in order |
| ProcessPage.Mount | src/pages/ProcessPage.tsx:24-26 | the first load shows every fetched process with an empty search box |
| ProcessPage.SearchChanged | src/pages/ProcessPage.tsx:29-33 | typing stores the value and reloads filtered by it |
| ProcessPage.TypingUsesNewValue | src/pages/ProcessPage.tsx:29-33 | the reload uses the newly typed value, whatever was typed before |
| ProcessPage.SearchChangeShowsSearch | src/pages/ProcessPage.tsx:29-33 | after a keystroke every process shown matches the search box |
| ProcessPage.HandleSave | src/pages/ProcessPage.tsx:36-49 | an update of the edited process or a creation; on success the dialog closes and the list reloads unfiltered while the box keeps its text |
| ProcessPage.HandleDelete | src/pages/ProcessPage.tsx:52-59 | the delete request; on success the list reloads unfiltered |
| ProcessPage.ReloadIgnoresSearch | src/pages/ProcessPage.tsx:45-101 | after a save or delete, every fetched process is shown whatever the search box says |
| ProcessPage.SaveCanDisagreeWithSearch | src/pages/ProcessPage.tsx:45-101 | right after a save, the list can show a process the search text excludes |
| ProcessPage.Title | src/pages/ProcessPage.tsx:119 | 编辑工序 exactly while a process is edited, else 新增工序; its partner is TitleMatchesRequest |
| ProcessPage.FormStart | src/pages/ProcessPage.tsx:125 | the form starts from the edited process, or an empty one with id 0; its partner is UntouchedFormResent |
| ProcessPage.SubmitForm | src/pages/ProcessPage.tsx:135-176 | nothing is sent and the page stays exactly when the name or the description is empty; otherwise the two field values go to the update of the edited id or to a creation |
| ProcessPage.TitleMatchesRequest | src/pages/ProcessPage.tsx:36-49 | a save is an update exactly under the 编辑工序 title, and a successful save brings back 新增工序 |
| ProcessPage.UntouchedFormResent | src/pages/ProcessPage.tsx:125-176 | saving the form as it starts refuses the new form and sends nothing; an edited process is sent back to its id with its name and description exactly when both are non-empty |
| WorkersPage.LoadWorkers | src/pages/workers/index.tsx:16-24 | a successful load replaces both the full list and the search result; a failed one keeps both |
| WorkersPage.HandleSearch | src/pages/workers/index.tsx:57-62 | the workers of the full list whose lower-cased name contains the lower-cased query, in order |
| WorkersPage.SearchFromFullList | src/pages/workers/index.tsx:58 | a search always starts from the full list, never from the previous result |
| WorkersPage.EmptySearchShowsAll | src/pages/workers/index.tsx:57-62 | an empty search shows every worker |
| WorkersPage.HandleSave | src/pages/workers/index.tsx:30-45 | an update of the edited worker or a creation; only success clears `editing`, closes the dialog and reloads |
| WorkersPage.HandleDelete | src/pages/workers/index.tsx:47-55 | the delete request; on success the list reloads |
| WorkersPage.ReloadResetsSearch | src/pages/workers/index.tsx:19-51 | after a successful save or delete the search result is the whole reloaded list |
| WorkersPage.OpenNew | src/pages/workers/index.tsx:79-82 | the add button clears `editing` and opens the dialog |
| WorkersPage.OpenEdit | src/pages/workers/index.tsx:90-93 | a row's edit button opens the dialog for that worker |
| WorkersPage.CloseDialog | src/pages/workers/index.tsx:101-113 | either cancel clears `editing` and closes the dialog |
| WorkersPage.ActionsKeepConsistent | src/pages/workers/index.tsx:16-62 | the search result is always drawn from the full list, in order |
| WorkersPage.AddButtonCreates | src/pages/workers/index.tsx:32-82 | saving from the add button always creates, whatever was edited before |
| WorkersPage.Title | src/pages/workers/index.tsx:98 | 编辑工人 exactly while a worker is edited, else 新增工人; its partner is TitleMatchesRequest |
| WorkersPage.TitleMatchesRequest | src/pages/workers/index.tsx:30-45 | a save is an update exactly under the 编辑工人 title, and the add button always shows 新增工人 |

## Left out

- Network calls are left out. Every request is a returned value; the
  reply, or whether the request succeeded, is a parameter (`ok`, `reply`,
  `fetched`, `accepted`). The backend's semantics are not modelled, for
  example what an `'adjust'` change does to stored stock.
- Spreadsheet decoding and encoding, `FileReader`, Blob and file saving are
  left out. The sheet arrives as header and body lines, and the exports
  return their tables.
- Floating point is left out. Numbers are exact reals or integers, and
  IEEE rounding and overflow are not modelled. `Number()` and `parseFloat`
  are function parameters, and `Infinity` does not occur.
- `SalaryImport.ToFixed` rounds the exact value half away from zero. It
  does not model the binary representation that can make `toFixed` round a
  decimal tie down.
- dayjs formatting is left out: dates are the strings it would produce.
  `localeCompare` on dates is code-unit order, which agrees with it for
  `YYYY-MM-DD` strings.
- `toLowerCase` folds ASCII letters only. Unicode case mapping and UTF-16
  surrogate pairs are not modelled, and neither is `trim` beyond the
  ECMAScript white-space set.
- React rendering, antd components, effect ordering, routing, and the
  worker form and list components are left out, because they hold no rule
  beyond wiring fields.
- The salary import highlight rule for rows is left out: it reads flags
  that nothing sets.
- Concurrency and timing are left out. This covers the parallel initial
  loads, overlapping requests, and the delay before the registration form
  returns to the login tab (modelled as immediate).
- The customer account, customer balance, customer and company
  management pages are left out: they only forward parameters to the
  backend.
- The separate login and registration pages and the plain login page are
  left out: they are unrouted duplicates or pure I/O.
- WageLog.FilteredRows: the table's `onChange` writes the filtered rows
  back as the data source. That could drop hidden rows, and it is not
  modelled.
- WageLogOld.SaveBody takes the price field as a number. The price typed
  into a text input reaches the code as a string, and the model does not
  follow that string through `??` and the multiplication.
- InventoryOperation.MinQuantity states the input's bound. The number
  input's clamping of values typed below it is not modelled.
- SpecModelPage.ToNumber does not model `Number` on non-numeric text,
  which gives NaN; the required rule stops the empty case.
- SpecModelPage.SubmitForm models antd's required rule as rejecting the
  empty text. Whitespace-only values pass, as they do in antd.
- CompanyAccount: the balance column's `toFixed(2)` display is left out
  with the rest of floating point.
