/**
 The salary-import page: a parsed spreadsheet becomes a table of row objects,
 two reconciliation passes annotate the rows (worker id; unit price and
 amount), and the rows are posted to the server in batches of 500.

 Rows are the page's plain JavaScript objects: a map from column name to the
 value stored there, where an absent key reads as `undefined`. Numbers are
 JavaScript numbers restricted to NaN and finite values; `Number(text)` is
 the parameter `parse`.
 */
module SalaryImport {
  import opened Common

  /** A JavaScript number as it occurs in this flow: NaN or a finite value. */
  datatype JsNum = NaN | Num(r: real)

  /** A value stored in a row: cell text, or a number the page wrote. */
  datatype Cell = Text(s: string) | Number(n: JsNum)

  /** A row object; a key that is absent reads as `undefined`. */
  type Row = map<string, Cell>

  // Column names fixed by the spreadsheet convention.
  const WorkerNameCol := "工人"
  const ProcessCol := "工序"
  const SpecCol := "规格型号"
  const QuantityCol := "数量"
  const GroupSizeCol := "组人数"
  const DateCol := "日期"
  const RemarkCol := "备注"
  // Columns the page adds.
  const WorkerIdCol := "工人ID"
  const UnitPriceCol := "单价"
  const AmountCol := "金额"
  // Bookkeeping keys of the row object.
  const StatusKey := "_rowStatus"
  const KeyKey := "key"

  const BatchSize: nat := 500

  datatype Worker = Worker(id: int, name: string, processId: int, processName: string)
  datatype Process = Process(id: int, name: string)
  /** A spec as loaded by this page: the page keeps only these four fields. */
  datatype SpecModel = SpecModel(id: int, processName: string, name: string, price: Cell)

  /**
   The decoded first sheet: no lines at all, or a header line of column names
   and the data lines below it, whose cells are the cell text or missing.
   */
  datatype Sheet = NoLines | Lines(header: seq<string>, body: seq<seq<Option<string>>>)

  /** The page's table state: its column list and its rows. */
  datatype ImportState = ImportState(columns: seq<string>, rows: seq<Row>)

  function Zero(): Cell { Number(Num(0.0)) }

  /** The page's own keys are pairwise different and differ from the columns the passes read. */
  lemma KeysDistinct()
    ensures WorkerIdCol != UnitPriceCol && WorkerIdCol != AmountCol && UnitPriceCol != AmountCol
    ensures StatusKey != WorkerIdCol && StatusKey != UnitPriceCol && StatusKey != AmountCol
    ensures WorkerNameCol != StatusKey && WorkerNameCol != WorkerIdCol
    ensures ProcessCol != StatusKey && ProcessCol != WorkerIdCol && ProcessCol != UnitPriceCol && ProcessCol != AmountCol
    ensures SpecCol != StatusKey && SpecCol != WorkerIdCol && SpecCol != UnitPriceCol && SpecCol != AmountCol
    ensures QuantityCol != StatusKey && QuantityCol != WorkerIdCol && QuantityCol != UnitPriceCol && QuantityCol != AmountCol
    ensures GroupSizeCol != StatusKey && GroupSizeCol != WorkerIdCol && GroupSizeCol != UnitPriceCol && GroupSizeCol != AmountCol
  {
  }

  function Lookup(row: Row, k: string): Option<Cell>
  {
    if k in row then Some(row[k]) else None
  }

  /* ---------------------------------------------------------------
   * Sheet to rows (handleFile)
   * --------------------------------------------------------------- */

  /** The column list: the sheet's headers with the three page columns added where absent. */
  function ImportColumns(headers: seq<string>): seq<string>
  {
    OptionalColumn(WorkerIdCol, headers) + headers
    + OptionalColumn(UnitPriceCol, headers) + OptionalColumn(AmountCol, headers)
  }

  /**
   Each page column occurs as often as in the headers, or once when the
   headers lack it; every other name occurs exactly as often as in the headers.
   */
  lemma ImportColumnsCounts(headers: seq<string>)
    ensures var cols := ImportColumns(headers);
            forall c :: multiset(cols)[c] == if IsPageColumn(c) && c !in headers then 1 else multiset(headers)[c]
  {
    var cols := ImportColumns(headers);
    var front := OptionalColumn(WorkerIdCol, headers);
    var back1 := OptionalColumn(UnitPriceCol, headers);
    var back2 := OptionalColumn(AmountCol, headers);
    assert multiset(cols) == multiset(front) + multiset(headers) + multiset(back1) + multiset(back2);
    forall c ensures multiset(cols)[c] == if IsPageColumn(c) && c !in headers then 1 else multiset(headers)[c] {
      ColumnCount(headers, c);
    }
  }

  lemma ColumnCount(headers: seq<string>, c: string)
    ensures multiset(OptionalColumn(WorkerIdCol, headers))[c] + multiset(OptionalColumn(UnitPriceCol, headers))[c]
            + multiset(OptionalColumn(AmountCol, headers))[c]
            == if IsPageColumn(c) && c !in headers then 1 else 0
  {
    assert WorkerIdCol != UnitPriceCol && WorkerIdCol != AmountCol && UnitPriceCol != AmountCol;
  }

  /** A name is a column exactly when it is a header or a page column. */
  lemma ImportColumnsMembers(headers: seq<string>)
    ensures var cols := ImportColumns(headers);
            forall c :: c in cols <==> c in headers || IsPageColumn(c)
  {
    var cols := ImportColumns(headers);
    ImportColumnsCounts(headers);
    forall c ensures c in cols <==> c in headers || IsPageColumn(c) {
      assert c in cols <==> multiset(cols)[c] > 0;
      assert c in headers <==> multiset(headers)[c] > 0;
    }
  }

  /** The headers stay in place, in order, after the optional leading worker-id column. */
  lemma ImportColumnsKeepHeaders(headers: seq<string>)
    ensures var cols := ImportColumns(headers);
            var off := if WorkerIdCol in headers then 0 else 1;
            off + |headers| <= |cols| && cols[off..off + |headers|] == headers
    ensures WorkerIdCol !in headers ==> ImportColumns(headers)[0] == WorkerIdCol
  {
    var front := OptionalColumn(WorkerIdCol, headers);
    var cols := ImportColumns(headers);
    assert cols == front + (headers + OptionalColumn(UnitPriceCol, headers) + OptionalColumn(AmountCol, headers));
    assert cols[|front|..|front| + |headers|] == headers;
  }

  /** `[c]` when the headers lack `c`, else nothing. */
  function OptionalColumn(c: string, headers: seq<string>): (r: seq<string>)
    ensures multiset(r)[c] == if c in headers then 0 else 1
    ensures forall d :: d != c ==> multiset(r)[d] == 0
  {
    if c in headers then [] else [c]
  }

  /** `(row[i] ?? '').toString()`: the text of cell `i`, or "" when it is missing. */
  function CellText(line: seq<Option<string>>, i: nat): string
  {
    if i < |line| && line[i].Some? then line[i].value else ""
  }

  /** No header after position `i` (and before `n`) repeats `headers[i]`: its cell is the one kept. */
  predicate LastBefore(headers: seq<string>, i: nat, n: nat)
    requires i < n <= |headers|
  {
    forall j :: i < j < n ==> headers[j] != headers[i]
  }

  /** `headers.forEach((header, i) => rowObj[header] = trimmed cell i)` over the first `n` headers. */
  function AssignHeaders(obj: Row, headers: seq<string>, line: seq<Option<string>>, n: nat): Row
    requires n <= |headers|
  {
    if n == 0 then obj
    else AssignHeaders(obj, headers, line, n - 1)[headers[n - 1] := Text(Trim(CellText(line, n - 1)))]
  }

  /** The assignments add exactly the headers as keys. */
  lemma {:induction false} AssignHeadersKeys(obj: Row, headers: seq<string>, line: seq<Option<string>>, n: nat)
    requires n <= |headers|
    ensures forall k :: k in AssignHeaders(obj, headers, line, n) <==> k in obj || k in headers[..n]
  {
    if n > 0 {
      AssignHeadersKeys(obj, headers, line, n - 1);
      assert headers[..n] == headers[..n - 1] + [headers[n - 1]];
    }
  }

  /** A key that is not a header keeps its value. */
  lemma {:induction false} AssignHeadersKeeps(obj: Row, headers: seq<string>, line: seq<Option<string>>, n: nat, k: string)
    requires n <= |headers| && k in obj && k !in headers[..n]
    ensures k in AssignHeaders(obj, headers, line, n) && AssignHeaders(obj, headers, line, n)[k] == obj[k]
  {
    if n > 0 {
      assert headers[..n - 1] == headers[..n][..n - 1];
      AssignHeadersKeeps(obj, headers, line, n - 1, k);
    }
  }

  /** The header at position `i` holds cell `i` when no later header repeats it. */
  lemma {:induction false} AssignHeadersLast(obj: Row, headers: seq<string>, line: seq<Option<string>>, n: nat, i: nat)
    requires i < n <= |headers| && LastBefore(headers, i, n)
    ensures var r := AssignHeaders(obj, headers, line, n);
            headers[i] in r && r[headers[i]] == Text(Trim(CellText(line, i)))
  {
    if i < n - 1 {
      assert headers[n - 1] != headers[i];
      assert LastBefore(headers, i, n - 1);
      AssignHeadersLast(obj, headers, line, n - 1, i);
    }
  }

  /** The three columns the page fills in itself. */
  predicate IsPageColumn(c: string)
  {
    c == WorkerIdCol || c == UnitPriceCol || c == AmountCol
  }

  /** The row object built from data line number `index`. */
  function BuildRow(headers: seq<string>, line: seq<Option<string>>, index: nat): Row
  {
    AssignHeaders(map[KeyKey := Number(Num(index as real))], headers, line, |headers|)
      [WorkerIdCol := Zero()][UnitPriceCol := Zero()][AmountCol := Zero()]
  }

  /** A built row holds the key, one entry per header and the three page columns, and nothing else. */
  lemma BuildRowKeys(headers: seq<string>, line: seq<Option<string>>, index: nat)
    ensures var r := BuildRow(headers, line, index);
            forall k :: k in r <==> k in headers || k == KeyKey || IsPageColumn(k)
  {
    AssignHeadersKeys(map[KeyKey := Number(Num(index as real))], headers, line, |headers|);
    assert headers[..|headers|] == headers;
  }

  /** The page columns start at 0, and the key is the line number unless a header overwrote it. */
  lemma BuildRowFixedColumns(headers: seq<string>, line: seq<Option<string>>, index: nat)
    ensures var r := BuildRow(headers, line, index);
            WorkerIdCol in r && UnitPriceCol in r && AmountCol in r
            && r[WorkerIdCol] == Zero() && r[UnitPriceCol] == Zero() && r[AmountCol] == Zero()
    ensures var r := BuildRow(headers, line, index);
            KeyKey !in headers ==> KeyKey in r && r[KeyKey] == Number(Num(index as real))
  {
    assert WorkerIdCol != UnitPriceCol && WorkerIdCol != AmountCol && UnitPriceCol != AmountCol;
    assert KeyKey != WorkerIdCol && KeyKey != UnitPriceCol && KeyKey != AmountCol;
    assert headers[..|headers|] == headers;
    if KeyKey !in headers {
      AssignHeadersKeeps(map[KeyKey := Number(Num(index as real))], headers, line, |headers|, KeyKey);
    }
  }

  /** Every other header holds the trimmed text of its cell; for a repeated header, the last one's. */
  lemma BuildRowCells(headers: seq<string>, line: seq<Option<string>>, index: nat, i: nat)
    requires i < |headers| && LastBefore(headers, i, |headers|) && !IsPageColumn(headers[i])
    ensures var r := BuildRow(headers, line, index);
            headers[i] in r && r[headers[i]] == Text(Trim(CellText(line, i)))
  {
    var obj := AssignHeaders(map[KeyKey := Number(Num(index as real))], headers, line, |headers|);
    var h := headers[i];
    AssignHeadersLast(map[KeyKey := Number(Num(index as real))], headers, line, |headers|, i);
    assert h != WorkerIdCol && h != UnitPriceCol && h != AmountCol;
    assert BuildRow(headers, line, index)[h] == obj[h];
  }

  /** `handleFile`: an empty sheet leaves the state alone; otherwise columns and rows are replaced. */
  function HandleFile(st: ImportState, sheet: Sheet): (r: ImportState)
    ensures sheet.NoLines? ==> r == st
    ensures sheet.Lines? ==> r.columns == ImportColumns(sheet.header) && |r.rows| == |sheet.body|
    ensures sheet.Lines? ==> forall i :: 0 <= i < |r.rows| ==> r.rows[i] == BuildRow(sheet.header, sheet.body[i], i)
  {
    match sheet
    case NoLines => st
    case Lines(header, body) =>
      ImportState(ImportColumns(header), seq(|body|, i requires 0 <= i < |body| => BuildRow(header, body[i], i)))
  }

  /* ---------------------------------------------------------------
   * Worker check (checkWorkers)
   * --------------------------------------------------------------- */

  /** `w.name === row['工人']`: only a text value equal to the name matches. */
  predicate IsWorkerOf(row: Row, w: Worker)
  {
    Lookup(row, WorkerNameCol) == Some(Text(w.name))
  }

  predicate HasWorker(row: Row, workers: seq<Worker>)
  {
    exists w :: w in workers && IsWorkerOf(row, w)
  }

  /** The rows the worker pass counts: no worker carries the row's name. */
  function NoWorker(workers: seq<Worker>): Row -> bool
  {
    row => !HasWorker(row, workers)
  }

  /** `workers[i]` is the worker `find` returns for the row: the first one with the row's name. */
  predicate FirstWorker(row: Row, workers: seq<Worker>, i: int)
  {
    0 <= i < |workers| && IsWorkerOf(row, workers[i]) && forall j :: 0 <= j < i ==> !IsWorkerOf(row, workers[j])
  }

  /** One row of the worker pass: the first worker with that exact name, or id 0 and status red. */
  function CheckWorkerRow(row: Row, workers: seq<Worker>): (r: Row)
    ensures r.Keys == row.Keys + {StatusKey, WorkerIdCol}
    ensures forall k :: k in row && k != StatusKey && k != WorkerIdCol ==> r[k] == row[k]
    ensures !HasWorker(row, workers) ==> r[WorkerIdCol] == Zero() && r[StatusKey] == Text("red")
    ensures forall i :: FirstWorker(row, workers, i) ==>
              r[WorkerIdCol] == Number(Num(workers[i].id as real)) && r[StatusKey] == Text("")
  {
    var m := WorkerMatch(Lookup(row, WorkerNameCol), workers);
    assert m.Some? ==> IsWorkerOf(row, workers[m.value]);
    assert m.None? ==> forall x :: x in workers ==> !IsWorkerOf(row, x);
    forall i | FirstWorker(row, workers, i)
      ensures m == Some(i)
    {
      FindFirstAt(workers, (w: Worker) => Lookup(row, WorkerNameCol) == Some(Text(w.name)), i);
    }
    WorkerStamp(row, if m.None? then Text("red") else Text(""),
                if m.None? then Zero() else Number(Num(workers[m.value].id as real)))
  }

  /** The two writes of the worker pass. */
  function WorkerStamp(row: Row, status: Cell, id: Cell): Row
  {
    row[StatusKey := status][WorkerIdCol := id]
  }

  /** The index `find` returns for a worker name read from a row. */
  function WorkerMatch(name: Option<Cell>, workers: seq<Worker>): (m: Option<nat>)
    ensures m.None? <==> forall i :: 0 <= i < |workers| ==> name != Some(Text(workers[i].name))
    ensures m.Some? ==> m.value < |workers| && name == Some(Text(workers[m.value].name))
    ensures m.Some? ==> forall j :: 0 <= j < m.value ==> name != Some(Text(workers[j].name))
  {
    FindFirst(workers, (w: Worker) => name == Some(Text(w.name)))
  }

  /** The new rows and the count reported in the notification. */
  datatype PassResult = PassResult(rows: seq<Row>, unmatched: nat)

  predicate IsRed(row: Row)
  {
    Lookup(row, StatusKey) == Some(Text("red"))
  }

  /**
   One reconciliation pass: `annotate` rewrites each row, and `missed` says
   whether the row bumps the counter shown in the notification.
   */
  function RunPass(rows: seq<Row>, annotate: Row -> Row, missed: Row -> bool): (r: PassResult)
    ensures |r.rows| == |rows|
    ensures forall i :: 0 <= i < |rows| ==> r.rows[i] == annotate(rows[i])
    ensures r.unmatched == Count(rows, missed)
  {
    if |rows| == 0 then PassResult([], 0)
    else
      var rest := RunPass(rows[1..], annotate, missed);
      PassResult([annotate(rows[0])] + rest.rows, (if missed(rows[0]) then 1 else 0) + rest.unmatched)
  }

  /** When a row turns red exactly when it is missed, the counter is the number of red rows. */
  lemma {:induction false} PassCountsRedRows(rows: seq<Row>, annotate: Row -> Row, missed: Row -> bool)
    requires forall row :: IsRed(annotate(row)) <==> missed(row)
    ensures RunPass(rows, annotate, missed).unmatched == Count(RunPass(rows, annotate, missed).rows, IsRed)
  {
    if |rows| > 0 {
      PassCountsRedRows(rows[1..], annotate, missed);
      var out := RunPass(rows, annotate, missed).rows;
      assert out[1..] == RunPass(rows[1..], annotate, missed).rows;
    }
  }

  /** `checkWorkers`: every row annotated; the count is the number of rows without a worker. */
  function CheckWorkers(rows: seq<Row>, workers: seq<Worker>): (r: PassResult)
    ensures |r.rows| == |rows|
    ensures forall i :: 0 <= i < |rows| ==> r.rows[i] == CheckWorkerRow(rows[i], workers)
    ensures r.unmatched == Count(rows, NoWorker(workers))
    ensures r.unmatched == Count(r.rows, IsRed)
  {
    var annotate := (row: Row) => CheckWorkerRow(row, workers);
    forall row ensures IsRed(annotate(row)) <==> NoWorker(workers)(row) {
      var out := CheckWorkerRow(row, workers);
      assert Lookup(out, StatusKey) == Some(out[StatusKey]);
    }
    PassCountsRedRows(rows, annotate, NoWorker(workers));
    RunPass(rows, annotate, NoWorker(workers))
  }

  /** Running the worker pass twice gives the same rows and the same count as running it once. */
  lemma CheckWorkersIdempotent(rows: seq<Row>, workers: seq<Worker>)
    ensures CheckWorkers(CheckWorkers(rows, workers).rows, workers) == CheckWorkers(rows, workers)
  {
    var once := CheckWorkers(rows, workers);
    CheckWorkersRowsIdempotent(rows, workers);
    CountCongruent(rows, once.rows, workers);
  }

  lemma CheckWorkersRowsIdempotent(rows: seq<Row>, workers: seq<Worker>)
    ensures CheckWorkers(CheckWorkers(rows, workers).rows, workers).rows == CheckWorkers(rows, workers).rows
  {
    var once := CheckWorkers(rows, workers).rows;
    var twice := CheckWorkers(once, workers).rows;
    forall i | 0 <= i < |rows|
      ensures twice[i] == once[i]
    {
      CheckWorkerRowIdempotent(rows[i], workers);
    }
  }

  lemma CheckWorkerRowIdempotent(row: Row, workers: seq<Worker>)
    ensures CheckWorkerRow(CheckWorkerRow(row, workers), workers) == CheckWorkerRow(row, workers)
  {
    var once := CheckWorkerRow(row, workers);
    assert Lookup(once, WorkerNameCol) == Lookup(row, WorkerNameCol);
    assert forall w :: IsWorkerOf(once, w) <==> IsWorkerOf(row, w);
  }

  lemma {:induction false} CountCongruent(rows: seq<Row>, once: seq<Row>, workers: seq<Worker>)
    requires |once| == |rows|
    requires forall i :: 0 <= i < |rows| ==> once[i] == CheckWorkerRow(rows[i], workers)
    ensures Count(once, NoWorker(workers)) == Count(rows, NoWorker(workers))
  {
    if |rows| > 0 {
      CheckWorkerRowIdempotent(rows[0], workers);
      assert Lookup(once[0], WorkerNameCol) == Lookup(rows[0], WorkerNameCol);
      assert forall w :: IsWorkerOf(once[0], w) <==> IsWorkerOf(rows[0], w);
      CountCongruent(rows[1..], once[1..], workers);
    }
  }

  /* ---------------------------------------------------------------
   * Price check (findPrice, checkPriceAndCompute)
   * --------------------------------------------------------------- */

  /** JavaScript `Number(v)` for a row value; `undefined` gives NaN. */
  function ToNumber(v: Option<Cell>, parse: string -> JsNum): JsNum
  {
    match v
    case None => NaN
    case Some(Text(s)) => parse(s)
    case Some(Number(n)) => n
  }

  /** `spec.process_name === processName && spec.name === specName` for row values. */
  predicate IsSpecOf(s: SpecModel, processName: Option<Cell>, specName: Option<Cell>)
  {
    processName == Some(Text(s.processName)) && specName == Some(Text(s.name))
  }

  /** `specs[i]` is the first spec matching both names. */
  predicate FirstSpec(specs: seq<SpecModel>, processName: Option<Cell>, specName: Option<Cell>, i: int)
  {
    0 <= i < |specs| && IsSpecOf(specs[i], processName, specName)
    && forall j :: 0 <= j < i ==> !IsSpecOf(specs[j], processName, specName)
  }

  /** `findPrice`: the price of the first spec matching both names, or 0. */
  function FindPrice(specs: seq<SpecModel>, processName: Option<Cell>, specName: Option<Cell>,
                     parse: string -> JsNum): (r: JsNum)
    ensures (forall s :: s in specs ==> !IsSpecOf(s, processName, specName)) ==> r == Num(0.0)
    ensures forall i :: FirstSpec(specs, processName, specName, i) ==> r == ToNumber(Some(specs[i].price), parse)
  {
    var isSpec := (s: SpecModel) => IsSpecOf(s, processName, specName);
    var m := FindFirst(specs, isSpec);
    forall i | FirstSpec(specs, processName, specName, i)
      ensures m == Some(i)
    {
      FindFirstAt(specs, isSpec, i);
    }
    if m.None? then Num(0.0)
    else
      assert specs[m.value] in specs && IsSpecOf(specs[m.value], processName, specName);
      ToNumber(Some(specs[m.value].price), parse)
  }

  /** `Number(row['数量']) || 0`. */
  function Quantity(row: Row, parse: string -> JsNum): (q: real)
    ensures ToNumber(Lookup(row, QuantityCol), parse).NaN? ==> q == 0.0
    ensures ToNumber(Lookup(row, QuantityCol), parse).Num? ==> q == ToNumber(Lookup(row, QuantityCol), parse).r
  {
    match ToNumber(Lookup(row, QuantityCol), parse)
    case NaN => 0.0
    case Num(x) => if x == 0.0 then 0.0 else x
  }

  /** `Number(row['组人数']) || 1`: never zero; 1 when missing, zero or not a number. */
  function GroupSize(row: Row, parse: string -> JsNum): (g: real)
    ensures g != 0.0
    ensures var n := ToNumber(Lookup(row, GroupSizeCol), parse);
            if n.NaN? || n.r == 0.0 then g == 1.0 else g == n.r
  {
    match ToNumber(Lookup(row, GroupSizeCol), parse)
    case NaN => 1.0
    case Num(x) => if x == 0.0 then 1.0 else x
  }

  function Pow10(d: nat): (p: real)
    ensures p >= 1.0
  {
    if d == 0 then 1.0 else 10.0 * Pow10(d - 1)
  }

  /**
   The integer `n` that `toFixed(d)` prints for `x` (as `n / 10^d`): the
   nearest integer to `x * 10^d`, ties away from zero.
   */
  function FixedUnits(x: real, d: nat): (n: int)
    ensures x >= 0.0 ==> x * Pow10(d) - 0.5 < n as real <= x * Pow10(d) + 0.5
    ensures x < 0.0 ==> x * Pow10(d) - 0.5 <= n as real < x * Pow10(d) + 0.5
  {
    if x >= 0.0 then (x * Pow10(d) + 0.5).Floor
    else -((-x) * Pow10(d) + 0.5).Floor
  }

  /** `Number(x.toFixed(d))` on exact values; NaN stays NaN. */
  function ToFixed(x: JsNum, d: nat): (r: JsNum)
    ensures x.NaN? <==> r.NaN?
    ensures x.Num? ==> r == Num(FixedUnits(x.r, d) as real / Pow10(d))
  {
    match x
    case NaN => NaN
    case Num(v) => Num(FixedUnits(v, d) as real / Pow10(d))
  }

  /** `(price * qty) / group`, with the page's dead `group === 0 ? 0` guard; NaN propagates. */
  function Amount(price: JsNum, qty: real, group: real): (a: JsNum)
    ensures group == 0.0 ==> a == Num(0.0)
    ensures group != 0.0 && price.NaN? ==> a.NaN?
    ensures group != 0.0 && price.Num? ==> a == Num(price.r * qty / group)
  {
    if group == 0.0 then Num(0.0)
    else if price.NaN? then NaN
    else Num(price.r * qty / group)
  }

  /** The price found for a row from its process and spec names. */
  function RowPrice(row: Row, specs: seq<SpecModel>, parse: string -> JsNum): JsNum
  {
    FindPrice(specs, Lookup(row, ProcessCol), Lookup(row, SpecCol), parse)
  }

  /**
   The amount for a row: price times quantity over group size; NaN when the
   price is NaN; never the zero-group branch, since the group size is never 0.
   */
  function RowAmount(row: Row, specs: seq<SpecModel>, parse: string -> JsNum): JsNum
  {
    Amount(RowPrice(row, specs, parse), Quantity(row, parse), GroupSize(row, parse))
  }

  /**
   The amount is NaN exactly when the price is; otherwise it is price times
   quantity over the group size, and the page's `group === 0` branch is dead.
   */
  lemma RowAmountMeaning(row: Row, specs: seq<SpecModel>, parse: string -> JsNum)
    ensures RowPrice(row, specs, parse).NaN? <==> RowAmount(row, specs, parse).NaN?
    ensures var price := RowPrice(row, specs, parse);
            price.Num? ==> RowAmount(row, specs, parse) == Num(price.r * Quantity(row, parse) / GroupSize(row, parse))
  {
    var price := RowPrice(row, specs, parse);
    var qty := Quantity(row, parse);
    var group := GroupSize(row, parse);
    assert group != 0.0;
    assert RowAmount(row, specs, parse) == Amount(price, qty, group);
  }

  /** One row of the price pass. */
  function PriceRow(row: Row, specs: seq<SpecModel>, parse: string -> JsNum): (r: Row)
    ensures r.Keys == row.Keys + {StatusKey, UnitPriceCol, AmountCol}
    ensures forall k :: k in row && k != StatusKey && k != UnitPriceCol && k != AmountCol ==> r[k] == row[k]
    ensures r[StatusKey] == Text(if RowPrice(row, specs, parse) == Num(0.0) then "red" else "green")
    ensures r[UnitPriceCol] == Number(ToFixed(RowPrice(row, specs, parse), 2))
    ensures r[AmountCol] == Number(ToFixed(RowAmount(row, specs, parse), 1))
  {
    assert StatusKey != UnitPriceCol && StatusKey != AmountCol && UnitPriceCol != AmountCol;
    var r := PriceStamp(row, RowPrice(row, specs, parse), RowAmount(row, specs, parse));
    forall k | k in row && k != StatusKey && k != UnitPriceCol && k != AmountCol
      ensures r[k] == row[k]
    {
    }
    r
  }

  /** The three writes of the price pass, for a given price and amount. */
  function PriceStamp(row: Row, price: JsNum, amount: JsNum): Row
  {
    row[StatusKey := Text(if price == Num(0.0) then "red" else "green")]
       [UnitPriceCol := Number(ToFixed(price, 2))]
       [AmountCol := Number(ToFixed(amount, 1))]
  }

  /** The two stamps touch disjoint keys apart from the status. */
  lemma StampsCommuteExceptStatus(row: Row, status: Cell, id: Cell, price: JsNum, amount: JsNum)
    ensures var wp := PriceStamp(WorkerStamp(row, status, id), price, amount);
            var pw := WorkerStamp(PriceStamp(row, price, amount), status, id);
            wp.Keys == pw.Keys && forall k :: k in wp && k != StatusKey ==> wp[k] == pw[k]
  {
    assert StatusKey != WorkerIdCol && StatusKey != UnitPriceCol && StatusKey != AmountCol;
    assert WorkerIdCol != UnitPriceCol && WorkerIdCol != AmountCol;
  }

  /** The rows the price pass counts: the price found is 0. */
  function NoPrice(specs: seq<SpecModel>, parse: string -> JsNum): Row -> bool
  {
    row => RowPrice(row, specs, parse) == Num(0.0)
  }

  /** `checkPriceAndCompute`: every row priced; the count is the number of rows whose price is 0. */
  function CheckPrices(rows: seq<Row>, specs: seq<SpecModel>, parse: string -> JsNum): (r: PassResult)
    ensures |r.rows| == |rows|
    ensures forall i :: 0 <= i < |rows| ==> r.rows[i] == PriceRow(rows[i], specs, parse)
    ensures r.unmatched == Count(rows, NoPrice(specs, parse))
    ensures r.unmatched == Count(r.rows, IsRed)
  {
    var annotate := (row: Row) => PriceRow(row, specs, parse);
    forall row ensures IsRed(annotate(row)) <==> NoPrice(specs, parse)(row) {
      var out := PriceRow(row, specs, parse);
      assert Lookup(out, StatusKey) == Some(out[StatusKey]);
    }
    PassCountsRedRows(rows, annotate, NoPrice(specs, parse));
    RunPass(rows, annotate, NoPrice(specs, parse))
  }

  /** A spec that matches but is priced 0 counts as unmatched, exactly like a missing spec. */
  lemma ZeroPricedSpecCountsAsUnmatched(s: SpecModel, row: Row, parse: string -> JsNum)
    requires IsSpecOf(s, Lookup(row, ProcessCol), Lookup(row, SpecCol))
    requires ToNumber(Some(s.price), parse) == Num(0.0)
    ensures CheckPrices([row], [s], parse).unmatched == 1
    ensures PriceRow(row, [s], parse)[StatusKey] == Text("red")
  {
    assert RowPrice(row, [s], parse) == Num(0.0);
    assert [row][1..] == [];
  }

  /**
   The two passes write disjoint columns but share the status key: run in
   either order they agree on every key except the status, which the later
   pass decides.
   */
  lemma PassesCommuteExceptStatus(row: Row, workers: seq<Worker>, specs: seq<SpecModel>, parse: string -> JsNum)
    ensures var wp := PriceRow(CheckWorkerRow(row, workers), specs, parse);
            var pw := CheckWorkerRow(PriceRow(row, specs, parse), workers);
            wp.Keys == pw.Keys
            && (forall k :: k in wp && k != StatusKey ==> wp[k] == pw[k])
            && wp[StatusKey] == PriceRow(row, specs, parse)[StatusKey]
            && pw[StatusKey] == CheckWorkerRow(row, workers)[StatusKey]
  {
    var w := CheckWorkerRow(row, workers);
    var p := PriceRow(row, specs, parse);
    WorkerPassKeepsPriceInputs(row, workers, specs, parse);
    PricePassKeepsWorkerInputs(row, workers, specs, parse);
    var m := WorkerMatch(Lookup(row, WorkerNameCol), workers);
    assert Lookup(p, WorkerNameCol) == Lookup(row, WorkerNameCol);
    StampsCommuteExceptStatus(row, if m.None? then Text("red") else Text(""),
                              if m.None? then Zero() else Number(Num(workers[m.value].id as real)),
                              RowPrice(row, specs, parse), RowAmount(row, specs, parse));
  }

  /** The worker pass writes the same worker id and status for two rows with the same worker name. */
  lemma WorkerColumnsDependOnName(r1: Row, r2: Row, workers: seq<Worker>)
    requires Lookup(r1, WorkerNameCol) == Lookup(r2, WorkerNameCol)
    ensures CheckWorkerRow(r1, workers)[WorkerIdCol] == CheckWorkerRow(r2, workers)[WorkerIdCol]
    ensures CheckWorkerRow(r1, workers)[StatusKey] == CheckWorkerRow(r2, workers)[StatusKey]
  {
    assert forall x :: IsWorkerOf(r1, x) <==> IsWorkerOf(r2, x);
    var f := FindFirst(workers, x => IsWorkerOf(r1, x));
    if f.Some? {
      assert FirstWorker(r1, workers, f.value) && FirstWorker(r2, workers, f.value);
    }
  }

  /** The worker pass leaves the columns the price pass reads alone. */
  lemma WorkerPassKeepsPriceInputs(row: Row, workers: seq<Worker>, specs: seq<SpecModel>, parse: string -> JsNum)
    ensures var w := CheckWorkerRow(row, workers);
            RowPrice(w, specs, parse) == RowPrice(row, specs, parse)
            && RowAmount(w, specs, parse) == RowAmount(row, specs, parse)
  {
    var w := CheckWorkerRow(row, workers);
    KeysDistinct();
    assert Lookup(w, ProcessCol) == Lookup(row, ProcessCol) && Lookup(w, SpecCol) == Lookup(row, SpecCol);
    assert Lookup(w, QuantityCol) == Lookup(row, QuantityCol) && Lookup(w, GroupSizeCol) == Lookup(row, GroupSizeCol);
  }

  /** The price pass leaves the column the worker pass reads alone. */
  lemma PricePassKeepsWorkerInputs(row: Row, workers: seq<Worker>, specs: seq<SpecModel>, parse: string -> JsNum)
    ensures var p := PriceRow(row, specs, parse);
            (forall x :: IsWorkerOf(p, x) <==> IsWorkerOf(row, x))
            && (HasWorker(p, workers) <==> HasWorker(row, workers))
            && (forall i :: FirstWorker(p, workers, i) <==> FirstWorker(row, workers, i))
  {
    var p := PriceRow(row, specs, parse);
    KeysDistinct();
    assert Lookup(p, WorkerNameCol) == Lookup(row, WorkerNameCol);
  }

  /** So the order matters for the status: a known worker with an unpriced spec ends red or "". */
  lemma PassOrderDecidesStatus()
    ensures var row := map[WorkerNameCol := Text("张三")];
            var workers := [Worker(1, "张三", 0, "")];
            var parse := (s: string) => NaN;
            PriceRow(CheckWorkerRow(row, workers), [], parse)[StatusKey] == Text("red")
            && CheckWorkerRow(PriceRow(row, [], parse), workers)[StatusKey] == Text("")
  {
    var row := map[WorkerNameCol := Text("张三")];
    var workers := [Worker(1, "张三", 0, "")];
    assert IsWorkerOf(row, workers[0]);
    var p := PriceRow(row, [], (s: string) => NaN);
    assert Lookup(p, WorkerNameCol) == Lookup(row, WorkerNameCol);
    assert IsWorkerOf(p, workers[0]);
  }

  /* ---------------------------------------------------------------
   * Batch submission (importToDB)
   * --------------------------------------------------------------- */

  /** The payload of one wage log, as built per row at submit time. */
  datatype WageLogRecord = WageLogRecord(
    workerId: int, processId: int, specModelId: int, date: Option<Cell>,
    actualPrice: JsNum, quantity: JsNum, actualGroupSize: JsNum, totalWage: JsNum, remark: Cell)

  /** JavaScript truthiness of a row value. */
  predicate Truthy(v: Option<Cell>)
  {
    match v
    case None => false
    case Some(Text(s)) => s != ""
    case Some(Number(n)) => n.Num? && n.r != 0.0
  }

  predicate HasProcess(row: Row, processes: seq<Process>)
  {
    exists p :: p in processes && Lookup(row, ProcessCol) == Some(Text(p.name))
  }

  /** `processes[i]` is the first process whose name is the row's 工序 text. */
  predicate FirstProcess(row: Row, processes: seq<Process>, i: int)
  {
    0 <= i < |processes| && Lookup(row, ProcessCol) == Some(Text(processes[i].name))
    && forall j :: 0 <= j < i ==> Lookup(row, ProcessCol) != Some(Text(processes[j].name))
  }

  predicate HasSpec(row: Row, specs: seq<SpecModel>)
  {
    exists s :: s in specs && IsSpecOf(s, Lookup(row, ProcessCol), Lookup(row, SpecCol))
  }

  /**
   The record for one row, or None where the page's `find(...)!.id` reads a
   property of `undefined` and throws: no worker with the exact name, no
   process with the exact name, or no spec with both names.
   */
  function ToRecord(row: Row, workers: seq<Worker>, processes: seq<Process>, specs: seq<SpecModel>,
                    parse: string -> JsNum): (r: Option<WageLogRecord>)
    ensures r.Some? <==> (HasWorker(row, workers) && HasProcess(row, processes) && HasSpec(row, specs))
    ensures forall i :: FirstWorker(row, workers, i) && r.Some? ==> r.value.workerId == workers[i].id
    ensures forall i :: FirstProcess(row, processes, i) && r.Some? ==> r.value.processId == processes[i].id
    ensures forall i :: FirstSpec(specs, Lookup(row, ProcessCol), Lookup(row, SpecCol), i) && r.Some? ==>
              r.value.specModelId == specs[i].id
    ensures r.Some? ==> (r.value.date == Lookup(row, DateCol)
                         && r.value.actualPrice == ToNumber(Lookup(row, UnitPriceCol), parse)
                         && r.value.quantity == ToNumber(Lookup(row, QuantityCol), parse)
                         && r.value.actualGroupSize == ToNumber(Lookup(row, GroupSizeCol), parse)
                         && r.value.totalWage == ToNumber(Lookup(row, AmountCol), parse)
                         && r.value.remark == (if Truthy(Lookup(row, RemarkCol)) then row[RemarkCol] else Text("")))
  {
    var w := FindFirst(workers, x => IsWorkerOf(row, x));
    var p := FindFirst(processes, (x: Process) => Lookup(row, ProcessCol) == Some(Text(x.name)));
    var s := FindFirst(specs, x => IsSpecOf(x, Lookup(row, ProcessCol), Lookup(row, SpecCol)));
    if w.None? || p.None? || s.None? then
      None
    else
      Some(WageLogRecord(
        workers[w.value].id, processes[p.value].id, specs[s.value].id, Lookup(row, DateCol),
        ToNumber(Lookup(row, UnitPriceCol), parse), ToNumber(Lookup(row, QuantityCol), parse),
        ToNumber(Lookup(row, GroupSizeCol), parse), ToNumber(Lookup(row, AmountCol), parse),
        if Truthy(Lookup(row, RemarkCol)) then row[RemarkCol] else Text("")))
  }

  /**
   The import and the worker check agree: a row that converts carries the
   worker id the check stamps on it, so a row the check leaves red for its
   worker always stops the import.
   */
  lemma RecordAgreesWithWorkerCheck(row: Row, workers: seq<Worker>, processes: seq<Process>, specs: seq<SpecModel>,
                                    parse: string -> JsNum)
    ensures var r := ToRecord(row, workers, processes, specs, parse);
            r.Some? ==> CheckWorkerRow(row, workers)[WorkerIdCol] == Number(Num(r.value.workerId as real))
                        && CheckWorkerRow(row, workers)[StatusKey] == Text("")
    ensures CheckWorkerRow(row, workers)[StatusKey] == Text("red") ==> ToRecord(row, workers, processes, specs, parse).None?
  {
    var r := ToRecord(row, workers, processes, specs, parse);
    var m := FindFirst(workers, (x: Worker) => IsWorkerOf(row, x));
    if m.Some? {
      assert FirstWorker(row, workers, m.value);
    }
  }

  /** The record of each row of a chunk, `None` where that row throws. */
  function RowRecords(chunk: seq<Row>, workers: seq<Worker>, processes: seq<Process>, specs: seq<SpecModel>,
                      parse: string -> JsNum): (recs: seq<Option<WageLogRecord>>)
    ensures |recs| == |chunk|
    ensures forall i :: 0 <= i < |chunk| ==> recs[i] == ToRecord(chunk[i], workers, processes, specs, parse)
  {
    seq(|chunk|, i requires 0 <= i < |chunk| => ToRecord(chunk[i], workers, processes, specs, parse))
  }

  /** The records of a chunk; None as soon as one row throws (the chunk is then never sent). */
  function ChunkRecords(chunk: seq<Row>, workers: seq<Worker>, processes: seq<Process>, specs: seq<SpecModel>,
                        parse: string -> JsNum): (r: Option<seq<WageLogRecord>>)
    ensures r.Some? <==> forall i :: 0 <= i < |chunk| ==> ToRecord(chunk[i], workers, processes, specs, parse).Some?
    ensures r.Some? ==> |r.value| == |chunk|
    ensures r.Some? ==> forall i :: 0 <= i < |chunk| ==> Some(r.value[i]) == ToRecord(chunk[i], workers, processes, specs, parse)
  {
    var recs := RowRecords(chunk, workers, processes, specs, parse);
    if forall i :: 0 <= i < |recs| ==> recs[i].Some? then
      Some(seq(|recs|, i requires 0 <= i < |recs| && recs[i].Some? => recs[i].value))
    else None
  }

  /** `Math.ceil(n / 500)`. */
  function NumBatches(n: nat): (b: nat)
    ensures BatchSize * b >= n
    ensures b > 0 ==> BatchSize * (b - 1) < n
  {
    (n + BatchSize - 1) / BatchSize
  }

  /** Batch `k`: `data.slice(500k, 500k + 500)`. */
  function Chunk(rows: seq<Row>, k: nat): (c: seq<Row>)
    ensures k < NumBatches(|rows|) ==> c == rows[BatchSize * k..Min(BatchSize * k + BatchSize, |rows|)]
    ensures k < NumBatches(|rows|) ==> 0 < |c| <= BatchSize
  {
    JsSlice(rows, BatchSize * k, BatchSize * k + BatchSize)
  }

  /** The first `m` batches. */
  function Batches(rows: seq<Row>, m: nat): (bs: seq<seq<Row>>)
    ensures |bs| == m && forall k :: 0 <= k < m ==> bs[k] == Chunk(rows, k)
  {
    seq(m, k requires 0 <= k < m => Chunk(rows, k))
  }

  /** The first `m` batches, joined, are the first `min(500m, n)` rows. */
  lemma {:induction false} ChunksCoverRows(rows: seq<Row>, m: nat)
    requires m <= NumBatches(|rows|)
    ensures Flatten(Batches(rows, m)) == rows[..Min(BatchSize * m, |rows|)]
  {
    if m > 0 {
      ChunksCoverRows(rows, m - 1);
      var prev := Batches(rows, m - 1);
      assert Batches(rows, m) == prev + [Chunk(rows, m - 1)];
      FlattenAppend(prev, Chunk(rows, m - 1));
      assert rows[..BatchSize * (m - 1)] + rows[BatchSize * (m - 1)..Min(BatchSize * m, |rows|)]
          == rows[..Min(BatchSize * m, |rows|)];
    }
  }

  function Flatten<T>(ss: seq<seq<T>>): seq<T>
  {
    if |ss| == 0 then [] else Flatten(ss[..|ss| - 1]) + ss[|ss| - 1]
  }

  lemma FlattenAppend<T>(ss: seq<seq<T>>, s: seq<T>)
    ensures Flatten(ss + [s]) == Flatten(ss) + s
  {
    assert (ss + [s])[..|ss|] == ss;
  }

  /** All batches together are exactly the rows, in order. */
  lemma ChunksPartitionRows(rows: seq<Row>)
    ensures Flatten(Batches(rows, NumBatches(|rows|))) == rows
  {
    ChunksCoverRows(rows, NumBatches(|rows|));
    assert Min(BatchSize * NumBatches(|rows|), |rows|) == |rows|;
    assert rows[..|rows|] == rows;
  }

  /** 1200 rows go out as three calls of 500, 500 and 200 rows. */
  lemma TwelveHundredRowsMakeThreeBatches(rows: seq<Row>)
    requires |rows| == 1200
    ensures NumBatches(|rows|) == 3
    ensures |Chunk(rows, 0)| == 500 && |Chunk(rows, 1)| == 500 && |Chunk(rows, 2)| == 200
  {
  }

  /** Batch `k` exists exactly when it starts before the last row. */
  lemma BatchIndex(n: nat, k: nat)
    requires k <= NumBatches(n)
    ensures BatchSize * k < n <==> k < NumBatches(n)
  {
  }

  /** Each call posted the converted batch with the same number. */
  predicate SentBatches<B(==)>(rows: seq<Row>, convert: seq<Row> -> Option<B>, sent: seq<B>)
  {
    forall k :: 0 <= k < |sent| ==> convert(Chunk(rows, k)) == Some(sent[k])
  }

  /** After accepted batch `k` the progress shows `min(500k + 500, n)` rows done. */
  predicate ProgressShown(n: nat, accepted: nat -> bool, progress: seq<nat>)
  {
    forall k :: 0 <= k < |progress| ==> accepted(k) && progress[k] == Min(BatchSize * k + BatchSize, n)
  }

  datatype ImportOutcome = NothingToImport | Completed | Failed

  /**
   The loop of `importToDB`: batches are converted and posted one after
   another; `convert` builds a batch's payload (None when it throws) and
   `accepted(k)` says whether the server accepts the k-th call. Returns the
   payloads posted, the progress figure shown after each accepted batch, and
   the outcome.
   */
  method PostInBatches<B(==)>(rows: seq<Row>, convert: seq<Row> -> Option<B>, accepted: nat -> bool)
    returns (sent: seq<B>, progress: seq<nat>, outcome: ImportOutcome)
    ensures |rows| == 0 <==> outcome == NothingToImport
    ensures |rows| == 0 ==> sent == [] && progress == []
    ensures |progress| <= |sent| <= |progress| + 1 && |sent| <= NumBatches(|rows|)
    ensures SentBatches(rows, convert, sent)
    ensures ProgressShown(|rows|, accepted, progress)
    ensures outcome == Completed <==> |rows| > 0 && |progress| == NumBatches(|rows|)
    ensures outcome == Failed ==>
              |progress| < NumBatches(|rows|) &&
              (if |sent| > |progress| then !accepted(|progress|) else convert(Chunk(rows, |progress|)).None?)
  {
    sent := [];
    progress := [];
    if |rows| == 0 {
      return sent, progress, NothingToImport;
    }
    var i := 0;
    while i < |rows|
      invariant |sent| == |progress| <= NumBatches(|rows|)
      invariant i == BatchSize * |progress|
      invariant SentBatches(rows, convert, sent)
      invariant ProgressShown(|rows|, accepted, progress)
    {
      var k := |progress|;
      BatchIndex(|rows|, k);
      var chunk := convert(JsSlice(rows, i, i + BatchSize));
      if chunk.None? {
        return sent, progress, Failed;
      }
      sent := sent + [chunk.value];
      if !accepted(k) {
        return sent, progress, Failed;
      }
      progress := progress + [Min(i + BatchSize, |rows|)];
      i := i + BatchSize;
    }
    BatchIndex(|rows|, |progress|);
    outcome := Completed;
  }

  /** `importToDB`: the loop above with the wage-log conversion of each batch. */
  method ImportToDb(rows: seq<Row>, workers: seq<Worker>, processes: seq<Process>, specs: seq<SpecModel>,
                    parse: string -> JsNum, accepted: nat -> bool)
    returns (sent: seq<seq<WageLogRecord>>, progress: seq<nat>, outcome: ImportOutcome)
    ensures |rows| == 0 <==> outcome == NothingToImport
    ensures |progress| <= |sent| <= |progress| + 1 && |sent| <= NumBatches(|rows|)
    ensures forall k :: 0 <= k < |sent| ==> ChunkRecords(Chunk(rows, k), workers, processes, specs, parse) == Some(sent[k])
    ensures ProgressShown(|rows|, accepted, progress)
    ensures outcome == Completed <==> |rows| > 0 && |progress| == NumBatches(|rows|)
    ensures outcome == Failed && |sent| == |progress| ==>
              ChunkRecords(Chunk(rows, |progress|), workers, processes, specs, parse).None?
  {
    var convert := (c: seq<Row>) => ChunkRecords(c, workers, processes, specs, parse);
    sent, progress, outcome := PostInBatches(rows, convert, accepted);
  }
}
