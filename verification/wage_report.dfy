/**
 The wage-log search page: the displayed total of a query result, the
 worker-by-date pivot table behind the two summary exports, and the raw
 export sorted by worker and then by date.

 Money is exact (`real`); dates are the `YYYY-MM-DD` strings the server
 returns, ordered as strings.
 */
module WageReport {
  import opened Common

  datatype WageLog = WageLog(
    id: int,
    worker: string,
    process: string,
    specModel: string,
    actualPrice: real,
    quantity: real,
    actualGroupSize: real,
    totalWage: real,
    date: string,
    remark: Option<string>)

  /**
   `reduce((sum, item) => sum + item.total_wage, 0)`. Addition on `real` is
   exact, so the order of the fold does not matter.
   */
  function TotalWage(logs: seq<WageLog>): real
  {
    if |logs| == 0 then 0.0 else logs[0].totalWage + TotalWage(logs[1..])
  }

  lemma {:induction false} TotalWageAppend(a: seq<WageLog>, b: seq<WageLog>)
    ensures TotalWage(a + b) == TotalWage(a) + TotalWage(b)
  {
    if |a| > 0 {
      assert (a + b)[0] == a[0];
      assert (a + b)[1..] == a[1..] + b;
      TotalWageAppend(a[1..], b);
    } else {
      assert a + b == b;
    }
  }

  /* ---------------------------------------------------------------
   * Query result (fetchData)
   * --------------------------------------------------------------- */

  /** The server's reply: `wage_logs` and `total`, either of which may be absent. */
  datatype Reply = Reply(wageLogs: Option<seq<WageLog>>, total: Option<int>)

  /** What the page keeps from a reply: the table rows, the pagination total and the displayed sum. */
  datatype SearchView = SearchView(dataSource: seq<WageLog>, total: int, totalWage: real)

  function ApplyReply(reply: Reply): (v: SearchView)
    ensures reply.wageLogs.None? ==> v.dataSource == [] && v.totalWage == 0.0
    ensures reply.wageLogs.Some? ==> v.dataSource == reply.wageLogs.value
    ensures v.total == if reply.total.Some? then reply.total.value else 0
    ensures v.totalWage == TotalWage(v.dataSource)
  {
    var rows := if reply.wageLogs.Some? then reply.wageLogs.value else [];
    SearchView(rows, if reply.total.Some? then reply.total.value else 0, TotalWage(rows))
  }

  /**
   The displayed sum as the page computes it: `reduce` from 0, adding the
   logs' wages left to right. It is the total wage of the rows.
   */
  method ReduceWage(logs: seq<WageLog>) returns (sum: real)
    ensures sum == TotalWage(logs)
  {
    sum := 0.0;
    var i := 0;
    while i < |logs|
      invariant 0 <= i <= |logs|
      invariant sum == TotalWage(logs[..i])
    {
      TotalWageAppend(logs[..i], [logs[i]]);
      assert logs[..i + 1] == logs[..i] + [logs[i]];
      assert [logs[i]][1..] == [];
      sum := sum + logs[i].totalWage;
      i := i + 1;
    }
    assert logs[..|logs|] == logs;
  }

  /* ---------------------------------------------------------------
   * Splitting a sum by a key
   * --------------------------------------------------------------- */

  function Always(l: WageLog): bool { true }
  function WorkerKey(l: WageLog): string { l.worker }
  function DateKey(l: WageLog): string { l.date }

  lemma OfCellMeaning(w: string, d: string, l: WageLog)
    ensures OfCell(w, d)(l) <==> l.worker == w && l.date == d
  {
    var ow := OfWorker(w);
    assert ow(l) <==> Always(l) && WorkerKey(l) == w;
    assert OfCell(w, d)(l) <==> ow(l) && DateKey(l) == d;
  }

  /** The logs that satisfy `p` and whose `key` is `k`. */
  function Both(p: WageLog -> bool, key: WageLog -> string, k: string): WageLog -> bool
  {
    l => p(l) && key(l) == k
  }

  /** `item.worker === worker`. */
  function OfWorker(w: string): WageLog -> bool
  {
    Both(Always, WorkerKey, w)
  }

  /** `item.worker === worker && item.date === date`. */
  function OfCell(w: string, d: string): WageLog -> bool
  {
    Both(OfWorker(w), DateKey, d)
  }

  /** The wage of the `p`-logs, summed group by group over the keys `ks`. */
  function SumByKey(logs: seq<WageLog>, p: WageLog -> bool, key: WageLog -> string, ks: seq<string>): real
  {
    if |ks| == 0 then 0.0
    else TotalWage(Filter(logs, Both(p, key, ks[0]))) + SumByKey(logs, p, key, ks[1..])
  }

  /** A log contributes to exactly the one group its key names, if that key is listed. */
  lemma {:induction false} SumByKeyCons(l: WageLog, rest: seq<WageLog>, p: WageLog -> bool,
                                        key: WageLog -> string, ks: seq<string>)
    requires NoDup(ks)
    ensures SumByKey([l] + rest, p, key, ks)
            == (if p(l) && key(l) in ks then l.totalWage else 0.0) + SumByKey(rest, p, key, ks)
  {
    if |ks| > 0 {
      var q := Both(p, key, ks[0]);
      assert ([l] + rest)[1..] == rest;
      if q(l) {
        assert Filter([l] + rest, q) == [l] + Filter(rest, q);
        assert ([l] + Filter(rest, q))[1..] == Filter(rest, q);
      } else {
        assert Filter([l] + rest, q) == Filter(rest, q);
      }
      assert NoDup(ks[1..]);
      SumByKeyCons(l, rest, p, key, ks[1..]);
      assert key(l) in ks <==> key(l) == ks[0] || key(l) in ks[1..];
      assert key(l) == ks[0] ==> key(l) !in ks[1..];
    }
  }

  /**
   Summing the groups of distinct keys that cover every `p`-log gives the
   wage of all `p`-logs: nothing is counted twice and nothing is lost.
   */
  lemma {:induction false} PartitionByKey(logs: seq<WageLog>, p: WageLog -> bool,
                                          key: WageLog -> string, ks: seq<string>)
    requires NoDup(ks)
    requires forall i :: 0 <= i < |logs| && p(logs[i]) ==> key(logs[i]) in ks
    ensures SumByKey(logs, p, key, ks) == TotalWage(Filter(logs, p))
  {
    if |logs| == 0 {
      SumByKeyEmpty(p, key, ks);
    } else {
      var l := logs[0];
      assert logs == [l] + logs[1..];
      SumByKeyCons(l, logs[1..], p, key, ks);
      PartitionByKey(logs[1..], p, key, ks);
      if p(l) {
        assert Filter(logs, p) == [l] + Filter(logs[1..], p);
        assert ([l] + Filter(logs[1..], p))[1..] == Filter(logs[1..], p);
      }
    }
  }

  lemma {:induction false} SumByKeyEmpty(p: WageLog -> bool, key: WageLog -> string, ks: seq<string>)
    ensures SumByKey([], p, key, ks) == 0.0
  {
    if |ks| > 0 {
      SumByKeyEmpty(p, key, ks[1..]);
    }
  }

  /* ---------------------------------------------------------------
   * Column and row keys of the pivot
   * --------------------------------------------------------------- */

  predicate StrictlySorted(s: seq<string>)
  {
    forall i, j :: 0 <= i < j < |s| ==> StrLt(s[i], s[j])
  }

  /** Adds `d` to a strictly sorted list unless it is already there. */
  function InsertDistinct(d: string, s: seq<string>): (r: seq<string>)
    requires StrictlySorted(s)
    ensures StrictlySorted(r)
    ensures forall x :: x in r <==> x == d || x in s
  {
    if |s| == 0 then [d]
    else if d == s[0] then s
    else if StrLt(d, s[0]) then
      assert forall j :: 0 < j < |s| ==> StrLt(d, s[j]) by {
        forall j | 0 < j < |s| ensures StrLt(d, s[j]) {
          StrLtTransitive(d, s[0], s[j]);
        }
      }
      [d] + s
    else
      StrLtTotal(d, s[0]);
      var rest := InsertDistinct(d, s[1..]);
      assert forall x :: x in rest ==> StrLt(s[0], x);
      [s[0]] + rest
  }

  /** `Array.from(new Set(xs)).sort()`: the distinct strings in ascending order. */
  function SortedDistinct(xs: seq<string>): (r: seq<string>)
    ensures StrictlySorted(r)
    ensures forall x :: x in r <==> x in xs
  {
    if |xs| == 0 then [] else InsertDistinct(xs[0], SortedDistinct(xs[1..]))
  }

  lemma StrictlySortedNoDup(s: seq<string>)
    requires StrictlySorted(s)
    ensures NoDup(s)
  {
    forall i, j | 0 <= i < j < |s| ensures s[i] != s[j] {
      if s[i] == s[j] {
        StrLtIrreflexive(s[i]);
      }
    }
  }

  /** The head of a strictly sorted list is below every other element. */
  lemma HeadIsLeast(s: seq<string>, x: string)
    requires StrictlySorted(s) && |s| > 0 && x in s
    ensures x == s[0] || StrLt(s[0], x)
  {
  }

  /**
   A strictly sorted list is determined by its elements: `SortedDistinct`
   is the only ascending, duplicate-free listing of the dates.
   */
  lemma {:induction false} StrictlySortedUnique(a: seq<string>, b: seq<string>)
    requires StrictlySorted(a) && StrictlySorted(b)
    requires forall x :: x in a <==> x in b
    ensures a == b
  {
    if |a| > 0 {
      assert a[0] in b;
    }
    if |b| > 0 {
      assert b[0] in a;
    }
    if |a| > 0 {
      HeadIsLeast(a, b[0]);
      HeadIsLeast(b, a[0]);
      StrLtNotBoth(a[0], b[0]);
      assert a[0] == b[0];
      forall x ensures x in a[1..] <==> x in b[1..] {
        StrLtIrreflexive(x);
        if x in a[1..] {
          var i :| 0 <= i < |a[1..]| && a[1..][i] == x;
          assert StrLt(a[0], a[i + 1]);
          assert x in b;
          var k :| 0 <= k < |b| && b[k] == x;
          assert k != 0;
          assert b[1..][k - 1] == x;
        }
        if x in b[1..] {
          var i :| 0 <= i < |b[1..]| && b[1..][i] == x;
          assert StrLt(b[0], b[i + 1]);
          assert x in a;
          var k :| 0 <= k < |a| && a[k] == x;
          assert k != 0;
          assert a[1..][k - 1] == x;
        }
      }
      StrictlySortedUnique(a[1..], b[1..]);
      assert a == [a[0]] + a[1..] && b == [b[0]] + b[1..];
    }
  }

  /** `Array.from(new Set(xs))`: the distinct strings in order of first appearance. */
  function FirstAppearances(xs: seq<string>): (r: seq<string>)
    ensures NoDup(r)
    ensures forall x :: x in r <==> x in xs
  {
    if |xs| == 0 then []
    else
      var d := FirstAppearances(xs[..|xs| - 1]);
      var x := xs[|xs| - 1];
      assert forall y :: y in xs <==> y in xs[..|xs| - 1] || y == x by {
        assert xs == xs[..|xs| - 1] + [x];
      }
      if x in d then d else d + [x]
  }

  /**
   The listing is in order of first appearance: wherever a later-listed
   string occurs in `xs`, every earlier-listed one has already occurred.
   */
  lemma {:induction false} FirstSeenBefore(xs: seq<string>, i: nat, j: nat, k: nat)
    requires i < j < |FirstAppearances(xs)| && k < |xs| && xs[k] == FirstAppearances(xs)[j]
    ensures FirstAppearances(xs)[i] in xs[..k]
  {
    var n := |xs| - 1;
    var front := xs[..n];
    var d := FirstAppearances(front);
    var x := xs[n];
    var r := FirstAppearances(xs);
    assert r == if x in d then d else d + [x];
    assert r[i] == d[i];
    assert r[i] in front;
    if x in d {
      if k < n {
        assert front[k] == xs[k];
        FirstSeenBefore(front, i, j, k);
        assert front[..k] == xs[..k];
      } else {
        assert xs[..k] == front;
      }
    } else if j < |d| {
      assert r[j] == d[j];
      assert k < n;
      assert front[k] == xs[k];
      FirstSeenBefore(front, i, j, k);
      assert front[..k] == xs[..k];
    } else {
      assert forall m :: 0 <= m < n ==> front[m] != x;
      assert k == n;
      assert xs[..k] == front;
    }
  }

  /* ---------------------------------------------------------------
   * Pivot table (exportToExcel / exportToExcelDaily)
   * --------------------------------------------------------------- */

  /** One output row: the worker, one wage per date column, and `工资合计`. */
  datatype PivotRow = PivotRow(worker: string, wages: seq<real>, total: real)

  datatype DateRange = NoRange | Range(start: string, end: string)

  /** An export: sheet name, header-less rows of the table, and file name. */
  datatype Pivot = Pivot(sheetName: string, dates: seq<string>, rows: seq<PivotRow>, fileName: string)

  function Dates(logs: seq<WageLog>): seq<string>
  {
    SortedDistinct(DateNames(logs))
  }

  function DateNames(logs: seq<WageLog>): (r: seq<string>)
    ensures |r| == |logs|
    ensures forall i :: 0 <= i < |logs| ==> r[i] == logs[i].date
  {
    if |logs| == 0 then [] else [logs[0].date] + DateNames(logs[1..])
  }

  function WorkerNames(logs: seq<WageLog>): (r: seq<string>)
    ensures |r| == |logs|
    ensures forall i :: 0 <= i < |logs| ==> r[i] == logs[i].worker
  {
    if |logs| == 0 then [] else [logs[0].worker] + WorkerNames(logs[1..])
  }

  lemma DatesAreLogDates(logs: seq<WageLog>)
    ensures forall d :: d in Dates(logs) <==> exists i :: 0 <= i < |logs| && logs[i].date == d
  {
    var names := DateNames(logs);
    forall d ensures d in Dates(logs) <==> exists i :: 0 <= i < |logs| && logs[i].date == d {
      if exists i :: 0 <= i < |logs| && logs[i].date == d {
        var i :| 0 <= i < |logs| && logs[i].date == d;
        assert names[i] == d;
      }
    }
  }

  function Workers(logs: seq<WageLog>): seq<string>
  {
    FirstAppearances(WorkerNames(logs))
  }

  function CellWage(logs: seq<WageLog>, w: string, d: string): real
  {
    TotalWage(Filter(logs, OfCell(w, d)))
  }

  function Cells(logs: seq<WageLog>, w: string, dates: seq<string>): (r: seq<real>)
    ensures |r| == |dates|
  {
    if |dates| == 0 then [] else [CellWage(logs, w, dates[0])] + Cells(logs, w, dates[1..])
  }

  function Sum(xs: seq<real>): real
  {
    if |xs| == 0 then 0.0 else xs[0] + Sum(xs[1..])
  }

  /** The loop over the date columns: one cell per date, and their running total. */
  function BuildPivotRow(logs: seq<WageLog>, dates: seq<string>, w: string): PivotRow
  {
    var cells := Cells(logs, w, dates);
    PivotRow(w, cells, Sum(cells))
  }

  function BuildPivotRows(logs: seq<WageLog>, dates: seq<string>, workers: seq<string>): (r: seq<PivotRow>)
    ensures |r| == |workers|
    ensures forall i :: 0 <= i < |r| ==> r[i] == BuildPivotRow(logs, dates, workers[i])
  {
    if |workers| == 0 then [] else [BuildPivotRow(logs, dates, workers[0])] + BuildPivotRows(logs, dates, workers[1..])
  }

  function FileName(prefix: string, range: DateRange): string
  {
    var start := if range.Range? then range.start else "";
    var end := if range.Range? then range.end else "";
    prefix + "_" + start + "_" + end + ".xlsx"
  }

  /** `exportToExcel` (sheet `工资报表`) and `exportToExcelDaily` (sheet `工资日薪表`). */
  function PivotExport(logs: seq<WageLog>, sheetName: string, range: DateRange): (r: Option<Pivot>)
    ensures r.None? <==> |logs| == 0
    ensures r.Some? ==> StrictlySorted(r.value.dates)
    ensures r.Some? ==> |r.value.rows| == |Workers(logs)|
                        && (forall i :: 0 <= i < |r.value.rows| ==> r.value.rows[i].worker == Workers(logs)[i])
    ensures r.Some? ==> forall i :: 0 <= i < |r.value.rows| ==> |r.value.rows[i].wages| == |r.value.dates|
  {
    if |logs| == 0 then None
    else
      var dates := Dates(logs);
      Some(Pivot(sheetName, dates, BuildPivotRows(logs, dates, Workers(logs)), FileName("工资报表", range)))
  }

  function ExportSummary(logs: seq<WageLog>, range: DateRange): Option<Pivot>
  {
    PivotExport(logs, "工资报表", range)
  }

  function ExportDaily(logs: seq<WageLog>, range: DateRange): Option<Pivot>
  {
    PivotExport(logs, "工资日薪表", range)
  }

  /** The two summary exports write the same table under the same file name; only the sheet name differs. */
  lemma DailyMatchesSummary(logs: seq<WageLog>, range: DateRange)
    ensures ExportDaily(logs, range).None? <==> ExportSummary(logs, range).None?
    ensures ExportDaily(logs, range).Some? ==>
              ExportDaily(logs, range).value == ExportSummary(logs, range).value.(sheetName := "工资日薪表")
  {
  }

  /** The worker column lists each worker once. */
  lemma PivotWorkersDistinct(logs: seq<WageLog>, range: DateRange)
    requires |logs| > 0
    ensures var rows := ExportSummary(logs, range).value.rows;
            forall i, j :: 0 <= i < j < |rows| ==> rows[i].worker != rows[j].worker
  {
    assert NoDup(Workers(logs));
  }

  /** Every row's worker is the worker of some log. */
  lemma PivotRowsHaveLogs(logs: seq<WageLog>, range: DateRange)
    requires |logs| > 0
    ensures var rows := ExportSummary(logs, range).value.rows;
            forall i :: 0 <= i < |rows| ==> rows[i].worker in WorkerNames(logs)
  {
    var rows := ExportSummary(logs, range).value.rows;
    forall i | 0 <= i < |rows| ensures rows[i].worker in WorkerNames(logs) {
      assert Workers(logs)[i] in Workers(logs);
    }
  }

  /** Every log's worker has a row. */
  lemma PivotLogsHaveRows(logs: seq<WageLog>, range: DateRange)
    requires |logs| > 0
    ensures var rows := ExportSummary(logs, range).value.rows;
            forall k :: 0 <= k < |logs| ==> exists i :: 0 <= i < |rows| && rows[i].worker == logs[k].worker
  {
    var rows := ExportSummary(logs, range).value.rows;
    var ws := Workers(logs);
    forall k | 0 <= k < |logs| ensures exists i :: 0 <= i < |rows| && rows[i].worker == logs[k].worker {
      assert WorkerNames(logs)[k] in ws;
      var i :| 0 <= i < |ws| && ws[i] == logs[k].worker;
      assert rows[i].worker == ws[i];
    }
  }

  /** The date columns are the dates of the logs, each once, in ascending order. */
  lemma PivotDates(logs: seq<WageLog>, range: DateRange)
    requires |logs| > 0
    ensures var dates := ExportSummary(logs, range).value.dates;
            StrictlySorted(dates) && NoDup(dates)
            && forall d :: d in dates <==> exists i :: 0 <= i < |logs| && logs[i].date == d
  {
    DatesAreLogDates(logs);
    StrictlySortedNoDup(Dates(logs));
  }

  /** A log of the worker of row j has, before it, a log of the worker of every earlier row i. */
  lemma EarlierRowLogBefore(logs: seq<WageLog>, i: nat, j: nat, k: nat) returns (m: nat)
    requires i < j < |Workers(logs)| && k < |logs| && logs[k].worker == Workers(logs)[j]
    ensures m < k && logs[m].worker == Workers(logs)[i]
  {
    var names := WorkerNames(logs);
    assert names[k] == Workers(logs)[j];
    FirstSeenBefore(names, i, j, k);
    assert Workers(logs)[i] in names[..k];
    m :| 0 <= m < k && names[..k][m] == Workers(logs)[i];
    assert names[m] == logs[m].worker;
  }

  lemma {:induction false} WorkersFirstSeen(logs: seq<WageLog>)
    ensures var ws := Workers(logs);
            forall i, j, k :: 0 <= i < j < |ws| && 0 <= k < |logs| && logs[k].worker == ws[j]
              ==> exists m :: 0 <= m < k && logs[m].worker == ws[i]
  {
    var ws := Workers(logs);
    forall i, j, k | 0 <= i < j < |ws| && 0 <= k < |logs| && logs[k].worker == ws[j]
      ensures exists m :: 0 <= m < k && logs[m].worker == ws[i]
    {
      var m := EarlierRowLogBefore(logs, i, j, k);
      assert 0 <= m < k && logs[m].worker == ws[i];
    }
  }

  /** Rows come in order of first appearance: a worker's first log precedes the first log of every later row. */
  lemma PivotWorkersFirstSeen(logs: seq<WageLog>, range: DateRange)
    requires |logs| > 0
    ensures var rows := ExportSummary(logs, range).value.rows;
            forall i, j, k :: 0 <= i < j < |rows| && 0 <= k < |logs| && logs[k].worker == rows[j].worker
              ==> exists m :: 0 <= m < k && logs[m].worker == rows[i].worker
  {
    WorkersFirstSeen(logs);
  }

  /** Each cell is the wage of that worker's logs on that date, and 0 when there are none. */
  lemma PivotCell(logs: seq<WageLog>, range: DateRange, i: nat, j: nat)
    requires |logs| > 0
    requires i < |ExportSummary(logs, range).value.rows| && j < |ExportSummary(logs, range).value.dates|
    ensures var p := ExportSummary(logs, range).value;
            p.rows[i].wages[j] == CellWage(logs, p.rows[i].worker, p.dates[j])
    ensures var p := ExportSummary(logs, range).value;
            (forall k :: 0 <= k < |logs| ==> logs[k].worker != p.rows[i].worker || logs[k].date != p.dates[j])
            ==> p.rows[i].wages[j] == 0.0
  {
    var p := ExportSummary(logs, range).value;
    CellsAt(logs, p.rows[i].worker, p.dates, j);
    var q := OfCell(p.rows[i].worker, p.dates[j]);
    if forall k :: 0 <= k < |logs| ==> logs[k].worker != p.rows[i].worker || logs[k].date != p.dates[j] {
      forall x | x in logs ensures !q(x) {
        var k :| 0 <= k < |logs| && logs[k] == x;
        OfCellMeaning(p.rows[i].worker, p.dates[j], x);
      }
      FilterNone(logs, q);
    }
  }

  lemma {:induction false} CellsAt(logs: seq<WageLog>, w: string, dates: seq<string>, j: nat)
    requires j < |dates|
    ensures Cells(logs, w, dates)[j] == CellWage(logs, w, dates[j])
  {
    if j > 0 {
      CellsAt(logs, w, dates[1..], j - 1);
    }
  }

  lemma {:induction false} CellsSum(logs: seq<WageLog>, w: string, dates: seq<string>)
    ensures Sum(Cells(logs, w, dates)) == SumByKey(logs, OfWorker(w), DateKey, dates)
  {
    if |dates| > 0 {
      CellsSum(logs, w, dates[1..]);
      assert Cells(logs, w, dates)[1..] == Cells(logs, w, dates[1..]);
    }
  }

  /** `工资合计` of a row is the wage of all of that worker's logs. */
  lemma RowTotalIsWorkerWage(logs: seq<WageLog>, range: DateRange, i: nat)
    requires |logs| > 0
    requires i < |ExportSummary(logs, range).value.rows|
    ensures var row := ExportSummary(logs, range).value.rows[i];
            row.total == TotalWage(Filter(logs, OfWorker(row.worker)))
  {
    var p := ExportSummary(logs, range).value;
    var w := p.rows[i].worker;
    CellsSum(logs, w, p.dates);
    StrictlySortedNoDup(p.dates);
    forall k | 0 <= k < |logs| && OfWorker(w)(logs[k])
      ensures DateKey(logs[k]) in p.dates
    {
      assert exists m :: 0 <= m < |logs| && logs[m].date == logs[k].date;
    }
    PartitionByKey(logs, OfWorker(w), DateKey, p.dates);
  }

  function SumTotals(rows: seq<PivotRow>): real
  {
    if |rows| == 0 then 0.0 else rows[0].total + SumTotals(rows[1..])
  }

  lemma {:induction false} SumTotalsByWorker(logs: seq<WageLog>, dates: seq<string>, ws: seq<string>)
    requires NoDup(dates)
    requires forall k :: 0 <= k < |logs| ==> logs[k].date in dates
    ensures SumTotals(BuildPivotRows(logs, dates, ws)) == SumByKey(logs, Always, WorkerKey, ws)
  {
    if |ws| > 0 {
      SumTotalsByWorker(logs, dates, ws[1..]);
      assert BuildPivotRows(logs, dates, ws)[1..] == BuildPivotRows(logs, dates, ws[1..]);
      CellsSum(logs, ws[0], dates);
      PartitionByKey(logs, OfWorker(ws[0]), DateKey, dates);
    }
  }

  /** The row totals of the export add up to the total displayed on the page for the same logs. */
  lemma PivotAgreesWithDisplayedTotal(reply: Reply, range: DateRange)
    requires |ApplyReply(reply).dataSource| > 0
    ensures var v := ApplyReply(reply);
            SumTotals(ExportSummary(v.dataSource, range).value.rows) == v.totalWage
  {
    var logs := ApplyReply(reply).dataSource;
    var p := ExportSummary(logs, range).value;
    var names := WorkerNames(logs);
    StrictlySortedNoDup(p.dates);
    forall k | 0 <= k < |logs| ensures logs[k].date in p.dates {
      assert exists m :: 0 <= m < |logs| && logs[m].date == logs[k].date;
    }
    SumTotalsByWorker(logs, p.dates, Workers(logs));
    forall k | 0 <= k < |logs| && Always(logs[k]) ensures WorkerKey(logs[k]) in Workers(logs) {
      assert names[k] == logs[k].worker;
    }
    PartitionByKey(logs, Always, WorkerKey, Workers(logs));
    FilterAll(logs, Always);
  }

  /* ---------------------------------------------------------------
   * Raw export (exportToExcelRaw)
   * --------------------------------------------------------------- */

  /** The comparator: by worker, then by date. */
  predicate Before(a: WageLog, b: WageLog)
  {
    StrLt(a.worker, b.worker) || (a.worker == b.worker && StrLt(a.date, b.date))
  }

  /** Ascending under the comparator: no later log sorts strictly before an earlier one. */
  predicate Ascending(s: seq<WageLog>)
  {
    forall i, j :: 0 <= i < j < |s| ==> !Before(s[j], s[i])
  }

  lemma BeforeAsymmetric(a: WageLog, b: WageLog)
    requires Before(a, b)
    ensures !Before(b, a)
  {
    if StrLt(a.worker, b.worker) {
      StrLtAsymmetric(a.worker, b.worker);
      if b.worker == a.worker {
        StrLtIrreflexive(a.worker);
      }
    } else {
      StrLtAsymmetric(a.date, b.date);
      StrLtIrreflexive(a.worker);
    }
  }

  /** Not-before is transitive: the comparator is a total preorder. */
  lemma NotBeforeTransitive(a: WageLog, b: WageLog, c: WageLog)
    requires !Before(a, b) && !Before(b, c)
    ensures !Before(a, c)
  {
    StrLtTotal(a.worker, b.worker);
    StrLtTotal(b.worker, c.worker);
    StrLtTotal(a.date, b.date);
    StrLtTotal(b.date, c.date);
    if Before(a, c) {
      if StrLt(a.worker, c.worker) {
        if StrLt(c.worker, b.worker) {
          StrLtTransitive(a.worker, c.worker, b.worker);
        } else if StrLt(b.worker, a.worker) {
          StrLtTransitive(b.worker, a.worker, c.worker);
        }
      } else {
        if StrLt(c.date, b.date) {
          StrLtTransitive(a.date, c.date, b.date);
        } else if StrLt(b.date, a.date) {
          StrLtTransitive(b.date, a.date, c.date);
        }
      }
    }
  }

  /** Places `x` in front of the first element that does not sort before it (so equal keys keep their order). */
  function Insert(x: WageLog, s: seq<WageLog>): (r: seq<WageLog>)
    ensures |r| == |s| + 1
    ensures multiset(r) == multiset(s) + multiset{x}
  {
    if |s| == 0 || !Before(s[0], x) then
      assert multiset([x] + s) == multiset(s) + multiset{x};
      [x] + s
    else
      assert s == [s[0]] + s[1..];
      [s[0]] + Insert(x, s[1..])
  }

  lemma {:induction false} InsertAscending(x: WageLog, s: seq<WageLog>)
    requires Ascending(s)
    ensures Ascending(Insert(x, s))
  {
    var r := Insert(x, s);
    if |s| == 0 || !Before(s[0], x) {
      forall j | 0 <= j < |s| ensures !Before(s[j], x) {
        if j > 0 {
          NotBeforeTransitive(s[j], s[0], x);
        }
      }
      assert r == [x] + s;
    } else {
      BeforeAsymmetric(s[0], x);
      var rest := Insert(x, s[1..]);
      InsertAscending(x, s[1..]);
      assert r == [s[0]] + rest;
      forall j | 0 <= j < |rest| ensures !Before(rest[j], s[0]) {
        assert rest[j] in multiset(rest);
        if rest[j] != x {
          assert rest[j] in multiset(s[1..]);
          var k :| 0 <= k < |s[1..]| && s[1..][k] == rest[j];
          assert s[k + 1] == rest[j];
        }
      }
    }
  }

  /** `[...logs].sort(compare)`: an insertion sort, stable like `Array.prototype.sort`. */
  function SortLogs(s: seq<WageLog>): (r: seq<WageLog>)
    ensures |r| == |s|
    ensures multiset(r) == multiset(s)
  {
    if |s| == 0 then []
    else
      assert s == [s[0]] + s[1..];
      Insert(s[0], SortLogs(s[1..]))
  }

  lemma {:induction false} SortLogsAscending(s: seq<WageLog>)
    ensures Ascending(SortLogs(s))
  {
    if |s| > 0 {
      SortLogsAscending(s[1..]);
      InsertAscending(s[0], SortLogs(s[1..]));
    }
  }

  /** The comparator returns 0: same worker and same date. */
  predicate SameKey(a: WageLog, b: WageLog)
  {
    a.worker == b.worker && a.date == b.date
  }

  function WithKeyOf(a: WageLog): WageLog -> bool
  {
    (l: WageLog) => SameKey(l, a)
  }

  /** Inserting `x` puts it in front of every log with its key already in `s`. */
  lemma {:induction false} InsertKeepsKeyOrder(x: WageLog, s: seq<WageLog>, a: WageLog)
    ensures Filter(Insert(x, s), WithKeyOf(a)) == Filter([x] + s, WithKeyOf(a))
  {
    assert ([x] + s)[0] == x && ([x] + s)[1..] == s;
    if |s| > 0 && Before(s[0], x) {
      var rest := Insert(x, s[1..]);
      assert Insert(x, s) == [s[0]] + rest;
      assert ([s[0]] + rest)[0] == s[0] && ([s[0]] + rest)[1..] == rest;
      InsertKeepsKeyOrder(x, s[1..], a);
      assert ([x] + s[1..])[0] == x && ([x] + s[1..])[1..] == s[1..];
      if SameKey(x, a) {
        StrLtIrreflexive(x.worker);
        StrLtIrreflexive(x.date);
        assert !SameKey(s[0], a);
      }
    }
  }

  /**
   The sort is stable: the logs sharing any one worker and date come out in
   the order they came in, as `Array.prototype.sort` guarantees.
   */
  lemma {:induction false} SortLogsStable(s: seq<WageLog>, a: WageLog)
    ensures Filter(SortLogs(s), WithKeyOf(a)) == Filter(s, WithKeyOf(a))
  {
    if |s| > 0 {
      SortLogsStable(s[1..], a);
      InsertKeepsKeyOrder(s[0], SortLogs(s[1..]), a);
      assert ([s[0]] + SortLogs(s[1..]))[0] == s[0] && ([s[0]] + SortLogs(s[1..]))[1..] == SortLogs(s[1..]);
    }
  }

  /** An exported line: the nine columns of the raw sheet. */
  datatype RawRow = RawRow(
    worker: string,
    process: string,
    groupSize: real,
    specModel: string,
    date: string,
    quantity: real,
    price: real,
    wage: real,
    remark: string)

  /** `remark || ''`: an absent remark and an empty one both export as ''. */
  function ToRawRow(l: WageLog): RawRow
  {
    RawRow(l.worker, l.process, l.actualGroupSize, l.specModel, l.date, l.quantity,
           l.actualPrice, l.totalWage, if l.remark.Some? then l.remark.value else "")
  }

  /**
   Each exported line carries its log's worker, process, group size, spec,
   date, quantity, price and wage; a missing remark exports as ''.
   */
  lemma RawRowFields(l: WageLog)
    ensures var r := ToRawRow(l);
            r.worker == l.worker && r.process == l.process && r.groupSize == l.actualGroupSize
            && r.specModel == l.specModel && r.date == l.date && r.quantity == l.quantity
            && r.price == l.actualPrice && r.wage == l.totalWage
    ensures l.remark.None? ==> ToRawRow(l).remark == ""
    ensures l.remark.Some? ==> ToRawRow(l).remark == l.remark.value
  {
  }

  function ToRawRows(s: seq<WageLog>): (r: seq<RawRow>)
    ensures |r| == |s|
    ensures forall i :: 0 <= i < |s| ==> r[i] == ToRawRow(s[i])
  {
    if |s| == 0 then [] else [ToRawRow(s[0])] + ToRawRows(s[1..])
  }

  datatype RawSheet = RawSheet(sheetName: string, rows: seq<RawRow>, fileName: string)

  function ExportRaw(logs: seq<WageLog>, range: DateRange): (r: Option<RawSheet>)
    ensures r.None? <==> |logs| == 0
    ensures r.Some? ==> |r.value.rows| == |logs|
  {
    if |logs| == 0 then None
    else Some(RawSheet("工资记录", ToRawRows(SortLogs(logs)), FileName("查询记录", range)))
  }

  lemma {:induction false} ToRawRowsAppend(a: seq<WageLog>, b: seq<WageLog>)
    ensures ToRawRows(a + b) == ToRawRows(a) + ToRawRows(b)
  {
  }

  lemma {:induction false} ToRawRowsInsert(x: WageLog, s: seq<WageLog>)
    ensures multiset(ToRawRows(Insert(x, s))) == multiset(ToRawRows(s)) + multiset{ToRawRow(x)}
  {
    if |s| > 0 && Before(s[0], x) {
      ToRawRowsInsert(x, s[1..]);
      assert Insert(x, s) == [s[0]] + Insert(x, s[1..]);
      assert ToRawRows(Insert(x, s)) == [ToRawRow(s[0])] + ToRawRows(Insert(x, s[1..]));
      assert ToRawRows(s) == [ToRawRow(s[0])] + ToRawRows(s[1..]);
    } else {
      assert ToRawRows(Insert(x, s)) == [ToRawRow(x)] + ToRawRows(s);
    }
  }

  lemma {:induction false} ToRawRowsSort(s: seq<WageLog>)
    ensures multiset(ToRawRows(SortLogs(s))) == multiset(ToRawRows(s))
  {
    if |s| > 0 {
      ToRawRowsSort(s[1..]);
      ToRawRowsInsert(s[0], SortLogs(s[1..]));
      assert ToRawRows(s) == [ToRawRow(s[0])] + ToRawRows(s[1..]);
    }
  }

  /**
   The raw sheet has one line per log, the lines are exactly the logs'
   lines in some order, and they are ordered by worker and then by date.
   */
  lemma RawExportIsSortedPermutation(logs: seq<WageLog>, range: DateRange)
    requires |logs| > 0
    ensures var rows := ExportRaw(logs, range).value.rows;
            multiset(rows) == multiset(ToRawRows(logs))
            && forall i, j :: 0 <= i < j < |rows| ==>
                 StrLt(rows[i].worker, rows[j].worker)
                 || (rows[i].worker == rows[j].worker && !StrLt(rows[j].date, rows[i].date))
  {
    var sorted := SortLogs(logs);
    SortLogsAscending(logs);
    ToRawRowsSort(logs);
    var rows := ExportRaw(logs, range).value.rows;
    forall i, j | 0 <= i < j < |rows|
      ensures StrLt(rows[i].worker, rows[j].worker)
              || (rows[i].worker == rows[j].worker && !StrLt(rows[j].date, rows[i].date))
    {
      assert !Before(sorted[j], sorted[i]);
      StrLtTotal(sorted[i].worker, sorted[j].worker);
    }
  }
}
