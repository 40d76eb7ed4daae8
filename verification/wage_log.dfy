/**
 The in-memory wage entry table: the exact-match filters above it, saving
 an edited row (replace by id or append), deleting by id, and the row a new
 entry starts from.
 */
module WageLog {
  import opened Common

  /** A row of the table; numbers are exact reals. */
  datatype EntryRow = EntryRow(
    id: int,
    workerName: string,
    process: string,
    spec: string,
    actualPrice: real,
    quantity: real,
    groupSize: real,
    totalWage: real,
    date: string,
    remark: Option<string>)

  /** The worker, process and date filters; a cleared filter is `None`. */
  datatype EntryFilters = EntryFilters(worker: Option<string>, process: Option<string>, date: Option<string>)

  /** `!filter || field === filter`: an unset or empty filter passes everything. */
  predicate FieldMatches(filter: Option<string>, field: string)
  {
    filter.None? || filter.value == "" || field == filter.value
  }

  predicate Shown(row: EntryRow, f: EntryFilters)
  {
    FieldMatches(f.worker, row.workerName) && FieldMatches(f.process, row.process) && FieldMatches(f.date, row.date)
  }

  function ShownBy(f: EntryFilters): EntryRow -> bool
  {
    row => Shown(row, f)
  }

  /** `filteredData`: the rows equal to every set filter, in table order. */
  function FilteredRows(rows: seq<EntryRow>, f: EntryFilters): (r: seq<EntryRow>)
    ensures IsSubsequence(r, rows)
    ensures forall row :: row in r <==> (row in rows
              && (f.worker.None? || f.worker.value == "" || row.workerName == f.worker.value)
              && (f.process.None? || f.process.value == "" || row.process == f.process.value)
              && (f.date.None? || f.date.value == "" || row.date == f.date.value))
  {
    Filter(rows, ShownBy(f))
  }

  /** With no filter set the whole table is shown. */
  lemma NoFiltersShowAll(rows: seq<EntryRow>)
    ensures FilteredRows(rows, EntryFilters(None, None, None)) == rows
  {
    FilterAll(rows, ShownBy(EntryFilters(None, None, None)));
  }

  /** Setting a filter narrows the list: what it shows was shown without it. */
  lemma FilterNarrows(rows: seq<EntryRow>, f: EntryFilters, worker: string)
    ensures forall row :: row in FilteredRows(rows, f.(worker := Some(worker)))
                          ==> row in FilteredRows(rows, f.(worker := None))
  {
  }

  /** The wage shown and saved for a row: price times quantity; the group size plays no part. */
  function RowWage(row: EntryRow): real
  {
    row.actualPrice * row.quantity
  }

  function HasId(id: int): EntryRow -> bool
  {
    (row: EntryRow) => row.id == id
  }

  /**
   `onSave`: the record with its wage recomputed replaces the first row with
   the same id, in place, or is appended when no row has that id.
   */
  function Save(rows: seq<EntryRow>, record: EntryRow): (r: seq<EntryRow>)
    ensures (exists k :: 0 <= k < |rows| && rows[k].id == record.id) ==> |r| == |rows|
    ensures (forall k :: 0 <= k < |rows| ==> rows[k].id != record.id) ==> r == rows + [SavedRow(record)]
    ensures forall k :: 0 <= k < |rows| && rows[k].id != record.id ==> r[k] == rows[k]
  {
    match FindFirst(rows, HasId(record.id))
    case Some(i) => rows[i := SavedRow(record)]
    case None => rows + [SavedRow(record)]
  }

  /** The saved record: the wage recomputed as price times quantity, whatever the group size. */
  function SavedRow(record: EntryRow): (row: EntryRow)
    ensures row.totalWage == record.actualPrice * record.quantity
    ensures row.(totalWage := record.totalWage) == record
  {
    record.(totalWage := RowWage(record))
  }

  /** Saving grows the table by at most one row. */
  lemma SaveGrowsByAtMostOne(rows: seq<EntryRow>, record: EntryRow)
    ensures |rows| <= |Save(rows, record)| <= |rows| + 1
  {
  }

  /**
   After saving, the first row with the record's id is the saved record, at
   the index of the first row that had that id before, or at the end.
   */
  lemma SaveThenFind(rows: seq<EntryRow>, record: EntryRow)
    ensures var r := Save(rows, record);
            var before := FindFirst(rows, HasId(record.id));
            var after := FindFirst(r, HasId(record.id));
            after.Some? && r[after.value] == SavedRow(record)
            && after.value == (if before.Some? then before.value else |rows|)
  {
    var r := Save(rows, record);
    match FindFirst(rows, HasId(record.id))
    case Some(i) =>
      FindFirstAt(r, HasId(record.id), i);
    case None =>
      FindFirstAt(r, HasId(record.id), |rows|);
  }

  /** Saving the same record twice is saving it once. */
  lemma SaveIdempotent(rows: seq<EntryRow>, record: EntryRow)
    ensures Save(Save(rows, record), record) == Save(rows, record)
  {
    var r := Save(rows, record);
    SaveThenFind(rows, record);
    var i := FindFirst(r, HasId(record.id)).value;
    assert r[i := SavedRow(record)] == r;
  }

  /** Delete: every row with the id is removed; the rest stay in order. */
  function Delete(rows: seq<EntryRow>, id: int): (r: seq<EntryRow>)
    ensures IsSubsequence(r, rows)
    ensures forall row :: row in r <==> row in rows && row.id != id
  {
    Filter(rows, NotId(id))
  }

  function NotId(id: int): EntryRow -> bool
  {
    (row: EntryRow) => row.id != id
  }

  /** Saving a row with a new id and deleting that id gives back the table. */
  lemma DeleteUndoesNewSave(rows: seq<EntryRow>, record: EntryRow)
    requires forall k :: 0 <= k < |rows| ==> rows[k].id != record.id
    ensures Delete(Save(rows, record), record.id) == rows
  {
    FilterAppend(rows, [SavedRow(record)], NotId(record.id));
    FilterAll(rows, NotId(record.id));
  }

  /** The row a new entry starts from: the given id and today's date, group size 1, zeros and empty text. */
  function NewRow(id: int, today: string): (row: EntryRow)
    ensures row.id == id && row.date == today && row.groupSize == 1.0
    ensures row.actualPrice == 0.0 && row.quantity == 0.0 && row.totalWage == 0.0
    ensures row.workerName == "" && row.process == "" && row.spec == "" && row.remark == Some("")
  {
    EntryRow(id, "", "", "", 0.0, 0.0, 1.0, 0.0, today, Some(""))
  }

  /** Every row's wage is its price times its quantity. */
  predicate WagesConsistent(rows: seq<EntryRow>)
  {
    forall k :: 0 <= k < |rows| ==> rows[k].totalWage == RowWage(rows[k])
  }

  /**
   The table keeps every wage equal to price times quantity: a new row
   starts consistent, and saving any record, consistent or not, keeps the
   table so.
   */
  lemma WagesStayConsistent(rows: seq<EntryRow>, record: EntryRow, id: int, today: string)
    requires WagesConsistent(rows)
    ensures WagesConsistent(rows + [NewRow(id, today)])
    ensures WagesConsistent(Save(rows, record))
  {
    var r := Save(rows, record);
    match FindFirst(rows, HasId(record.id))
    case Some(i) =>
      assert r == rows[i := SavedRow(record)];
    case None =>
      assert r == rows + [SavedRow(record)];
  }

  /** A row whose wage was entered by hand is corrected by saving it. */
  lemma SaveCorrectsWage(rows: seq<EntryRow>, record: EntryRow)
    requires WagesConsistent(rows)
    requires record.totalWage != RowWage(record)
    ensures record !in Save(rows, record)
  {
    WagesStayConsistent(rows, record, 0, "");
  }
}
