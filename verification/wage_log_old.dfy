/**
 The older, server-backed wage entry page: the price fallback and wage of a
 saved entry, how the list absorbs a saved or deleted entry, the form reset
 on a process change, the live total, and the table's search filter.
 */
module WageLogOld {
  import opened Common

  /** An entry as the server returns it; `id` may be missing. */
  datatype WageEntry = WageEntry(
    id: Option<int>,
    workerId: int,
    processId: int,
    specModelId: int,
    actualPrice: real,
    quantity: real,
    totalWage: real,
    remark: string,
    date: string)

  datatype Worker = Worker(id: int, name: string)
  datatype Process = Process(id: int, name: string)
  datatype SpecModel = SpecModel(id: int, name: string, actualPrice: real)

  /** The dialog's fields; an empty field is `None`. */
  datatype WageForm = WageForm(
    workerId: Option<int>,
    processId: Option<int>,
    specModelId: Option<int>,
    actualPrice: Option<real>,
    quantity: Option<real>,
    date: Option<string>,
    remark: Option<string>)

  /** `a ?? b`: only a missing value falls through; 0 is kept. */
  function Coalesce(a: Option<real>, b: real): (r: real)
    ensures a.Some? ==> r == a.value
    ensures a.None? ==> r == b
  {
    if a.Some? then a.value else b
  }

  /** `a || 0`: a missing value and 0 both give 0. */
  function OrZero(a: Option<real>): (r: real)
    ensures a.Some? ==> r == a.value
    ensures a.None? ==> r == 0.0
  {
    if a.Some? && a.value != 0.0 then a.value else 0.0
  }

  function SpecWithId(id: Option<int>): SpecModel -> bool
  {
    (s: SpecModel) => id.Some? && s.id == id.value
  }

  /**
   The price saved with an entry: the entered price, else the price of the
   chosen spec among the loaded ones, else 0.
   */
  function SavedPrice(form: WageForm, specModels: seq<SpecModel>): (price: real)
    ensures form.actualPrice.Some? ==> price == form.actualPrice.value
    ensures form.actualPrice.None? && form.specModelId.None? ==> price == 0.0
    ensures form.actualPrice.None? && (forall k :: 0 <= k < |specModels| ==> Some(specModels[k].id) != form.specModelId)
            ==> price == 0.0
  {
    match FindFirst(specModels, SpecWithId(form.specModelId))
    case Some(i) => Coalesce(form.actualPrice, specModels[i].actualPrice)
    case None => Coalesce(form.actualPrice, 0.0)
  }

  /** With no price entered, the first loaded spec with the chosen id supplies it. */
  lemma SavedPriceFromSpec(form: WageForm, specModels: seq<SpecModel>, i: nat)
    requires form.actualPrice.None? && form.specModelId.Some?
    requires i < |specModels| && specModels[i].id == form.specModelId.value
    requires forall k :: 0 <= k < i ==> specModels[k].id != form.specModelId.value
    ensures SavedPrice(form, specModels) == specModels[i].actualPrice
  {
    FindFirstAt(specModels, SpecWithId(form.specModelId), i);
  }

  /**
   The form's `required` rules: worker, process, spec, quantity and date must
   be filled; the price and the remark may be empty.
   */
  predicate RequiredFilled(form: WageForm)
  {
    form.workerId.Some? && form.processId.Some? && form.specModelId.Some? && form.quantity.Some?
    && form.date.Some?
  }

  /** The body sent on save, before the server assigns or keeps the id. */
  datatype WageBody = WageBody(workerId: int, processId: int, specModelId: int,
                               actualPrice: real, quantity: real, totalWage: real,
                               date: string, remark: Option<string>)

  /**
   `saveWageLog`'s body: `validateFields` refuses a form with a required field
   empty, and nothing is sent; otherwise the form with the resolved price and
   `total_wage = price × quantity`.
   */
  function SaveBody(form: WageForm, specModels: seq<SpecModel>): (r: Option<WageBody>)
    ensures r.None? <==> !RequiredFilled(form)
    ensures r.Some? ==> r.value.actualPrice == SavedPrice(form, specModels)
    ensures r.Some? ==> r.value.totalWage == r.value.actualPrice * r.value.quantity
    ensures r.Some? ==> Some(r.value.workerId) == form.workerId && Some(r.value.processId) == form.processId
                        && Some(r.value.specModelId) == form.specModelId
    ensures r.Some? ==> Some(r.value.quantity) == form.quantity && Some(r.value.date) == form.date
                        && r.value.remark == form.remark
  {
    if !RequiredFilled(form) then None
    else
      var price := SavedPrice(form, specModels);
      var quantity := Coalesce(form.quantity, 0.0);
      Some(WageBody(form.workerId.value, form.processId.value, form.specModelId.value, price, quantity,
                    price * quantity, form.date.value, form.remark))
  }

  /** The list after the server stored the entry and returned it again as `fetched`. */
  function ReplaceById(logs: seq<WageEntry>, id: Option<int>, fetched: WageEntry): (r: seq<WageEntry>)
    ensures |r| == |logs|
    ensures forall k :: 0 <= k < |logs| ==> r[k] == (if logs[k].id == id then fetched else logs[k])
  {
    if |logs| == 0 then []
    else [if logs[0].id == id then fetched else logs[0]] + ReplaceById(logs[1..], id, fetched)
  }

  /**
   The list after a save: editing replaces every entry with the edited id by
   the fetched entry; creating appends the fetched entry. A failed request
   (`None`) leaves the list as it was.
   */
  function ApplySaved(logs: seq<WageEntry>, editing: Option<WageEntry>, fetched: Option<WageEntry>)
    : (r: seq<WageEntry>)
    ensures fetched.None? ==> r == logs
    ensures fetched.Some? && editing.None? ==> r == logs + [fetched.value]
    ensures fetched.Some? && editing.Some? ==> r == ReplaceById(logs, editing.value.id, fetched.value)
  {
    if fetched.None? then logs
    else if editing.Some? then ReplaceById(logs, editing.value.id, fetched.value)
    else logs + [fetched.value]
  }

  /** Editing keeps every other entry and the length; creating adds exactly one entry at the end. */
  lemma {:induction false} SavedEntryPlacement(logs: seq<WageEntry>, editing: Option<WageEntry>, fetched: WageEntry)
    ensures editing.Some? ==> |ApplySaved(logs, editing, Some(fetched))| == |logs|
    ensures editing.Some? ==> forall k :: 0 <= k < |logs| && logs[k].id != editing.value.id
                                         ==> ApplySaved(logs, editing, Some(fetched))[k] == logs[k]
    ensures editing.None? ==> |ApplySaved(logs, editing, Some(fetched))| == |logs| + 1
                              && ApplySaved(logs, editing, Some(fetched))[|logs|] == fetched
  {
  }

  /** Replacing by id twice with the same entry is replacing once when that entry keeps the id. */
  lemma {:induction false} ReplaceByIdIdempotent(logs: seq<WageEntry>, id: Option<int>, fetched: WageEntry)
    requires fetched.id == id
    ensures ReplaceById(ReplaceById(logs, id, fetched), id, fetched) == ReplaceById(logs, id, fetched)
  {
    if |logs| > 0 {
      ReplaceByIdIdempotent(logs[1..], id, fetched);
    }
  }

  function NotId(id: int): WageEntry -> bool
  {
    (e: WageEntry) => e.id != Some(id)
  }

  /**
   `handleDelete`: a missing id or id 0 does nothing; otherwise, once the
   server accepted the deletion (`ok`), every entry with that id goes. A
   refused deletion is caught and the list stays.
   */
  function DeleteEntry(logs: seq<WageEntry>, id: Option<int>, ok: bool): (r: seq<WageEntry>)
    ensures id.None? || id.value == 0 || !ok ==> r == logs
    ensures IsSubsequence(r, logs)
    ensures id.Some? && id.value != 0 && ok ==> forall e :: e in r <==> e in logs && e.id != id
  {
    if id.None? || id.value == 0 || !ok then IsSubsequenceRefl(logs); logs else Filter(logs, NotId(id.value))
  }

  /** A created entry that the server returned with a fresh id is removed again by deleting that id. */
  lemma DeleteUndoesCreate(logs: seq<WageEntry>, fetched: WageEntry)
    requires fetched.id.Some? && fetched.id.value != 0
    requires forall k :: 0 <= k < |logs| ==> logs[k].id != fetched.id
    ensures DeleteEntry(ApplySaved(logs, None, Some(fetched)), fetched.id, true) == logs
  {
    FilterAppend(logs, [fetched], NotId(fetched.id.value));
    FilterAll(logs, NotId(fetched.id.value));
  }

  /* ---------------------------------------------------------------
   * Dialog
   * --------------------------------------------------------------- */

  /** Choosing a process clears the spec and sets the price to 0, keeping every other field. */
  function ProcessChanged(form: WageForm, processId: Option<int>): (f: WageForm)
    ensures f.processId == processId && f.specModelId.None? && f.actualPrice == Some(0.0)
    ensures f.workerId == form.workerId && f.quantity == form.quantity && f.date == form.date && f.remark == form.remark
  {
    form.(processId := processId, specModelId := None, actualPrice := Some(0.0))
  }

  /** The spec list after a process change: reloaded for a non-zero process, kept otherwise. */
  function SpecsAfterProcessChange(current: seq<SpecModel>, processId: Option<int>, loaded: seq<SpecModel>)
    : (r: seq<SpecModel>)
    ensures processId.Some? && processId.value != 0 ==> r == loaded
    ensures processId.None? || processId.value == 0 ==> r == current
  {
    if processId.Some? && processId.value != 0 then loaded else current
  }

  /** The total shown in the dialog: `(price || 0) × (quantity || 0)`. */
  function DisplayedTotal(form: WageForm): real
  {
    OrZero(form.actualPrice) * OrZero(form.quantity)
  }

  /** Whenever the price field holds a number, the total shown is the total a save sends. */
  lemma DisplayedTotalIsSaved(form: WageForm, specModels: seq<SpecModel>)
    requires form.actualPrice.Some?
    ensures SaveBody(form, specModels).Some? ==> DisplayedTotal(form) == SaveBody(form, specModels).value.totalWage
  {
  }

  /**
   Right after a process change the total shown is 0, and the form cannot be
   saved until a spec is chosen again.
   */
  lemma ProcessChangeZeroesTotal(form: WageForm, processId: Option<int>, specModels: seq<SpecModel>)
    ensures DisplayedTotal(ProcessChanged(form, processId)) == 0.0
    ensures SaveBody(ProcessChanged(form, processId), specModels).None?
  {
  }

  /**
   Choosing a spec: the select stores it and, when a process and the spec are
   both set (non-zero), the price lookup's answer replaces the price; a failed
   lookup (`None`) leaves the price as it was.
   */
  function SpecChosen(form: WageForm, specModelId: Option<int>, looked: Option<real>): (f: WageForm)
    ensures f.specModelId == specModelId
    ensures var asks := form.processId.Some? && form.processId.value != 0
                        && specModelId.Some? && specModelId.value != 0;
            f.actualPrice == (if asks && looked.Some? then looked else form.actualPrice)
    ensures f.workerId == form.workerId && f.processId == form.processId && f.quantity == form.quantity
            && f.date == form.date && f.remark == form.remark
  {
    var asks := form.processId.Some? && form.processId.value != 0 && specModelId.Some? && specModelId.value != 0;
    form.(specModelId := specModelId, actualPrice := if asks && looked.Some? then looked else form.actualPrice)
  }

  /**
   A process change followed by a spec choice whose price lookup answers
   saves the looked-up price, and the wage is that price times the quantity;
   when the lookup fails the price stays the 0 the process change set.
   */
  lemma ProcessThenSpecSavesLookedUpPrice(form: WageForm, processId: int, specModelId: int, looked: Option<real>,
                                          specModels: seq<SpecModel>)
    requires processId != 0 && specModelId != 0
    requires form.workerId.Some? && form.quantity.Some? && form.date.Some?
    ensures var b := SaveBody(SpecChosen(ProcessChanged(form, Some(processId)), Some(specModelId), looked), specModels);
            b.Some? && b.value.specModelId == specModelId
            && b.value.actualPrice == (if looked.Some? then looked.value else 0.0)
            && b.value.totalWage == b.value.actualPrice * form.quantity.value
  {
  }

  /** The dialog: the entry being edited, if any, the form, and whether it is open. */
  datatype WageDialog = WageDialog(editing: Option<WageEntry>, form: WageForm, open: bool)

  function FormOf(e: WageEntry): WageForm
  {
    WageForm(Some(e.workerId), Some(e.processId), Some(e.specModelId), Some(e.actualPrice), Some(e.quantity),
             Some(e.date), Some(e.remark))
  }

  /** `openModal`: editing loads the entry into the form; creating starts empty dated today. */
  function OpenDialog(entry: Option<WageEntry>, today: string): (d: WageDialog)
    ensures d.open && d.editing == entry
    ensures entry.Some? ==> d.form == FormOf(entry.value)
    ensures entry.None? ==> d.form == WageForm(None, None, None, None, None, Some(today), None)
  {
    if entry.Some? then WageDialog(entry, FormOf(entry.value), true)
    else WageDialog(None, WageForm(None, None, None, None, None, Some(today), None), true)
  }

  /** The dialog title: editing or creating. */
  function DialogTitle(d: WageDialog): (t: string)
    ensures d.editing.Some? ==> t == "编辑工资记录"
    ensures d.editing.None? ==> t == "新增工资记录"
  {
    if d.editing.Some? then "编辑工资记录" else "新增工资记录"
  }

  /**
   The title announces what a successful save does to the list: under the
   edit title the list keeps its length, under the create title it grows by
   the stored entry.
   */
  lemma DialogTitleMatchesSave(d: WageDialog, logs: seq<WageEntry>, fetched: WageEntry)
    ensures DialogTitle(d) == "编辑工资记录" <==> |ApplySaved(logs, d.editing, Some(fetched))| == |logs|
    ensures DialogTitle(d) == "新增工资记录" <==> ApplySaved(logs, d.editing, Some(fetched)) == logs + [fetched]
  {
    assert "编辑工资记录"[0] != "新增工资记录"[0];
    if d.editing.None? {
      assert |logs + [fetched]| != |logs|;
    } else {
      assert |ApplySaved(logs, d.editing, Some(fetched))| != |logs + [fetched]|;
    }
  }

  /** Re-saving an opened entry unchanged sends it, keeping its price and recomputing its wage from price and quantity. */
  lemma ReopenedEntryKeepsPrice(e: WageEntry, today: string, specModels: seq<SpecModel>)
    ensures var b := SaveBody(OpenDialog(Some(e), today).form, specModels);
            b.Some? && b.value.actualPrice == e.actualPrice && b.value.totalWage == e.actualPrice * e.quantity
  {
  }

  /** The create dialog as opened (only the date set) is refused: nothing is sent. */
  lemma NewDialogRefused(today: string, specModels: seq<SpecModel>)
    ensures SaveBody(OpenDialog(None, today).form, specModels).None?
  {
  }

  /**
   The OK button: a refused form sends nothing and the dialog stays as it
   is; a sent body whose request chain failed (`fetched` is `None`) is caught,
   keeping the list and the open dialog; a stored entry closes the dialog and
   is absorbed into the list.
   */
  function SaveDialog(d: WageDialog, logs: seq<WageEntry>, specModels: seq<SpecModel>, fetched: Option<WageEntry>)
    : (r: (WageDialog, seq<WageEntry>, Option<WageBody>))
    ensures r.2 == SaveBody(d.form, specModels)
    ensures r.2.None? ==> r.0 == d && r.1 == logs
    ensures r.2.Some? && fetched.None? ==> r.0 == d && r.1 == logs
    ensures r.2.Some? && fetched.Some? ==> r.0 == d.(open := false) && r.1 == ApplySaved(logs, d.editing, fetched)
  {
    var body := SaveBody(d.form, specModels);
    if body.None? || fetched.None? then (d, logs, body)
    else (d.(open := false), ApplySaved(logs, d.editing, fetched), body)
  }

  /**
   The dialog closes exactly when the form passes validation and the entry
   comes back stored; a closed dialog means the list changed as the title
   announced.
   */
  lemma DialogClosesOnlyWhenStored(d: WageDialog, logs: seq<WageEntry>, specModels: seq<SpecModel>,
                                   fetched: Option<WageEntry>)
    requires d.open
    ensures var r := SaveDialog(d, logs, specModels, fetched);
            !r.0.open <==> RequiredFilled(d.form) && fetched.Some?
    ensures var r := SaveDialog(d, logs, specModels, fetched);
            !r.0.open && d.editing.None? ==> r.1 == logs + [fetched.value]
    ensures var r := SaveDialog(d, logs, specModels, fetched);
            !r.0.open && d.editing.Some? ==> |r.1| == |logs|
  {
    if RequiredFilled(d.form) && fetched.Some? {
      SavedEntryPlacement(logs, d.editing, fetched.value);
    }
  }

  /* ---------------------------------------------------------------
   * Table search
   * --------------------------------------------------------------- */

  /** The search state: worker text, process text and an optional day. */
  datatype Search = Search(worker: string, process: string, date: Option<string>)

  function WorkerWithId(id: int): Worker -> bool { (w: Worker) => w.id == id }
  function ProcessWithId(id: int): Process -> bool { (p: Process) => p.id == id }

  /**
   `!search || found?.name.includes(search)`: a non-empty search needs a
   known record whose name contains it, case-sensitively.
   */
  predicate NameMatches<T>(items: seq<T>, found: Option<nat>, name: T -> string, search: string)
  {
    search == "" || (found.Some? && found.value < |items| && Contains(name(items[found.value]), search))
  }

  function WorkerName(w: Worker): string { w.name }
  function ProcessName(p: Process): string { p.name }

  /** The table's filter; a stored date is compared as the `YYYY-MM-DD` text it already is. */
  predicate Listed(e: WageEntry, workers: seq<Worker>, processes: seq<Process>, s: Search)
  {
    NameMatches(workers, FindFirst(workers, WorkerWithId(e.workerId)), WorkerName, s.worker)
    && NameMatches(processes, FindFirst(processes, ProcessWithId(e.processId)), ProcessName, s.process)
    && (s.date.None? || s.date.value == "" || e.date == s.date.value)
  }

  function ListedBy(workers: seq<Worker>, processes: seq<Process>, s: Search): WageEntry -> bool
  {
    e => Listed(e, workers, processes, s)
  }

  function ListedEntries(logs: seq<WageEntry>, workers: seq<Worker>, processes: seq<Process>, s: Search)
    : (r: seq<WageEntry>)
    ensures IsSubsequence(r, logs)
    ensures forall e :: e in r <==> e in logs && Listed(e, workers, processes, s)
  {
    Filter(logs, ListedBy(workers, processes, s))
  }

  /** An empty search lists every entry. */
  lemma EmptySearchListsAll(logs: seq<WageEntry>, workers: seq<Worker>, processes: seq<Process>)
    ensures ListedEntries(logs, workers, processes, Search("", "", None)) == logs
  {
    FilterAll(logs, ListedBy(workers, processes, Search("", "", None)));
  }

  /** Under a non-empty worker search an entry whose worker is unknown is never listed. */
  lemma UnknownWorkerHidden(e: WageEntry, workers: seq<Worker>, processes: seq<Process>, s: Search)
    requires s.worker != ""
    requires forall k :: 0 <= k < |workers| ==> workers[k].id != e.workerId
    ensures !Listed(e, workers, processes, s)
  {
  }

  /** The worker search is case-sensitive: a name containing the text exactly passes that test. */
  lemma WorkerSearchMatches(e: WageEntry, workers: seq<Worker>, i: nat, search: string)
    requires i < |workers| && workers[i].id == e.workerId
    requires forall k :: 0 <= k < i ==> workers[k].id != e.workerId
    ensures NameMatches(workers, FindFirst(workers, WorkerWithId(e.workerId)), WorkerName, search)
            <==> search == "" || Contains(workers[i].name, search)
  {
    FindFirstAt(workers, WorkerWithId(e.workerId), i);
  }
}
