/**
 The spec model page: the list limited to specs of a known process whose
 name contains the search (case-sensitively), the process column, the form's
 payload, and the dialog state around saving.
 */
module SpecModelPage {
  import opened Common

  datatype Process = Process(id: int, name: string)

  /** A spec model; the price is kept as the text the form sent. */
  datatype Spec = Spec(id: int, name: string, category: string, price: string, processId: int)

  function ProcessWithId(id: int): Process -> bool
  {
    (p: Process) => p.id == id
  }

  /** `processes.find(p => p.id === id)`: the first process with the id. */
  function FindProcess(processes: seq<Process>, id: int): (r: Option<Process>)
    ensures r.None? <==> forall k :: 0 <= k < |processes| ==> processes[k].id != id
    ensures r.Some? ==> r.value in processes && r.value.id == id
  {
    match FindFirst(processes, ProcessWithId(id))
    case Some(i) => Some(processes[i])
    case None => None
  }

  /** A process lookup finds the first process carrying the id. */
  lemma FindProcessFirst(processes: seq<Process>, id: int, i: nat)
    requires i < |processes| && processes[i].id == id
    requires forall k :: 0 <= k < i ==> processes[k].id != id
    ensures FindProcess(processes, id) == Some(processes[i])
  {
    FindFirstAt(processes, ProcessWithId(id), i);
  }

  /* ---------------------------------------------------------------
   * List
   * --------------------------------------------------------------- */

  /** A spec is listed when its process is known and the process name contains the search. */
  predicate Listed(processes: seq<Process>, search: string, s: Spec)
  {
    match FindProcess(processes, s.processId)
    case Some(p) => Contains(p.name, search)
    case None => false
  }

  function ListedBy(processes: seq<Process>, search: string): Spec -> bool
  {
    (s: Spec) => Listed(processes, search, s)
  }

  /** `filteredSpecModels`: the listed specs, in their original order. */
  function FilteredSpecs(specs: seq<Spec>, processes: seq<Process>, search: string): (r: seq<Spec>)
    ensures IsSubsequence(r, specs)
    ensures forall s :: s in r <==> s in specs && Listed(processes, search, s)
  {
    Filter(specs, ListedBy(processes, search))
  }

  /** A spec whose process is unknown is never listed, whatever the search. */
  lemma UnknownProcessNeverListed(specs: seq<Spec>, processes: seq<Process>, search: string, s: Spec)
    requires forall k :: 0 <= k < |processes| ==> processes[k].id != s.processId
    ensures s !in FilteredSpecs(specs, processes, search)
  {
  }

  /** A spec of a known process is listed exactly when the first such process's name contains the search. */
  lemma KnownProcessListedIff(specs: seq<Spec>, processes: seq<Process>, search: string, s: Spec, i: nat)
    requires s in specs
    requires i < |processes| && processes[i].id == s.processId
    requires forall k :: 0 <= k < i ==> processes[k].id != s.processId
    ensures s in FilteredSpecs(specs, processes, search) <==> Contains(processes[i].name, search)
  {
    FindProcessFirst(processes, s.processId, i);
  }

  predicate KnownProcess(processes: seq<Process>, s: Spec)
  {
    FindProcess(processes, s.processId).Some?
  }

  function KnownBy(processes: seq<Process>): Spec -> bool
  {
    (s: Spec) => KnownProcess(processes, s)
  }

  /** An empty search lists exactly the specs with a known process, in their order. */
  lemma EmptySearchListsKnown(specs: seq<Spec>, processes: seq<Process>)
    ensures FilteredSpecs(specs, processes, "") == Filter(specs, KnownBy(processes))
  {
    forall s ensures ListedBy(processes, "")(s) == KnownBy(processes)(s) {
      match FindProcess(processes, s.processId)
      case Some(p) => ContainsEmpty(p.name);
      case None =>
    }
    FilterCongruent(specs, ListedBy(processes, ""), KnownBy(processes));
  }

  /** The search is case-sensitive: a process named "A" is not found by "a". */
  lemma SearchIsCaseSensitive(s: Spec)
    requires s.processId == 1
    ensures !Listed([Process(1, "A")], "a", s)
    ensures ContainsIgnoreCase("A", "a")
  {
    FindProcessFirst([Process(1, "A")], 1, 0);
    assert "A"[0..][..1] == "A" && "A"[0] != "a"[0];
    assert !IsPrefix("a", "A"[0..]);
    assert !IsPrefix("a", "A"[1..]);
    assert Lower("A") == "a" && Lower("a") == "a";
    assert IsPrefix("a", "a"[0..]);
  }

  /* ---------------------------------------------------------------
   * Process column
   * --------------------------------------------------------------- */

  /** The process column: the process name, or `'-'` for an unknown process. */
  function ProcessColumn(processes: seq<Process>, id: int): (t: string)
  {
    match FindProcess(processes, id)
    case Some(p) => p.name
    case None => "-"
  }

  /** The column shows `'-'` exactly for unknown processes (or a process named `'-'`). */
  lemma ProcessColumnMeaning(processes: seq<Process>, id: int)
    ensures (forall k :: 0 <= k < |processes| ==> processes[k].id != id) ==> ProcessColumn(processes, id) == "-"
    ensures forall i :: 0 <= i < |processes| && processes[i].id == id && (forall k :: 0 <= k < i ==> processes[k].id != id)
                        ==> ProcessColumn(processes, id) == processes[i].name
  {
    forall i | 0 <= i < |processes| && processes[i].id == id && (forall k :: 0 <= k < i ==> processes[k].id != id)
      ensures ProcessColumn(processes, id) == processes[i].name
    {
      FindProcessFirst(processes, id, i);
    }
  }

  /** Every listed row shows, in its process column, a name containing the search. */
  lemma ListedRowShowsMatchingProcess(specs: seq<Spec>, processes: seq<Process>, search: string, s: Spec)
    requires s in FilteredSpecs(specs, processes, search)
    ensures KnownProcess(processes, s) && Contains(ProcessColumn(processes, s.processId), search)
  {
  }

  /* ---------------------------------------------------------------
   * Form
   * --------------------------------------------------------------- */

  /** A form field holding either a number (a chosen option) or text. */
  datatype FieldValue = NumVal(n: int) | TextVal(t: string)

  /** The form's values; `price` is the number input's text. */
  datatype SpecValues = SpecValues(name: string, category: string, price: string, processId: FieldValue)

  /**
   The initial values: the edited spec's name, category and process, `''`
   for a new one. A process id of 0 is falsy and becomes `''` too; the price
   starts empty.
   */
  function InitialValues(initial: Option<Spec>): (v: SpecValues)
    ensures initial.None? ==> v == SpecValues("", "", "", TextVal(""))
    ensures initial.Some? ==> v.name == initial.value.name && v.category == initial.value.category && v.price == ""
    ensures initial.Some? ==> (v.processId == NumVal(initial.value.processId) <==> initial.value.processId != 0)
    ensures initial.Some? && initial.value.processId == 0 ==> v.processId == TextVal("")
  {
    match initial
    case None => SpecValues("", "", "", TextVal(""))
    case Some(s) =>
      SpecValues(s.name, s.category, "", if s.processId != 0 then NumVal(s.processId) else TextVal(""))
  }

  /** The required rule: a value is present unless it is the empty text. */
  predicate Present(v: FieldValue)
  {
    v != TextVal("")
  }

  /**
   `Number(x)`: identity on a number; on text it is the given conversion
   (`Number('') == 0`, `NaN` for non-numeric text is outside this model).
   */
  function ToNumber(v: FieldValue, parse: string -> int): (n: int)
    ensures v.NumVal? ==> n == v.n
  {
    match v
    case NumVal(n) => n
    case TextVal(t) => parse(t)
  }

  /**
   `handleSubmit` behind the form's required rules: nothing is sent while a
   field is empty; otherwise the edited spec's id (0 for a new one) with the
   typed values and the process id as a number.
   */
  function SubmitForm(initial: Option<Spec>, v: SpecValues, parse: string -> int): (r: Option<Spec>)
    ensures r.None? <==> v.name == "" || v.category == "" || v.price == "" || !Present(v.processId)
    ensures r.Some? ==> r.value.id == (if initial.Some? then initial.value.id else 0)
    ensures r.Some? ==> r.value.name == v.name && r.value.category == v.category && r.value.price == v.price
    ensures r.Some? && v.processId.NumVal? ==> r.value.processId == v.processId.n
  {
    if v.name == "" || v.category == "" || v.price == "" || !Present(v.processId) then None
    else
      var id := if initial.Some? && initial.value.id != 0 then initial.value.id else 0;
      Some(Spec(id, v.name, v.category, v.price, ToNumber(v.processId, parse)))
  }

  /** Opening a spec and typing only a price sends that spec back with the new price. */
  lemma EditThenSubmit(s: Spec, price: string, parse: string -> int)
    requires s.name != "" && s.category != "" && s.processId != 0 && price != ""
    ensures SubmitForm(Some(s), InitialValues(Some(s)).(price := price), parse) == Some(s.(price := price))
  {
  }

  /** An untouched new form is refused, and so is a spec whose process id is 0 until a process is chosen. */
  lemma UntouchedFormRefused(s: Spec, parse: string -> int)
    requires s.processId == 0
    ensures SubmitForm(None, InitialValues(None), parse).None?
    ensures forall price :: SubmitForm(Some(s), InitialValues(Some(s)).(price := price), parse).None?
  {
  }

  /* ---------------------------------------------------------------
   * Page state
   * --------------------------------------------------------------- */

  /** The page: the spec being edited and whether the dialog is shown. */
  datatype SpecPage = SpecPage(editing: Option<Spec>, showForm: bool)

  datatype SaveRequest = Update(id: int, data: Spec) | Create(data: Spec)

  /** The dialog title. */
  function Title(p: SpecPage): (t: string)
    ensures t == "编辑规格型号" <==> p.editing.Some?
    ensures t == "新增规格型号" <==> p.editing.None?
  {
    if p.editing.Some? then "编辑规格型号" else "新增规格型号"
  }

  /** The add button only shows the dialog; it does not clear `editing`. */
  function OpenNew(p: SpecPage): (q: SpecPage)
    ensures q.showForm && q.editing == p.editing
  {
    p.(showForm := true)
  }

  /** The edit button. */
  function Edit(p: SpecPage, s: Spec): (q: SpecPage)
    ensures q.showForm && q.editing == Some(s)
  {
    SpecPage(Some(s), true)
  }

  /** `handleCancel`. */
  function Cancel(p: SpecPage): (q: SpecPage)
    ensures !q.showForm && q.editing.None?
  {
    SpecPage(None, false)
  }

  /**
   `handleSave`: an update of the edited spec or a creation; the dialog is
   closed and `editing` cleared only when the request succeeded (`ok`).
   */
  function HandleSave(p: SpecPage, data: Spec, ok: bool): (r: (SpecPage, SaveRequest))
    ensures r.1 == (if p.editing.Some? then Update(p.editing.value.id, data) else Create(data))
    ensures ok ==> r.0 == SpecPage(None, false)
    ensures !ok ==> r.0 == p
  {
    var req := if p.editing.Some? then Update(p.editing.value.id, data) else Create(data);
    (if ok then SpecPage(None, false) else p, req)
  }

  /** A spec is being edited only while the dialog is shown. */
  predicate Consistent(p: SpecPage)
  {
    p.editing.Some? ==> p.showForm
  }

  /** Every action keeps the page consistent. */
  lemma ActionsKeepConsistent(p: SpecPage, s: Spec, data: Spec, ok: bool)
    requires Consistent(p)
    ensures Consistent(OpenNew(p)) && Consistent(Edit(p, s)) && Consistent(Cancel(p))
    ensures Consistent(HandleSave(p, data, ok).0)
  {
  }

  /** So, from a closed consistent page, the add button always opens a creation dialog. */
  lemma AddButtonCreates(p: SpecPage, data: Spec, ok: bool)
    requires Consistent(p) && !p.showForm
    ensures Title(OpenNew(p)) == "新增规格型号"
    ensures HandleSave(OpenNew(p), data, ok).1 == Create(data)
  {
  }
}
