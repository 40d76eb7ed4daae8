/**
 The process page: the list filtered by the search box (ignoring case), the
 reload on every keystroke, and the unfiltered reload after a save or a
 delete while the search box keeps its text.
 */
module ProcessPage {
  import opened Common

  datatype Process = Process(id: int, name: string, description: string)

  /** The page: the processes shown, the search box text, the process edited and the dialog. */
  datatype ProcessView = ProcessView(processes: seq<Process>, search: string, editing: Option<Process>, showForm: bool)

  predicate Matches(search: string, p: Process)
  {
    ContainsIgnoreCase(p.name, search)
  }

  function MatchesBy(search: string): Process -> bool
  {
    (p: Process) => Matches(search, p)
  }

  /**
   `loadProcesses(search)`: the fetched processes whose lower-cased name
   contains the lower-cased search; a failed fetch (`None`) keeps the list.
   */
  function LoadProcesses(shown: seq<Process>, fetched: Option<seq<Process>>, search: string): (r: seq<Process>)
    ensures fetched.None? ==> r == shown
    ensures fetched.Some? ==> IsSubsequence(r, fetched.value)
    ensures fetched.Some? ==> forall p :: p in r <==> p in fetched.value && ContainsIgnoreCase(p.name, search)
  {
    match fetched
    case None => shown
    case Some(all) => Filter(all, MatchesBy(search))
  }

  /** An empty search keeps every fetched process, in order. */
  lemma EmptySearchKeepsAll(shown: seq<Process>, all: seq<Process>)
    ensures LoadProcesses(shown, Some(all), "") == all
  {
    forall p | p in all ensures Matches("", p) {
      ContainsIgnoreCaseEmpty(p.name, "");
    }
    FilterAll(all, MatchesBy(""));
  }

  /** The first load, with the default empty search. */
  function Mount(fetched: Option<seq<Process>>): (v: ProcessView)
    ensures v.search == "" && v.editing.None? && !v.showForm
    ensures fetched.Some? ==> v.processes == fetched.value
    ensures fetched.None? ==> v.processes == []
  {
    var shown := LoadProcesses([], fetched, "");
    assert fetched.Some? ==> shown == fetched.value by {
      if fetched.Some? {
        EmptySearchKeepsAll([], fetched.value);
      }
    }
    ProcessView(shown, "", None, false)
  }

  /** `handleSearchChange`: store the typed value and reload filtered by it. */
  function SearchChanged(v: ProcessView, value: string, fetched: Option<seq<Process>>): (w: ProcessView)
    ensures w.search == value && w.editing == v.editing && w.showForm == v.showForm
    ensures w.processes == LoadProcesses(v.processes, fetched, value)
  {
    v.(search := value, processes := LoadProcesses(v.processes, fetched, value))
  }

  /** The reload uses the newly typed value: what was typed before does not matter. */
  lemma TypingUsesNewValue(v: ProcessView, previous: string, value: string, all: seq<Process>)
    ensures SearchChanged(v.(search := previous), value, Some(all)) == SearchChanged(v, value, Some(all))
    ensures forall p :: p in SearchChanged(v, value, Some(all)).processes ==> ContainsIgnoreCase(p.name, value)
  {
  }

  /** The processes shown all agree with the search box. */
  predicate ShowsSearch(v: ProcessView)
  {
    forall p :: p in v.processes ==> ContainsIgnoreCase(p.name, v.search)
  }

  /** A keystroke whose reload succeeded leaves the list agreeing with the box. */
  lemma SearchChangeShowsSearch(v: ProcessView, value: string, all: seq<Process>)
    ensures ShowsSearch(SearchChanged(v, value, Some(all)))
  {
  }

  /** What the form hands `handleSave`: its two fields, without an id. */
  datatype ProcessValues = ProcessValues(name: string, description: string)

  datatype ProcessRequest = Update(id: int, data: ProcessValues) | Create(data: ProcessValues) | Delete(id: int)

  /**
   `handleSave`: an update of the edited process or a creation; on success
   the dialog closes and the list reloads WITHOUT the search (`loadProcesses()`),
   the box keeping its text. A failed request changes nothing.
   */
  function HandleSave(v: ProcessView, data: ProcessValues, ok: bool, fetched: Option<seq<Process>>): (r: (ProcessView, ProcessRequest))
    ensures r.1 == (if v.editing.Some? then Update(v.editing.value.id, data) else Create(data))
    ensures !ok ==> r.0 == v
    ensures ok ==> r.0 == ProcessView(LoadProcesses(v.processes, fetched, ""), v.search, None, false)
  {
    var req := if v.editing.Some? then Update(v.editing.value.id, data) else Create(data);
    if ok then (ProcessView(LoadProcesses(v.processes, fetched, ""), v.search, None, false), req)
    else (v, req)
  }

  /** `handleDelete`: on success, the same unfiltered reload; the dialog is untouched. */
  function HandleDelete(v: ProcessView, id: int, ok: bool, fetched: Option<seq<Process>>): (r: (ProcessView, ProcessRequest))
    ensures r.1 == Delete(id)
    ensures !ok ==> r.0 == v
    ensures ok ==> r.0 == v.(processes := LoadProcesses(v.processes, fetched, ""))
  {
    (if ok then v.(processes := LoadProcesses(v.processes, fetched, "")) else v, Delete(id))
  }

  /** After a successful save or delete every fetched process is shown, in order, whatever the box says. */
  lemma ReloadIgnoresSearch(v: ProcessView, data: ProcessValues, id: int, all: seq<Process>)
    ensures HandleSave(v, data, true, Some(all)).0.processes == all
    ensures HandleSave(v, data, true, Some(all)).0.search == v.search
    ensures HandleDelete(v, id, true, Some(all)).0.processes == all
    ensures HandleDelete(v, id, true, Some(all)).0.search == v.search
  {
    EmptySearchKeepsAll(v.processes, all);
  }

  /** So a list filtered by "x" shows a process without an "x" right after a save. */
  lemma SaveCanDisagreeWithSearch(data: ProcessValues)
    ensures var v := ProcessView([], "x", None, true);
            var w := HandleSave(v, data, true, Some([Process(1, "a", "")])).0;
            ShowsSearch(SearchChanged(v, "x", Some([]))) && !ShowsSearch(w)
  {
    var v := ProcessView([], "x", None, true);
    var w := HandleSave(v, data, true, Some([Process(1, "a", "")])).0;
    ReloadIgnoresSearch(v, data, 0, [Process(1, "a", "")]);
    assert Process(1, "a", "") in w.processes;
    assert Lower("a") == "a" && Lower("x") == "x";
    assert !IsPrefix("x", "a"[0..]) && !IsPrefix("x", "a"[1..]);
    assert !ContainsIgnoreCase("a", "x");
  }

  /** The dialog title. */
  function Title(v: ProcessView): (t: string)
    ensures t == "编辑工序" <==> v.editing.Some?
    ensures t == "新增工序" <==> v.editing.None?
  {
    if v.editing.Some? then "编辑工序" else "新增工序"
  }

  /** The values the form starts from: the edited process, or an empty one with id 0. */
  function FormStart(v: ProcessView): (p: Process)
    ensures v.editing.Some? ==> p == v.editing.value
    ensures v.editing.None? ==> p == Process(0, "", "")
  {
    if v.editing.Some? then v.editing.value else Process(0, "", "")
  }

  /**
   The title announces the request a save sends: 编辑工序 exactly for an
   update, and after a successful save the dialog is back to 新增工序.
   */
  lemma TitleMatchesRequest(v: ProcessView, data: ProcessValues, ok: bool, fetched: Option<seq<Process>>)
    ensures Title(v) == "编辑工序" <==> HandleSave(v, data, ok, fetched).1.Update?
    ensures ok ==> Title(HandleSave(v, data, ok, fetched).0) == "新增工序"
  {
  }

  /** The form's `required` rules: both the name and the description are non-empty. */
  predicate FormFilled(values: ProcessValues)
  {
    values.name != "" && values.description != ""
  }

  /**
   The form's save button: with a required field empty the form shows its
   messages and `onFinish` never runs, so nothing is sent and the page stays
   as it is; otherwise the two field values go to `handleSave`.
   */
  function SubmitForm(v: ProcessView, values: ProcessValues, ok: bool, fetched: Option<seq<Process>>)
    : (r: (ProcessView, Option<ProcessRequest>))
    ensures r.1.None? <==> !FormFilled(values)
    ensures r.1.None? ==> r.0 == v
    ensures r.1.Some? ==> !r.1.value.Delete? && r.1.value.data == values
    ensures r.1.Some? ==> (r.1.value.Update? <==> v.editing.Some?)
    ensures r.1.Some? && v.editing.Some? ==> r.1.value.id == v.editing.value.id
    ensures r.1.Some? ==> r.0 == HandleSave(v, values, ok, fetched).0
  {
    if FormFilled(values) then
      var saved := HandleSave(v, values, ok, fetched);
      (saved.0, Some(saved.1))
    else (v, None)
  }

  /** The fields as the form starts them. */
  function StartValues(v: ProcessView): ProcessValues
  {
    ProcessValues(FormStart(v).name, FormStart(v).description)
  }

  /**
   Saving the form as it starts: the new form (both fields empty) is refused
   and sends nothing; an edited process is sent back to its own id with its
   name and description unchanged exactly when both are non-empty.
   */
  lemma UntouchedFormResent(v: ProcessView, ok: bool, fetched: Option<seq<Process>>)
    ensures v.editing.None? ==> SubmitForm(v, StartValues(v), ok, fetched) == (v, None)
    ensures v.editing.Some? ==>
              var e := v.editing.value;
              SubmitForm(v, StartValues(v), ok, fetched).1
              == (if e.name != "" && e.description != "" then Some(Update(e.id, ProcessValues(e.name, e.description)))
                  else None)
  {
  }
}
