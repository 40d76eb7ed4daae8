/**
 The worker page: the name search over the full list (ignoring case), the
 reload that resets the search result, and the dialog state around saving.
 */
module WorkersPage {
  import opened Common

  /** A worker; the other optional fields pass through unchanged and are not modelled. */
  datatype Worker = Worker(id: int, name: string)

  /** The page: every worker loaded, the search result shown, the worker edited and the dialog. */
  datatype WorkerView = WorkerView(workers: seq<Worker>, filtered: seq<Worker>, editing: Option<Worker>,
                                   modalVisible: bool)

  predicate Matches(query: string, w: Worker)
  {
    ContainsIgnoreCase(w.name, query)
  }

  function MatchesBy(query: string): Worker -> bool
  {
    (w: Worker) => Matches(query, w)
  }

  /** `loadWorkers`: a successful fetch replaces both the full list and the search result; a failed one keeps both. */
  function LoadWorkers(v: WorkerView, fetched: Option<seq<Worker>>): (w: WorkerView)
    ensures fetched.Some? ==> w.workers == fetched.value && w.filtered == fetched.value
    ensures fetched.None? ==> w == v
    ensures w.editing == v.editing && w.modalVisible == v.modalVisible
  {
    match fetched
    case None => v
    case Some(all) => v.(workers := all, filtered := all)
  }

  /** `handleSearch`: the workers of the full list whose lower-cased name contains the lower-cased query. */
  function HandleSearch(v: WorkerView, query: string): (w: WorkerView)
    ensures IsSubsequence(w.filtered, v.workers)
    ensures forall x :: x in w.filtered <==> x in v.workers && ContainsIgnoreCase(x.name, query)
    ensures w.workers == v.workers && w.editing == v.editing && w.modalVisible == v.modalVisible
  {
    v.(filtered := Filter(v.workers, MatchesBy(query)))
  }

  /** A search always starts from the full list: an earlier search does not narrow a later one. */
  lemma SearchFromFullList(v: WorkerView, first: string, second: string)
    ensures HandleSearch(HandleSearch(v, first), second) == HandleSearch(v, second)
  {
  }

  /** An empty (or cleared) search shows every worker again. */
  lemma EmptySearchShowsAll(v: WorkerView)
    ensures HandleSearch(v, "").filtered == v.workers
  {
    forall x | x in v.workers ensures Matches("", x) {
      ContainsIgnoreCaseEmpty(x.name, "");
    }
    FilterAll(v.workers, MatchesBy(""));
  }

  /** The search result is always drawn from the full list, in order. */
  predicate Consistent(v: WorkerView)
  {
    IsSubsequence(v.filtered, v.workers)
  }

  datatype WorkerRequest = Update(id: int, data: Worker) | Create(data: Worker) | Delete(id: int)

  /**
   `handleSave`: an update of the edited worker or a creation. On success the
   dialog closes, `editing` is cleared and the list reloads; a failed request
   changes nothing.
   */
  function HandleSave(v: WorkerView, data: Worker, ok: bool, fetched: Option<seq<Worker>>): (r: (WorkerView, WorkerRequest))
    ensures r.1 == (if v.editing.Some? then Update(v.editing.value.id, data) else Create(data))
    ensures !ok ==> r.0 == v
    ensures ok ==> r.0.editing.None? && !r.0.modalVisible
    ensures ok ==> r.0 == LoadWorkers(v.(editing := None, modalVisible := false), fetched)
  {
    var req := if v.editing.Some? then Update(v.editing.value.id, data) else Create(data);
    if ok then (LoadWorkers(v.(editing := None, modalVisible := false), fetched), req) else (v, req)
  }

  /** `handleDelete`: on success the list reloads; the dialog is untouched. */
  function HandleDelete(v: WorkerView, id: int, ok: bool, fetched: Option<seq<Worker>>): (r: (WorkerView, WorkerRequest))
    ensures r.1 == Delete(id)
    ensures !ok ==> r.0 == v
    ensures ok ==> r.0 == LoadWorkers(v, fetched)
  {
    (if ok then LoadWorkers(v, fetched) else v, Delete(id))
  }

  /** A successful save or delete whose reload succeeded drops the search result: every worker is shown. */
  lemma ReloadResetsSearch(v: WorkerView, data: Worker, id: int, all: seq<Worker>)
    ensures HandleSave(v, data, true, Some(all)).0.filtered == all
    ensures HandleDelete(v, id, true, Some(all)).0.filtered == all
  {
  }

  /** The add button: nothing edited, dialog open. */
  function OpenNew(v: WorkerView): (w: WorkerView)
    ensures w.editing.None? && w.modalVisible && w.workers == v.workers && w.filtered == v.filtered
  {
    v.(editing := None, modalVisible := true)
  }

  /** A row's edit button: that worker edited, dialog open. */
  function OpenEdit(v: WorkerView, x: Worker): (w: WorkerView)
    ensures w.editing == Some(x) && w.modalVisible && w.workers == v.workers && w.filtered == v.filtered
  {
    v.(editing := Some(x), modalVisible := true)
  }

  /** Closing the dialog (either cancel) clears `editing`. */
  function CloseDialog(v: WorkerView): (w: WorkerView)
    ensures w.editing.None? && !w.modalVisible && w.workers == v.workers && w.filtered == v.filtered
  {
    v.(editing := None, modalVisible := false)
  }

  /** Every action keeps the search result drawn from the full list. */
  lemma ActionsKeepConsistent(v: WorkerView, query: string, x: Worker, data: Worker, id: int, ok: bool,
                              fetched: Option<seq<Worker>>)
    requires Consistent(v)
    ensures Consistent(LoadWorkers(v, fetched)) && Consistent(HandleSearch(v, query))
    ensures Consistent(HandleSave(v, data, ok, fetched).0) && Consistent(HandleDelete(v, id, ok, fetched).0)
    ensures Consistent(OpenNew(v)) && Consistent(OpenEdit(v, x)) && Consistent(CloseDialog(v))
  {
    if fetched.Some? {
      IsSubsequenceRefl(fetched.value);
    }
  }

  /** The add button always leads to a creation, whatever was edited before. */
  lemma AddButtonCreates(v: WorkerView, data: Worker, ok: bool, fetched: Option<seq<Worker>>)
    ensures HandleSave(OpenNew(v), data, ok, fetched).1 == Create(data)
  {
  }

  /** The dialog title. */
  function Title(v: WorkerView): (t: string)
    ensures t == "编辑工人" <==> v.editing.Some?
    ensures t == "新增工人" <==> v.editing.None?
  {
    if v.editing.Some? then "编辑工人" else "新增工人"
  }

  /**
   The title announces the request a save sends: 编辑工人 exactly for an
   update; the add button always shows 新增工人.
   */
  lemma TitleMatchesRequest(v: WorkerView, data: Worker, ok: bool, fetched: Option<seq<Worker>>)
    ensures Title(v) == "编辑工人" <==> HandleSave(v, data, ok, fetched).1.Update?
    ensures Title(OpenNew(v)) == "新增工人"
  {
  }
}
