/**
 The spec category page: keeping the selected category in step with a
 freshly loaded list, the category/option dialog (its title, its fields and
 the request its OK button sends).
 */
module SpecManage {
  import opened Common

  datatype SpecOption = SpecOption(id: int, value: string)
  datatype Category = Category(id: int, code: string, name: string, options: seq<SpecOption>)

  function CategoryWithId(id: int): Category -> bool
  {
    (c: Category) => c.id == id
  }

  /**
   The selected category after the list is (re)loaded: none for an empty
   list, the first category when none was selected, the fresh copy of the
   selected category when its id is still listed, and the first otherwise.
   */
  function Resync(categories: seq<Category>, current: Option<Category>): (r: Option<Category>)
    ensures |categories| == 0 <==> r.None?
    ensures r.Some? ==> r.value in categories
    ensures |categories| > 0 && current.None? ==> r == Some(categories[0])
    ensures |categories| > 0 && current.Some? && (forall k :: 0 <= k < |categories| ==> categories[k].id != current.value.id)
            ==> r == Some(categories[0])
  {
    if |categories| == 0 then None
    else if current.None? then Some(categories[0])
    else match FindFirst(categories, CategoryWithId(current.value.id))
      case Some(i) => Some(categories[i])
      case None => Some(categories[0])
  }

  /** A selected category still listed is replaced by the first listed record with its id. */
  lemma ResyncKeepsSelection(categories: seq<Category>, current: Category, i: nat)
    requires i < |categories| && categories[i].id == current.id
    requires forall k :: 0 <= k < i ==> categories[k].id != current.id
    ensures Resync(categories, Some(current)) == Some(categories[i])
  {
    FindFirstAt(categories, CategoryWithId(current.id), i);
  }

  /** Resynchronising against the same list again changes nothing. */
  lemma ResyncIdempotent(categories: seq<Category>, current: Option<Category>)
    ensures Resync(categories, Resync(categories, current)) == Resync(categories, current)
  {
    var r := Resync(categories, current);
    if r.Some? {
      var i := if current.Some? && FindFirst(categories, CategoryWithId(current.value.id)).Some?
               then FindFirst(categories, CategoryWithId(current.value.id)).value else 0;
      assert r.value == categories[i];
      FindFirstAt(categories, CategoryWithId(r.value.id), FirstWithId(categories, r.value.id, i));
    }
  }

  /** The first index holding the id found at `i`. */
  function FirstWithId(categories: seq<Category>, id: int, i: nat): (j: nat)
    requires i < |categories| && categories[i].id == id
    ensures j <= i && categories[j].id == id
    ensures forall k :: 0 <= k < j ==> categories[k].id != id
  {
    match FindFirst(categories, CategoryWithId(id))
    case Some(j) => j
    case None => assert CategoryWithId(id)(categories[i]); i
  }

  /* ---------------------------------------------------------------
   * Dialog
   * --------------------------------------------------------------- */

  datatype ModalKind = CategoryModal | OptionModal | NoModal

  /** The record being edited: a category or an option. */
  datatype Edited = EditedCategory(category: Category) | EditedOption(option: SpecOption)

  function EditedId(e: Edited): int
  {
    match e
    case EditedCategory(c) => c.id
    case EditedOption(o) => o.id
  }

  /** The form's values: `code` and `name` for a category, `value` for an option. */
  datatype SpecForm = SpecForm(code: Option<string>, name: Option<string>, value: Option<string>)

  datatype SpecPage = SpecPage(
    categories: seq<Category>,
    current: Option<Category>,
    open: bool,
    kind: ModalKind,
    editing: Option<Edited>)

  function AddCategory(p: SpecPage): (q: SpecPage)
    ensures q.open && q.kind == CategoryModal && q.editing.None?
  {
    p.(open := true, kind := CategoryModal, editing := None)
  }

  function EditCategory(p: SpecPage, c: Category): (q: SpecPage)
    ensures q.open && q.kind == CategoryModal && q.editing == Some(EditedCategory(c))
  {
    p.(open := true, kind := CategoryModal, editing := Some(EditedCategory(c)))
  }

  /** Adding an option needs a selected category; without one nothing happens. */
  function AddOption(p: SpecPage): (q: SpecPage)
    ensures p.current.None? ==> q == p
    ensures p.current.Some? ==> q.open && q.kind == OptionModal && q.editing.None?
  {
    if p.current.None? then p else p.(open := true, kind := OptionModal, editing := None)
  }

  function EditOption(p: SpecPage, o: SpecOption): (q: SpecPage)
    ensures q.open && q.kind == OptionModal && q.editing == Some(EditedOption(o))
  {
    p.(open := true, kind := OptionModal, editing := Some(EditedOption(o)))
  }

  /** The dialog title: a category dialog names categories, any other names options. */
  function Title(kind: ModalKind, editing: Option<Edited>): (t: string)
  {
    if kind == CategoryModal then (if editing.Some? then "编辑规格分类" else "新增规格分类")
    else if editing.Some? then "编辑规格选项" else "新增规格选项"
  }

  /** The code field: only when creating a category. */
  predicate CodeFieldShown(kind: ModalKind, editing: Option<Edited>)
  {
    kind == CategoryModal && editing.None?
  }

  /** The four titles are distinct, so the title tells which of the four dialogs is open. */
  lemma TitleIdentifiesDialog(kind1: ModalKind, e1: Option<Edited>, kind2: ModalKind, e2: Option<Edited>)
    ensures Title(kind1, e1) == Title(kind2, e2)
            <==> (kind1 == CategoryModal) == (kind2 == CategoryModal) && e1.Some? == e2.Some?
  {
  }

  /** The code can be entered exactly in the dialog titled 新增规格分类. */
  lemma CodeFieldOnlyWhenCreatingCategory(kind: ModalKind, editing: Option<Edited>)
    ensures CodeFieldShown(kind, editing) <==> Title(kind, editing) == "新增规格分类"
  {
  }

  datatype SpecRequest =
    | UpdateCategory(id: int, form: SpecForm)
    | AddCategoryRequest(form: SpecForm)
    | UpdateOption(id: int, form: SpecForm)
    | AddOptionRequest(categoryId: int, form: SpecForm)

  /** A required field passes antd's rule when it holds a non-empty text. */
  predicate Filled(v: Option<string>)
  {
    v.Some? && v.value != ""
  }

  /**
   The required rules of the fields the open dialog shows: a new category
   needs a code and a name, an edited category its name, an option its value.
   */
  predicate RequiredFilled(p: SpecPage, values: SpecForm)
  {
    match p.kind
    case CategoryModal => Filled(values.name) && (p.editing.Some? || Filled(values.code))
    case OptionModal => Filled(values.value)
    case NoModal => true
  }

  /**
   `handleOk`: `validateFields` stops it while a required field is empty.
   Otherwise it sends the request for the open dialog, none for an option
   dialog without a selected category. A request the server refuses (`ok`
   false) throws before the dialog closes; otherwise the dialog closes.
   */
  function HandleOk(p: SpecPage, values: SpecForm, ok: bool): (r: (SpecPage, Option<SpecRequest>))
    ensures !RequiredFilled(p, values) ==> r == (p, None)
    ensures RequiredFilled(p, values) ==>
              (r.1.None? <==> p.kind == NoModal || (p.kind == OptionModal && p.current.None?))
    ensures RequiredFilled(p, values) && p.kind == CategoryModal ==>
              r.1 == Some(if p.editing.Some? then UpdateCategory(EditedId(p.editing.value), values) else AddCategoryRequest(values))
    ensures RequiredFilled(p, values) && p.kind == OptionModal && p.current.Some? && p.editing.None? ==>
              r.1 == Some(AddOptionRequest(p.current.value.id, values))
    ensures RequiredFilled(p, values) && p.kind == OptionModal && p.current.Some? && p.editing.Some? ==>
              r.1 == Some(UpdateOption(EditedId(p.editing.value), values))
    ensures r.1.Some? && !ok ==> r.0 == p
    ensures RequiredFilled(p, values) && (r.1.None? || ok) ==> r.0 == p.(open := false)
  {
    if !RequiredFilled(p, values) then (p, None)
    else
      var req :=
        match p.kind
        case CategoryModal =>
          Some(if p.editing.Some? then UpdateCategory(EditedId(p.editing.value), values) else AddCategoryRequest(values))
        case OptionModal =>
          if p.current.None? then None
          else Some(if p.editing.Some? then UpdateOption(EditedId(p.editing.value), values)
                    else AddOptionRequest(p.current.value.id, values))
        case NoModal => None;
      (if req.Some? && !ok then p else p.(open := false), req)
  }

  /** A new option always belongs to the category selected when the dialog was confirmed. */
  lemma NewOptionInCurrentCategory(p: SpecPage, values: SpecForm, ok: bool)
    ensures var req := HandleOk(p, values, ok).1;
            req.Some? && req.value.AddOptionRequest? ==> p.current.Some? && req.value.categoryId == p.current.value.id
  {
  }

  /**
   Every request sent carries the fields its dialog requires: a new category
   its code and name, an edited one its name, an option its value.
   */
  lemma RequestsCarryRequiredFields(p: SpecPage, values: SpecForm, ok: bool)
    ensures var req := HandleOk(p, values, ok).1;
            req.Some? ==> match req.value
                          case AddCategoryRequest(f) => Filled(f.code) && Filled(f.name)
                          case UpdateCategory(_, f) => Filled(f.name)
                          case AddOptionRequest(_, f) => Filled(f.value)
                          case UpdateOption(_, f) => Filled(f.value)
  {
  }

  /** The dialog closes only once its required fields are filled and any request sent succeeded. */
  lemma DialogClosesOnlyWhenSaved(p: SpecPage, values: SpecForm, ok: bool)
    requires p.open
    ensures var (q, req) := HandleOk(p, values, ok);
            !q.open <==> RequiredFilled(p, values) && (req.None? || ok)
  {
  }

  /** The page after the list reloads: the new list with the selection resynchronised. */
  function Reloaded(p: SpecPage, categories: seq<Category>): (q: SpecPage)
    ensures q.categories == categories && q.current == Resync(categories, p.current)
  {
    p.(categories := categories, current := Resync(categories, p.current))
  }

  /** Opening the option dialog from a reloaded page only happens when the list is not empty. */
  lemma AddOptionAfterReload(p: SpecPage, categories: seq<Category>)
    ensures AddOption(Reloaded(p, categories)).open <==> |categories| > 0 || p.open
  {
  }
}
