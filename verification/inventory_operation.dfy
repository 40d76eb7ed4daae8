/**
 The stock-operation page: the spec filter without a low-stock switch, and
 the in / out / adjust dialog that posts one stock change.
 */
module InventoryOperation {
  import opened Common
  import opened InventoryList

  datatype OperationForm = OperationForm(quantity: Option<int>, remark: Option<string>)

  datatype OperationState = OperationState(
    sel: Selection,
    page: int,
    current: Option<Inventory>,
    action: Option<Action>,
    open: bool,
    form: OperationForm)

  function OperationKeeps(specs: seq<SpecCategory>, sel: Selection): Inventory -> bool
  {
    inv => Every(inv, specs, sel)
  }

  function OperationList(inventories: seq<Inventory>, specs: seq<SpecCategory>, sel: Selection): seq<Inventory>
  {
    Filter(inventories, OperationKeeps(specs, sel))
  }

  /** The list is the shared spec filter with the low-stock condition switched off. */
  lemma OperationListIsSpecFilter(inventories: seq<Inventory>, specs: seq<SpecCategory>, sel: Selection)
    ensures OperationList(inventories, specs, sel) == FilteredList(inventories, specs, sel, false)
  {
    forall inv | inv in inventories
      ensures OperationKeeps(specs, sel)(inv) <==> SpecAndStockFilter(specs, sel, false)(inv)
    {
      EveryIsMatchesSpecs(inv, specs, sel);
    }
    FilterCongruent(inventories, OperationKeeps(specs, sel), SpecAndStockFilter(specs, sel, false));
  }

  function OperationPage(s: OperationState, inventories: seq<Inventory>, specs: seq<SpecCategory>): seq<Inventory>
  {
    PageOf(OperationList(inventories, specs, s.sel), s.page)
  }

  /** Choosing a value for a category returns to page 1, which shows the first ten matching records. */
  function SelectSpec(s: OperationState, code: string, value: Option<string>): (t: OperationState)
    ensures t == s.(sel := s.sel[code := value], page := 1)
  {
    s.(sel := s.sel[code := value], page := 1)
  }

  lemma SelectSpecShowsFirstPage(s: OperationState, inventories: seq<Inventory>, specs: seq<SpecCategory>,
                                 code: string, value: Option<string>)
    ensures var l := OperationList(inventories, specs, s.sel[code := value]);
            OperationPage(SelectSpec(s, code, value), inventories, specs) == l[..Min(PageSize, |l|)]
  {
    PageContents(OperationList(inventories, specs, s.sel[code := value]), 1);
  }

  /**
   `openModal`: a frozen record is refused for every action and nothing is
   set; otherwise the record and action become current, the dialog opens,
   the quantity is cleared and the remark emptied.
   */
  function OpenModal(s: OperationState, record: Inventory, action: Action): (t: OperationState)
    ensures record.isFrozen ==> t == s
    ensures !record.isFrozen ==> t == s.(current := Some(record), action := Some(action), open := true,
                                          form := OperationForm(None, Some("")))
  {
    if record.isFrozen then s
    else s.(current := Some(record), action := Some(action), open := true, form := OperationForm(None, Some("")))
  }

  /**
   `handleSubmit`: only with both a current record and an action, and with
   the required quantity entered; posts one change for that record and
   action with the remark defaulting to ''. A refused request (`ok` false)
   throws before the page is touched; a successful one closes the dialog
   and clears record, action and form.
   */
  function Submit(s: OperationState, ok: bool): (r: (OperationState, Option<ChangeRequest>))
    ensures s.current.None? || s.action.None? || s.form.quantity.None? ==> r == (s, None)
    ensures s.current.Some? && s.action.Some? && s.form.quantity.Some? ==>
              r.1 == Some(ChangeRequest(s.current.value.id, s.action.value, s.form.quantity.value,
                                        TextOr(s.form.remark, "")))
    ensures r.1.Some? && ok ==> !r.0.open && r.0.current.None? && r.0.action.None?
                                && r.0.form == OperationForm(None, None) && r.0.sel == s.sel && r.0.page == s.page
    ensures !ok ==> r.0 == s
  {
    if s.current.None? || s.action.None? || s.form.quantity.None? then (s, None)
    else
      var req := ChangeRequest(s.current.value.id, s.action.value, s.form.quantity.value, TextOr(s.form.remark, ""));
      (if ok then s.(open := false, current := None, action := None, form := OperationForm(None, None)) else s, Some(req))
  }

  /** A frozen record never gets a change from this page, whatever the action. */
  lemma FrozenRecordNeverChanged(s: OperationState, record: Inventory, action: Action, entered: OperationForm, ok: bool)
    requires record.isFrozen && s.current.None?
    ensures Submit(OpenModal(s, record, action).(form := entered), ok).1.None?
  {
  }

  /**
   Opening for a record and action and entering a quantity posts exactly that
   change; after a refused request the same change can be sent again.
   */
  lemma OpenEnterSubmit(s: OperationState, record: Inventory, action: Action, q: int, remark: Option<string>)
    requires !record.isFrozen
    ensures var t := OpenModal(s, record, action).(form := OperationForm(Some(q), remark));
            Submit(t, true).1 == Some(ChangeRequest(record.id, action, q, TextOr(remark, "")))
            && Submit(Submit(t, false).0, true).1 == Submit(t, true).1
  {
  }

  /** The quantity field's lower bound: any change for an adjustment, at least one unit for in and out. */
  function MinQuantity(action: Option<Action>): (m: int)
    ensures action == Some(Adjust) ==> m == -999999
    ensures action != Some(Adjust) ==> m == 1
  {
    if action == Some(Adjust) then -999999 else 1
  }

  /** The dialog title by action; without an action the adjustment title is shown. */
  function Title(action: Option<Action>): (t: string)
    ensures action == Some(In) ==> t == "入库"
    ensures action == Some(Out) ==> t == "出库"
    ensures action != Some(In) && action != Some(Out) ==> t == "库存调整"
  {
    if action == Some(In) then "入库" else if action == Some(Out) then "出库" else "库存调整"
  }

  /** Only an adjustment may go below one unit, and it alone carries the adjustment title. */
  lemma AdjustAloneAllowsNonPositive(action: Option<Action>)
    ensures MinQuantity(action) < 1 <==> action == Some(Adjust)
    ensures action.Some? ==> (MinQuantity(action) < 1 <==> Title(action) == "库存调整")
  {
    match action
    case None =>
    case Some(In) =>
      assert |"入库"| != |"库存调整"|;
    case Some(Out) =>
      assert |"出库"| != |"库存调整"|;
    case Some(Adjust) =>
  }
}
