/**
 The stocktake page: the same spec filter as the ledger plus an optional
 low-stock filter, a dialog that refuses frozen records, and a submit that
 turns the counted quantity into one `'adjust'` change of the difference.
 */
module InventoryCheck {
  import opened Common
  import opened InventoryList

  /** The dialog's fields; `None` is an empty field. */
  datatype CheckForm = CheckForm(actualQuantity: Option<int>, remark: Option<string>)

  datatype CheckState = CheckState(
    sel: Selection,
    lowOnly: bool,
    page: int,
    current: Option<Inventory>,
    open: bool,
    form: CheckForm)

  /** The filter as this page writes it: `specs.every(…)` and a conditional low-stock test. */
  function CheckKeeps(specs: seq<SpecCategory>, sel: Selection, lowOnly: bool): Inventory -> bool
  {
    inv => Every(inv, specs, sel) && (if lowOnly then inv.quantity < inv.warningMin else true)
  }

  function CheckList(inventories: seq<Inventory>, specs: seq<SpecCategory>, sel: Selection, lowOnly: bool): seq<Inventory>
  {
    Filter(inventories, CheckKeeps(specs, sel, lowOnly))
  }

  /** The stocktake list is the shared spec and low-stock filter. */
  lemma CheckListIsShared(inventories: seq<Inventory>, specs: seq<SpecCategory>, sel: Selection, lowOnly: bool)
    ensures CheckList(inventories, specs, sel, lowOnly) == FilteredList(inventories, specs, sel, lowOnly)
  {
    forall inv | inv in inventories
      ensures CheckKeeps(specs, sel, lowOnly)(inv) <==> SpecAndStockFilter(specs, sel, lowOnly)(inv)
    {
      EveryIsMatchesSpecs(inv, specs, sel);
    }
    FilterCongruent(inventories, CheckKeeps(specs, sel, lowOnly), SpecAndStockFilter(specs, sel, lowOnly));
  }

  /** The shown page of the stocktake list. */
  function CheckPage(s: CheckState, inventories: seq<Inventory>, specs: seq<SpecCategory>): seq<Inventory>
  {
    PageOf(CheckList(inventories, specs, s.sel, s.lowOnly), s.page)
  }

  /** The low-stock switch sets the flag and returns to page 1. */
  function ToggleLowStock(s: CheckState, on: bool): (t: CheckState)
    ensures t == s.(lowOnly := on, page := 1)
  {
    s.(lowOnly := on, page := 1)
  }

  /** Choosing a value for a category returns to page 1. */
  function SelectSpec(s: CheckState, code: string, value: Option<string>): (t: CheckState)
    ensures t == s.(sel := s.sel[code := value], page := 1)
  {
    s.(sel := s.sel[code := value], page := 1)
  }

  /** After any filter change the first ten matching records are shown. */
  lemma FilterChangeShowsFirstPage(s: CheckState, inventories: seq<Inventory>, specs: seq<SpecCategory>,
                                   code: string, value: Option<string>, on: bool)
    ensures var l := CheckList(inventories, specs, s.sel[code := value], s.lowOnly);
            CheckPage(SelectSpec(s, code, value), inventories, specs) == l[..Min(PageSize, |l|)]
    ensures var l := CheckList(inventories, specs, s.sel, on);
            CheckPage(ToggleLowStock(s, on), inventories, specs) == l[..Min(PageSize, |l|)]
  {
    PageContents(CheckList(inventories, specs, s.sel[code := value], s.lowOnly), 1);
    PageContents(CheckList(inventories, specs, s.sel, on), 1);
  }

  /**
   `openModal`: a frozen record leaves the page as it was; any other record
   becomes current, the dialog opens, and the form shows its quantity and an
   empty remark.
   */
  function OpenModal(s: CheckState, record: Inventory): (t: CheckState)
    ensures record.isFrozen ==> t == s
    ensures !record.isFrozen ==> t.current == Some(record) && t.open
                                 && t.form == CheckForm(Some(record.quantity), Some(""))
    ensures t.sel == s.sel && t.lowOnly == s.lowOnly && t.page == s.page
  {
    if record.isFrozen then s
    else s.(current := Some(record), open := true, form := CheckForm(Some(record.quantity), Some("")))
  }

  /** The stocktake remark when none is entered. */
  const DefaultRemark := "库存盘点"

  /**
   `handleSubmit`: nothing without a current record or with the required
   quantity empty; nothing when the count equals the stock (the dialog stays
   open); otherwise one `'adjust'` change of the difference. A refused
   request (`ok` false) throws before the page is touched; a successful one
   closes the dialog and resets the form.
   */
  function Submit(s: CheckState, ok: bool): (r: (CheckState, Option<ChangeRequest>))
    ensures s.current.None? || s.form.actualQuantity.None? ==> r == (s, None)
    ensures (s.current.Some? && s.form.actualQuantity.Some?
             && s.form.actualQuantity.value == s.current.value.quantity) ==> r == (s, None)
    ensures r.1.Some? ==> s.current.Some? && s.form.actualQuantity.Some?
                          && r.1.value.inventoryId == s.current.value.id
                          && r.1.value.action == Adjust
                          && r.1.value.quantity != 0
                          && s.current.value.quantity + r.1.value.quantity == s.form.actualQuantity.value
                          && r.1.value.remark == TextOr(s.form.remark, DefaultRemark)
    ensures r.1.Some? && ok ==> !r.0.open && r.0.current.None? && r.0.form == CheckForm(None, None)
                                && r.0.sel == s.sel && r.0.lowOnly == s.lowOnly && r.0.page == s.page
    ensures r.1.None? || !ok ==> r.0 == s
  {
    if s.current.None? || s.form.actualQuantity.None? then (s, None)
    else
      var diff := s.form.actualQuantity.value - s.current.value.quantity;
      if diff == 0 then (s, None)
      else
        var req := ChangeRequest(s.current.value.id, Adjust, diff, TextOr(s.form.remark, DefaultRemark));
        (if ok then s.(open := false, current := None, form := CheckForm(None, None)) else s, Some(req))
  }

  /** Confirming the dialog as it was opened changes nothing: the pre-filled count equals the stock. */
  lemma OpenThenConfirmSendsNothing(s: CheckState, record: Inventory, ok: bool)
    requires !record.isFrozen
    ensures Submit(OpenModal(s, record), ok).1.None?
  {
  }

  /** Submitting never emits a change for a frozen record: such a record never becomes current here. */
  lemma FrozenRecordNeverAdjusted(s: CheckState, record: Inventory, ok: bool)
    requires record.isFrozen && s.current.None?
    ensures Submit(OpenModal(s, record), ok).1.None?
  {
  }

  /** This page tags a stock of exactly 0 red, unlike the ledger's low-stock tag. */
  function StockTagIsRed(inv: Inventory): (red: bool)
    ensures red <==> inv.quantity == 0
  {
    inv.quantity == 0
  }

  /**
   Counting a red-tagged record: any non-zero count is sent as an adjustment
   by exactly that count, since the stock it corrects is 0.
   */
  lemma RedStockTakeAddsCount(s: CheckState, record: Inventory, count: int, remark: Option<string>, ok: bool)
    requires StockTagIsRed(record) && !record.isFrozen && count != 0
    ensures var t := OpenModal(s, record);
            var req := Submit(t.(form := CheckForm(Some(count), remark)), ok).1;
            req == Some(ChangeRequest(record.id, Adjust, count, TextOr(remark, DefaultRemark)))
  {
  }

  /** A record the ledger tags green for being at its minimum is red here when that minimum is 0. */
  lemma StockTagDiffersFromLedger()
    ensures var inv := Inventory(1, "p", "", map[], 0, 0, false);
            StockTagIsRed(inv) && !(inv.quantity < inv.warningMin)
  {
  }
}
