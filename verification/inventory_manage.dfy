/**
 The inventory ledger page: its spec/low-stock filter written as a loop,
 the page reset on a spec change, the quantity tag, the product options of
 the initialisation dialog, and the request its dialog submits.
 */
module InventoryManage {
  import opened Common
  import opened InventoryList

  /**
   The ledger's filter callback: a `for … of` over the categories that
   skips unselected ones and rejects on the first mismatch, then the
   low-stock test. It is the shared filter predicate.
   */
  method KeepRecord(inv: Inventory, specs: seq<SpecCategory>, sel: Selection, lowOnly: bool)
    returns (keep: bool)
    ensures keep <==> MatchesSpecs(inv, specs, sel) && LowStockAccepts(inv, lowOnly)
  {
    var i := 0;
    while i < |specs|
      invariant 0 <= i <= |specs|
      invariant forall k :: 0 <= k < i ==> CategoryAccepts(inv, specs[k], sel)
    {
      var code := specs[i].code;
      if !Selected(sel, code) {
        i := i + 1;
        continue;
      }
      var actual := SpecValue(inv, code);
      if actual != Some(sel[code].value) {
        return false;
      }
      i := i + 1;
    }
    if lowOnly && inv.quantity >= inv.warningMin {
      return false;
    }
    return true;
  }

  /** `filteredList`, computed record by record with the loop above. */
  method FilterLedger(inventories: seq<Inventory>, specs: seq<SpecCategory>, sel: Selection, lowOnly: bool)
    returns (r: seq<Inventory>)
    ensures r == FilteredList(inventories, specs, sel, lowOnly)
  {
    r := [];
    var i := |inventories|;
    while i > 0
      invariant 0 <= i <= |inventories|
      invariant r == Filter(inventories[i..], SpecAndStockFilter(specs, sel, lowOnly))
    {
      i := i - 1;
      var keep := KeepRecord(inventories[i], specs, sel, lowOnly);
      assert inventories[i..][1..] == inventories[i + 1..];
      if keep {
        r := [inventories[i]] + r;
      }
    }
    assert inventories[0..] == inventories;
  }

  /** The part of the page state the filter controls touch. */
  datatype LedgerView = LedgerView(sel: Selection, lowOnly: bool, page: int)

  /** Choosing a value (or "全部", `None`) for a category: the selection changes and the page returns to 1. */
  function SelectSpec(v: LedgerView, code: string, value: Option<string>): (w: LedgerView)
    ensures w.page == 1 && w.lowOnly == v.lowOnly
    ensures code in w.sel && w.sel[code] == value
    ensures forall c :: c != code ==> (c in w.sel <==> c in v.sel) && (c in v.sel ==> w.sel[c] == v.sel[c])
  {
    v.(sel := v.sel[code := value], page := 1)
  }

  /** The ledger's low-stock switch only sets the flag; the current page is kept. */
  function ToggleLowStock(v: LedgerView, on: bool): (w: LedgerView)
    ensures w.lowOnly == on && w.sel == v.sel && w.page == v.page
  {
    v.(lowOnly := on)
  }

  datatype TagColor = Red | Green

  /** The quantity column: red below the warning minimum, green otherwise. */
  function QuantityTag(inv: Inventory): (c: TagColor)
    ensures c == Red <==> IsLowStock(inv)
  {
    if inv.quantity < inv.warningMin then Red else Green
  }

  /** With the switch on, the list shows exactly the records whose quantity is tagged red. */
  lemma LowStockListIsRedTagged(inventories: seq<Inventory>, specs: seq<SpecCategory>, sel: Selection)
    ensures forall inv :: inv in FilteredList(inventories, specs, sel, true)
                          <==> inv in FilteredList(inventories, specs, sel, false) && QuantityTag(inv) == Red
  {
  }

  /**
   The product choices of the initialisation dialog: records of the list
   that do not occur in the same list by id.
   */
  function ProductOptions(inventories: seq<Inventory>): seq<Inventory>
  {
    Filter(inventories, NotListed(inventories))
  }

  function NotListed(inventories: seq<Inventory>): Inventory -> bool
  {
    (p: Inventory) => !Exists(inventories, (inv: Inventory) => inv.id == p.id)
  }

  /** Every candidate is checked against the list it comes from, so the dialog never offers a product. */
  lemma ProductOptionsAlwaysEmpty(inventories: seq<Inventory>)
    ensures ProductOptions(inventories) == []
  {
    forall p | p in inventories ensures !NotListed(inventories)(p) {
      var k :| 0 <= k < |inventories| && inventories[k] == p;
      var f := FindFirst(inventories, (inv: Inventory) => inv.id == p.id);
      assert f.Some?;
    }
    FilterNone(inventories, NotListed(inventories));
  }

  /** The dialog's form fields; a field left empty is `None`. */
  datatype LedgerForm = LedgerForm(
    productId: Option<int>,
    displayName: string,
    warningMin: Option<int>,
    warningMax: Option<int>,
    isFrozen: Option<bool>)

  datatype LedgerRequest =
    | Update(id: int, displayName: string, warningMin: Option<int>, warningMax: Option<int>, isFrozen: Option<bool>)
    | Add(productId: Option<int>, displayName: string, initMin: int, warningMax: Option<int>, initFrozen: bool)

  /** `values.warning_min_quantity || 0`. */
  function MinOrZero(v: Option<int>): int
  {
    if v.Some? then v.value else 0
  }

  /**
   The required rules: the display name always, and the product while
   initialising (the product select is shown only then).
   */
  predicate LedgerRequiredFilled(current: Option<Inventory>, values: LedgerForm)
  {
    values.displayName != "" && (current.Some? || values.productId.Some?)
  }

  /**
   `handleSubmit`: `validateFields` stops it while a required field is empty.
   Otherwise editing a record posts its fields as entered, and initialising
   posts them with an empty minimum read as 0 and an empty frozen flag read
   as false.
   */
  function LedgerSubmit(current: Option<Inventory>, values: LedgerForm): (req: Option<LedgerRequest>)
    ensures req.None? <==> !LedgerRequiredFilled(current, values)
    ensures req.Some? ==> (current.Some? <==> req.value.Update?)
    ensures req.Some? && current.Some? ==> req.value.id == current.value.id && req.value.warningMin == values.warningMin
                                           && req.value.isFrozen == values.isFrozen
    ensures req.Some? && current.None? ==> req.value.productId == values.productId
                                           && req.value.initMin == MinOrZero(values.warningMin)
                                           && (req.value.initFrozen <==> values.isFrozen == Some(true))
    ensures req.Some? ==> req.value.displayName == values.displayName && req.value.displayName != ""
                          && req.value.warningMax == values.warningMax
  {
    if !LedgerRequiredFilled(current, values) then None
    else if current.Some? then
      Some(Update(current.value.id, values.displayName, values.warningMin, values.warningMax, values.isFrozen))
    else
      Some(Add(values.productId, values.displayName, MinOrZero(values.warningMin), values.warningMax,
               values.isFrozen.Some? && values.isFrozen.value))
  }

  /** The dialog state: the record being edited (none when initialising) and whether it is open. */
  datatype LedgerDialog = LedgerDialog(current: Option<Inventory>, open: bool)

  function OpenEdit(record: Inventory): LedgerDialog { LedgerDialog(Some(record), true) }
  function OpenInit(): LedgerDialog { LedgerDialog(None, true) }

  /** The dialog title: editing or initialising. */
  function LedgerTitle(d: LedgerDialog): (t: string)
    ensures d.current.Some? ==> t == "编辑库存信息"
    ensures d.current.None? ==> t == "初始化库存"
  {
    if d.current.Some? then "编辑库存信息" else "初始化库存"
  }

  /**
   Submitting a dialog: nothing is sent and the dialog stays while a
   required field is empty; a refused request (`ok` false) throws before the
   dialog is touched; a successful one closes the dialog and clears the
   record.
   */
  function LedgerDialogSubmit(d: LedgerDialog, values: LedgerForm, ok: bool): (r: (LedgerDialog, Option<LedgerRequest>))
    ensures r.1 == LedgerSubmit(d.current, values)
    ensures r.1.None? || !ok ==> r.0 == d
    ensures r.1.Some? && ok ==> r.0 == LedgerDialog(None, false)
  {
    var req := LedgerSubmit(d.current, values);
    (if req.Some? && ok then LedgerDialog(None, false) else d, req)
  }

  /** The title announces the request: the edit title exactly when an update is sent. */
  lemma LedgerTitleMatchesRequest(d: LedgerDialog, values: LedgerForm, ok: bool)
    ensures var req := LedgerDialogSubmit(d, values, ok).1;
            req.Some? ==> (LedgerTitle(d) == "编辑库存信息" <==> req.value.Update?)
  {
  }

  /**
   The initialisation request's defaults: a new inventory is frozen only when
   the switch was turned on, and starts with a 0 minimum unless one was
   entered.
   */
  lemma InitDefaults(productId: int, displayName: string, values: LedgerForm, ok: bool)
    requires displayName != ""
    ensures var req := LedgerDialogSubmit(OpenInit(), values.(productId := Some(productId), displayName := displayName), ok).1;
            req.Some? && req.value.Add? && req.value.productId == Some(productId)
            && (req.value.initFrozen <==> values.isFrozen == Some(true))
            && req.value.initMin == (if values.warningMin.Some? then values.warningMin.value else 0)
  {
  }

  /** A product id the initialisation select can hold: none, or the id of one of its options. */
  predicate Selectable(inventories: seq<Inventory>, productId: Option<int>)
  {
    productId.None? || exists p :: p in ProductOptions(inventories) && p.id == productId.value
  }

  /**
   The initialisation dialog never sends anything: its required product can
   only be chosen among options, and there are none.
   */
  lemma InitNeverSends(inventories: seq<Inventory>, values: LedgerForm, ok: bool)
    requires Selectable(inventories, values.productId)
    ensures LedgerDialogSubmit(OpenInit(), values, ok) == (OpenInit(), None)
  {
    ProductOptionsAlwaysEmpty(inventories);
  }
}
