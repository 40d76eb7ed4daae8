/**
 The inventory list shared by the ledger, stocktake and stock-operation
 pages: filtering by the selected spec values, the low-stock filter, and
 client-side paging of ten records per page.
 */
module InventoryList {
  import opened Common

  /** A spec category (for example "thickness") with the option values offered for it. */
  datatype SpecCategory = SpecCategory(id: int, code: string, name: string, options: seq<string>)

  /**
   An inventory record. `specJson` maps category codes to values; a record
   without `spec_json` reads like an empty map (`spec_json?.[code]` is
   `undefined` either way).
   */
  datatype Inventory = Inventory(
    id: int,
    productName: string,
    displayName: string,
    specJson: map<string, string>,
    quantity: int,
    warningMin: int,
    isFrozen: bool)

  /**
   `selectedSpecs`: category code to the chosen value; choosing "全部" stores
   `undefined`, and a code never chosen is absent.
   */
  type Selection = map<string, Option<string>>

  const PageSize: nat := 10

  /** `if (!selected) continue;`: a category constrains only when its selection is a non-empty string. */
  predicate Selected(sel: Selection, code: string)
  {
    code in sel && sel[code].Some? && sel[code].value != ""
  }

  function SpecValue(inv: Inventory, code: string): Option<string>
  {
    if code in inv.specJson then Some(inv.specJson[code]) else None
  }

  /** The category `spec` accepts `inv`: unselected, or selected with exactly this value. */
  predicate CategoryAccepts(inv: Inventory, spec: SpecCategory, sel: Selection)
  {
    Selected(sel, spec.code) ==> SpecValue(inv, spec.code) == Some(sel[spec.code].value)
  }

  /**
   The spec filter stated once for all pages: every loaded category with a
   selection is matched exactly. Selections whose code is not among the
   loaded categories are ignored.
   */
  predicate MatchesSpecs(inv: Inventory, specs: seq<SpecCategory>, sel: Selection)
  {
    forall i :: 0 <= i < |specs| ==> CategoryAccepts(inv, specs[i], sel)
  }

  /** `specs.every(spec => …)`, as the stocktake and operation pages write it. */
  function Every(inv: Inventory, specs: seq<SpecCategory>, sel: Selection): bool
  {
    |specs| == 0 || (CategoryAccepts(inv, specs[0], sel) && Every(inv, specs[1..], sel))
  }

  lemma {:induction false} EveryIsMatchesSpecs(inv: Inventory, specs: seq<SpecCategory>, sel: Selection)
    ensures Every(inv, specs, sel) <==> MatchesSpecs(inv, specs, sel)
  {
    if |specs| > 0 {
      EveryIsMatchesSpecs(inv, specs[1..], sel);
      assert forall i :: 1 <= i < |specs| ==> specs[i] == specs[1..][i - 1];
    }
  }

  /** With nothing selected, every record passes the spec filter. */
  lemma NoSelectionMatchesAll(inv: Inventory, specs: seq<SpecCategory>)
    ensures MatchesSpecs(inv, specs, map[])
  {
  }

  /** The low-stock predicate, used both by the filter and by the red quantity tag. */
  predicate IsLowStock(inv: Inventory)
  {
    inv.quantity < inv.warningMin
  }

  /** With the switch on only low-stock records remain; with it off the condition is void. */
  predicate LowStockAccepts(inv: Inventory, lowOnly: bool)
  {
    !lowOnly || IsLowStock(inv)
  }

  function SpecFilter(specs: seq<SpecCategory>, sel: Selection): Inventory -> bool
  {
    inv => MatchesSpecs(inv, specs, sel)
  }

  function SpecAndStockFilter(specs: seq<SpecCategory>, sel: Selection, lowOnly: bool): Inventory -> bool
  {
    inv => MatchesSpecs(inv, specs, sel) && LowStockAccepts(inv, lowOnly)
  }

  /**
   `filteredList`: the order-preserving subsequence of the records passing
   the spec filter and, on the pages that have it, the low-stock filter.
   */
  function FilteredList(inventories: seq<Inventory>, specs: seq<SpecCategory>, sel: Selection, lowOnly: bool)
    : (r: seq<Inventory>)
    ensures IsSubsequence(r, inventories)
    ensures forall inv :: inv in r <==> inv in inventories && MatchesSpecs(inv, specs, sel) && LowStockAccepts(inv, lowOnly)
  {
    Filter(inventories, SpecAndStockFilter(specs, sel, lowOnly))
  }

  /** With the switch off and nothing selected, the whole list is shown in order. */
  lemma UnfilteredListIsEverything(inventories: seq<Inventory>, specs: seq<SpecCategory>)
    ensures FilteredList(inventories, specs, map[], false) == inventories
  {
    FilterAll(inventories, SpecAndStockFilter(specs, map[], false));
  }

  /* ---------------------------------------------------------------
   * Paging
   * --------------------------------------------------------------- */

  /** `filteredList.slice((page - 1) * pageSize, page * pageSize)`. */
  function PageOf<T>(items: seq<T>, page: int): seq<T>
  {
    JsSlice(items, (page - 1) * PageSize, page * PageSize)
  }

  /** A page holds at most ten records, and page `p` starts at record `10(p-1)`. */
  lemma PageContents<T>(items: seq<T>, page: int)
    requires page >= 1
    ensures |PageOf(items, page)| <= PageSize
    ensures var from := Min((page - 1) * PageSize, |items|);
            var to := Min(page * PageSize, |items|);
            PageOf(items, page) == items[from..to]
  {
  }

  /** The first `k` pages, one after the other. */
  function FirstPages<T>(items: seq<T>, k: nat): seq<T>
  {
    if k == 0 then [] else FirstPages(items, k - 1) + PageOf(items, k)
  }

  /** Consecutive pages concatenate to a prefix of the list: nothing is skipped or shown twice. */
  lemma {:induction false} PagesConcatenate<T>(items: seq<T>, k: nat)
    ensures FirstPages(items, k) == items[..Min(k * PageSize, |items|)]
  {
    if k > 0 {
      PagesConcatenate(items, k - 1);
      PageContents(items, k);
      var a := Min((k - 1) * PageSize, |items|);
      var b := Min(k * PageSize, |items|);
      assert items[..a] + items[a..b] == items[..b];
    }
  }

  /** Enough pages show the whole list. */
  lemma AllPagesShowEverything<T>(items: seq<T>)
    ensures FirstPages(items, (|items| + PageSize - 1) / PageSize) == items
  {
    var k := (|items| + PageSize - 1) / PageSize;
    PagesConcatenate(items, k);
    assert k * PageSize >= |items|;
  }

  /* ---------------------------------------------------------------
   * Stock change requests
   * --------------------------------------------------------------- */

  /** The `action` of a stock change: `'in'`, `'out'` or `'adjust'`. */
  datatype Action = In | Out | Adjust

  /** The body posted to the stock-change endpoint. */
  datatype ChangeRequest = ChangeRequest(inventoryId: int, action: Action, quantity: int, remark: string)

  /** `value || fallback` on an optional text field: absent or empty gives the fallback. */
  function TextOr(v: Option<string>, fallback: string): (r: string)
    ensures v.Some? && v.value != "" ==> r == v.value
    ensures v.None? || v.value == "" ==> r == fallback
  {
    if v.Some? && v.value != "" then v.value else fallback
  }
}
