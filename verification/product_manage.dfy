/**
 The product page: the product name generated from the chosen spec values
 until the user edits it, the cleaning of the chosen specs into
 `spec_json` before a product is added, and the spec filter of the list.
 */
module ProductManage {
  import opened Common
  import InventoryList

  datatype Product = Product(id: int, name: string, code: Option<string>, remark: Option<string>,
                             specJson: map<string, string>)

  /**
   The `specs` object of the add form's store: category code and chosen
   value, where a cleared select holds `None`. The keys are in the order each
   code was first set, since the object is copied with its keys in place on
   every change; the outer `specs` field hands this object on to
   `onValuesChange` and `validateFields` as it is.
   */
  type SpecEntries = seq<(string, Option<string>)>

  /** Each code is a key at most once. */
  predicate DistinctCodes(entries: SpecEntries)
  {
    forall j, k :: 0 <= j < k < |entries| ==> entries[j].0 != entries[k].0
  }

  predicate HasCode(entries: SpecEntries, code: string)
  {
    exists k :: 0 <= k < |entries| && entries[k].0 == code
  }

  /**
   Setting `specs.<code>` in the store: an existing key takes the value in its
   place, a new key is appended.
   */
  function SetSpec(entries: SpecEntries, code: string, value: Option<string>): (r: SpecEntries)
    ensures HasCode(entries, code) ==> |r| == |entries|
    ensures !HasCode(entries, code) ==> r == entries + [(code, value)]
    ensures forall k :: 0 <= k < |entries| ==> r[k] == (if entries[k].0 == code then (code, value) else entries[k])
  {
    if HasCode(entries, code) then
      seq(|entries|, k requires 0 <= k < |entries| => if entries[k].0 == code then (code, value) else entries[k])
    else entries + [(code, value)]
  }

  /** Setting a key keeps the keys distinct and adds `code` as a key. */
  lemma SetSpecKeepsDistinct(entries: SpecEntries, code: string, value: Option<string>)
    requires DistinctCodes(entries)
    ensures DistinctCodes(SetSpec(entries, code, value))
    ensures HasCode(SetSpec(entries, code, value), code)
    ensures forall c :: HasCode(SetSpec(entries, code, value), c) <==> HasCode(entries, c) || c == code
  {
    var r := SetSpec(entries, code, value);
    if !HasCode(entries, code) {
      assert r[|entries|].0 == code;
    } else {
      var k :| 0 <= k < |entries| && entries[k].0 == code;
      assert r[k].0 == code;
    }
  }

  /** The last value set for a code wins, in the place the code first took. */
  lemma SetSpecLastWins(entries: SpecEntries, code: string, first: Option<string>, second: Option<string>)
    ensures SetSpec(SetSpec(entries, code, first), code, second) == SetSpec(entries, code, second)
  {
    var once := SetSpec(entries, code, first);
    if !HasCode(entries, code) {
      assert once[|entries|].0 == code;
    }
  }

  /** `Boolean(v)` for a select value: present and not the empty string. */
  predicate Truthy(v: Option<string>)
  {
    v.Some? && v.value != ""
  }

  /* ---------------------------------------------------------------
   * Generated name (handleValuesChange)
   * --------------------------------------------------------------- */

  /** `Object.values(specs).filter(Boolean).join('')`. */
  function AutoName(entries: SpecEntries): string
  {
    if |entries| == 0 then ""
    else (if Truthy(entries[0].1) then entries[0].1.value else "") + AutoName(entries[1..])
  }

  lemma {:induction false} AutoNameAppend(a: SpecEntries, b: SpecEntries)
    ensures AutoName(a + b) == AutoName(a) + AutoName(b)
  {
    if |a| == 0 {
      assert a + b == b;
    } else {
      assert (a + b)[0] == a[0] && (a + b)[1..] == a[1..] + b;
      AutoNameAppend(a[1..], b);
    }
  }

  /**
   Choosing a value for a category not chosen before appends it to the
   generated name: the name follows the order in which categories were first
   chosen, not the order of the selects.
   */
  lemma NewChoiceAppendsToName(entries: SpecEntries, code: string, value: string)
    requires !HasCode(entries, code) && value != ""
    ensures AutoName(SetSpec(entries, code, Some(value))) == AutoName(entries) + value
  {
    AutoNameAppend(entries, [(code, Some(value))]);
  }

  /* ---------------------------------------------------------------
   * spec_json (handleAdd)
   * --------------------------------------------------------------- */

  /** `Object.entries(specs).filter(([, v]) => v !== undefined && v !== null && v !== '')`. */
  function CleanSpecs(entries: SpecEntries): (r: seq<(string, string)>)
    ensures |r| <= |entries|
  {
    if |entries| == 0 then []
    else if Truthy(entries[0].1) then [(entries[0].0, entries[0].1.value)] + CleanSpecs(entries[1..])
    else CleanSpecs(entries[1..])
  }

  /** `spec_json` keeps exactly the chosen entries, values unchanged, in the store's key order. */
  lemma {:induction false} CleanSpecsKeepsChosen(entries: SpecEntries)
    ensures forall p :: p in CleanSpecs(entries) <==> (p.0, Some(p.1)) in entries && p.1 != ""
  {
    if |entries| > 0 {
      CleanSpecsKeepsChosen(entries[1..]);
      assert forall e :: e in entries <==> e == entries[0] || e in entries[1..];
    }
  }

  /** The generated name is empty exactly when no spec is chosen, which is when adding is refused. */
  lemma {:induction false} AutoNameEmptyIffNoSpecs(entries: SpecEntries)
    ensures AutoName(entries) == "" <==> CleanSpecs(entries) == []
  {
    if |entries| > 0 {
      AutoNameEmptyIffNoSpecs(entries[1..]);
    }
  }

  /** The generated name is the chosen values of `spec_json` joined in order. */
  lemma {:induction false} AutoNameJoinsCleanSpecs(entries: SpecEntries)
    ensures AutoName(entries) == JoinValues(CleanSpecs(entries))
  {
    if |entries| > 0 {
      AutoNameJoinsCleanSpecs(entries[1..]);
      if Truthy(entries[0].1) {
        var rest := CleanSpecs(entries[1..]);
        assert ([(entries[0].0, entries[0].1.value)] + rest)[1..] == rest;
      }
    }
  }

  function JoinValues(pairs: seq<(string, string)>): string
  {
    if |pairs| == 0 then "" else pairs[0].1 + JoinValues(pairs[1..])
  }

  /* ---------------------------------------------------------------
   * Add dialog
   * --------------------------------------------------------------- */

  /** The add form: name, code, remark and the spec selects. */
  datatype ProductForm = ProductForm(name: string, code: Option<string>, remark: Option<string>, specs: SpecEntries)

  /** The dialog: open or not, whether the name was edited by hand, and the form. */
  datatype AddDialog = AddDialog(open: bool, nameTouched: bool, form: ProductForm)

  /** The form after `resetFields`: nothing entered, and no spec key in the store. */
  function EmptyForm(): (f: ProductForm)
    ensures f.name == "" && f.specs == [] && AutoName(f.specs) == ""
  {
    ProductForm("", None, None, [])
  }

  /** Any change of the form's values: while the name is untouched it becomes the generated name. */
  function ValuesChanged(d: AddDialog): (e: AddDialog)
    ensures !d.nameTouched ==> e.form.name == AutoName(d.form.specs)
    ensures d.nameTouched ==> e == d
    ensures e.form.specs == d.form.specs && e.nameTouched == d.nameTouched && e.open == d.open
  {
    if d.nameTouched then d else d.(form := d.form.(name := AutoName(d.form.specs)))
  }

  /** Choosing (or clearing, `None`) the value of the spec select for `code`. */
  function ChooseSpec(d: AddDialog, code: string, value: Option<string>): (e: AddDialog)
    ensures e.form.specs == SetSpec(d.form.specs, code, value)
    ensures !d.nameTouched ==> e.form.name == AutoName(e.form.specs)
    ensures d.nameTouched ==> e.form.name == d.form.name
  {
    ValuesChanged(d.(form := d.form.(specs := SetSpec(d.form.specs, code, value))))
  }

  /**
   With an untouched name and no spec chosen yet, choosing two categories
   names the product by their values in the order they were chosen.
   */
  lemma NameFollowsChoiceOrder(d: AddDialog, c1: string, v1: string, c2: string, v2: string)
    requires !d.nameTouched && d.form.specs == [] && c1 != c2 && v1 != "" && v2 != ""
    ensures ChooseSpec(ChooseSpec(d, c1, Some(v1)), c2, Some(v2)).form.name == v1 + v2
  {
    var e := ChooseSpec(d, c1, Some(v1));
    assert e.form.specs == [(c1, Some(v1))];
    NewChoiceAppendsToName([], c1, v1);
    NewChoiceAppendsToName(e.form.specs, c2, v2);
  }

  /** Choosing 工艺 before 长度 gives another name than the reverse, whatever the selects' order. */
  lemma ChoiceOrderDecidesName(d: AddDialog)
    requires !d.nameTouched && d.form.specs == []
    ensures ChooseSpec(ChooseSpec(d, "gongyi", Some("镀锌")), "changdu", Some("6m")).form.name == "镀锌6m"
    ensures ChooseSpec(ChooseSpec(d, "changdu", Some("6m")), "gongyi", Some("镀锌")).form.name == "6m镀锌"
  {
    NameFollowsChoiceOrder(d, "gongyi", "镀锌", "changdu", "6m");
    NameFollowsChoiceOrder(d, "changdu", "6m", "gongyi", "镀锌");
  }

  /**
   A keystroke in the name field. The form stores the text and calls
   `handleValuesChange` with the `nameTouched` of the last render, so while
   the name was untouched the generated name overwrites the text; only then
   does the field's own `onChange` mark the name as touched.
   */
  function TypeName(d: AddDialog, text: string): (e: AddDialog)
    ensures e.nameTouched
    ensures d.nameTouched ==> e.form.name == text
    ensures !d.nameTouched ==> e.form.name == AutoName(d.form.specs)
    ensures e.form.specs == d.form.specs && e.form.code == d.form.code && e.open == d.open
  {
    ValuesChanged(d.(form := d.form.(name := text))).(nameTouched := true)
  }

  /**
   The clear button of the name field: the form stores `''` and calls
   `handleValuesChange` with the last render's `nameTouched`; then
   `onChange` marks the name touched and `onClear` untouched again, the
   latter winning.
   */
  function ClearName(d: AddDialog): (e: AddDialog)
    ensures !e.nameTouched
    ensures d.nameTouched ==> e.form.name == ""
    ensures !d.nameTouched ==> e.form.name == AutoName(d.form.specs)
    ensures e.form.specs == d.form.specs && e.form.code == d.form.code && e.open == d.open
  {
    ValuesChanged(d.(form := d.form.(name := ""))).(nameTouched := false)
  }

  /**
   The first keystroke into a generated name is lost to the generated name;
   from the second keystroke on, the name is what was typed.
   */
  lemma SecondKeystrokeSticks(d: AddDialog, first: string, second: string)
    requires !d.nameTouched
    ensures TypeName(d, first).form.name == AutoName(d.form.specs)
    ensures TypeName(TypeName(d, first), second).form.name == second
    ensures TypeName(TypeName(d, first), second).nameTouched
  {
  }

  /** Once edited by hand, the name survives any spec choice. */
  lemma TouchedNameKept(d: AddDialog, code: string, value: Option<string>)
    requires d.nameTouched
    ensures ChooseSpec(d, code, value).form.name == d.form.name
  {
  }

  /** After clearing the name, the next spec choice generates it again. */
  lemma ClearedNameFollowsSpecs(d: AddDialog, code: string, value: Option<string>)
    ensures var e := ChooseSpec(ClearName(d), code, value);
            e.form.name == AutoName(e.form.specs) && e.form.specs == SetSpec(d.form.specs, code, value)
  {
  }

  /** Cancelling closes the dialog and forgets the hand edit. */
  function Cancel(d: AddDialog): (e: AddDialog)
    ensures !e.open && !e.nameTouched && e.form == d.form
  {
    d.(open := false, nameTouched := false)
  }

  datatype AddRequest = AddRequest(name: string, code: Option<string>, remark: Option<string>,
                                   specJson: seq<(string, string)>)

  /**
   The request `handleAdd` would post: none, after a warning, when no spec is
   chosen; otherwise the form's name, code and remark with the cleaned specs.
   */
  function AddProduct(form: ProductForm): (r: Option<AddRequest>)
    ensures r.None? <==> forall k :: 0 <= k < |form.specs| ==> !Truthy(form.specs[k].1)
    ensures r.Some? ==> r.value.specJson == CleanSpecs(form.specs) && r.value.specJson != []
                        && r.value.name == form.name && r.value.code == form.code && r.value.remark == form.remark
  {
    NoneChosenIffClean(form.specs);
    var specJson := CleanSpecs(form.specs);
    if |specJson| == 0 then None else Some(AddRequest(form.name, form.code, form.remark, specJson))
  }

  lemma {:induction false} NoneChosenIffClean(entries: SpecEntries)
    ensures CleanSpecs(entries) == [] <==> forall k :: 0 <= k < |entries| ==> !Truthy(entries[k].1)
  {
    if |entries| > 0 {
      NoneChosenIffClean(entries[1..]);
      assert forall k :: 1 <= k < |entries| ==> entries[k] == entries[1..][k - 1];
    }
  }

  /** The server's reply to the add request: its `success` flag, if any. */
  datatype AddReply = AddReply(success: Option<bool>)

  /**
   The dialog after the reply: an explicit `success: false` keeps it open with
   the form as entered; anything else closes it, resets the form and forgets
   the hand edit.
   */
  function AfterReply(d: AddDialog, reply: AddReply): (e: AddDialog)
    ensures reply.success == Some(false) ==> e == d
    ensures reply.success != Some(false) ==> !e.open && !e.nameTouched && e.form == EmptyForm()
  {
    if reply.success == Some(false) then d
    else AddDialog(false, false, EmptyForm())
  }

  /**
   After a product is added, the reset store forgets the earlier choice
   order: the next two choices name the next product in their own order.
   */
  lemma ResetRestartsChoiceOrder(d: AddDialog, reply: AddReply, c1: string, v1: string, c2: string, v2: string)
    requires reply.success != Some(false) && c1 != c2 && v1 != "" && v2 != ""
    ensures var e := AfterReply(d, reply);
            ChooseSpec(ChooseSpec(e, c1, Some(v1)), c2, Some(v2)).form.name == v1 + v2
  {
    NameFollowsChoiceOrder(AfterReply(d, reply), c1, v1, c2, v2);
  }

  /** Submitting a dialog with no chosen spec changes nothing and sends nothing. */
  lemma NoSpecsNoRequest(d: AddDialog)
    requires AutoName(d.form.specs) == "" && !d.nameTouched
    ensures AddProduct(ValuesChanged(d).form).None?
  {
    AutoNameEmptyIffNoSpecs(d.form.specs);
  }

  /* ---------------------------------------------------------------
   * List filter (filteredProducts)
   * --------------------------------------------------------------- */

  /** `filterSpecs`: code to chosen value, `None` once cleared. */
  type ProductFilter = map<string, Option<string>>

  /** Every filter entry with a truthy value equals the product's value for that code. */
  predicate Listed(p: Product, f: ProductFilter)
  {
    forall code :: code in f && Truthy(f[code]) ==> code in p.specJson && p.specJson[code] == f[code].value
  }

  function ListedBy(f: ProductFilter): Product -> bool
  {
    p => Listed(p, f)
  }

  function FilteredProducts(products: seq<Product>, f: ProductFilter): (r: seq<Product>)
    ensures IsSubsequence(r, products)
    ensures forall p :: p in r <==> p in products && Listed(p, f)
  {
    Filter(products, ListedBy(f))
  }

  /** The reset button empties the filter, which lists every product in order. */
  lemma ResetListsAll(products: seq<Product>)
    ensures FilteredProducts(products, map[]) == products
  {
    FilterAll(products, ListedBy(map[]));
  }

  /**
   When every filtered code is a loaded category, the product filter is the
   inventory pages' spec filter applied to the same `spec_json`.
   */
  lemma AgreesWithInventoryFilter(p: Product, f: ProductFilter, specs: seq<InventoryList.SpecCategory>,
                                  inv: InventoryList.Inventory)
    requires inv.specJson == p.specJson
    requires forall code :: code in f ==> exists i :: 0 <= i < |specs| && specs[i].code == code
    ensures Listed(p, f) <==> InventoryList.MatchesSpecs(inv, specs, f)
  {
    if InventoryList.MatchesSpecs(inv, specs, f) {
      forall code | code in f && Truthy(f[code])
        ensures code in p.specJson && p.specJson[code] == f[code].value
      {
        var i :| 0 <= i < |specs| && specs[i].code == code;
        assert InventoryList.CategoryAccepts(inv, specs[i], f);
      }
    }
  }
}
