/**
 The wage price page: naming each price by its spec, the spec list limited
 to the chosen process, the submit guard and payload, the dialog reset, and
 the search by process name.
 */
module WagePrice {
  import opened Common

  datatype Process = Process(id: int, name: string)
  datatype SpecModel = SpecModel(id: int, name: string, processId: int)
  datatype Price = Price(id: int, price: real, isSpecial: bool, processId: int, specModelId: int)

  /** A price as listed, with the name of its spec. */
  datatype ListedPrice = ListedPrice(price: Price, specModelName: string)

  const Unset: string := "未设置"

  function SpecWithId(id: int): SpecModel -> bool
  {
    (s: SpecModel) => s.id == id
  }

  /** The name shown for a price's spec: the first spec with that id, else 未设置. */
  function SpecName(specs: seq<SpecModel>, id: int): string
  {
    match FindFirst(specs, SpecWithId(id))
    case Some(i) => specs[i].name
    case None => Unset
  }

  /** A listed spec id shows the name of its first spec; an unlisted one shows 未设置. */
  lemma SpecNameMeaning(specs: seq<SpecModel>, id: int)
    ensures (forall k :: 0 <= k < |specs| ==> specs[k].id != id) ==> SpecName(specs, id) == Unset
    ensures forall i :: 0 <= i < |specs| && specs[i].id == id && (forall k :: 0 <= k < i ==> specs[k].id != id)
                        ==> SpecName(specs, id) == specs[i].name
  {
    forall i | 0 <= i < |specs| && specs[i].id == id && (forall k :: 0 <= k < i ==> specs[k].id != id)
      ensures SpecName(specs, id) == specs[i].name
    {
      FindFirstAt(specs, SpecWithId(id), i);
    }
  }

  /** `loadWagePrices`: every price in order, each with its spec name. */
  function NamePrices(prices: seq<Price>, specs: seq<SpecModel>): (r: seq<ListedPrice>)
    ensures |r| == |prices|
    ensures forall k :: 0 <= k < |prices| ==> r[k].price == prices[k]
    ensures forall k :: 0 <= k < |prices| ==> r[k].specModelName == SpecName(specs, prices[k].specModelId)
  {
    if |prices| == 0 then []
    else [ListedPrice(prices[0], SpecName(specs, prices[0].specModelId))] + NamePrices(prices[1..], specs)
  }

  /** The dialog's state. */
  datatype PriceDialog = PriceDialog(
    open: bool,
    editing: Option<Price>,
    processId: Option<int>,
    specModelId: Option<int>,
    specModels: seq<SpecModel>,
    priceText: string,
    isSpecial: bool)

  function OfProcess(processId: int): SpecModel -> bool
  {
    (s: SpecModel) => s.processId == processId
  }

  /** Choosing a process clears the spec and offers only that process's specs. */
  function ProcessChanged(d: PriceDialog, all: seq<SpecModel>, processId: int): (e: PriceDialog)
    ensures e.processId == Some(processId) && e.specModelId.None?
    ensures forall s :: s in e.specModels <==> s in all && s.processId == processId
    ensures IsSubsequence(e.specModels, all)
    ensures e.open == d.open && e.editing == d.editing && e.priceText == d.priceText && e.isSpecial == d.isSpecial
  {
    d.(processId := Some(processId), specModelId := None, specModels := Filter(all, OfProcess(processId)))
  }

  /** `resetForm`: closed, nothing edited, nothing chosen, no spec list, empty price, not special. */
  function Reset(): (d: PriceDialog)
    ensures !d.open && d.editing.None? && d.processId.None? && d.specModelId.None?
    ensures d.specModels == [] && d.priceText == "" && !d.isSpecial
  {
    PriceDialog(false, None, None, None, [], "", false)
  }

  /** The edit button: the record's process, spec, price text and flag, with its process's specs. */
  function OpenEdit(all: seq<SpecModel>, record: Price, priceText: string): (d: PriceDialog)
    ensures d.open && d.editing == Some(record)
    ensures d.processId == Some(record.processId) && d.specModelId == Some(record.specModelId)
    ensures d.priceText == priceText && d.isSpecial == record.isSpecial
    ensures forall s :: s in d.specModels <==> s in all && s.processId == record.processId
  {
    PriceDialog(true, Some(record), Some(record.processId), Some(record.specModelId),
                Filter(all, OfProcess(record.processId)), priceText, record.isSpecial)
  }

  /** The body of the request; `price` is `parseFloat` of the text, `None` for NaN. */
  datatype PriceData = PriceData(price: Option<real>, isSpecial: bool, processId: int, specModelId: int)

  datatype PriceRequest = Update(id: int, data: PriceData) | Create(data: PriceData)

  /** `!x` on a chosen id: missing or 0. */
  predicate Missing(id: Option<int>)
  {
    id.None? || id.value == 0
  }

  /**
   `handleSubmit`: a missing process, spec or price text gives an error and
   no request; otherwise an update of the edited price or a new one.
   */
  function Submit(d: PriceDialog, parse: string -> Option<real>): (r: Option<PriceRequest>)
    ensures r.None? <==> Missing(d.processId) || Missing(d.specModelId) || d.priceText == ""
    ensures r.Some? ==> r.value.data == PriceData(parse(d.priceText), d.isSpecial, d.processId.value, d.specModelId.value)
    ensures r.Some? ==> (r.value.Update? <==> d.editing.Some?)
    ensures r.Some? && d.editing.Some? ==> r.value.id == d.editing.value.id
  {
    if Missing(d.processId) || Missing(d.specModelId) || d.priceText == "" then None
    else
      var data := PriceData(parse(d.priceText), d.isSpecial, d.processId.value, d.specModelId.value);
      if d.editing.Some? then Some(Update(d.editing.value.id, data)) else Some(Create(data))
  }

  /** The dialog after the save request: reset on success, unchanged on failure. */
  function AfterSave(d: PriceDialog, ok: bool): (e: PriceDialog)
    ensures ok ==> e == Reset()
    ensures !ok ==> e == d
  {
    if ok then Reset() else d
  }

  /** Re-submitting an opened price sends an update of that price with its own process, spec and flag. */
  lemma EditThenSubmit(all: seq<SpecModel>, record: Price, priceText: string, parse: string -> Option<real>)
    requires record.processId != 0 && record.specModelId != 0 && priceText != ""
    ensures var r := Submit(OpenEdit(all, record, priceText), parse);
            r == Some(Update(record.id, PriceData(parse(priceText), record.isSpecial, record.processId, record.specModelId)))
  {
  }

  /**
   The save's outcome decides whether the same request can go out again: a
   successful save leaves a dialog that refuses to submit, a failed one
   leaves a dialog that sends the very same request.
   */
  lemma SaveOutcomeDecidesResend(d: PriceDialog, parse: string -> Option<real>)
    ensures Submit(AfterSave(d, true), parse).None?
    ensures Submit(AfterSave(d, false), parse) == Submit(d, parse)
  {
    ResetRefusesSubmit(parse);
  }

  /** A reset dialog refuses to submit. */
  lemma ResetRefusesSubmit(parse: string -> Option<real>)
    ensures Submit(Reset(), parse).None?
  {
  }

  /** Changing the process makes the dialog refuse to submit until a spec is chosen again. */
  lemma ProcessChangeNeedsSpec(d: PriceDialog, all: seq<SpecModel>, processId: int, parse: string -> Option<real>)
    ensures Submit(ProcessChanged(d, all, processId), parse).None?
  {
  }

  /* ---------------------------------------------------------------
   * Search
   * --------------------------------------------------------------- */

  function ProcessWithId(id: int): Process -> bool
  {
    (p: Process) => p.id == id
  }

  /** `getProcessName`: the first process with the id, or `''`. */
  function ProcessName(processes: seq<Process>, id: int): string
  {
    match FindFirst(processes, ProcessWithId(id))
    case Some(i) => processes[i].name
    case None => ""
  }

  predicate Matches(processes: seq<Process>, search: string, p: ListedPrice)
  {
    ContainsIgnoreCase(ProcessName(processes, p.price.processId), search)
  }

  function MatchesBy(processes: seq<Process>, search: string): ListedPrice -> bool
  {
    p => Matches(processes, search, p)
  }

  /** `filteredWagePrices`: the prices whose process name contains the search, ignoring case. */
  function FilteredPrices(prices: seq<ListedPrice>, processes: seq<Process>, search: string): (r: seq<ListedPrice>)
    ensures IsSubsequence(r, prices)
    ensures forall p :: p in r <==> p in prices && ContainsIgnoreCase(ProcessName(processes, p.price.processId), search)
  {
    Filter(prices, MatchesBy(processes, search))
  }

  /** An empty search lists every price. */
  lemma EmptySearchListsAll(prices: seq<ListedPrice>, processes: seq<Process>)
    ensures FilteredPrices(prices, processes, "") == prices
  {
    forall p | p in prices ensures Matches(processes, "", p) {
      ContainsIgnoreCaseEmpty(ProcessName(processes, p.price.processId), "");
    }
    FilterAll(prices, MatchesBy(processes, ""));
  }

  /** A price of an unknown process is listed only under an empty search. */
  lemma UnknownProcessOnlyUnderEmptySearch(prices: seq<ListedPrice>, processes: seq<Process>, search: string,
                                           p: ListedPrice)
    requires p in prices
    requires forall k :: 0 <= k < |processes| ==> processes[k].id != p.price.processId
    ensures p in FilteredPrices(prices, processes, search) <==> search == ""
  {
    ContainsIgnoreCaseEmpty("", search);
  }
}
