/**
 The transfer ledger page: the account lists of the edit dialog limited to
 the chosen company and customer, the page total, the labels shown for ids,
 the list query, the export, and which request the dialog sends.
 */
module Transaction {
  import opened Common

  /** A select option: an id and its label; accounts also carry their owner. */
  datatype Named = Named(id: int, name: string)
  datatype CompanyAccount = CompanyAccount(id: int, name: string, companyId: int)
  datatype CustomerAccount = CustomerAccount(id: int, name: string, customerId: int)

  /**
   A transfer as the server lists it; `amount` and `customerAccountId` may be
   missing. The names, status and timestamps are only read by the export.
   */
  datatype Transfer = Transfer(
    id: int,
    companyId: int,
    customerId: int,
    companyAccountId: int,
    customerAccountId: Option<int>,
    amount: Option<real>,
    direction: string,
    payMethod: string,
    referenceNo: string,
    remark: string,
    companyName: string,
    customerName: string,
    customerAccountName: string,
    status: string,
    createdAt: string,
    updatedAt: string)

  /* ---------------------------------------------------------------
   * Accounts offered in the dialog
   * --------------------------------------------------------------- */

  function OfCompany(companyId: int): CompanyAccount -> bool
  {
    (a: CompanyAccount) => a.companyId == companyId
  }

  function OfCustomer(customerId: int): CustomerAccount -> bool
  {
    (a: CustomerAccount) => a.customerId == customerId
  }

  /** The dialog's form; a cleared field is `None`. */
  datatype TransferForm = TransferForm(
    companyId: Option<int>,
    companyAccountId: Option<int>,
    customerId: Option<int>,
    customerAccountId: Option<int>,
    amount: Option<real>,
    direction: Option<string>,
    payMethod: Option<string>,
    referenceNo: Option<string>,
    remark: Option<string>)

  /** The form after `resetFields`: every field empty. */
  const EmptyForm := TransferForm(None, None, None, None, None, None, None, None, None)

  datatype TransferDialog = TransferDialog(
    open: bool,
    editingId: Option<int>,
    form: TransferForm,
    companyAccounts: seq<CompanyAccount>,
    customerAccounts: seq<CustomerAccount>)

  /** Every account offered belongs to the company and customer chosen in the form. */
  predicate AccountsMatchForm(d: TransferDialog)
  {
    (forall a :: a in d.companyAccounts ==> d.form.companyId == Some(a.companyId))
    && (forall a :: a in d.customerAccounts ==> d.form.customerId == Some(a.customerId))
  }

  /** `handleEdit`: the record in the form, with exactly its company's and its customer's accounts offered. */
  function Edit(companyAccounts: seq<CompanyAccount>, customerAccounts: seq<CustomerAccount>, record: Transfer)
    : (d: TransferDialog)
    ensures d.open && d.editingId == Some(record.id)
    ensures forall a :: a in d.companyAccounts <==> a in companyAccounts && a.companyId == record.companyId
    ensures forall a :: a in d.customerAccounts <==> a in customerAccounts && a.customerId == record.customerId
    ensures d.form.companyId == Some(record.companyId) && d.form.customerId == Some(record.customerId)
    ensures d.form.companyAccountId == Some(record.companyAccountId) && d.form.customerAccountId == record.customerAccountId
  {
    TransferDialog(true, Some(record.id),
                   TransferForm(Some(record.companyId), Some(record.companyAccountId), Some(record.customerId),
                                record.customerAccountId, record.amount, Some(record.direction),
                                Some(record.payMethod), Some(record.referenceNo), Some(record.remark)),
                   Filter(companyAccounts, OfCompany(record.companyId)),
                   Filter(customerAccounts, OfCustomer(record.customerId)))
  }

  /** Choosing a company offers its accounts only and clears the chosen company account. */
  function CompanyChanged(d: TransferDialog, companyAccounts: seq<CompanyAccount>, companyId: int): (e: TransferDialog)
    ensures e.form.companyId == Some(companyId) && e.form.companyAccountId.None?
    ensures forall a :: a in e.companyAccounts <==> a in companyAccounts && a.companyId == companyId
    ensures e.customerAccounts == d.customerAccounts && e.form.customerId == d.form.customerId
    ensures e.form.customerAccountId == d.form.customerAccountId
  {
    d.(form := d.form.(companyId := Some(companyId), companyAccountId := None),
       companyAccounts := Filter(companyAccounts, OfCompany(companyId)))
  }

  /** Choosing a customer offers its accounts only and clears the chosen customer account. */
  function CustomerChanged(d: TransferDialog, customerAccounts: seq<CustomerAccount>, customerId: int): (e: TransferDialog)
    ensures e.form.customerId == Some(customerId) && e.form.customerAccountId.None?
    ensures forall a :: a in e.customerAccounts <==> a in customerAccounts && a.customerId == customerId
    ensures e.companyAccounts == d.companyAccounts && e.form.companyId == d.form.companyId
    ensures e.form.companyAccountId == d.form.companyAccountId
  {
    d.(form := d.form.(customerId := Some(customerId), customerAccountId := None),
       customerAccounts := Filter(customerAccounts, OfCustomer(customerId)))
  }

  /** Opening a record for editing, then changing company or customer, keeps the offered accounts consistent with the form. */
  lemma AccountsFollowChoices(companyAccounts: seq<CompanyAccount>, customerAccounts: seq<CustomerAccount>,
                              record: Transfer, companyId: int, customerId: int)
    ensures AccountsMatchForm(Edit(companyAccounts, customerAccounts, record))
    ensures AccountsMatchForm(CompanyChanged(Edit(companyAccounts, customerAccounts, record), companyAccounts, companyId))
    ensures AccountsMatchForm(CustomerChanged(Edit(companyAccounts, customerAccounts, record), customerAccounts, customerId))
  {
  }

  /** Either change keeps the consistency it finds. */
  lemma ChangesPreserveConsistency(d: TransferDialog, companyAccounts: seq<CompanyAccount>,
                                   customerAccounts: seq<CustomerAccount>, companyId: int, customerId: int)
    requires AccountsMatchForm(d)
    ensures AccountsMatchForm(CompanyChanged(d, companyAccounts, companyId))
    ensures AccountsMatchForm(CustomerChanged(d, customerAccounts, customerId))
  {
  }

  /* ---------------------------------------------------------------
   * Submit
   * --------------------------------------------------------------- */

  datatype TransferRequest = UpdateTransfer(id: int, form: TransferForm) | AddTransfer(form: TransferForm)

  /** The six fields the dialog's rules require; a direction is one of the two select values, never `''`. */
  predicate RequiredFilled(f: TransferForm)
  {
    f.companyId.Some? && f.companyAccountId.Some? && f.customerId.Some? && f.customerAccountId.Some?
    && f.amount.Some? && f.direction.Some? && f.direction.value != ""
  }

  /**
   `form.submit()` then `onFinish`: with a required field empty the form's
   validation stops it and nothing is sent. Otherwise an update when an id is
   being edited (`if (editingId)`, so not 0), else an add, both carrying the
   form. A failed request is caught and the dialog stays; a successful one
   closes it and resets the form.
   */
  function Submit(d: TransferDialog, ok: bool): (r: (TransferDialog, Option<TransferRequest>))
    ensures r.1.None? <==> !RequiredFilled(d.form)
    ensures r.1.Some? ==> (r.1.value.UpdateTransfer? <==> d.editingId.Some? && d.editingId.value != 0)
    ensures r.1.Some? ==> r.1.value.form == d.form
    ensures r.1.Some? && r.1.value.UpdateTransfer? ==> r.1.value.id == d.editingId.value
    ensures r.1.None? || !ok ==> r.0 == d
    ensures r.1.Some? && ok ==> r.0 == d.(open := false, form := EmptyForm)
  {
    if !RequiredFilled(d.form) then (d, None)
    else
      var req := if d.editingId.Some? && d.editingId.value != 0 then UpdateTransfer(d.editingId.value, d.form)
                 else AddTransfer(d.form);
      (if ok then d.(open := false, form := EmptyForm) else d, Some(req))
  }

  /** Every request sent carries the six required fields. */
  lemma SentRequestsAreComplete(d: TransferDialog, ok: bool)
    ensures var req := Submit(d, ok).1;
            req.Some? ==> RequiredFilled(req.value.form)
  {
  }

  function DialogTitle(d: TransferDialog): (t: string)
    ensures t == "编辑流水" <==> d.editingId.Some? && d.editingId.value != 0
  {
    if d.editingId.Some? && d.editingId.value != 0 then "编辑流水" else "新增流水"
  }

  /** The title announces exactly the request the dialog will send. */
  lemma TitleMatchesRequest(d: TransferDialog, ok: bool)
    ensures var req := Submit(d, ok).1;
            req.Some? ==> (DialogTitle(d) == "编辑流水" <==> req.value.UpdateTransfer?)
  {
  }

  /**
   `handleCreate`: no record is edited, the form is reset and the dialog
   opens. The account lists offered are left as the last edit or choice set
   them.
   */
  function Create(d: TransferDialog): (e: TransferDialog)
    ensures e.open && e.editingId.None? && e.form == EmptyForm
    ensures e.companyAccounts == d.companyAccounts && e.customerAccounts == d.customerAccounts
  {
    d.(open := true, editingId := None, form := EmptyForm)
  }

  /**
   A new dialog offers the previous dialog's accounts although no company or
   customer is chosen yet; choosing both restores the match between accounts
   and form.
   */
  lemma CreateOffersStaleAccounts(d: TransferDialog, companyAccounts: seq<CompanyAccount>,
                                  customerAccounts: seq<CustomerAccount>, companyId: int, customerId: int)
    ensures |d.companyAccounts| > 0 || |d.customerAccounts| > 0 ==> !AccountsMatchForm(Create(d))
    ensures AccountsMatchForm(CustomerChanged(CompanyChanged(Create(d), companyAccounts, companyId),
                                              customerAccounts, customerId))
  {
    if |d.companyAccounts| > 0 {
      assert d.companyAccounts[0] in Create(d).companyAccounts;
    } else if |d.customerAccounts| > 0 {
      assert d.customerAccounts[0] in Create(d).customerAccounts;
    }
  }

  /* ---------------------------------------------------------------
   * Page total
   * --------------------------------------------------------------- */

  /** `amount || 0`. */
  function AmountOf(t: Transfer): real
  {
    if t.amount.Some? then t.amount.value else 0.0
  }

  /** The sum of the amounts, a missing one counting 0. */
  function AmountSum(list: seq<Transfer>): real
  {
    if |list| == 0 then 0.0 else AmountSum(list[..|list| - 1]) + AmountOf(list[|list| - 1])
  }

  /** The page total as the page computes it: a left-to-right `reduce` from 0. */
  method PageTotal(list: seq<Transfer>) returns (sum: real)
    ensures sum == AmountSum(list)
  {
    sum := 0.0;
    var i := 0;
    while i < |list|
      invariant 0 <= i <= |list|
      invariant sum == AmountSum(list[..i])
    {
      assert list[..i + 1][..i] == list[..i];
      sum := sum + AmountOf(list[i]);
      i := i + 1;
    }
    assert list[..|list|] == list;
  }

  /** Totals add up across a split of the page. */
  lemma {:induction false} AmountSumAppend(a: seq<Transfer>, b: seq<Transfer>)
    ensures AmountSum(a + b) == AmountSum(a) + AmountSum(b)
    decreases |b|
  {
    if |b| > 0 {
      assert (a + b)[..|a + b| - 1] == a + b[..|b| - 1];
      AmountSumAppend(a, b[..|b| - 1]);
    } else {
      assert a + b == a;
    }
  }

  /** Transfers without an amount add nothing to the total. */
  lemma MissingAmountsAddNothing(list: seq<Transfer>, t: Transfer)
    requires t.amount.None?
    ensures AmountSum(list + [t]) == AmountSum(list)
  {
    assert (list + [t])[..|list|] == list;
  }

  /* ---------------------------------------------------------------
   * Labels
   * --------------------------------------------------------------- */

  function NamedWithId(id: int): Named -> bool
  {
    (n: Named) => n.id == id
  }

  /** The label shown for a company or customer id: its name, or `-` when unknown. */
  function Label(items: seq<Named>, id: int): string
  {
    match FindFirst(items, NamedWithId(id))
    case Some(i) => items[i].name
    case None => "-"
  }

  /** An unknown id shows `-`; a known one shows the name of its first entry. */
  lemma LabelMeaning(items: seq<Named>, id: int, i: nat)
    ensures (forall k :: 0 <= k < |items| ==> items[k].id != id) ==> Label(items, id) == "-"
    ensures i < |items| && items[i].id == id && (forall k :: 0 <= k < i ==> items[k].id != id)
            ==> Label(items, id) == items[i].name
  {
    if i < |items| && items[i].id == id && (forall k :: 0 <= k < i ==> items[k].id != id) {
      FindFirstAt(items, NamedWithId(id), i);
    }
  }

  function AccountWithId(id: Option<int>): CustomerAccount -> bool
  {
    (a: CustomerAccount) => id.Some? && a.id == id.value
  }

  /** The customer account column: the account number, or `-` when the id is missing or unknown. */
  function AccountLabel(accounts: seq<CustomerAccount>, id: Option<int>): (s: string)
    ensures id.None? ==> s == "-"
    ensures id.Some? && (forall k :: 0 <= k < |accounts| ==> accounts[k].id != id.value) ==> s == "-"
  {
    match FindFirst(accounts, AccountWithId(id))
    case Some(i) => accounts[i].name
    case None => "-"
  }

  /** A known account id shows the number of the first loaded account with that id. */
  lemma AccountLabelFound(accounts: seq<CustomerAccount>, id: int, i: nat)
    requires i < |accounts| && accounts[i].id == id
    requires forall k :: 0 <= k < i ==> accounts[k].id != id
    ensures AccountLabel(accounts, Some(id)) == accounts[i].name
  {
    FindFirstAt(accounts, AccountWithId(Some(id)), i);
  }

  /* ---------------------------------------------------------------
   * Query and export
   * --------------------------------------------------------------- */

  /** The query form; the range holds the two days already formatted as `YYYY-MM-DD`. */
  datatype QueryForm = QueryForm(companyId: Option<int>, customerId: Option<int>, direction: Option<string>,
                                 dateRange: Option<(string, string)>)

  datatype QueryParams = QueryParams(form: QueryForm, startDate: Option<string>, endDate: Option<string>)

  /** The list and export query: the form as is, plus the range's ends when a range is chosen. */
  function Query(q: QueryForm): (p: QueryParams)
    ensures p.form == q
    ensures p.startDate.Some? <==> q.dateRange.Some?
    ensures p.endDate.Some? <==> q.dateRange.Some?
    ensures q.dateRange.Some? ==> p.startDate.value == q.dateRange.value.0 && p.endDate.value == q.dateRange.value.1
  {
    if q.dateRange.Some? then QueryParams(q, Some(q.dateRange.value.0), Some(q.dateRange.value.1))
    else QueryParams(q, None, None)
  }

  /**
   A row of the exported sheet, its eleven columns in order: company,
   customer, customer account, direction, amount, method, status, reference
   number, remark, created and updated.
   */
  datatype ExportRow = ExportRow(companyName: string, customerName: string, customerAccountName: string,
                                 direction: string, amount: Option<real>, payMethod: string, status: string,
                                 referenceNo: string, remark: string, createdAt: string, updatedAt: string)

  function ToExportRow(t: Transfer): ExportRow
  {
    ExportRow(t.companyName, t.customerName, t.customerAccountName, t.direction, t.amount, t.payMethod,
              t.status, t.referenceNo, t.remark, t.createdAt, t.updatedAt)
  }

  function ToExportRows(items: seq<Transfer>): (rows: seq<ExportRow>)
    ensures |rows| == |items|
    ensures forall k :: 0 <= k < |items| ==> rows[k] == ToExportRow(items[k])
  {
    if |items| == 0 then [] else [ToExportRow(items[0])] + ToExportRows(items[1..])
  }

  /** `exportExcel`: no items gives a warning and no file; otherwise one row per item, in order. */
  function Export(items: Option<seq<Transfer>>): (r: Option<seq<ExportRow>>)
    ensures r.None? <==> items.None? || |items.value| == 0
    ensures r.Some? ==> |r.value| == |items.value|
    ensures r.Some? ==> forall k :: 0 <= k < |items.value| ==> r.value[k] == ToExportRow(items.value[k])
  {
    var list := if items.Some? then items.value else [];
    if |list| == 0 then None else Some(ToExportRows(list))
  }

  /** The exported sheet keeps each item's amount, missing ones included, in the item's position. */
  lemma ExportKeepsAmounts(items: seq<Transfer>)
    ensures forall k :: 0 <= k < |items| ==> ToExportRows(items)[k].amount == items[k].amount
  {
  }

  /** Exporting two lists one after the other gives the rows of their concatenation. */
  lemma {:induction false} ExportRowsAppend(a: seq<Transfer>, b: seq<Transfer>)
    ensures ToExportRows(a + b) == ToExportRows(a) + ToExportRows(b)
    decreases |a|
  {
    if |a| > 0 {
      assert (a + b)[1..] == a[1..] + b;
      ExportRowsAppend(a[1..], b);
    } else {
      assert a + b == b;
    }
  }

  /** The list and query total after a reply: missing data is an empty list, a missing total is 0. */
  function ApplyList(data: Option<seq<Transfer>>, totalAmount: Option<real>): (r: (seq<Transfer>, real))
    ensures r.0 == (if data.Some? then data.value else [])
    ensures r.1 == (if totalAmount.Some? then totalAmount.value else 0.0)
  {
    (if data.Some? then data.value else [], if totalAmount.Some? then totalAmount.value else 0.0)
  }

  /**
   The two totals shown for any reply: the page total sums the rows shown,
   the query total is the server's. A reply without data shows a page total
   of 0; a reply without `total_amount` shows a query total of 0, which agrees
   with the page total exactly when the rows shown sum to 0; and a server
   total equal to the rows' sum shows the same number twice.
   */
  lemma ApplyListTotals(data: Option<seq<Transfer>>, totalAmount: Option<real>)
    ensures data.None? ==> AmountSum(ApplyList(data, totalAmount).0) == 0.0
    ensures totalAmount.None? ==> ApplyList(data, totalAmount).1 == 0.0
    ensures var r := ApplyList(data, totalAmount);
            totalAmount.None? ==> (AmountSum(r.0) == r.1 <==> data.None? || AmountSum(data.value) == 0.0)
    ensures var r := ApplyList(data, totalAmount);
            data.Some? && totalAmount == Some(AmountSum(data.value)) ==> AmountSum(r.0) == r.1
  {
    var r := ApplyList(data, totalAmount);
    if data.None? {
      assert r.0 == [];
    }
  }
}
