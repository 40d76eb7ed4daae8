/**
 The stock movement log page: the query sent for a page of movements, the
 pagination taken from the reply, the return to page 1 when a filter
 changes, and how a movement's quantity is displayed.
 */
module InventoryLog {
  import opened Common
  import opened InventoryList

  /** A stock movement as listed by the server. */
  datatype LogEntry = LogEntry(
    id: int,
    productName: string,
    action: Action,
    changeQuantity: int,
    beforeQuantity: int,
    afterQuantity: int,
    remark: Option<string>,
    createdAt: string)

  /**
   The filters: the radio choice per spec code (`None` for "全部"), the
   action radio (`None` for "全部"), and the date range already formatted
   as `YYYY-MM-DD` text.
   */
  datatype LogFilters = LogFilters(sel: map<string, Option<string>>, action: Option<Action>,
                                   range: Option<(string, string)>)

  /** The query parameters; an optional parameter that is `None` is not sent. */
  datatype LogQuery = LogQuery(
    page: int,
    pageSize: int,
    change: Option<map<string, string>>,
    action: Option<Action>,
    startDate: Option<string>,
    endDate: Option<string>)

  /** The `change` object: every spec choice that is not `undefined`, the empty string included. */
  function ChangeOf(sel: map<string, Option<string>>): (change: map<string, string>)
    ensures forall code :: code in change <==> code in sel && sel[code].Some?
    ensures forall code :: code in change ==> change[code] == sel[code].value
  {
    map code | code in sel && sel[code].Some? :: sel[code].value
  }

  /** The query `loadLogs(page, pageSize)` sends under the filters `f`. */
  function BuildQuery(f: LogFilters, page: int, pageSize: int): (q: LogQuery)
    ensures q.page == page && q.pageSize == pageSize
    ensures q.change.Some? <==> exists code :: code in f.sel && f.sel[code].Some?
    ensures q.change.Some? ==> q.change.value == ChangeOf(f.sel)
    ensures q.action == f.action
    ensures q.startDate.Some? <==> f.range.Some?
    ensures q.endDate.Some? <==> f.range.Some?
    ensures f.range.Some? ==> q.startDate.value == f.range.value.0 && q.endDate.value == f.range.value.1
  {
    var change := ChangeOf(f.sel);
    assert forall code :: code in f.sel && f.sel[code].Some? ==> code in change;
    LogQuery(page, pageSize,
             if |change| > 0 then Some(change) else None,
             f.action,
             if f.range.Some? then Some(f.range.value.0) else None,
             if f.range.Some? then Some(f.range.value.1) else None)
  }

  /** The query carries exactly the chosen spec values: each code maps back to its choice. */
  lemma QueryRecoversSelection(f: LogFilters, page: int, pageSize: int, code: string)
    ensures var q := BuildQuery(f, page, pageSize);
            (code in f.sel && f.sel[code].Some?) <==> (q.change.Some? && code in q.change.value)
    ensures var q := BuildQuery(f, page, pageSize);
            q.change.Some? && code in q.change.value ==> f.sel[code] == Some(q.change.value[code])
  {
  }

  /** Clearing every spec choice leaves `change` out of the query. */
  lemma AllClearedOmitsChange(f: LogFilters, page: int, pageSize: int)
    requires forall code :: code in f.sel ==> f.sel[code].None?
    ensures BuildQuery(f, page, pageSize).change.None?
  {
  }

  /** The table's pagination state. */
  datatype Pagination = Pagination(current: int, pageSize: int, total: int)

  /** The reply: the `data`, `page`, `page_size` and `total` fields, each possibly missing. */
  datatype LogsReply = LogsReply(data: Option<seq<LogEntry>>, page: Option<int>, pageSize: Option<int>,
                                 total: Option<int>)

  /** `v || fallback` on a number: missing and 0 both give the fallback. */
  function IntOr(v: Option<int>, fallback: int): (r: int)
    ensures v.Some? && v.value != 0 ==> r == v.value
    ensures v.None? || v.value == 0 ==> r == fallback
  {
    if v.Some? && v.value != 0 then v.value else fallback
  }

  /** The list page after a reply to the request for `page` of size `pageSize`. */
  datatype LogPage = LogPage(logs: seq<LogEntry>, pagination: Pagination)

  function ApplyReply(reply: LogsReply, page: int, pageSize: int): (p: LogPage)
    ensures p.logs == (if reply.data.Some? then reply.data.value else [])
    ensures p.pagination.current == IntOr(reply.page, page)
    ensures p.pagination.pageSize == IntOr(reply.pageSize, pageSize)
    ensures p.pagination.total == IntOr(reply.total, 0)
  {
    LogPage(if reply.data.Some? then reply.data.value else [],
            Pagination(IntOr(reply.page, page), IntOr(reply.pageSize, pageSize), IntOr(reply.total, 0)))
  }

  /** A reply that leaves out the paging fields shows the page that was asked for, with total 0. */
  lemma SilentReplyKeepsRequest(data: Option<seq<LogEntry>>, page: int, pageSize: int)
    ensures ApplyReply(LogsReply(data, None, None, None), page, pageSize).pagination == Pagination(page, pageSize, 0)
  {
  }

  /** The page state: filters and pagination. */
  datatype LogView = LogView(filters: LogFilters, pagination: Pagination)

  /**
   Any filter change reloads: the query asks for page 1 with the current
   page size under the new filters.
   */
  function ChangeFilters(v: LogView, f: LogFilters): (r: (LogView, LogQuery))
    ensures r.0.filters == f && r.0.pagination == v.pagination
    ensures r.1.page == 1 && r.1.pageSize == v.pagination.pageSize
    ensures r.1 == BuildQuery(f, 1, v.pagination.pageSize)
  {
    (v.(filters := f), BuildQuery(f, 1, v.pagination.pageSize))
  }

  function SelectSpec(v: LogView, code: string, value: Option<string>): (LogView, LogQuery)
  {
    ChangeFilters(v, v.filters.(sel := v.filters.sel[code := value]))
  }

  function SelectAction(v: LogView, action: Option<Action>): (LogView, LogQuery)
  {
    ChangeFilters(v, v.filters.(action := action))
  }

  function SelectRange(v: LogView, range: Option<(string, string)>): (LogView, LogQuery)
  {
    ChangeFilters(v, v.filters.(range := range))
  }

  /** Choosing a spec value, an action or a range all reload page 1 with that filter in the query. */
  lemma EveryFilterReloadsFirstPage(v: LogView, code: string, value: Option<string>,
                                    action: Option<Action>, range: Option<(string, string)>)
    ensures var q := SelectSpec(v, code, value).1;
            q.page == 1 && (value.Some? <==> q.change.Some? && code in q.change.value)
    ensures var q := SelectAction(v, action).1;
            q.page == 1 && q.action == action
    ensures var q := SelectRange(v, range).1;
            q.page == 1 && (q.startDate.Some? <==> range.Some?)
  {
    var sel := v.filters.sel[code := value];
    QueryRecoversSelection(v.filters.(sel := sel), 1, v.pagination.pageSize, code);
  }

  /** Moving to another page of the table keeps the filters and asks for that page. */
  function ChangePage(v: LogView, page: int, pageSize: int): (q: LogQuery)
    ensures q.page == page && q.pageSize == pageSize
    ensures q == BuildQuery(v.filters, page, pageSize)
  {
    BuildQuery(v.filters, page, pageSize)
  }

  /**
   Paging round trip: a reply that echoes the page and size asked for by a
   page change shows exactly that page, and moving to the page a reply shows
   asks for that page again under the same filters.
   */
  lemma PagingRoundTrip(v: LogView, page: int, pageSize: int, data: Option<seq<LogEntry>>, total: int)
    ensures var q := ChangePage(v, page, pageSize);
            var p := ApplyReply(LogsReply(data, Some(q.page), Some(q.pageSize), Some(total)), page, pageSize);
            p.pagination == Pagination(page, pageSize, total)
    ensures var p := ApplyReply(LogsReply(data, Some(page), Some(pageSize), Some(total)), page, pageSize);
            var q := ChangePage(v.(pagination := p.pagination), p.pagination.current, p.pagination.pageSize);
            q == BuildQuery(v.filters, page, pageSize)
  {
  }

  /** Every page the table shows was asked for with a positive number, so the fallback never shows page 0. */
  lemma ShownPageIsPositive(reply: LogsReply, page: int, pageSize: int)
    requires page > 0 && pageSize > 0
    requires reply.page.None? || reply.page.value >= 0
    requires reply.pageSize.None? || reply.pageSize.value >= 0
    ensures ApplyReply(reply, page, pageSize).pagination.current > 0
    ensures ApplyReply(reply, page, pageSize).pagination.pageSize > 0
  {
  }

  /* ---------------------------------------------------------------
   * Display of a movement
   * --------------------------------------------------------------- */

  function DigitChar(d: nat): char
    requires d < 10
  {
    "0123456789"[d]
  }

  /** Decimal digits of a natural number, as JavaScript prints it. */
  function Digits(n: nat): (s: string)
    ensures |s| > 0
    ensures forall k :: 0 <= k < |s| ==> '0' <= s[k] <= '9'
  {
    if n < 10 then [DigitChar(n)] else Digits(n / 10) + [DigitChar(n % 10)]
  }

  /** The number a string of decimal digits denotes. */
  function DigitsValue(s: string): nat
    requires forall k :: 0 <= k < |s| ==> '0' <= s[k] <= '9'
  {
    if |s| == 0 then 0 else DigitsValue(s[..|s| - 1]) * 10 + (s[|s| - 1] as int - '0' as int)
  }

  lemma DigitCharValue(d: nat)
    requires d < 10
    ensures DigitChar(d) as int - '0' as int == d
  {
  }

  /** The printed digits read back as the number printed. */
  lemma {:induction false} DigitsRoundTrip(n: nat)
    ensures DigitsValue(Digits(n)) == n
  {
    var s := Digits(n);
    if n < 10 {
      DigitCharValue(n);
      assert s[..0] == [];
    } else {
      DigitsRoundTrip(n / 10);
      DigitCharValue(n % 10);
      assert s[..|s| - 1] == Digits(n / 10);
    }
  }

  /** Different numbers print differently. */
  lemma DigitsInjective(m: nat, n: nat)
    requires Digits(m) == Digits(n)
    ensures m == n
  {
    DigitsRoundTrip(m);
    DigitsRoundTrip(n);
  }

  /** `String(v)` for an integer. */
  function IntText(v: int): string
  {
    if v < 0 then "-" + Digits(-v) else Digits(v)
  }

  datatype TagColor = Green | Red | Blue

  /** The change column: `+v` for an increase, `v` otherwise; green unless negative. */
  function ChangeText(v: int): string
  {
    if v > 0 then "+" + IntText(v) else IntText(v)
  }

  function ChangeColor(v: int): (c: TagColor)
    ensures c == Green <==> v >= 0
    ensures c == Red <==> v < 0
  {
    if v >= 0 then Green else Red
  }

  /** The displayed change begins with `+` exactly for an increase, with `-` exactly for a decrease. */
  lemma ChangeTextSign(v: int)
    ensures ChangeText(v)[0] == '+' <==> v > 0
    ensures ChangeText(v)[0] == '-' <==> v < 0
  {
    if v >= 0 {
      var d := Digits(v);
      assert '0' <= d[0] <= '9';
    } else {
      assert ChangeText(v) == "-" + Digits(-v);
    }
  }

  /** The colour follows the printed sign: red exactly when the text starts with `-`. */
  lemma ColorFollowsText(v: int)
    ensures ChangeColor(v) == Red <==> ChangeText(v)[0] == '-'
    ensures ChangeColor(v) == Green <==> ChangeText(v)[0] != '-'
  {
    ChangeTextSign(v);
  }

  /** A zero change shows as `0` in green. */
  lemma ZeroChange()
    ensures ChangeText(0) == "0" && ChangeColor(0) == Green
  {
  }

  /** The action column: 入库 green, 出库 red, 调整 blue. */
  function ActionTag(a: Action): (r: (string, TagColor))
    ensures a == In ==> r == ("入库", Green)
    ensures a == Out ==> r == ("出库", Red)
    ensures a == Adjust ==> r == ("调整", Blue)
  {
    match a
    case In => ("入库", Green)
    case Out => ("出库", Red)
    case Adjust => ("调整", Blue)
  }

  /** Each action has its own label and its own colour, so the tag tells the action. */
  lemma ActionTagInjective(a: Action, b: Action)
    ensures ActionTag(a).0 == ActionTag(b).0 <==> a == b
    ensures ActionTag(a).1 == ActionTag(b).1 <==> a == b
  {
    assert "入库"[0] != "出库"[0] && "入库"[0] != "调整"[0] && "出库"[0] != "调整"[0];
  }
}
