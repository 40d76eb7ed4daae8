/**
 The company account page: the type-ahead test of the company select, and
 the reload of page 1 when the company filter changes.
 */
module CompanyAccount {
  import opened Common

  /** A property of a select option: text, or something else (an element, a number). */
  datatype Prop = Text(s: string) | NotText

  /** A select option as handed to the filter; either property may be missing. */
  datatype SelectOption = SelectOption(children: Option<Prop>, labelProp: Option<Prop>)

  /** The text searched: `children` when it is text, else `label` when it is text, else `''`. */
  function SearchLabel(option: Option<SelectOption>): (s: string)
    ensures option.Some? && option.value.children.Some? && option.value.children.value.Text?
            ==> s == option.value.children.value.s
    ensures option.Some? && !(option.value.children.Some? && option.value.children.value.Text?)
            && option.value.labelProp.Some? && option.value.labelProp.value.Text?
            ==> s == option.value.labelProp.value.s
    ensures !HasTextLabel(option) ==> s == ""
  {
    if option.None? then ""
    else if option.value.children.Some? && option.value.children.value.Text? then option.value.children.value.s
    else if option.value.labelProp.Some? && option.value.labelProp.value.Text? then option.value.labelProp.value.s
    else ""
  }

  predicate HasTextLabel(option: Option<SelectOption>)
  {
    option.Some? && ((option.value.children.Some? && option.value.children.value.Text?)
                     || (option.value.labelProp.Some? && option.value.labelProp.value.Text?))
  }

  /** `companyFilterOption`: the searched text contains the input, ignoring case. */
  predicate CompanyFilterOption(input: string, option: Option<SelectOption>)
  {
    ContainsIgnoreCase(SearchLabel(option), input)
  }

  /** An option without a text label matches only the empty input. */
  lemma NoLabelMatchesOnlyEmpty(input: string, option: Option<SelectOption>)
    requires !HasTextLabel(option)
    ensures CompanyFilterOption(input, option) <==> input == ""
  {
    ContainsIgnoreCaseEmpty("", input);
  }

  /** An empty input matches every option. */
  lemma EmptyInputMatchesAll(option: Option<SelectOption>)
    ensures CompanyFilterOption("", option)
  {
    ContainsIgnoreCaseEmpty(SearchLabel(option), "");
  }

  /** The test ignores case: typing the label in upper or lower case gives the same answer. */
  lemma FilterIgnoresInputCase(input: string, option: Option<SelectOption>)
    ensures CompanyFilterOption(input, option) <==> CompanyFilterOption(Lower(input), option)
  {
    LowerIdempotent(input);
  }

  /* ---------------------------------------------------------------
   * Company filter
   * --------------------------------------------------------------- */

  datatype Account = Account(id: int, companyId: int, name: string)

  datatype AccountPage = AccountPage(accounts: seq<Account>, page: int, perPage: int, total: int,
                                     filterCompanyId: Option<int>)

  /** The list request's parameters. */
  datatype AccountQuery = AccountQuery(page: int, perPage: int, companyId: Option<int>)

  /**
   `handleCompanyFilter`: remember the choice and ask for page 1. Clearing
   the select passes `undefined`, so `fetchAccounts`' default parameter
   supplies the company id, and that default is the filter of the render
   the handler belongs to: the previous company.
   */
  function HandleCompanyFilter(p: AccountPage, companyId: Option<int>): (r: (AccountPage, AccountQuery))
    ensures r.0 == p.(filterCompanyId := companyId)
    ensures r.1.page == 1 && r.1.perPage == p.perPage
    ensures companyId.Some? ==> r.1.companyId == companyId
    ensures companyId.None? ==> r.1.companyId == p.filterCompanyId
  {
    var asked := if companyId.Some? then companyId else p.filterCompanyId;
    (p.(filterCompanyId := companyId), AccountQuery(1, p.perPage, asked))
  }

  /** The reply to a list request. */
  datatype AccountsReply = AccountsReply(success: bool, items: seq<Account>, page: int, total: int)

  /** Only a successful reply replaces the list, its page and its total; the page size is kept. */
  function ApplyReply(p: AccountPage, reply: AccountsReply): (q: AccountPage)
    ensures reply.success ==> q == p.(accounts := reply.items, page := reply.page, total := reply.total)
    ensures !reply.success ==> q == p
  {
    if reply.success then p.(accounts := reply.items, page := reply.page, total := reply.total) else p
  }

  /** After changing the filter, a failed reply keeps the old list under the new filter. */
  lemma FailedReplyKeepsList(p: AccountPage, companyId: Option<int>, reply: AccountsReply)
    requires !reply.success
    ensures var q := ApplyReply(HandleCompanyFilter(p, companyId).0, reply);
            q.accounts == p.accounts && q.filterCompanyId == companyId
  {
  }

  /** Every listed account belongs to the filter's company (no filter admits every account). */
  predicate ListMatchesFilter(p: AccountPage)
  {
    p.filterCompanyId.Some? ==> forall a :: a in p.accounts ==> a.companyId == p.filterCompanyId.value
  }

  /**
   Filter and reply together: when the server answers the filter's query
   with accounts of the asked company only, the page lists only that
   company's accounts, under the new filter and the same page size. Setting
   a company makes the filter and the query agree; clearing it leaves the
   filter empty while the query names the previous company.
   */
  lemma FilteredReplyShowsCompany(p: AccountPage, companyId: Option<int>, reply: AccountsReply)
    requires reply.success
    requires var asked := HandleCompanyFilter(p, companyId).1.companyId;
             asked.Some? ==> forall a :: a in reply.items ==> a.companyId == asked.value
    ensures var r := HandleCompanyFilter(p, companyId);
            var q := ApplyReply(r.0, reply);
            ListMatchesFilter(q) && q.perPage == r.1.perPage && q.filterCompanyId == companyId
            && (companyId.Some? ==> q.filterCompanyId == r.1.companyId)
            && (companyId.None? ==> r.1.companyId == p.filterCompanyId)
  {
  }

  /**
   Clearing a set filter re-asks for the previous company: a successful
   reply to that query shows only the previous company's accounts while the
   select shows no company, and the query differs from the unfiltered one.
   */
  lemma ClearReasksPreviousCompany(p: AccountPage, reply: AccountsReply)
    requires p.filterCompanyId.Some? && reply.success
    requires forall a :: a in reply.items ==> a.companyId == p.filterCompanyId.value
    ensures var r := HandleCompanyFilter(p, None);
            var q := ApplyReply(r.0, reply);
            r.1 == AccountQuery(1, p.perPage, p.filterCompanyId) && r.1.companyId != None
            && q.filterCompanyId == None
            && forall a :: a in q.accounts ==> a.companyId == p.filterCompanyId.value
  {
  }

  /** A failed reply after a filter change breaks the match whenever the old list holds another company's account. */
  lemma FailedReplyMayMismatch(p: AccountPage, companyId: int, reply: AccountsReply, k: nat)
    requires !reply.success && k < |p.accounts| && p.accounts[k].companyId != companyId
    ensures !ListMatchesFilter(ApplyReply(HandleCompanyFilter(p, Some(companyId)).0, reply))
  {
    assert p.accounts[k] in ApplyReply(HandleCompanyFilter(p, Some(companyId)).0, reply).accounts;
  }
}
