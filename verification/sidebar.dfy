/**
 The side menu: which entries a user sees, given the roles stored at login.
 */
module Sidebar {
  import opened Common

  /** A menu entry; `roles` lists who may see it, `None` when the entry has no such field. */
  datatype MenuItem = MenuItem(key: string, title: string, roles: Option<seq<string>>)

  /** A menu group; `children` may be missing. */
  datatype MenuGroup = MenuGroup(key: string, title: string, children: Option<seq<MenuItem>>)

  /** `hasPermission`: no role list, or an empty one, is visible to all; otherwise one shared role suffices. */
  predicate HasPermission(itemRoles: Option<seq<string>>, userRoles: seq<string>)
  {
    itemRoles.None? || |itemRoles.value| == 0 || exists r :: r in itemRoles.value && r in userRoles
  }

  function VisibleTo(userRoles: seq<string>): MenuItem -> bool
  {
    (item: MenuItem) => HasPermission(item.roles, userRoles)
  }

  /** The visible children of a group, in menu order; a group without children gets none. */
  function VisibleChildren(g: MenuGroup, userRoles: seq<string>): (r: seq<MenuItem>)
    ensures g.children.None? ==> r == []
    ensures g.children.Some? ==> IsSubsequence(r, g.children.value)
    ensures g.children.Some? ==> forall item :: item in r <==> item in g.children.value && HasPermission(item.roles, userRoles)
  {
    if g.children.Some? then Filter(g.children.value, VisibleTo(userRoles)) else []
  }

  function FilterGroup(g: MenuGroup, userRoles: seq<string>): MenuGroup
  {
    g.(children := Some(VisibleChildren(g, userRoles)))
  }

  /** `filteredItems`: every group is kept, with only its permitted children. */
  function FilteredItems(groups: seq<MenuGroup>, userRoles: seq<string>): (r: seq<MenuGroup>)
    ensures |r| == |groups|
    ensures forall k :: 0 <= k < |groups| ==> r[k].key == groups[k].key && r[k].title == groups[k].title
    ensures forall k :: 0 <= k < |groups| ==> r[k].children == Some(VisibleChildren(groups[k], userRoles))
  {
    seq(|groups|, k requires 0 <= k < |groups| => FilterGroup(groups[k], userRoles))
  }

  /** Granting a user more roles never hides an entry. */
  lemma MoreRolesSeeMore(groups: seq<MenuGroup>, fewer: seq<string>, more: seq<string>, k: nat, item: MenuItem)
    requires forall r :: r in fewer ==> r in more
    requires k < |groups|
    requires item in FilteredItems(groups, fewer)[k].children.value
    ensures item in FilteredItems(groups, more)[k].children.value
  {
  }

  /** A user without roles sees exactly the entries that ask for none. */
  lemma NoRolesSeeUnrestricted(g: MenuGroup, item: MenuItem)
    requires g.children.Some? && item in g.children.value
    ensures item in VisibleChildren(g, []) <==> item.roles.None? || |item.roles.value| == 0
  {
  }

  /* ---------------------------------------------------------------
   * The configured menu
   * --------------------------------------------------------------- */

  const Admin: string := "管理员"

  function Open(key: string, title: string): MenuItem
  {
    MenuItem(key, title, Some([]))
  }

  const AuditEntry: MenuItem := MenuItem("/auditUser", "注册审核", Some([Admin]))

  const SalaryGroup: MenuGroup := MenuGroup("salary-group", "工资管理", Some([
    Open("/workers", "工人信息"), Open("/processes", "工序调整"), Open("/spec-models", "规格工价"),
    Open("/wage_logs", "日薪录入"), Open("/wage_logs_check", "工资查询"), Open("/salary_import", "薪资导入")]))

  const CompanyGroup: MenuGroup := MenuGroup("company-group", "往来账管理", Some([
    Open("/company", "公司管理"), Open("/company_account", "公司账户"), Open("/customer", "客户管理"),
    Open("/customer_account", "客户账户"), Open("/customer_balance", "客户余额"), Open("/transaction", "转账流水")]))

  const UsersGroup: MenuGroup := MenuGroup("users-group", "用户管理", Some([Open("/login", "登录注册"), AuditEntry]))

  const Menu: seq<MenuGroup> := [SalaryGroup, CompanyGroup, UsersGroup]

  /** In the configured menu, the registration audit entry is shown exactly to administrators. */
  lemma AuditOnlyForAdmins(userRoles: seq<string>)
    ensures AuditEntry in FilteredItems(Menu, userRoles)[2].children.value <==> Admin in userRoles
  {
    assert AuditEntry in UsersGroup.children.value;
  }

  /** Every other configured entry is shown to everyone. */
  lemma OtherEntriesAlwaysShown(userRoles: seq<string>, k: nat, item: MenuItem)
    requires k < |Menu| && Menu[k].children.Some? && item in Menu[k].children.value && item != AuditEntry
    ensures item in FilteredItems(Menu, userRoles)[k].children.value
  {
    assert item.roles == Some([]) by {
      var c := Menu[k].children.value;
      var j :| 0 <= j < |c| && c[j] == item;
      if k == 2 {
        assert j == 0;
      }
    }
  }
}
