/**
 The login/registration page: the phone number rule, the password
 confirmation check, the roles kept after login, and the switch back to the
 login tab after registering.
 */
module LoginRegister {
  import opened Common
  import Sidebar

  predicate IsDigit(c: char)
  {
    '0' <= c <= '9'
  }

  /** `/^1\d{10}$/`: eleven characters, a leading 1 and ten digits. */
  predicate ValidPhone(s: string)
  {
    |s| == 11 && s[0] == '1' && forall k :: 1 <= k < |s| ==> IsDigit(s[k])
  }

  /** The pattern check, scanning the text once. */
  method CheckPhone(s: string) returns (ok: bool)
    ensures ok <==> ValidPhone(s)
  {
    if |s| != 11 || s[0] != '1' {
      return false;
    }
    var i := 1;
    while i < |s|
      invariant 1 <= i <= |s|
      invariant forall k :: 1 <= k < i ==> IsDigit(s[k])
    {
      if !IsDigit(s[i]) {
        return false;
      }
      i := i + 1;
    }
    return true;
  }

  /** A valid number stays valid only with the same length: adding or dropping a character breaks it. */
  lemma PhoneLengthExact(s: string, c: char)
    requires ValidPhone(s)
    ensures !ValidPhone(s + [c]) && !ValidPhone(s[..10])
  {
  }

  /**
   The confirmation validator: an empty confirmation passes (the required
   rule reports it), otherwise it must equal the password field.
   */
  predicate ConfirmAccepted(confirm: Option<string>, password: Option<string>)
  {
    confirm.None? || confirm.value == "" || password == confirm
  }

  /** A non-empty confirmation is accepted exactly when it is the password. */
  lemma ConfirmMeaning(confirm: string, password: Option<string>)
    requires confirm != ""
    ensures ConfirmAccepted(Some(confirm), password) <==> password == Some(confirm)
  {
  }

  /** `user.roles || []`: the roles stored at login. */
  function StoredRoles(roles: Option<seq<string>>): (r: seq<string>)
    ensures roles.Some? ==> r == roles.value
    ensures roles.None? ==> r == []
  {
    if roles.Some? then roles.value else []
  }

  /** A user logged in without roles sees only the menu entries that ask for none. */
  lemma NoRolesUnrestrictedMenu(g: Sidebar.MenuGroup, item: Sidebar.MenuItem)
    requires g.children.Some? && item in g.children.value
    ensures item in Sidebar.VisibleChildren(g, StoredRoles(None)) <==> item.roles.None? || |item.roles.value| == 0
  {
    Sidebar.NoRolesSeeUnrestricted(g, item);
  }

  datatype LoginTab = LoginTab | RegisterTab

  /** After a registration request the page returns to the login tab when it succeeded, and stays otherwise. */
  function AfterRegister(tab: LoginTab, ok: bool): (t: LoginTab)
    ensures ok ==> t == LoginTab
    ensures !ok ==> t == tab
  {
    if ok then LoginTab else tab
  }

  /**
   From the registration tab the page shows the login tab afterwards exactly
   when the registration succeeded; from the login tab it never leaves it.
   */
  lemma LoginTabExactlyAfterSuccess(ok: bool)
    ensures AfterRegister(RegisterTab, ok) == LoginTab <==> ok
    ensures AfterRegister(LoginTab, ok) == LoginTab
  {
  }
}
