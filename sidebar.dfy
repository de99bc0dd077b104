/** The navigation sidebar: the menu entries the signed-in role may see, the active
    entry, and the name and role shown above the menu. */
module Sidebar {
  import opened Wrappers
  import opened Types
  import Collections
  import Constants
  import Auth

  /** `items.filter(item => isAuthorized(item.allowedRoles))`. */
  function VisibleItems(state: AuthState, items: seq<MenuItem>): (r: seq<MenuItem>)
    ensures forall i :: 0 <= i < |r| ==> r[i] in items && Auth.Authorized(state, r[i].allowedRoles)
    ensures forall i :: 0 <= i < |items| && Auth.Authorized(state, items[i].allowedRoles) ==> items[i] in r
  {
    Collections.Filter(items, (m: MenuItem) => Auth.Authorized(state, m.allowedRoles))
  }

  /** The menu the sidebar renders. */
  function VisibleMenu(state: AuthState): (r: seq<MenuItem>)
    ensures forall i :: 0 <= i < |r| ==> r[i] in Constants.MenuItems && Auth.Authorized(state, r[i].allowedRoles)
    ensures forall i :: 0 <= i < |Constants.MenuItems| && Auth.Authorized(state, Constants.MenuItems[i].allowedRoles) ==>
      Constants.MenuItems[i] in r
  {
    VisibleItems(state, Constants.MenuItems)
  }

  /** Without a signed-in user no entry is shown. */
  lemma SignedOutSeesNoMenu(state: AuthState, items: seq<MenuItem>)
    requires !state.isAuthenticated || state.user.None?
    ensures VisibleItems(state, items) == []
  {
    Collections.FilterNone(items, (m: MenuItem) => Auth.Authorized(state, m.allowedRoles));
  }

  /** Visibility is decided entry by entry, so the visible entries keep the menu's order. */
  lemma VisibleItemsInOrder(state: AuthState, a: seq<MenuItem>, b: seq<MenuItem>)
    ensures VisibleItems(state, a + b) == VisibleItems(state, a) + VisibleItems(state, b)
  {
    Collections.FilterConcat(a, b, (m: MenuItem) => Auth.Authorized(state, m.allowedRoles));
  }

  lemma VisibleSingle(state: AuthState, item: MenuItem)
    ensures VisibleItems(state, [item]) == if Auth.Authorized(state, item.allowedRoles) then [item] else []
  {
    assert [item][1..] == [];
  }

  /** A five-entry menu is filtered entry by entry. */
  lemma {:induction false} VisibleFiveByEntry(state: AuthState, a: MenuItem, b: MenuItem, c: MenuItem, d: MenuItem, e: MenuItem)
    ensures VisibleItems(state, [a, b, c, d, e]) == VisibleItems(state, [a]) + VisibleItems(state, [b]) +
      VisibleItems(state, [c]) + VisibleItems(state, [d]) + VisibleItems(state, [e])
  {
    assert [a, b, c, d, e] == [a, b, c, d] + [e];
    assert [a, b, c, d] == [a, b, c] + [d];
    assert [a, b, c] == [a, b] + [c];
    assert [a, b] == [a] + [b];
    VisibleItemsInOrder(state, [a, b, c, d], [e]);
    VisibleItemsInOrder(state, [a, b, c], [d]);
    VisibleItemsInOrder(state, [a, b], [c]);
    VisibleItemsInOrder(state, [a], [b]);
  }

  /** The roles each menu entry admits. */
  lemma MenuRoles()
    ensures |Constants.MenuItems| == 5
    ensures Constants.MenuItems[0].allowedRoles == [Admin, Manager, UserRole]
    ensures Constants.MenuItems[1].allowedRoles == [Admin, Manager]
    ensures Constants.MenuItems[2].allowedRoles == [Admin, Manager, UserRole]
    ensures Constants.MenuItems[3].allowedRoles == [Admin, Manager, UserRole]
    ensures Constants.MenuItems[4].allowedRoles == [Admin]
  {
  }

  /** Which entries of a five-entry menu a role sees, given the roles each entry admits. */
  lemma {:induction false} FiveEntryMenu(state: AuthState, m: seq<MenuItem>, role: Role)
    requires |m| == 5
    requires state.isAuthenticated && state.user.Some? && state.user.value.role == role
    ensures VisibleItems(state, m) ==
      (if role in m[0].allowedRoles then [m[0]] else []) +
      (if role in m[1].allowedRoles then [m[1]] else []) +
      (if role in m[2].allowedRoles then [m[2]] else []) +
      (if role in m[3].allowedRoles then [m[3]] else []) +
      (if role in m[4].allowedRoles then [m[4]] else [])
  {
    assert m == [m[0], m[1], m[2], m[3], m[4]];
    VisibleFiveByEntry(state, m[0], m[1], m[2], m[3], m[4]);
    VisibleSingle(state, m[0]);
    VisibleSingle(state, m[1]);
    VisibleSingle(state, m[2]);
    VisibleSingle(state, m[3]);
    VisibleSingle(state, m[4]);
  }

  /** A five-entry menu whose every entry admits the role is shown whole. */
  lemma {:induction false} AllAdmit(state: AuthState, m: seq<MenuItem>, role: Role)
    requires |m| == 5
    requires state.isAuthenticated && state.user.Some? && state.user.value.role == role
    requires role in m[0].allowedRoles && role in m[1].allowedRoles && role in m[2].allowedRoles
    requires role in m[3].allowedRoles && role in m[4].allowedRoles
    ensures VisibleItems(state, m) == m
  {
    FiveEntryMenu(state, m, role);
    var all := [m[0]] + [m[1]] + [m[2]] + [m[3]] + [m[4]];
    assert all == [m[0], m[1], m[2], m[3], m[4]];
    assert m == [m[0], m[1], m[2], m[3], m[4]];
  }

  /** A five-entry menu whose last entry alone excludes the role loses that entry. */
  lemma {:induction false} AllButLastAdmit(state: AuthState, m: seq<MenuItem>, role: Role)
    requires |m| == 5
    requires state.isAuthenticated && state.user.Some? && state.user.value.role == role
    requires role in m[0].allowedRoles && role in m[1].allowedRoles
    requires role in m[2].allowedRoles && role in m[3].allowedRoles
    requires role !in m[4].allowedRoles
    ensures VisibleItems(state, m) == m[..4]
  {
    FiveEntryMenu(state, m, role);
    var front := [m[0]] + [m[1]] + [m[2]] + [m[3]];
    Collections.AppendEmpty(front);
    assert front == [m[0], m[1], m[2], m[3]];
    assert m[..4] == [m[0], m[1], m[2], m[3]];
  }

  /** A five-entry menu whose second and last entries exclude the role shows the other three. */
  lemma {:induction false} SecondAndLastExclude(state: AuthState, m: seq<MenuItem>, role: Role)
    requires |m| == 5
    requires state.isAuthenticated && state.user.Some? && state.user.value.role == role
    requires role in m[0].allowedRoles && role !in m[1].allowedRoles
    requires role in m[2].allowedRoles && role in m[3].allowedRoles && role !in m[4].allowedRoles
    ensures VisibleItems(state, m) == [m[0], m[2], m[3]]
  {
    FiveEntryMenu(state, m, role);
    Collections.AppendEmpty([m[0]]);
    var front := [m[0]] + [m[2]] + [m[3]];
    Collections.AppendEmpty(front);
    assert front == [m[0], m[2], m[3]];
  }

  /** An administrator sees all five entries. */
  lemma AdminMenu(state: AuthState)
    requires state.isAuthenticated && state.user.Some? && state.user.value.role == Admin
    ensures VisibleMenu(state) == Constants.MenuItems
  {
    MenuRoles();
    AllAdmit(state, Constants.MenuItems, Admin);
  }

  /** A manager sees every entry but Settings. */
  lemma ManagerMenu(state: AuthState)
    requires state.isAuthenticated && state.user.Some? && state.user.value.role == Manager
    ensures VisibleMenu(state) == Constants.MenuItems[..4]
  {
    MenuRoles();
    AllButLastAdmit(state, Constants.MenuItems, Manager);
  }

  /** A user sees Dashboard, Dispensaries and Service Requests, but not Users or Settings. */
  lemma UserMenu(state: AuthState)
    requires state.isAuthenticated && state.user.Some? && state.user.value.role == UserRole
    ensures VisibleMenu(state) == [Constants.MenuItems[0], Constants.MenuItems[2], Constants.MenuItems[3]]
  {
    MenuRoles();
    SecondAndLastExclude(state, Constants.MenuItems, UserRole);
  }

  /** `location.pathname === item.path`: an exact match, so a page below an entry's path
      (such as "/users/add" under "/users") does not mark that entry. */
  function IsActive(pathname: string, item: MenuItem): (r: bool)
    ensures r ==> pathname == item.path
    ensures |pathname| != |item.path| ==> !r
    ensures pathname == item.path ==> r
  {
    pathname == item.path
  }

  /** The menu paths are distinct, so at most one entry is marked active. */
  lemma AtMostOneActive(pathname: string)
    ensures forall i, j :: 0 <= i < j < |Constants.MenuItems| && IsActive(pathname, Constants.MenuItems[i])
                           ==> !IsActive(pathname, Constants.MenuItems[j])
  {
  }

  /** `user?.name || "User"`. */
  function NameLabel(user: Option<User>): (r: string)
    ensures user.Some? && user.value.name != "" ==> r == user.value.name
    ensures user.Some? && user.value.name == "" ==> r == "User"
    ensures user.None? ==> r == "User"
  {
    if user.Some? && user.value.name != "" then user.value.name else "User"
  }

  /** `user?.role || "Role"`. */
  function RoleLabel(user: Option<User>): (r: string)
    ensures user.Some? ==> r == user.value.role.Name()
    ensures user.None? ==> r == "Role"
  {
    if user.Some? then user.value.role.Name() else "Role"
  }
}
