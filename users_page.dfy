/** The user-management page: a searchable, filterable, paged table of the stored users,
    an add dialog, an edit dialog and row deletion, each gated by the signed-in user's
    role. */
module UsersPage {
  import opened Wrappers
  import opened Types
  import opened Effects
  import opened UserForms
  import Text
  import Collections
  import Permissions
  import UserStore

  /** The rows the table keeps: the search text occurs in the name or the email (ignoring
      case), and the role and status match when a filter is chosen. */
  predicate Matches(u: User, search: string, roleFilter: Option<Role>, statusFilter: Option<UserStatus>) {
    (Text.ContainsIgnoreCase(u.name, search) || Text.ContainsIgnoreCase(u.email, search)) &&
    (roleFilter.None? || u.role == roleFilter.value) &&
    (statusFilter.None? || u.status == statusFilter.value)
  }

  function Filtered(users: seq<User>, search: string, roleFilter: Option<Role>, statusFilter: Option<UserStatus>): (r: seq<User>)
    ensures forall i :: 0 <= i < |r| ==> r[i] in users && Matches(r[i], search, roleFilter, statusFilter)
    ensures forall i :: 0 <= i < |users| && Matches(users[i], search, roleFilter, statusFilter) ==> users[i] in r
  {
    Collections.Filter(users, (u: User) => Matches(u, search, roleFilter, statusFilter))
  }

  /** With the filters cleared every user is listed, in stored order. */
  lemma ClearedFiltersShowAll(users: seq<User>)
    ensures Filtered(users, "", None, None) == users
  {
    forall i | 0 <= i < |users| ensures Matches(users[i], "", None, None) {
      Text.ContainsEmpty(users[i].name);
    }
    Collections.FilterAll(users, (u: User) => Matches(u, "", None, None));
  }

  class Users {
    const actor: Option<User>
    var users: seq<User>
    var search: string
    var roleFilter: Option<Role>
    var statusFilter: Option<UserStatus>
    var currentPage: int
    var itemsPerPage: int
    var addOpen: bool
    var newUser: UserForm
    var editing: Option<UserForm>

    /** Page and page size stay positive, and the edit dialog always holds a row. */
    predicate Valid()
      reads this
    {
      currentPage >= 1 && itemsPerPage >= 1 && (editing.Some? ==> editing.value.base.Some?)
    }

    function Shown(): seq<User>
      reads this
    {
      Filtered(users, search, roleFilter, statusFilter)
    }

    function TotalPages(): nat
      reads this
      requires Valid()
    {
      Collections.TotalPages(|Shown()|, itemsPerPage)
    }

    /** The rows of the current page. */
    function Rows(): seq<User>
      reads this
      requires Valid()
    {
      Collections.PageSlice(Shown(), currentPage, itemsPerPage)
    }

    /** The list stored under the users key (empty when nothing is stored). */
    constructor (stored: Option<seq<User>>, actor: Option<User>)
      ensures this.actor == actor && users == stored.GetOr([])
      ensures search == "" && roleFilter.None? && statusFilter.None?
      ensures currentPage == 1 && itemsPerPage == 5
      ensures !addOpen && newUser == BlankUserForm && editing.None?
      ensures Valid()
    {
      this.actor := actor;
      users := stored.GetOr([]);
      search := "";
      roleFilter := None;
      statusFilter := None;
      currentPage := 1;
      itemsPerPage := 5;
      addOpen := false;
      newUser := BlankUserForm;
      editing := None;
    }

    method SetSearch(text: string)
      modifies this`search
      ensures search == text
    {
      search := text;
    }

    method SetRoleFilter(role: Option<Role>)
      modifies this`roleFilter
      ensures roleFilter == role
    {
      roleFilter := role;
    }

    method SetStatusFilter(status: Option<UserStatus>)
      modifies this`statusFilter
      ensures statusFilter == status
    {
      statusFilter := status;
    }

    /** `resetFilters`: afterwards the first page of the whole list is shown. */
    method ResetFilters()
      modifies this`search, this`roleFilter, this`statusFilter, this`currentPage
      ensures search == "" && roleFilter.None? && statusFilter.None? && currentPage == 1
      ensures Shown() == users
    {
      search := "";
      roleFilter := None;
      statusFilter := None;
      currentPage := 1;
      ClearedFiltersShowAll(users);
    }

    /** The page-size select (5, 10 or 20) also returns to the first page. */
    method SetItemsPerPage(size: int)
      requires Valid()
      requires size == 5 || size == 10 || size == 20
      modifies this`itemsPerPage, this`currentPage
      ensures itemsPerPage == size && currentPage == 1
      ensures Valid()
    {
      itemsPerPage := size;
      currentPage := 1;
    }

    /** The pager is rendered only while some row matches. */
    method PreviousPage()
      requires Valid()
      modifies this`currentPage
      ensures Valid()
      ensures currentPage == if |Shown()| > 0 then Collections.AfterPrevious(old(currentPage)) else old(currentPage)
    {
      if |Shown()| > 0 {
        currentPage := Collections.AfterPrevious(currentPage);
      }
    }

    method NextPage()
      requires Valid()
      modifies this`currentPage
      ensures Valid()
      ensures currentPage == if |Shown()| > 0 then Collections.AfterNext(old(currentPage), TotalPages()) else old(currentPage)
    {
      if |Shown()| > 0 {
        currentPage := Collections.AfterNext(currentPage, TotalPages());
      }
    }

    /** The Add User button is shown only to those who may add. */
    method OpenAddDialog()
      modifies this`addOpen
      ensures addOpen == (old(addOpen) || Permissions.CanManage(actor))
    {
      if Permissions.CanManage(actor) {
        addOpen := true;
      }
    }

    method CloseAddDialog()
      modifies this`addOpen
      ensures !addOpen
    {
      addOpen := false;
    }

    /** An edit in the add dialog; the admin role is offered only to administrators. */
    method ChangeNewUser(change: UserChange)
      modifies this`newUser
      ensures newUser == FormChange(old(newUser), actor, true, change)
    {
      newUser := FormChange(newUser, actor, true, change);
    }

    /** `handleAddUser`, behind a button that is disabled until name and email are filled. */
    method AddUser(freshId: string, now: int) returns (outcome: Outcome)
      modifies this`users, this`newUser, this`addOpen
      ensures !old(addOpen) || !UserFilled(old(newUser)) ==>
        users == old(users) && newUser == old(newUser) && addOpen == old(addOpen) && outcome == Silent
      ensures old(addOpen) && UserFilled(old(newUser)) &&
              UserStore.FindEmailClash(old(users), old(newUser).email, None).Some? ==>
        users == old(users) && newUser == old(newUser) && addOpen &&
        outcome == ErrorToast("A user with this email already exists")
      ensures old(addOpen) && UserFilled(old(newUser)) &&
              UserStore.FindEmailClash(old(users), old(newUser).email, None).None? ==>
        users == old(users) + [NewUser(old(newUser), freshId, now)] &&
        newUser == BlankUserForm && !addOpen && outcome == Toast("Success", "User added successfully")
    {
      if !addOpen || !UserFilled(newUser) {
        return Silent;
      }
      if UserStore.FindEmailClash(users, newUser.email, None).Some? {
        return ErrorToast("A user with this email already exists");
      }
      users := users + [NewUser(newUser, freshId, now)];
      newUser := BlankUserForm;
      addOpen := false;
      outcome := Toast("Success", "User added successfully");
    }

    /** The row's edit button (shown only to those who may edit) opens a copy of the row. */
    method StartEdit(u: User)
      requires Valid()
      modifies this`editing
      ensures Valid()
      ensures editing == if Permissions.CanManage(actor) then Some(LoadUserForm(u)) else old(editing)
    {
      if Permissions.CanManage(actor) {
        editing := Some(LoadUserForm(u));
      }
    }

    method CancelEdit()
      requires Valid()
      modifies this`editing
      ensures Valid()
      ensures editing.None?
    {
      editing := None;
    }

    /** An edit in the edit dialog; role and status are locked on one's own record. */
    method ChangeEditing(change: UserChange)
      requires Valid()
      modifies this`editing
      ensures Valid()
      ensures old(editing).None? ==> editing.None?
      ensures old(editing).Some? ==>
        editing == Some(FormChange(old(editing).value, actor, CanChangeRoleAndStatus(old(editing).value, actor), change))
    {
      if editing.Some? {
        var f := editing.value;
        editing := Some(FormChange(f, actor, CanChangeRoleAndStatus(f, actor), change));
      }
    }

    /** `handleUpdateUser`: every record with the edited id is replaced by the edited copy,
        unless another record already uses the email. The Save button is disabled while
        name or email is empty. */
    method UpdateUser() returns (outcome: Outcome)
      requires Valid()
      modifies this`users, this`editing
      ensures Valid()
      ensures old(editing).None? || !UserFilled(old(editing).value) ==>
        users == old(users) && editing == old(editing) && outcome == Silent
      ensures old(editing).Some? && UserFilled(old(editing).value) ==>
        var f := old(editing).value;
        var id := f.base.value.id;
        if UserStore.FindEmailClash(old(users), f.email, Some(id)).Some? then
          users == old(users) && editing == old(editing) &&
          outcome == ErrorToast("Another user with this email already exists")
        else
          users == UserStore.UpdateById(old(users), id, SaveUserForm(f)) && editing.None? &&
          outcome == Toast("Success", "User updated successfully")
    {
      if editing.None? || !UserFilled(editing.value) {
        return Silent;
      }
      var f := editing.value;
      var id := f.base.value.id;
      if UserStore.FindEmailClash(users, f.email, Some(id)).Some? {
        return ErrorToast("Another user with this email already exists");
      }
      users := UserStore.UpdateById(users, id, SaveUserForm(f));
      editing := None;
      outcome := Toast("Success", "User updated successfully");
    }

    /** `handleDeleteUser`, on a row button shown only to administrators. */
    method DeleteUser(userId: string) returns (outcome: Outcome)
      modifies this`users
      ensures !Permissions.CanDelete(actor) ==> users == old(users) && outcome == Silent
      ensures Permissions.CanDelete(actor) ==> users == UserStore.GuardedDelete(old(users), actor, userId)
      ensures Permissions.CanDelete(actor) && UserStore.SelfDelete(actor, userId) ==>
        outcome == ErrorToast("You cannot delete your own account")
      ensures Permissions.CanDelete(actor) && !UserStore.SelfDelete(actor, userId) ==>
        outcome == Toast("Success", "User deleted successfully")
    {
      if !Permissions.CanDelete(actor) {
        return Silent;
      }
      users := UserStore.GuardedDelete(users, actor, userId);
      if UserStore.SelfDelete(actor, userId) {
        outcome := ErrorToast("You cannot delete your own account");
      } else {
        outcome := Toast("Success", "User deleted successfully");
      }
    }
  }

  /** Saving the edit dialog keeps the stored list consistent: the saved record keeps its
      id, and its email is not used by any other record. */
  lemma SaveEditKeepsConsistent(users: seq<User>, f: UserForm)
    requires UserStore.Consistent(users)
    requires f.base.Some?
    requires UserStore.FindEmailClash(users, f.email, Some(f.base.value.id)).None?
    ensures UserStore.Consistent(UserStore.UpdateById(users, f.base.value.id, SaveUserForm(f)))
  {
    UserStore.UpdateKeepsConsistent(users, f.base.value.id, SaveUserForm(f));
  }

  /** Saving the edit dialog of a record writes the edited copy in place of that record:
      the same position, the other rows untouched. */
  lemma SaveEditReplacesRow(users: seq<User>, f: UserForm, k: nat)
    requires UserStore.UniqueIds(users)
    requires f.base.Some? && k < |users| && users[k].id == f.base.value.id
    ensures var r := UserStore.UpdateById(users, f.base.value.id, SaveUserForm(f));
      r == users[k := MergeUser(users[k], f)] && r[k].id == users[k].id
  {
  }

  /** Adding through the dialog keeps the stored list consistent when the new id is fresh. */
  lemma AddKeepsConsistent(users: seq<User>, f: UserForm, freshId: string, now: int)
    requires UserStore.Consistent(users)
    requires UserStore.FindEmailClash(users, f.email, None).None?
    requires UserStore.FindById(users, freshId).None?
    ensures UserStore.Consistent(users + [NewUser(f, freshId, now)])
  {
    UserStore.AppendKeepsConsistent(users, NewUser(f, freshId, now));
  }
}
