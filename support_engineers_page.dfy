/** The support-engineer list: the stored users whose role is "user", searched by name
    (ignoring case), paged, with row deletion for administrators. */
module SupportEngineersPage {
  import opened Wrappers
  import opened Types
  import opened Effects
  import Text
  import Collections
  import Permissions
  import UserStore

  /** A row of the list: role "user" and the search text occurs in the name. The search
      box's hint mentions email too, but the email is not searched. */
  predicate Listed(u: User, search: string) {
    u.role == UserRole && Text.ContainsIgnoreCase(u.name, search)
  }

  function Engineers(users: seq<User>, search: string): (r: seq<User>)
    ensures forall i :: 0 <= i < |r| ==> r[i] in users && r[i].role == UserRole
    ensures forall i :: 0 <= i < |users| && Listed(users[i], search) ==> users[i] in r
    ensures forall i :: 0 <= i < |r| ==> Text.ContainsIgnoreCase(r[i].name, search)
  {
    Collections.Filter(users, (u: User) => Listed(u, search))
  }

  /** With the search cleared every record with role "user" is listed and nothing else. */
  lemma ClearedSearchListsAllEngineers(users: seq<User>)
    ensures Engineers(users, "") == Collections.Filter(users, (u: User) => u.role == UserRole)
    decreases |users|
  {
    if |users| > 0 {
      Text.ContainsEmpty(users[0].name);
      ClearedSearchListsAllEngineers(users[1..]);
    }
  }

  /** Administrators and managers are never listed, whatever the search. */
  lemma StaffNeverListed(users: seq<User>, search: string, u: User)
    requires u.role != UserRole
    ensures u !in Engineers(users, search)
  {
    var r := Engineers(users, search);
    assert forall i :: 0 <= i < |r| ==> r[i] != u;
  }

  class SupportEngineers {
    const actor: Option<User>
    var users: seq<User>
    var search: string
    var currentPage: int
    var itemsPerPage: int

    predicate Valid()
      reads this
    {
      currentPage >= 1 && itemsPerPage >= 1
    }

    function Shown(): seq<User>
      reads this
    {
      Engineers(users, search)
    }

    function TotalPages(): nat
      reads this
      requires Valid()
    {
      Collections.TotalPages(|Shown()|, itemsPerPage)
    }

    function Rows(): seq<User>
      reads this
      requires Valid()
    {
      Collections.PageSlice(Shown(), currentPage, itemsPerPage)
    }

    constructor (stored: Option<seq<User>>, actor: Option<User>)
      ensures this.actor == actor && users == stored.GetOr([])
      ensures search == "" && currentPage == 1 && itemsPerPage == 5
      ensures Valid()
    {
      this.actor := actor;
      users := stored.GetOr([]);
      search := "";
      currentPage := 1;
      itemsPerPage := 5;
    }

    method SetSearch(text: string)
      modifies this`search
      ensures search == text
    {
      search := text;
    }

    /** `resetFilters`. */
    method ResetFilters()
      modifies this`search, this`currentPage
      ensures search == "" && currentPage == 1
      ensures Shown() == Collections.Filter(users, (u: User) => u.role == UserRole)
    {
      search := "";
      currentPage := 1;
      ClearedSearchListsAllEngineers(users);
    }

    method SetItemsPerPage(size: int)
      requires size == 5 || size == 10 || size == 20
      modifies this`itemsPerPage, this`currentPage
      ensures itemsPerPage == size && currentPage == 1
      ensures Valid()
    {
      itemsPerPage := size;
      currentPage := 1;
    }

    method PreviousPage()
      requires Valid()
      modifies this`currentPage
      ensures Valid()
      ensures currentPage == if |Shown()| > 0 then Collections.AfterPrevious(old(currentPage)) else old(currentPage)
    {
      if |Shown()| > 0 {
        currentPage := Collections.AfterPrevious(currentPage);
      }
    }

    method NextPage()
      requires Valid()
      modifies this`currentPage
      ensures Valid()
      ensures currentPage == if |Shown()| > 0 then Collections.AfterNext(old(currentPage), TotalPages()) else old(currentPage)
    {
      if |Shown()| > 0 {
        currentPage := Collections.AfterNext(currentPage, TotalPages());
      }
    }

    /** `handleDeleteUser`, on a row button shown only to administrators. */
    method DeleteEngineer(userId: string) returns (outcome: Outcome)
      modifies this`users
      ensures !Permissions.CanDelete(actor) ==> users == old(users) && outcome == Silent
      ensures Permissions.CanDelete(actor) ==> users == UserStore.GuardedDelete(old(users), actor, userId)
      ensures Permissions.CanDelete(actor) && UserStore.SelfDelete(actor, userId) ==>
        outcome == ErrorToast("You cannot delete your own account")
      ensures Permissions.CanDelete(actor) && !UserStore.SelfDelete(actor, userId) ==>
        outcome == Toast("Success", "Support engineer deleted successfully")
    {
      if !Permissions.CanDelete(actor) {
        return Silent;
      }
      users := UserStore.GuardedDelete(users, actor, userId);
      if UserStore.SelfDelete(actor, userId) {
        outcome := ErrorToast("You cannot delete your own account");
      } else {
        outcome := Toast("Success", "Support engineer deleted successfully");
      }
    }
  }
}
