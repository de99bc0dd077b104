/** The combined page that edits the user named by the route's id, or creates one when
    the route carries no id. */
module AddEditUserPage {
  import opened Wrappers
  import opened Types
  import opened Effects
  import opened UserForms
  import Text
  import UserStore

  /** `Boolean(userId)`. */
  predicate IsEditing(userId: Option<string>) {
    userId.Some? && userId.value != ""
  }

  /** `!isEditing || formData.id !== currentUser?.id`. */
  predicate CanChange(userId: Option<string>, form: UserForm, actor: Option<User>) {
    !IsEditing(userId) || CanChangeRoleAndStatus(form, actor)
  }

  class AddEditUser {
    const actor: Option<User>
    const userId: Option<string>
    var users: seq<User>
    var form: UserForm

    constructor (stored: Option<seq<User>>, actor: Option<User>, userId: Option<string>)
      ensures this.actor == actor && this.userId == userId
      ensures users == stored.GetOr([]) && form == BlankUserForm
    {
      this.actor := actor;
      this.userId := userId;
      users := stored.GetOr([]);
      form := BlankUserForm;
    }

    /** The load effect, only when editing. */
    method Load() returns (outcome: Outcome)
      modifies this`form
      ensures !IsEditing(userId) ==> form == old(form) && outcome == Silent
      ensures IsEditing(userId) && UserStore.FindById(users, userId.value).Some? ==>
        form == LoadUserForm(UserStore.FindById(users, userId.value).value) && outcome == Silent
      ensures IsEditing(userId) && UserStore.FindById(users, userId.value).None? ==>
        form == old(form) && outcome == ErrorAndGo("User not found", "/users")
    {
      outcome := Silent;
      if IsEditing(userId) {
        var found := UserStore.FindById(users, userId.value);
        if found.Some? {
          form := LoadUserForm(found.value);
        } else {
          outcome := ErrorAndGo("User not found", "/users");
        }
      }
    }

    method Change(change: UserChange)
      modifies this`form
      ensures form == FormChange(old(form), actor, CanChange(userId, old(form), actor), change)
    {
      form := FormChange(form, actor, CanChange(userId, form, actor), change);
    }

    /** `handleSubmit`. The duplicate test excludes the route's id when there is one; a
        valid form is merged when editing and appended otherwise, and either way the page
        returns to the list. */
    method Submit(freshId: string, now: int) returns (outcome: Outcome)
      modifies this`users
      ensures !UserFilled(form) ==>
        users == old(users) && outcome == ErrorToast("Please fill in all required fields")
      ensures UserFilled(form) && UserStore.FindEmailClash(old(users), form.email, userId).Some? ==>
        users == old(users) && outcome == ErrorToast("A user with this email already exists")
      ensures UserFilled(form) && UserStore.FindEmailClash(old(users), form.email, userId).None? ==>
        if IsEditing(userId) then
          users == UserStore.UpdateById(old(users), userId.value, SaveUserForm(form)) &&
          outcome == ToastAndGo("Success", "User updated successfully", "/users")
        else
          users == old(users) + [NewUser(form, freshId, now)] &&
          outcome == ToastAndGo("Success", "User added successfully", "/users")
    {
      if !UserFilled(form) {
        return ErrorToast("Please fill in all required fields");
      }
      if UserStore.FindEmailClash(users, form.email, userId).Some? {
        return ErrorToast("A user with this email already exists");
      }
      if IsEditing(userId) {
        users := UserStore.UpdateById(users, userId.value, SaveUserForm(form));
        outcome := ToastAndGo("Success", "User updated successfully", "/users");
      } else {
        users := users + [NewUser(form, freshId, now)];
        outcome := ToastAndGo("Success", "User added successfully", "/users");
      }
    }
  }

  /** Without an id in the route the page behaves as the add page: the duplicate test
      excludes nothing and the role and status selects are enabled. */
  lemma CreateModeExcludesNothing(users: seq<User>, email: string, form: UserForm, actor: Option<User>)
    ensures UserStore.FindEmailClash(users, email, None).Some? <==>
      exists i :: 0 <= i < |users| && Text.EqualsIgnoreCase(users[i].email, email)
    ensures CanChange(None, form, actor)
  {
    if UserStore.FindEmailClash(users, email, None).None? {
      assert forall i :: 0 <= i < |users| ==> !UserStore.Clashes(users[i], email, None);
    }
  }
}
