/** The stand-alone page that edits one user, chosen by the id in the route. */
module EditUserPage {
  import opened Wrappers
  import opened Types
  import opened Effects
  import opened UserForms
  import Constants
  import UserStore

  class EditUser {
    const actor: Option<User>
    const userId: string
    var storedUsers: seq<User>
    var form: UserForm

    constructor (stored: Option<seq<User>>, actor: Option<User>, userId: string)
      ensures this.actor == actor && this.userId == userId
      ensures storedUsers == stored.GetOr(Constants.UsersData) && form == BlankUserForm
    {
      this.actor := actor;
      this.userId := userId;
      storedUsers := stored.GetOr(Constants.UsersData);
      form := BlankUserForm;
    }

    /** The load effect: copy the record with the route's id into the form, or report it
        missing and go back to the list. */
    method Load() returns (outcome: Outcome)
      modifies this`form
      ensures userId == "" ==> form == old(form) && outcome == Silent
      ensures userId != "" && UserStore.FindById(storedUsers, userId).Some? ==>
        form == LoadUserForm(UserStore.FindById(storedUsers, userId).value) && outcome == Silent
      ensures userId != "" && UserStore.FindById(storedUsers, userId).None? ==>
        form == old(form) && outcome == ErrorAndGo("User not found", "/users")
    {
      outcome := Silent;
      if userId != "" {
        var found := UserStore.FindById(storedUsers, userId);
        if found.Some? {
          form := LoadUserForm(found.value);
        } else {
          outcome := ErrorAndGo("User not found", "/users");
        }
      }
    }

    /** `handleChange`; role and status are locked on one's own record. */
    method Change(change: UserChange)
      modifies this`form
      ensures form == FormChange(old(form), actor, CanChangeRoleAndStatus(old(form), actor), change)
    {
      form := FormChange(form, actor, CanChangeRoleAndStatus(form, actor), change);
    }

    /** `handleSubmit`: validate, refuse an email another record uses, else merge the form
        into the record with the route's id. */
    method Submit() returns (outcome: Outcome)
      modifies this`storedUsers
      ensures !UserFilled(form) ==>
        storedUsers == old(storedUsers) && outcome == ErrorToast("Please fill in all required fields")
      ensures UserFilled(form) && UserStore.FindEmailClash(old(storedUsers), form.email, Some(userId)).Some? ==>
        storedUsers == old(storedUsers) && outcome == ErrorToast("A user with this email already exists")
      ensures UserFilled(form) && UserStore.FindEmailClash(old(storedUsers), form.email, Some(userId)).None? ==>
        storedUsers == UserStore.UpdateById(old(storedUsers), userId, SaveUserForm(form)) &&
        outcome == ToastAndGo("Success", "User updated successfully", "/users")
    {
      if !UserFilled(form) {
        return ErrorToast("Please fill in all required fields");
      }
      if UserStore.FindEmailClash(storedUsers, form.email, Some(userId)).Some? {
        return ErrorToast("A user with this email already exists");
      }
      storedUsers := UserStore.UpdateById(storedUsers, userId, SaveUserForm(form));
      outcome := ToastAndGo("Success", "User updated successfully", "/users");
    }
  }

  /** Loading a record and saving it without changes leaves the stored list as it was. */
  lemma UnchangedSaveIsNoOp(users: seq<User>, id: string)
    requires UserStore.UniqueIds(users)
    requires UserStore.FindById(users, id).Some?
    ensures UserStore.UpdateById(users, id, SaveUserForm(LoadUserForm(UserStore.FindById(users, id).value))) == users
  {
    var u := UserStore.FindById(users, id).value;
    var r := UserStore.UpdateById(users, id, SaveUserForm(LoadUserForm(u)));
    forall i | 0 <= i < |users| ensures r[i] == users[i] {
      if users[i].id == id {
        var k :| 0 <= k < |users| && users[k] == u;
        assert i == k;
        MergeLoadedUnchanged(users[i], u);
      }
    }
  }

  /** On a successful save of a loaded record, the record keeps its place and its id and
      takes the form's four fields; no other record changes. */
  lemma SaveChangesOnlyTheRecord(users: seq<User>, id: string, form: UserForm)
    requires form.base.Some? && form.base.value.id == id
    ensures var r := UserStore.UpdateById(users, id, SaveUserForm(form));
      forall i :: 0 <= i < |users| ==>
        if users[i].id == id then
          r[i].id == id && r[i].name == form.name && r[i].email == form.email &&
          r[i].role == form.role && r[i].status == form.status
        else r[i] == users[i]
  {
  }
}
