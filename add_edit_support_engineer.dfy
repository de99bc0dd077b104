/** The combined page that edits the support engineer named by the route's id, or creates
    one when the route carries no id; its form holds name, email and status only. */
module AddEditSupportEngineerPage {
  import opened Wrappers
  import opened Types
  import opened Effects
  import opened UserForms
  import UserStore

  predicate IsEditing(engineerId: Option<string>) {
    engineerId.Some? && engineerId.value != ""
  }

  /** The form has no role field, so only name, email and status change. */
  function EngineerFormChange(form: UserForm, change: UserChange): (r: UserForm)
    ensures r.role == form.role && r.base == form.base
    ensures !change.SetRole? ==> r == ApplyUserChange(form, change)
  {
    if change.SetRole? then form else ApplyUserChange(form, change)
  }

  class AddEditSupportEngineer {
    const engineerId: Option<string>
    var users: seq<User>
    var form: UserForm

    constructor (stored: Option<seq<User>>, engineerId: Option<string>)
      ensures this.engineerId == engineerId && users == stored.GetOr([]) && form == BlankUserForm
    {
      this.engineerId := engineerId;
      users := stored.GetOr([]);
      form := BlankUserForm;
    }

    method Load() returns (outcome: Outcome)
      modifies this`form
      ensures !IsEditing(engineerId) ==> form == old(form) && outcome == Silent
      ensures IsEditing(engineerId) && UserStore.FindById(users, engineerId.value).Some? ==>
        form == LoadUserForm(UserStore.FindById(users, engineerId.value).value) && outcome == Silent
      ensures IsEditing(engineerId) && UserStore.FindById(users, engineerId.value).None? ==>
        form == old(form) && outcome == ErrorAndGo("Support engineer not found", "/manage-support-engineers")
    {
      outcome := Silent;
      if IsEditing(engineerId) {
        var found := UserStore.FindById(users, engineerId.value);
        if found.Some? {
          form := LoadUserForm(found.value);
        } else {
          outcome := ErrorAndGo("Support engineer not found", "/manage-support-engineers");
        }
      }
    }

    method Change(change: UserChange)
      modifies this`form
      ensures form == EngineerFormChange(old(form), change)
    {
      form := EngineerFormChange(form, change);
    }

    method Submit(freshId: string, now: int) returns (outcome: Outcome)
      modifies this`users
      ensures !UserFilled(form) ==>
        users == old(users) && outcome == ErrorToast("Please fill in all required fields")
      ensures UserFilled(form) && UserStore.FindEmailClash(old(users), form.email, engineerId).Some? ==>
        users == old(users) && outcome == ErrorToast("A user with this email already exists")
      ensures UserFilled(form) && UserStore.FindEmailClash(old(users), form.email, engineerId).None? ==>
        if IsEditing(engineerId) then
          users == UserStore.UpdateById(old(users), engineerId.value, SaveEngineerUserForm(form)) &&
          outcome == ToastAndGo("Success", "Support engineer updated successfully", "/manage-support-engineers")
        else
          users == old(users) + [NewEngineerFromUserForm(form, freshId, now)] &&
          outcome == ToastAndGo("Success", "Support engineer added successfully", "/manage-support-engineers")
    {
      if !UserFilled(form) {
        return ErrorToast("Please fill in all required fields");
      }
      if UserStore.FindEmailClash(users, form.email, engineerId).Some? {
        return ErrorToast("A user with this email already exists");
      }
      if IsEditing(engineerId) {
        users := UserStore.UpdateById(users, engineerId.value, SaveEngineerUserForm(form));
        outcome := ToastAndGo("Success", "Support engineer updated successfully", "/manage-support-engineers");
      } else {
        users := users + [NewEngineerFromUserForm(form, freshId, now)];
        outcome := ToastAndGo("Success", "Support engineer added successfully", "/manage-support-engineers");
      }
    }
  }

  /** Whatever this page saves carries role "user": created records, and every record with
      the edited id. */
  lemma SavedRecordsAreEngineers(users: seq<User>, id: string, form: UserForm, freshId: string, now: int)
    ensures NewEngineerFromUserForm(form, freshId, now).role == UserRole
    ensures var r := UserStore.UpdateById(users, id, SaveEngineerUserForm(form));
      forall i :: 0 <= i < |users| ==> (users[i].id == id ==> r[i].role == UserRole) && (users[i].id != id ==> r[i] == users[i])
  {
  }
}
