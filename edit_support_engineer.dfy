/** The page that edits one support engineer, chosen by the id in the route. */
module EditSupportEngineerPage {
  import opened Wrappers
  import opened Types
  import opened Effects
  import opened UserForms
  import UserStore

  class EditSupportEngineer {
    const engineerId: string
    /** The list as the page holds it in memory. */
    var users: seq<User>
    /** The list as written to storage. */
    var persisted: seq<User>
    var form: EngineerForm

    constructor (stored: Option<seq<User>>, engineerId: string)
      ensures this.engineerId == engineerId
      ensures users == stored.GetOr([]) && persisted == users && form == BlankEngineerForm
    {
      this.engineerId := engineerId;
      users := stored.GetOr([]);
      persisted := stored.GetOr([]);
      form := BlankEngineerForm;
    }

    /** The load effect. A record with a name but neither first nor last name gets both
        from splitting the name; the source writes them into the record object inside the
        in-memory list, so the list changes in memory but not in storage. */
    method Load() returns (outcome: Outcome)
      modifies this`form, this`users
      ensures engineerId == "" ==> users == old(users) && form == old(form) && outcome == Silent
      ensures engineerId != "" && UserStore.IndexOfId(old(users), engineerId).Some? ==>
        var k := UserStore.IndexOfId(old(users), engineerId).value;
        users == old(users)[k := WithNameParts(old(users)[k])] &&
        form == LoadEngineerForm(WithNameParts(old(users)[k])) && outcome == Silent
      ensures engineerId != "" && UserStore.IndexOfId(old(users), engineerId).None? ==>
        users == old(users) && form == old(form) &&
        outcome == ErrorAndGo("Support engineer not found", "/manage-support-engineers")
    {
      outcome := Silent;
      if engineerId != "" {
        var found := UserStore.IndexOfId(users, engineerId);
        if found.Some? {
          var k := found.value;
          var fixed := WithNameParts(users[k]);
          users := users[k := fixed];
          form := LoadEngineerForm(fixed);
        } else {
          outcome := ErrorAndGo("Support engineer not found", "/manage-support-engineers");
        }
      }
    }

    method Change(change: EngineerChange)
      modifies this`form
      ensures form == ApplyEngineerChange(old(form), change)
    {
      form := ApplyEngineerChange(form, change);
    }

    /** `handleSubmit`: first name, last name and email are required; the record is merged
        with the name rebuilt from its parts and the role forced to "user". */
    method Submit() returns (outcome: Outcome)
      modifies this`users, this`persisted
      ensures !EngineerFilledForEdit(form) ==>
        users == old(users) && persisted == old(persisted) &&
        outcome == ErrorToast("Please fill in all required fields")
      ensures EngineerFilledForEdit(form) && UserStore.FindEmailClash(old(users), form.email, Some(engineerId)).Some? ==>
        users == old(users) && persisted == old(persisted) &&
        outcome == ErrorToast("A user with this email already exists")
      ensures EngineerFilledForEdit(form) && UserStore.FindEmailClash(old(users), form.email, Some(engineerId)).None? ==>
        users == UserStore.UpdateById(old(users), engineerId, SaveEngineerForm(form)) && persisted == users &&
        outcome == ToastAndGo("Success", "Support engineer updated successfully", "/manage-support-engineers")
    {
      if !EngineerFilledForEdit(form) {
        return ErrorToast("Please fill in all required fields");
      }
      if UserStore.FindEmailClash(users, form.email, Some(engineerId)).Some? {
        return ErrorToast("A user with this email already exists");
      }
      users := UserStore.UpdateById(users, engineerId, SaveEngineerForm(form));
      persisted := users;
      outcome := ToastAndGo("Success", "Support engineer updated successfully", "/manage-support-engineers");
    }
  }

  /** Saving through this page leaves every record with the edited id with role "user",
      whatever role it had: an administrator opened here is demoted. */
  lemma SaveForcesUserRole(users: seq<User>, id: string, form: EngineerForm)
    ensures var r := UserStore.UpdateById(users, id, SaveEngineerForm(form));
      forall i :: 0 <= i < |users| && users[i].id == id ==> r[i].role == UserRole && r[i].name == FullName(form.firstName, form.lastName)
  {
  }

  /** The load step changes at most the first and last names of one record in memory. */
  lemma LoadTouchesOnlyNameParts(users: seq<User>, k: nat)
    requires k < |users|
    ensures var r := users[k := WithNameParts(users[k])];
      |r| == |users| && r[k].id == users[k].id && r[k].name == users[k].name &&
      r[k].email == users[k].email && r[k].role == users[k].role &&
      forall i :: 0 <= i < |users| && i != k ==> r[i] == users[i]
  {
  }
}
