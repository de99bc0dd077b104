/** The stand-alone page that creates a user. */
module AddUserPage {
  import opened Wrappers
  import opened Types
  import opened Effects
  import opened UserForms
  import Constants
  import UserStore

  class AddUser {
    const actor: Option<User>
    var storedUsers: seq<User>
    var form: UserForm

    /** The stored list, or the page's own fallback seed. */
    constructor (stored: Option<seq<User>>, actor: Option<User>)
      ensures this.actor == actor && storedUsers == stored.GetOr(Constants.UsersData)
      ensures form == BlankUserForm
    {
      this.actor := actor;
      storedUsers := stored.GetOr(Constants.UsersData);
      form := BlankUserForm;
    }

    /** `handleChange`; the admin role is offered only to administrators. */
    method Change(change: UserChange)
      modifies this`form
      ensures form == FormChange(old(form), actor, true, change)
    {
      form := FormChange(form, actor, true, change);
    }

    /** `handleSubmit`: validate, refuse a taken email, else append and go back to the
        list. */
    method Submit(freshId: string, now: int) returns (outcome: Outcome)
      modifies this`storedUsers
      ensures !UserFilled(form) ==>
        storedUsers == old(storedUsers) && outcome == ErrorToast("Please fill in all required fields")
      ensures UserFilled(form) && UserStore.FindEmailClash(old(storedUsers), form.email, None).Some? ==>
        storedUsers == old(storedUsers) && outcome == ErrorToast("A user with this email already exists")
      ensures UserFilled(form) && UserStore.FindEmailClash(old(storedUsers), form.email, None).None? ==>
        storedUsers == old(storedUsers) + [NewUser(form, freshId, now)] &&
        outcome == ToastAndGo("Success", "User added successfully", "/users")
    {
      if !UserFilled(form) {
        return ErrorToast("Please fill in all required fields");
      }
      if UserStore.FindEmailClash(storedUsers, form.email, None).Some? {
        return ErrorToast("A user with this email already exists");
      }
      storedUsers := storedUsers + [NewUser(form, freshId, now)];
      outcome := ToastAndGo("Success", "User added successfully", "/users");
    }
  }

  /** A successful submission is the only way the list grows, and it then grows by the one
      new record, whose email no earlier record used. */
  lemma SubmitAddsOneNewEmail(users: seq<User>, f: UserForm, freshId: string, now: int)
    requires UserFilled(f) && UserStore.FindEmailClash(users, f.email, None).None?
    ensures var r := users + [NewUser(f, freshId, now)];
      |r| == |users| + 1 && r[..|users|] == users &&
      forall i :: 0 <= i < |users| ==> !UserStore.Clashes(users[i], r[|users|].email, None)
  {
  }
}
