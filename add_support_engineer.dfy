/** The page that creates a support engineer: a user whose role is always "user". */
module AddSupportEngineerPage {
  import opened Wrappers
  import opened Types
  import opened Effects
  import opened UserForms
  import UserStore
  import Text

  class AddSupportEngineer {
    var users: seq<User>
    var form: EngineerForm

    constructor (stored: Option<seq<User>>)
      ensures users == stored.GetOr([]) && form == BlankEngineerForm
    {
      users := stored.GetOr([]);
      form := BlankEngineerForm;
    }

    method Change(change: EngineerChange)
      modifies this`form
      ensures form == ApplyEngineerChange(old(form), change)
    {
      form := ApplyEngineerChange(form, change);
    }

    /** `handleSubmit`: first name, last name, email and password are required. */
    method Submit(freshId: string, now: int) returns (outcome: Outcome)
      modifies this`users
      ensures !EngineerFilledForAdd(form) ==>
        users == old(users) && outcome == ErrorToast("Please fill in all required fields")
      ensures EngineerFilledForAdd(form) && UserStore.FindEmailClash(old(users), form.email, None).Some? ==>
        users == old(users) && outcome == ErrorToast("A user with this email already exists")
      ensures EngineerFilledForAdd(form) && UserStore.FindEmailClash(old(users), form.email, None).None? ==>
        users == old(users) + [NewEngineer(form, freshId, now)] &&
        outcome == ToastAndGo("Success", "Support engineer added successfully", "/manage-support-engineers")
    {
      if !EngineerFilledForAdd(form) {
        return ErrorToast("Please fill in all required fields");
      }
      if UserStore.FindEmailClash(users, form.email, None).Some? {
        return ErrorToast("A user with this email already exists");
      }
      users := users + [NewEngineer(form, freshId, now)];
      outcome := ToastAndGo("Success", "Support engineer added successfully", "/manage-support-engineers");
    }
  }

  /** A newly added engineer's name splits back into the two parts typed, provided the
      first name has no space of its own. */
  lemma NewEngineerNameSplits(form: EngineerForm, freshId: string, now: int)
    requires ' ' !in form.firstName
    ensures var u := NewEngineer(form, freshId, now);
      FirstNamePart(u.name) == form.firstName && LastNamePart(u.name) == form.lastName
  {
    var name := NewEngineer(form, freshId, now).name;
    var first, last := form.firstName, form.lastName;
    assert name == first + ([' '] + last);
    Text.SplitPrependFree(first, [' '] + last, ' ');
    assert ([' '] + last)[1..] == last;
    var tail := Text.Split(last, ' ');
    assert Text.Split([' '] + last, ' ') == [""] + tail;
    assert Text.Split(name, ' ') == [first + ""] + tail;
    assert first + "" == first;
    assert Text.Split(name, ' ')[1..] == tail;
    Text.SplitJoin(last, ' ');
  }
}
