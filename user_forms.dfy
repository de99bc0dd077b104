/** The form state of the add and edit pages for users and support engineers, the
    generic `handleChange` that writes one named field, and the records a submitted
    form produces: a new record, or the merge `{...stored, ...formData}` into a stored
    one. */
module UserForms {
  import opened Wrappers
  import opened Types
  import Text
  import Permissions

  /** The user form: the record it was loaded from, if any (`setFormData(userToEdit)`
      copies every field of it), and the four fields the form shows. */
  datatype UserForm = UserForm(base: Option<User>, name: string, email: string, role: Role, status: UserStatus)

  /** The form before anything is loaded: `{name: "", email: "", role: "user", status: "active"}`. */
  const BlankUserForm := UserForm(None, "", "", UserRole, Active)

  /** What one `onChange` event writes: `{...prev, [name]: value}`. */
  datatype UserChange = SetName(name: string) | SetEmail(email: string) | SetRole(role: Role) | SetStatus(status: UserStatus)

  function ApplyUserChange(form: UserForm, change: UserChange): (r: UserForm)
    ensures r.base == form.base
    ensures r.name == (if change.SetName? then change.name else form.name)
    ensures r.email == (if change.SetEmail? then change.email else form.email)
    ensures r.role == (if change.SetRole? then change.role else form.role)
    ensures r.status == (if change.SetStatus? then change.status else form.status)
  {
    match change
    case SetName(n) => form.(name := n)
    case SetEmail(e) => form.(email := e)
    case SetRole(x) => form.(role := x)
    case SetStatus(x) => form.(status := x)
  }

  /** `setFormData(record)`. */
  function LoadUserForm(u: User): (r: UserForm)
    ensures r.base == Some(u)
    ensures r.name == u.name && r.email == u.email && r.role == u.role && r.status == u.status
  {
    UserForm(Some(u), u.name, u.email, u.role, u.status)
  }

  /** `formData.id`: present only once a record is loaded. */
  function FormId(form: UserForm): Option<string> {
    if form.base.Some? then Some(form.base.value.id) else None
  }

  /** `currentUser?.id`. */
  function ActorId(actor: Option<User>): Option<string> {
    if actor.Some? then Some(actor.value.id) else None
  }

  /** `!formData.name || !formData.email` fails. */
  function UserFilled(form: UserForm): (r: bool)
    ensures form.name == "" || form.email == "" ==> !r
    ensures form.name != "" && form.email != "" ==> r
  {
    form.name != "" && form.email != ""
  }

  /** The record an add form creates, with a fresh id and the creation time. The
      `|| "user"` and `|| "active"` defaults never fire, since the selects always hold a
      value. */
  function NewUser(form: UserForm, id: string, now: int): (r: User)
    ensures r.id == id && r.createdAt == now
    ensures r.name == form.name && r.email == form.email && r.role == form.role && r.status == form.status
    ensures r.firstName == "" && r.lastName == "" && r.password == "" && r.phone == ""
  {
    User(id, form.name, form.email, form.role, form.status, now, "", "", "", "")
  }

  /** `{...stored, ...formData}`: the form's four fields win; the other fields come from
      the loaded record when there is one (it was copied into the form whole), and from
      the stored record otherwise. */
  function MergeUser(stored: User, form: UserForm): (r: User)
    ensures r.name == form.name && r.email == form.email && r.role == form.role && r.status == form.status
    ensures form.base.None? ==> r.id == stored.id && r.createdAt == stored.createdAt
    ensures form.base.Some? ==> r.id == form.base.value.id && r.createdAt == form.base.value.createdAt
  {
    form.base.GetOr(stored).(name := form.name, email := form.email, role := form.role, status := form.status)
  }

  /** The rewrite `u => ({...u, ...formData})` applied to the records being saved. */
  function SaveUserForm(form: UserForm): User -> User {
    (u: User) => MergeUser(u, form)
  }

  /** Saving a loaded form unchanged writes back the record it was loaded from. */
  lemma MergeLoadedUnchanged(stored: User, u: User)
    ensures MergeUser(stored, LoadUserForm(u)) == u
  {
  }

  /** Saving a loaded form after one change writes back the loaded record with that one
      field changed. */
  lemma MergeAfterChange(stored: User, u: User, change: UserChange)
    ensures var r := MergeUser(stored, ApplyUserChange(LoadUserForm(u), change));
      match change
      case SetName(n) => r == u.(name := n)
      case SetEmail(e) => r == u.(email := e)
      case SetRole(x) => r == u.(role := x)
      case SetStatus(x) => r == u.(status := x)
  {
  }

  /** `formData.id !== currentUser?.id`: whether the role and status selects are enabled. */
  predicate CanChangeRoleAndStatus(form: UserForm, actor: Option<User>) {
    FormId(form) != ActorId(actor)
  }

  /** A change the form accepts. The role and status selects are disabled while
      `canChange` is false, and the role select offers only `RoleOptions(actor)`; any
      other event cannot occur and leaves the form as it is. */
  function FormChange(form: UserForm, actor: Option<User>, canChange: bool, change: UserChange): (r: UserForm)
    ensures r.base == form.base
    ensures !canChange ==> r.role == form.role && r.status == form.status
    ensures r.role == form.role || r.role in Permissions.RoleOptions(actor)
    ensures change.SetName? || change.SetEmail? ||
            (canChange && (change.SetRole? ==> change.role in Permissions.RoleOptions(actor))) ==>
      r == ApplyUserChange(form, change)
  {
    if (change.SetRole? || change.SetStatus?) && !canChange then form
    else if change.SetRole? && change.role !in Permissions.RoleOptions(actor) then form
    else ApplyUserChange(form, change)
  }

  /** A sequence of change events. */
  function FormChanges(form: UserForm, actor: Option<User>, canChange: bool, changes: seq<UserChange>): (r: UserForm)
    ensures r.base == form.base
    decreases |changes|
  {
    if |changes| == 0 then form
    else FormChanges(FormChange(form, actor, canChange, changes[0]), actor, canChange, changes[1..])
  }

  /** While the selects are disabled, no sequence of events changes role or status. */
  lemma {:induction false} LockedKeepsRoleAndStatus(form: UserForm, actor: Option<User>, changes: seq<UserChange>)
    ensures var r := FormChanges(form, actor, false, changes);
      r.role == form.role && r.status == form.status
    decreases |changes|
  {
    if |changes| > 0 {
      LockedKeepsRoleAndStatus(FormChange(form, actor, false, changes[0]), actor, changes[1..]);
    }
  }

  /** Only an administrator can put the admin role into a form that did not hold it. */
  lemma {:induction false} OnlyAdminGrantsAdmin(form: UserForm, actor: Option<User>, canChange: bool, changes: seq<UserChange>)
    requires !Permissions.CanDelete(actor) && form.role != Admin
    ensures FormChanges(form, actor, canChange, changes).role != Admin
    decreases |changes|
  {
    if |changes| > 0 {
      OnlyAdminGrantsAdmin(FormChange(form, actor, canChange, changes[0]), actor, canChange, changes[1..]);
    }
  }

  /** Whatever is typed into one's own loaded record, saving it keeps one's id, role and
      status. */
  lemma OwnRoleAndStatusLocked(stored: User, actor: User, changes: seq<UserChange>)
    ensures var form := LoadUserForm(actor);
      var r := MergeUser(stored, FormChanges(form, Some(actor), CanChangeRoleAndStatus(form, Some(actor)), changes));
      r.role == actor.role && r.status == actor.status && r.id == actor.id
  {
    assert !CanChangeRoleAndStatus(LoadUserForm(actor), Some(actor));
    LockedKeepsRoleAndStatus(LoadUserForm(actor), Some(actor), changes);
  }

  /** The support-engineer form of the add and edit pages. */
  datatype EngineerForm = EngineerForm(
    base: Option<User>,
    firstName: string,
    lastName: string,
    email: string,
    password: string,
    phone: string,
    status: UserStatus)

  /** `{firstName: "", lastName: "", email: "", password: "", phone: "", role: "user", status: "active"}`. */
  const BlankEngineerForm := EngineerForm(None, "", "", "", "", "", Active)

  datatype EngineerChange =
    | SetFirstName(firstName: string)
    | SetLastName(lastName: string)
    | SetEngineerEmail(email: string)
    | SetPassword(password: string)
    | SetPhone(phone: string)
    | SetEngineerStatus(status: UserStatus)

  function ApplyEngineerChange(form: EngineerForm, change: EngineerChange): (r: EngineerForm)
    ensures r.base == form.base
    ensures r.firstName == (if change.SetFirstName? then change.firstName else form.firstName)
    ensures r.lastName == (if change.SetLastName? then change.lastName else form.lastName)
    ensures r.email == (if change.SetEngineerEmail? then change.email else form.email)
    ensures r.password == (if change.SetPassword? then change.password else form.password)
    ensures r.phone == (if change.SetPhone? then change.phone else form.phone)
    ensures r.status == (if change.SetEngineerStatus? then change.status else form.status)
  {
    match change
    case SetFirstName(x) => form.(firstName := x)
    case SetLastName(x) => form.(lastName := x)
    case SetEngineerEmail(x) => form.(email := x)
    case SetPassword(x) => form.(password := x)
    case SetPhone(x) => form.(phone := x)
    case SetEngineerStatus(x) => form.(status := x)
  }

  function LoadEngineerForm(u: User): (r: EngineerForm)
    ensures r.base == Some(u)
    ensures r.firstName == u.firstName && r.lastName == u.lastName && r.email == u.email
    ensures r.password == u.password && r.phone == u.phone && r.status == u.status
  {
    EngineerForm(Some(u), u.firstName, u.lastName, u.email, u.password, u.phone, u.status)
  }

  /** `` `${firstName} ${lastName}` ``: the two parts around one space, so the first part
      is what comes before the first space whenever it holds no space itself. */
  function FullName(firstName: string, lastName: string): (r: string)
    ensures |r| == |firstName| + 1 + |lastName|
    ensures r[..|firstName|] == firstName && r[|firstName|] == ' ' && r[|firstName| + 1..] == lastName
    ensures ' ' !in firstName ==> FirstNamePart(r) == firstName && LastNamePart(r) == lastName
  {
    var r := firstName + " " + lastName;
    assert r[..|firstName|] == firstName && r[|firstName|] == ' ';
    if ' ' !in firstName then
      var p := FirstNamePart(r);
      assert p == firstName;
      r
    else r
  }

  /** `name.split(' ')[0]`: the text before the first space, or the whole name when it
      has none. */
  function FirstNamePart(name: string): (r: string)
    ensures r <= name && ' ' !in r
    ensures |r| < |name| ==> name[|r|] == ' '
    ensures ' ' !in name ==> r == name
  {
    Text.SplitFirst(name, ' ');
    Text.Split(name, ' ')[0]
  }

  /** `name.split(' ').slice(1).join(' ')`: the text after the first space, or "" when the
      name has none. */
  function LastNamePart(name: string): (r: string)
    ensures ' ' in name ==> r == name[|FirstNamePart(name)| + 1..]
    ensures ' ' !in name ==> r == ""
  {
    Text.SplitFirst(name, ' ');
    Text.Join(Text.Split(name, ' ')[1..], " ")
  }

  /** Splitting a name that contains a space and joining the parts back with a space gives
      the name again; a name without a space is all first name. */
  lemma {:induction false} NameSplitRoundTrip(name: string)
    ensures ' ' in name ==> FullName(FirstNamePart(name), LastNamePart(name)) == name
    ensures ' ' !in name ==> FirstNamePart(name) == name && LastNamePart(name) == ""
  {
    var pieces := Text.Split(name, ' ');
    Text.SplitJoin(name, ' ');
    Text.SplitCount(name, ' ');
    if ' ' in name {
      assert multiset(name)[' '] >= 1;
      assert |pieces| >= 2;
    } else {
      assert multiset(name)[' '] == 0;
      assert |pieces| == 1;
      assert pieces[1..] == [];
    }
  }

  /** The edit page's load step: a record with neither first nor last name but with a
      name gets both from splitting the name (the source writes them into the stored
      record object itself). */
  function WithNameParts(u: User): (r: User)
    ensures u.firstName == "" && u.lastName == "" && u.name != "" ==>
      r == u.(firstName := FirstNamePart(u.name), lastName := LastNamePart(u.name))
    ensures !(u.firstName == "" && u.lastName == "" && u.name != "") ==> r == u
  {
    if u.firstName == "" && u.lastName == "" && u.name != "" then
      u.(firstName := FirstNamePart(u.name), lastName := LastNamePart(u.name))
    else u
  }

  /** Add: `!firstName || !lastName || !email || !password` fails. */
  function EngineerFilledForAdd(form: EngineerForm): (r: bool)
    ensures form.firstName == "" || form.lastName == "" || form.email == "" || form.password == "" ==> !r
    ensures form.firstName != "" && form.lastName != "" && form.email != "" && form.password != "" ==> r
  {
    form.firstName != "" && form.lastName != "" && form.email != "" && form.password != ""
  }

  /** Edit: the password may stay empty. */
  function EngineerFilledForEdit(form: EngineerForm): (r: bool)
    ensures EngineerFilledForAdd(form) ==> r
    ensures form.firstName == "" || form.lastName == "" || form.email == "" ==> !r
    ensures form.firstName != "" && form.lastName != "" && form.email != "" ==> r
  {
    form.firstName != "" && form.lastName != "" && form.email != ""
  }

  /** The new support engineer: role forced to "user", name built from the two parts. */
  function NewEngineer(form: EngineerForm, id: string, now: int): (r: User)
    ensures r.id == id && r.createdAt == now && r.role == UserRole
    ensures r.name == FullName(form.firstName, form.lastName)
    ensures r.firstName == form.firstName && r.lastName == form.lastName && r.email == form.email
    ensures r.password == form.password && r.phone == form.phone && r.status == form.status
  {
    User(id, FullName(form.firstName, form.lastName), form.email, UserRole, form.status, now,
         form.firstName, form.lastName, form.password, form.phone)
  }

  /** `{...stored, ...formData, name: fullName, role: "user"}`. */
  function MergeEngineer(stored: User, form: EngineerForm): (r: User)
    ensures r.name == FullName(form.firstName, form.lastName) && r.role == UserRole
    ensures r.firstName == form.firstName && r.lastName == form.lastName && r.email == form.email
    ensures r.password == form.password && r.phone == form.phone && r.status == form.status
    ensures form.base.None? ==> r.id == stored.id && r.createdAt == stored.createdAt
    ensures form.base.Some? ==> r.id == form.base.value.id && r.createdAt == form.base.value.createdAt
  {
    form.base.GetOr(stored).(firstName := form.firstName, lastName := form.lastName, email := form.email,
                            password := form.password, phone := form.phone, status := form.status,
                            name := FullName(form.firstName, form.lastName), role := UserRole)
  }

  /** The rewrite the edit page applies to the record being saved. */
  function SaveEngineerForm(form: EngineerForm): User -> User {
    (u: User) => MergeEngineer(u, form)
  }

  /** A support engineer stored with only a name that contains a space: loading it and
      saving it unchanged keeps the name and fills in the two parts. */
  lemma EngineerLoadSaveKeepsName(stored: User, u: User)
    requires u.firstName == "" && u.lastName == "" && ' ' in u.name
    ensures var r := MergeEngineer(stored, LoadEngineerForm(WithNameParts(u)));
      r.name == u.name && r.firstName == FirstNamePart(u.name) && r.lastName == LastNamePart(u.name)
  {
    NameSplitRoundTrip(u.name);
  }

  /** The combined support-engineer page: create from name, email and status, edit by
      `{...stored, ...formData, role: "user"}`. */
  function NewEngineerFromUserForm(form: UserForm, id: string, now: int): (r: User)
    ensures r.id == id && r.createdAt == now && r.role == UserRole
    ensures r.name == form.name && r.email == form.email && r.status == form.status
  {
    User(id, form.name, form.email, UserRole, form.status, now, "", "", "", "")
  }

  function MergeEngineerFromUserForm(stored: User, form: UserForm): (r: User)
    ensures r.role == UserRole
    ensures r.name == form.name && r.email == form.email && r.status == form.status
    ensures form.base.None? ==> r.id == stored.id
    ensures form.base.Some? ==> r.id == form.base.value.id
  {
    MergeUser(stored, form).(role := UserRole)
  }

  function SaveEngineerUserForm(form: UserForm): User -> User {
    (u: User) => MergeEngineerFromUserForm(u, form)
  }
}
