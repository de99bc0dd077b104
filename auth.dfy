/** The session context: a mock login against the stored users, logout, and the role
    check that menu entries go through. */
module Auth {
  import opened Wrappers
  import opened Types
  import opened Effects
  import Collections
  import Constants

  /** `isAuthorized(allowedRoles)` evaluated in a session state. */
  function Authorized(state: AuthState, allowedRoles: seq<Role>): (r: bool)
    ensures !state.isAuthenticated || state.user.None? ==> !r
    ensures state.isAuthenticated && state.user.Some? ==> (r <==> state.user.value.role in allowedRoles)
    ensures allowedRoles == [] ==> !r
  {
    state.isAuthenticated && state.user.Some? && state.user.value.role in allowedRoles
  }

  /** The test `login` applies to each stored user: the email matches exactly (case
      matters) and the account is active. */
  function LoginAccepts(u: User, email: string): (r: bool)
    ensures u.status == Inactive ==> !r
    ensures u.email != email ==> !r
    ensures u.email == email && u.status == Active ==> r
  {
    u.email == email && u.status == Active
  }

  /** The user `login` signs in: the first stored user it accepts. The password does not
      take part. */
  function LoginMatch(users: seq<User>, email: string): (r: Option<User>)
    ensures r.Some? <==> exists i :: 0 <= i < |users| && LoginAccepts(users[i], email)
    ensures r.Some? ==> r.value in users && r.value.email == email && r.value.status == Active
    ensures r.Some? ==> exists k :: 0 <= k < |users| && users[k] == r.value &&
                                   forall j :: 0 <= j < k ==> !LoginAccepts(users[j], email)
  {
    var p := (u: User) => LoginAccepts(u, email);
    var r := Collections.Find(users, p);
    if r.Some? then
      var k := Collections.FirstIndex(users, p).value;
      assert users[k] == r.value && forall j :: 0 <= j < k ==> !p(users[j]);
      r
    else r
  }

  /** The state `logout` leaves behind, whatever came before. */
  const SignedOut := AuthState(false, None, false)

  /** The session state after `login(email, password)`. */
  function AfterLogin(state: AuthState, users: seq<User>, email: string): (r: AuthState)
    ensures LoginMatch(users, email).Some? ==>
      r.isAuthenticated && r.user == LoginMatch(users, email) && !r.loading
    ensures LoginMatch(users, email).None? ==> r == state
  {
    match LoginMatch(users, email)
    case Some(u) => AuthState(true, Some(u), false)
    case None => state
  }

  /** An authenticated session belongs to an active user taken from the user list. */
  predicate Sound(state: AuthState, users: seq<User>) {
    state.isAuthenticated ==>
      state.user.Some? && state.user.value in users && state.user.value.status == Active
  }

  /** Login and logout keep a session sound; a successful login makes it sound whatever
      the state was before. */
  lemma LoginLogoutSound(state: AuthState, users: seq<User>, email: string)
    ensures Sound(state, users) ==> Sound(AfterLogin(state, users, email), users)
    ensures LoginMatch(users, email).Some? ==> Sound(AfterLogin(state, users, email), users)
    ensures Sound(SignedOut, users)
  {
  }

  /** An inactive user never becomes the signed-in user through `login`. */
  lemma InactiveNeverSignsIn(state: AuthState, users: seq<User>, email: string, u: User)
    requires u.status == Inactive
    requires state.user != Some(u)
    ensures AfterLogin(state, users, email).user != Some(u)
  {
  }

  /** After logout nothing is authorized; after a successful login exactly the lists
      holding the user's role are. */
  lemma AuthorizedAfterLoginLogout(state: AuthState, users: seq<User>, email: string, allowed: seq<Role>)
    ensures !Authorized(SignedOut, allowed)
    ensures !Authorized(state, [])
    ensures LoginMatch(users, email).Some? ==>
      (Authorized(AfterLogin(state, users, email), allowed) <==> LoginMatch(users, email).value.role in allowed)
  {
  }

  /** The seeded administrator can sign in; the seeded email in other letter case is
      refused, since the match is case-sensitive. */
  lemma SeededLogin()
    ensures AfterLogin(SignedOut, Constants.InitialUsers, "admin@myerssecurity.com").user
      == Some(Constants.InitialUsers[0])
    ensures AfterLogin(SignedOut, Constants.InitialUsers, "ADMIN@myerssecurity.com") == SignedOut
  {
    var users := Constants.InitialUsers;
    assert LoginAccepts(users[0], "admin@myerssecurity.com");
    assert !LoginAccepts(users[0], "ADMIN@myerssecurity.com");
    assert !LoginAccepts(users[1], "ADMIN@myerssecurity.com");
    assert !LoginAccepts(users[2], "ADMIN@myerssecurity.com");
  }

  /** The provider's state: the persisted session and the persisted user list. */
  class AuthProvider {
    var authState: AuthState
    var users: seq<User>

    /** Both slots start from what is stored, or from their defaults: a signed-out session
        that is still loading, and the seeded users. */
    constructor (storedAuth: Option<AuthState>, storedUsers: Option<seq<User>>)
      ensures authState == storedAuth.GetOr(AuthState(false, None, true))
      ensures users == storedUsers.GetOr(Constants.InitialUsers)
    {
      authState := storedAuth.GetOr(AuthState(false, None, true));
      users := storedUsers.GetOr(Constants.InitialUsers);
    }

    method Login(email: string, password: string) returns (ok: bool, outcome: Outcome)
      modifies this`authState
      ensures ok <==> LoginMatch(users, email).Some?
      ensures authState == AfterLogin(old(authState), users, email)
      ensures ok ==> outcome == Toast("Login successful", "Welcome back, " + LoginMatch(users, email).value.name + "!")
      ensures !ok ==> outcome == Outcome(Some(Notice("Login failed", "Invalid email or password", true)), None)
    {
      var found := LoginMatch(users, email);
      if found.Some? {
        authState := AuthState(true, found, false);
        return true, Toast("Login successful", "Welcome back, " + found.value.name + "!");
      }
      return false, Outcome(Some(Notice("Login failed", "Invalid email or password", true)), None);
    }

    method Logout() returns (outcome: Outcome)
      modifies this`authState
      ensures authState == SignedOut
      ensures outcome == Toast("Logged out", "You have been logged out successfully")
    {
      authState := SignedOut;
      outcome := Toast("Logged out", "You have been logged out successfully");
    }

    /** `isAuthorized(allowedRoles)` on the provider's current session. */
    function IsAuthorized(allowedRoles: seq<Role>): (r: bool)
      reads this
      ensures !authState.isAuthenticated || authState.user.None? ==> !r
      ensures authState.isAuthenticated && authState.user.Some? ==>
        (r <==> authState.user.value.role in allowedRoles)
    {
      Authorized(authState, allowedRoles)
    }
  }
}
