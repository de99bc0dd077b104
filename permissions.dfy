/** The role predicates the pages compute from the signed-in user: who may add, edit,
    respond and delete, and which roles a form offers. */
module Permissions {
  import opened Wrappers
  import opened Types
  import Auth

  /** `currentUser?.role === "admin" || currentUser?.role === "manager"`: every page's
      `canEdit` and `canAdd`, `canRespond` on service requests and `canEdit` on the
      knowledge-base view. */
  function CanManage(actor: Option<User>): (r: bool)
    ensures r <==> Auth.Authorized(AuthState(true, actor, false), [Admin, Manager])
  {
    actor.Some? && (actor.value.role == Admin || actor.value.role == Manager)
  }

  /** `currentUser?.role === "admin"`: every page's `canDelete`. */
  function CanDelete(actor: Option<User>): (r: bool)
    ensures r <==> Auth.Authorized(AuthState(true, actor, false), [Admin])
  {
    actor.Some? && actor.value.role == Admin
  }

  /** For a signed-in session the page predicates are role checks against fixed lists. */
  lemma PagePredicatesAreRoleChecks(state: AuthState)
    requires state.isAuthenticated
    ensures CanManage(state.user) <==> Auth.Authorized(state, [Admin, Manager])
    ensures CanDelete(state.user) <==> Auth.Authorized(state, [Admin])
  {
  }

  /** Whoever may delete may also add and edit; nobody without a user may do either. */
  lemma DeleteImpliesManage(actor: Option<User>)
    ensures CanDelete(actor) ==> CanManage(actor)
    ensures actor.None? ==> !CanManage(actor) && !CanDelete(actor)
  {
  }

  /** The role options of the user forms: "user" and "manager" always, "admin" only to an
      administrator. */
  function RoleOptions(actor: Option<User>): (r: seq<Role>)
    ensures UserRole in r && Manager in r
    ensures Admin in r <==> CanDelete(actor)
    ensures |r| == if CanDelete(actor) then 3 else 2
  {
    if actor.Some? && actor.value.role == Admin then [UserRole, Manager, Admin] else [UserRole, Manager]
  }
}
