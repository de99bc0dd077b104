# Dispensary admin panel — a Dafny model

This project models the logic of a React admin panel for a chain of dispensaries. Administrators, managers and support engineers sign in. They manage admin users and support engineers, follow service requests from pending through in progress to resolved, keep a list of dispensaries with their own nested requests, read dashboard figures, and maintain a knowledge base of articles.

Everything the panel does happens in page components. Each one holds a stored list and some form, filter and paging state, and its event handlers either leave that state alone or replace it with a newly computed list. The model keeps that shape:

- **Records** are datatypes (`Types`), with the fields the pages actually use. The built-in users, menu and service requests are constants (`Constants`).
- **Page components** are classes. Their fields are the React state the handlers touch. Each handler is a method with a `modifies` frame and returns an `Outcome` (`Effects`): nothing, a toast, an error toast, or a toast followed by navigation.
- **The decisions behind each handler** are pure functions. These are the filter, the duplicate-email test, the merge, the delete guard and the name split. The methods' `ensures` tie the new state to them, and lemmas prove what the pages promise about them.
- **The shared array idioms** are one definition each in `Collections` and `Text`. These are `filter`, `find`, `map` by id, the stable sort, `Math.ceil` paging, `slice`, `split`/`join`, `trim`, `replace` and ASCII case folding.

Modules by source file:

| module | models |
|---|---|
| `Auth` | `src/context/AuthContext.tsx`: the session, mock login and logout, `isAuthorized` |
| `Permissions` | the per-page `canAdd` / `canEdit` / `canDelete` / `canRespond` role predicates and the role options |
| `Sidebar` | `src/components/layout/Sidebar.tsx`: the role-filtered menu, the active item, the user labels |
| `Breadcrumb` | `src/components/layout/Breadcrumb.tsx`: segments, routes, labels, the crumb trail |
| `Theme` | `src/context/ThemeContext.tsx`: the default mode, the toggle, the root's `dark` class |
| `MainLayout` | `src/components/layout/MainLayout.tsx`: the render guard and the sidebar flag |
| `UserStore`, `UserForms` | the user-list operations and the user and engineer forms shared by the user and engineer pages |
| `UsersPage`, `AddUserPage`, `EditUserPage`, `AddEditUserPage` | `src/pages/Users.tsx`, `AddUser.tsx`, `EditUser.tsx`, `AddEditUser.tsx` |
| `SupportEngineersPage`, `AddSupportEngineerPage`, `EditSupportEngineerPage`, `AddEditSupportEngineerPage` | `src/pages/ManageSupportEngineers.tsx`, `AddSupportEngineer.tsx`, `EditSupportEngineer.tsx`, `AddEditSupportEngineer.tsx` |
| `ServiceRequestsPage` | `src/pages/ServiceRequests.tsx` |
| `DispensariesPage` | `src/pages/Dispensaries.tsx` |
| `DashboardPage` | `src/pages/Dashboard.tsx` |
| `KnowledgeBaseStore`, `KnowledgeBasePage`, `AddKnowledgeBaseEntryPage`, `EditKnowledgeBaseEntryPage`, `ViewKnowledgeBaseEntryPage` | `src/pages/KnowledgeBase.tsx`, `AddKnowledgeBaseEntry.tsx`, `EditKnowledgeBaseEntry.tsx`, `ViewKnowledgeBaseEntry.tsx` |

Conventions:

- Ids and timestamps that the source draws from `uuidv4()`, `Date.now()` or `new Date()` are parameters of the methods that need them. Timestamps are integers.
- What a page reads from local storage is a constructor parameter of type `Option`. `None` stands for "nothing stored", and each page's own fallback applies.
- The route's id is a constructor parameter.
- Optional text fields (the engineer's first and last name, password and phone, and the knowledge-base URLs) are strings, with "" for absent. Every test the source applies to them (`!x`, `x || …`, `x && …`) treats `undefined` and `""` alike.
- A click on a button that the page disables or does not render is a no-op.

## Model

| member | source | states |
|---|---|---|
| Auth.LoginMatch | src/context/AuthContext.tsx:38 | a user is found iff some stored user has exactly the given email (case matters) and is active; the one found is the first such user; the password plays no part |
| Auth.LoginAccepts | src/context/AuthContext.tsx:38 | a stored user is accepted iff the email is exactly the one typed (case matters) and the account is active; an inactive account never is |
| Auth.Authorized | src/context/AuthContext.tsx:74-77 | false without an authenticated session holding a user; otherwise true iff the user's role is in the list, so an empty list authorizes no one |
| Auth.AfterLogin | src/context/AuthContext.tsx:38-59 | on a match the session becomes authenticated with that user and stops loading; without one the session is left exactly as it was |
| Auth.LoginLogoutSound | src/context/AuthContext.tsx:38-67 | login and logout keep "an authenticated session holds an active stored user"; a successful login establishes it from any state |
| Auth.InactiveNeverSignsIn | src/context/AuthContext.tsx:38 | an inactive user never becomes the signed-in user through login |
| Auth.AuthorizedAfterLoginLogout | src/context/AuthContext.tsx:42-77 | after logout nothing is authorized and the empty role list authorizes no one; after a successful login a role list authorizes iff it holds the user's role |
| Auth.SeededLogin | src/context/AuthContext.tsx:24-38 | the seeded administrator signs in with the seeded email; the same email in other letter case is refused |
| Auth.AuthProvider.constructor | src/context/AuthContext.tsx:18-24 | the session and the user list start from storage, else a signed-out loading session and the seeded users |
| Auth.AuthProvider.Login | src/context/AuthContext.tsx:35-60 | returns true iff a match exists; the new session is `AfterLogin` of the old one; the success toast greets the user by name, the failure toast is destructive |
| Auth.AuthProvider.Logout | src/context/AuthContext.tsx:62-72 | the session becomes signed out (not authenticated, no user, not loading) whatever it was, with the logout toast |
| Auth.AuthProvider.IsAuthorized | src/context/AuthContext.tsx:74-77 | on the provider's session: false when signed out or without a user, else true iff the role is listed |
| Theme.Flip | src/context/ThemeContext.tsx:28-30 | toggling always changes the mode (light to dark, dark to light) |
| Theme.FlipInvolution | src/context/ThemeContext.tsx:27-31 | toggling twice restores the original mode |
| Theme.ModeAfter | src/context/ThemeContext.tsx:27-31 | after an even number of toggles the mode is the starting one, after an odd number it is flipped |
| Theme.RootClasses | src/context/ThemeContext.tsx:18-25 | the root carries `dark` iff the mode is dark; every other class is untouched |
| Theme.RootClassesIdempotent | src/context/ThemeContext.tsx:18-25 | running the class effect a second time changes nothing |
| Theme.ThemeProvider.constructor | src/context/ThemeContext.tsx:14-25 | the mode is the stored one, else light; the root classes are in step with it |
| Theme.ThemeProvider.ToggleTheme | src/context/ThemeContext.tsx:18-31 | the mode flips and the root's `dark` class follows it, keeping the two in step |
| MainLayout.Render | src/components/layout/MainLayout.tsx:17-50 | the spinner iff the session is loading; a redirect to /login iff not loading and not authenticated; otherwise the frame, with the overlay iff the sidebar is open |
| MainLayout.RenderAfterLoginLogout | src/components/layout/MainLayout.tsx:17-29 | after logout the layout redirects to /login; after a successful login it shows the frame |
| MainLayout.Layout.constructor | src/components/layout/MainLayout.tsx:11 | the sidebar starts closed |
| MainLayout.Layout.ToggleSidebar | src/components/layout/MainLayout.tsx:13-15 | the sidebar flag is negated |
| MainLayout.Layout.CloseSidebar | src/components/layout/MainLayout.tsx:31 | the sidebar's close handler leaves it closed |
| MainLayout.Layout.ClickOverlay | src/components/layout/MainLayout.tsx:38-43 | a click on the overlay closes the sidebar; with no overlay on screen nothing changes |
| Sidebar.VisibleItems | src/components/layout/Sidebar.tsx:22-24 | an entry is shown iff the session authorizes one of its roles; only menu entries are shown |
| Sidebar.VisibleMenu | src/components/layout/Sidebar.tsx:22-24 | the rendered menu holds exactly the entries of the fixed menu whose role lists the session authorizes |
| Sidebar.SignedOutSeesNoMenu | src/components/layout/Sidebar.tsx:22-24 | without an authenticated user no entry is shown |
| Sidebar.VisibleItemsInOrder | src/components/layout/Sidebar.tsx:22-24 | visibility is decided entry by entry, so the shown entries keep the menu's order |
| Sidebar.VisibleSingle | src/components/layout/Sidebar.tsx:22-24 | a single entry is shown iff the session authorizes its roles |
| Sidebar.VisibleFiveByEntry | src/components/layout/Sidebar.tsx:22-24 | a five-entry menu is filtered as the five one-entry menus one after the other |
| Sidebar.MenuRoles | src/lib/constants.ts:4-35 | the menu has five entries with the role lists Dashboard all, Users admin and manager, Dispensaries all, Service Requests all, Settings admin |
| Sidebar.FiveEntryMenu | src/components/layout/Sidebar.tsx:22-24 | for a signed-in role the shown menu is exactly the entries whose lists hold that role, in order |
| Sidebar.AllAdmit | src/components/layout/Sidebar.tsx:22-24 | a five-entry menu whose every entry admits the signed-in role is shown whole |
| Sidebar.AllButLastAdmit | src/components/layout/Sidebar.tsx:22-24 | a five-entry menu whose last entry alone excludes the role is shown without that entry |
| Sidebar.SecondAndLastExclude | src/components/layout/Sidebar.tsx:22-24 | a five-entry menu whose second and last entries exclude the role shows the first, third and fourth |
| Sidebar.AdminMenu | src/components/layout/Sidebar.tsx:22-24 | an administrator sees all five entries |
| Sidebar.ManagerMenu | src/components/layout/Sidebar.tsx:22-24 | a manager sees every entry but Settings |
| Sidebar.UserMenu | src/components/layout/Sidebar.tsx:22-24 | a user sees Dashboard, Dispensaries and Service Requests only |
| Sidebar.AtMostOneActive | src/components/layout/Sidebar.tsx:75 | the menu paths are distinct, so at most one entry is highlighted for any path |
| Sidebar.IsActive | src/components/layout/Sidebar.tsx:75 | an entry is highlighted iff the path is exactly its path; a longer path below it never highlights it |
| Sidebar.NameLabel | src/components/layout/Sidebar.tsx:65 | the user's name when there is one; "User" when no one is signed in or the signed-in user's name is empty |
| Sidebar.RoleLabel | src/components/layout/Sidebar.tsx:68 | the user's role name when signed in, "Role" otherwise |
| Breadcrumb.Segments | src/components/layout/Breadcrumb.tsx:15 | a text is a segment iff it is a non-empty piece of the path split at '/'; no segment holds a '/'; there are at most one more segments than slashes |
| Breadcrumb.RouteTo | src/components/layout/Breadcrumb.tsx:53 | every crumb's link starts with '/' and ends with the crumb's own segment |
| Breadcrumb.DashesToSpaces | src/components/layout/Breadcrumb.tsx:35 | every '-' becomes a space and every other character is kept, at the same length |
| Breadcrumb.Label | src/components/layout/Breadcrumb.tsx:17-38 | "dashboard", "dispensaries" and "service-requests" give "Dashboard", "Dispensaries" and "Service Requests"; "manage-support-engineers" gives "Manage Support Engineers"; both "users" and "manage-admin-users" give "Manage Admin Users"; an unknown segment keeps its length, has its first character upper-cased and every later '-' turned into a space |
| Breadcrumb.UnknownLabel | src/components/layout/Breadcrumb.tsx:32-36 | a non-empty segment without a fixed title is its upper-cased first character followed by the rest with dashes as spaces |
| Breadcrumb.KnowledgeBaseLabel | src/components/layout/Breadcrumb.tsx:32-36 | "knowledge-base" reads "Knowledge base" |
| Breadcrumb.SettingsLabel | src/components/layout/Breadcrumb.tsx:32-36 | "settings" reads "Settings" |
| Breadcrumb.LeadingDashLabel | src/components/layout/Breadcrumb.tsx:32-36 | a leading '-' is kept: "-x" reads "-x" |
| Breadcrumb.Crumbs | src/components/layout/Breadcrumb.tsx:52-79 | one crumb per segment, titled by its label; exactly the last is the current page; every other links to its route |
| Breadcrumb.Trail | src/components/layout/Breadcrumb.tsx:43-79 | Home, linking to /dashboard, comes first, then the crumbs, so there is one entry more than segments |
| Breadcrumb.RouteToSegments | src/components/layout/Breadcrumb.tsx:15-53 | the route of crumb i is a path whose own segments are the first i+1 segments |
| Breadcrumb.SegmentsOfCanonicalPath | src/components/layout/Breadcrumb.tsx:15-53 | the last segment's route has exactly the page's segments, so it is the normalised path |
| Breadcrumb.RootShowsOnlyHome | src/components/layout/Breadcrumb.tsx:15-52 | the path "/" shows Home alone |
| Permissions.PagePredicatesAreRoleChecks | src/pages/Users.tsx:139-141 | in a signed-in session, may-edit is the check against [admin, manager] and may-delete the check against [admin] |
| Permissions.DeleteImpliesManage | src/pages/Users.tsx:139-141 | whoever may delete may edit; without a user neither holds |
| Permissions.CanManage | src/pages/Users.tsx:139 | may add or edit iff isAuthorized with [admin, manager] holds for the signed-in user |
| Permissions.CanDelete | src/pages/Users.tsx:140 | may delete iff isAuthorized with [admin] holds for the signed-in user |
| Permissions.RoleOptions | src/pages/Users.tsx:395-399 | "user" and "manager" are always offered; "admin" iff the signed-in user is an administrator |
| UserStore.FindById | src/pages/EditUser.tsx:27 | nothing is found iff no record has the id; otherwise the result is the first record with that id |
| UserStore.IndexOfId | src/pages/EditUser.tsx:27 | the index of the record `FindById` returns, or none exactly when it returns none |
| UserStore.FindEmailClash | src/pages/Users.tsx:56-97 | a clash is found iff some record other than the excepted one has the email ignoring case |
| UserStore.SeedConsistent | src/lib/data.ts:245-273 | three records with distinct ids and distinct lower-cased emails form a consistent list (the step both seed lemmas below use) |
| UserStore.InitialUsersConsistent | src/lib/data.ts:245-273 | the users the session starts from have unique ids and emails unique ignoring case |
| UserStore.UsersDataConsistent | src/lib/data.ts:4-29 | the add and edit pages' fallback users have unique ids and emails unique ignoring case |
| UserStore.AppendKeepsConsistent | src/pages/Users.tsx:56-78 | appending a record whose email is not taken and whose id is new keeps ids and emails unique |
| UserStore.UpdateById | src/pages/Users.tsx:108-110 | the length is kept; each record with the id is rewritten, every other is unchanged |
| UserStore.UpdateKeepsConsistent | src/pages/Users.tsx:95-110 | rewriting the records with an id keeps the list consistent when the new record keeps the id and clashes with no other email |
| UserStore.RemoveById | src/pages/Users.tsx:130 | no record with the id remains, every other record stays, nothing new appears |
| UserStore.RemoveKeepsConsistent | src/pages/Users.tsx:130 | deleting keeps a consistent list consistent |
| UserStore.RemoveOne | src/pages/Users.tsx:130 | with unique ids, deleting a present id removes exactly one record |
| UserStore.RemoveAt | src/pages/Users.tsx:130 | with unique ids, deleting the id found at index k gives exactly the list without that record, every other record in its place, one shorter |
| UserStore.GuardedDelete | src/pages/Users.tsx:120-131 | deleting one's own id changes nothing; any other id removes every record with it, keeps every record with another id and brings in no new record; the signed-in user's record always survives; consistency is kept |
| UserStore.GuardedDeleteIdempotent | src/pages/Users.tsx:120-131 | deleting the same id a second time changes nothing more |
| UserForms.ApplyUserChange | src/pages/Users.tsx:364-409 | one change event sets its field and leaves every other field and the loaded record as they were |
| UserForms.LoadUserForm | src/pages/Users.tsx:263 | the form holds the record and shows its name, email, role and status |
| UserForms.NewUser | src/pages/Users.tsx:69-76 | the new record has the fresh id, the creation time and the form's four fields; the engineer-only fields are empty |
| UserForms.UserFilled | src/pages/AddUser.tsx:34 | a user form is refused when its name or its email is empty, and accepted for those two fields otherwise |
| UserForms.MergeUser | src/pages/EditUser.tsx:74-75 | the form's four fields win; id and creation time come from the loaded record when there is one, else from the stored record |
| UserForms.MergeLoadedUnchanged | src/pages/EditUser.tsx:27-75 | saving a loaded form unchanged writes back the loaded record |
| UserForms.MergeAfterChange | src/pages/EditUser.tsx:41-75 | saving a loaded form after one change writes the loaded record with just that field changed |
| UserForms.FormChange | src/pages/Users.tsx:484-511 | with role and status locked they stay as they were; a role outside the offered options is never set; every allowed change is applied |
| UserForms.FormChanges | src/pages/Users.tsx:459-511 | a sequence of accepted change events keeps the loaded record |
| UserForms.LockedKeepsRoleAndStatus | src/pages/Users.tsx:487-511 | while the selects are disabled no sequence of events changes role or status |
| UserForms.OnlyAdminGrantsAdmin | src/pages/Users.tsx:395-399 | a non-administrator can never put the admin role into a form that lacks it |
| UserForms.OwnRoleAndStatusLocked | src/pages/Users.tsx:487-511 | whatever is typed into one's own record, the saved record keeps one's id, role and status |
| UsersPage.Filtered | src/pages/Users.tsx:29-36 | a user is listed iff the search occurs in the name or the email ignoring case and the role and status filters, when set, match |
| UsersPage.ClearedFiltersShowAll | src/pages/Users.tsx:29-36 | with every filter cleared the whole list is shown, in stored order |
| UsersPage.Users.constructor | src/pages/Users.tsx:13-26 | the stored users, else none; filters empty; page 1 at 5 per page; no dialog open; a blank add form |
| UsersPage.Users.SetSearch | src/pages/Users.tsx:172 | the search text becomes the new value |
| UsersPage.Users.SetRoleFilter | src/pages/Users.tsx:179 | the role filter becomes the new value |
| UsersPage.Users.SetStatusFilter | src/pages/Users.tsx:189 | the status filter becomes the new value |
| UsersPage.Users.ResetFilters | src/pages/Users.tsx:47-52 | all three filters clear and the page returns to 1, so the whole list is shown |
| UsersPage.Users.SetItemsPerPage | src/pages/Users.tsx:308-317 | the page size becomes 5, 10 or 20 and the page returns to 1 |
| UsersPage.Users.PreviousPage | src/pages/Users.tsx:300-322 | the page drops by one unless it is 1; nothing changes while no row matches |
| UsersPage.Users.NextPage | src/pages/Users.tsx:300-332 | the page rises by one unless it equals the page count or there are no pages; nothing changes while no row matches |
| UsersPage.Users.OpenAddDialog | src/pages/Users.tsx:152-154 | the dialog opens iff the user may add |
| UsersPage.Users.CloseAddDialog | src/pages/Users.tsx:349 | the dialog closes |
| UsersPage.Users.ChangeNewUser | src/pages/Users.tsx:364-409 | the add form takes the change; the admin role only from an administrator |
| UsersPage.Users.AddUser | src/pages/Users.tsx:55-90 | with the dialog closed or name or email empty nothing happens; a taken email (ignoring case) is refused with no change; otherwise the new user is appended, the form resets and the dialog closes |
| UsersPage.Users.StartEdit | src/pages/Users.tsx:261-263 | the edit dialog opens on a copy of the row iff the user may edit |
| UsersPage.Users.CancelEdit | src/pages/Users.tsx:444 | the edit dialog closes |
| UsersPage.Users.ChangeEditing | src/pages/Users.tsx:459-511 | the edited copy takes the change, with role and status locked on one's own record |
| UsersPage.Users.UpdateUser | src/pages/Users.tsx:92-118 | with no dialog or an empty name or email nothing happens; an email used by another record is refused with no change; otherwise the records with the id are replaced and the dialog closes |
| UsersPage.Users.DeleteUser | src/pages/Users.tsx:120-136 | for a non-administrator nothing happens; for an administrator the guarded delete runs, with the error toast on one's own id and the success toast otherwise |
| UsersPage.SaveEditKeepsConsistent | src/pages/Users.tsx:95-112 | saving the edit dialog keeps ids and emails unique |
| UsersPage.SaveEditReplacesRow | src/pages/Users.tsx:108-110 | with unique ids, saving replaces exactly the edited row, in place, with its id kept |
| UsersPage.AddKeepsConsistent | src/pages/Users.tsx:56-78 | adding through the dialog with a fresh id keeps ids and emails unique |
| AddUserPage.AddUser.constructor | src/pages/AddUser.tsx:16-23 | the stored users, else the page's own fallback seed; a blank form |
| AddUserPage.AddUser.Change | src/pages/AddUser.tsx:25-28 | the form takes the change; the admin role only from an administrator |
| AddUserPage.AddUser.Submit | src/pages/AddUser.tsx:30-77 | an empty name or email is refused with no change; an email already stored (ignoring case) is refused with no change; otherwise the new user is appended and the page returns to /users |
| AddUserPage.SubmitAddsOneNewEmail | src/pages/AddUser.tsx:44-68 | a successful submission grows the list by exactly one record at the end, whose email no earlier record used |
| EditUserPage.EditUser.constructor | src/pages/EditUser.tsx:16-23 | the stored users, else the fallback seed; a blank form |
| EditUserPage.EditUser.Load | src/pages/EditUser.tsx:25-39 | with no route id nothing happens; a known id fills the form from the first record with it; an unknown id gives the error "User not found" and a redirect to /users, with the form unchanged |
| EditUserPage.EditUser.Change | src/pages/EditUser.tsx:41-88 | the form takes the change; role and status are locked on one's own record |
| EditUserPage.EditUser.Submit | src/pages/EditUser.tsx:46-85 | an empty name or email is refused; an email used by a record with another id is refused; otherwise the form is merged into the records with the route id and the page returns to /users |
| EditUserPage.UnchangedSaveIsNoOp | src/pages/EditUser.tsx:27-75 | with unique ids, loading a record and saving it untouched leaves the list as it was |
| EditUserPage.SaveChangesOnlyTheRecord | src/pages/EditUser.tsx:74-75 | saving a loaded form changes only the record with the id, which keeps its id and takes the four form fields |
| AddEditUserPage.AddEditUser.constructor | src/pages/AddEditUser.tsx:17-24 | the stored users, else none; a blank form |
| AddEditUserPage.AddEditUser.Load | src/pages/AddEditUser.tsx:26-40 | only when editing: a known id fills the form, an unknown id gives "User not found" and a redirect to /users |
| AddEditUserPage.AddEditUser.Change | src/pages/AddEditUser.tsx:42-45 | the form takes the change; role and status are locked only when editing one's own record |
| AddEditUserPage.AddEditUser.Submit | src/pages/AddEditUser.tsx:47-102 | the same refusals as the two separate pages; a valid form is merged into the record when editing and appended otherwise, then the page returns to /users |
| AddEditUserPage.CreateModeExcludesNothing | src/pages/AddEditUser.tsx:61-105 | without a route id the duplicate test is against every record and the selects are enabled |
| SupportEngineersPage.Engineers | src/pages/ManageSupportEngineers.tsx:20-23 | only records with role "user" whose name holds the search (ignoring case) are listed, and every such record is; the email is not searched |
| SupportEngineersPage.ClearedSearchListsAllEngineers | src/pages/ManageSupportEngineers.tsx:20-23 | with the search cleared the list is exactly the records with role "user", in order |
| SupportEngineersPage.StaffNeverListed | src/pages/ManageSupportEngineers.tsx:21 | administrators and managers are never listed, whatever the search |
| SupportEngineersPage.SupportEngineers.constructor | src/pages/ManageSupportEngineers.tsx:14-17 | the stored users, else none; empty search; page 1 at 5 per page |
| SupportEngineersPage.SupportEngineers.SetSearch | src/pages/ManageSupportEngineers.tsx:91 | the search text becomes the new value |
| SupportEngineersPage.SupportEngineers.ResetFilters | src/pages/ManageSupportEngineers.tsx:34-37 | the search clears and the page returns to 1, so every "user" record is listed |
| SupportEngineersPage.SupportEngineers.SetItemsPerPage | src/pages/ManageSupportEngineers.tsx:194-203 | the page size becomes 5, 10 or 20 and the page returns to 1 |
| SupportEngineersPage.SupportEngineers.PreviousPage | src/pages/ManageSupportEngineers.tsx:186-208 | the page drops by one unless it is 1; nothing changes while no row matches |
| SupportEngineersPage.SupportEngineers.NextPage | src/pages/ManageSupportEngineers.tsx:186-218 | the page rises by one unless it equals the page count or there are no pages; nothing changes while no row matches |
| SupportEngineersPage.SupportEngineers.DeleteEngineer | src/pages/ManageSupportEngineers.tsx:39-55 | for a non-administrator nothing happens; otherwise the guarded delete runs, refusing one's own id with the error toast |
| AddSupportEngineerPage.AddSupportEngineer.constructor | src/pages/AddSupportEngineer.tsx:13-23 | the stored users, else none; a blank engineer form |
| AddSupportEngineerPage.AddSupportEngineer.Change | src/pages/AddSupportEngineer.tsx:25-28 | the form takes the change |
| AddSupportEngineerPage.AddSupportEngineer.Submit | src/pages/AddSupportEngineer.tsx:30-82 | first name, last name, email and password are required; a stored email (ignoring case) is refused; otherwise the engineer with role "user" and the joined name is appended and the page returns to the list |
| AddSupportEngineerPage.NewEngineerNameSplits | src/pages/AddSupportEngineer.tsx:58-63 | the stored name splits back into the two parts typed when the first name has no space |
| EditSupportEngineerPage.EditSupportEngineer.constructor | src/pages/EditSupportEngineer.tsx:13-23 | the stored users, else none, equal in memory and in storage; a blank form |
| EditSupportEngineerPage.EditSupportEngineer.Load | src/pages/EditSupportEngineer.tsx:25-46 | a known id fills the form from the record, first giving a record with only a name its two parts in memory, not in storage; an unknown id gives "Support engineer not found" and a redirect |
| EditSupportEngineerPage.EditSupportEngineer.Change | src/pages/EditSupportEngineer.tsx:48-51 | the form takes the change |
| EditSupportEngineerPage.EditSupportEngineer.Submit | src/pages/EditSupportEngineer.tsx:53-100 | first name, last name and email are required; an email used by another id is refused; otherwise the records with the id are merged with the rebuilt name and role "user" and written to storage |
| EditSupportEngineerPage.SaveForcesUserRole | src/pages/EditSupportEngineer.tsx:84-90 | every saved record has role "user" and the joined name, whatever role it had |
| EditSupportEngineerPage.LoadTouchesOnlyNameParts | src/pages/EditSupportEngineer.tsx:30-34 | the load step changes at most the first and last name of one record in memory |
| AddEditSupportEngineerPage.EngineerFormChange | src/pages/AddEditSupportEngineer.tsx:40-43 | the form has no role field, so the role never changes; every other change is applied |
| AddEditSupportEngineerPage.AddEditSupportEngineer.constructor | src/pages/AddEditSupportEngineer.tsx:15-22 | the stored users, else none; a blank form |
| AddEditSupportEngineerPage.AddEditSupportEngineer.Load | src/pages/AddEditSupportEngineer.tsx:24-38 | only when editing: a known id fills the form, an unknown id gives "Support engineer not found" and a redirect |
| AddEditSupportEngineerPage.AddEditSupportEngineer.Change | src/pages/AddEditSupportEngineer.tsx:40-43 | the form takes the change, the role excepted |
| AddEditSupportEngineerPage.AddEditSupportEngineer.Submit | src/pages/AddEditSupportEngineer.tsx:45-100 | name and email are required; a clashing email is refused; editing merges with role "user", creating appends a record with role "user" |
| AddEditSupportEngineerPage.SavedRecordsAreEngineers | src/pages/AddEditSupportEngineer.tsx:74-91 | created records and every record saved under the id carry role "user"; other records are untouched |
| UserForms.ApplyEngineerChange | src/pages/AddSupportEngineer.tsx:25-28 | one change event sets its field and leaves the rest |
| UserForms.LoadEngineerForm | src/pages/EditSupportEngineer.tsx:36 | the form holds the record and shows its six engineer fields |
| UserForms.NameSplitRoundTrip | src/pages/EditSupportEngineer.tsx:31-33 | a name with a space splits into parts that join back to it; a name without one is all first name |
| UserForms.WithNameParts | src/pages/EditSupportEngineer.tsx:30-34 | a record with a name but no first or last name gets both from the split; any other record is unchanged |
| UserForms.NewEngineer | src/pages/AddSupportEngineer.tsx:58-72 | the new record has role "user", the joined name, the fresh id and time, and the form's fields |
| UserForms.FullName | src/pages/AddSupportEngineer.tsx:58 | the first name, one space, the last name; when the first name has no space, splitting the result gives the two parts back |
| UserForms.FirstNamePart | src/pages/EditSupportEngineer.tsx:32 | the text before the first space of the name (the whole name when it has none): a space-free prefix followed by a space or the end |
| UserForms.LastNamePart | src/pages/EditSupportEngineer.tsx:33 | the text after the first space of the name, with later spaces kept; "" when the name has no space |
| UserForms.EngineerFilledForAdd | src/pages/AddSupportEngineer.tsx:34 | an add form is refused when first name, last name, email or password is empty |
| UserForms.EngineerFilledForEdit | src/pages/EditSupportEngineer.tsx:57 | an edit form is refused when first name, last name or email is empty; the password is optional, so every form fit to add is fit to save |
| UserForms.MergeEngineer | src/pages/EditSupportEngineer.tsx:80-90 | the form's fields win, the name is rebuilt and the role is "user"; id and time come from the loaded record |
| UserForms.EngineerLoadSaveKeepsName | src/pages/EditSupportEngineer.tsx:30-90 | loading a name-only record with a space and saving it unchanged keeps the name and fills in its parts |
| UserForms.NewEngineerFromUserForm | src/pages/AddEditSupportEngineer.tsx:84-91 | the created record has role "user" and the form's name, email and status |
| UserForms.MergeEngineerFromUserForm | src/pages/AddEditSupportEngineer.tsx:74-76 | the merged record has role "user" and the form's name, email and status |
| ServiceRequestsPage.Filtered | src/pages/ServiceRequests.tsx:153-160 | exactly the requests whose title or description holds the search (ignoring case) and whose status and priority match the chosen filters are kept |
| ServiceRequestsPage.ClearedFiltersKeepAll | src/pages/ServiceRequests.tsx:153-181 | with search, status and priority cleared every request is kept, in order |
| ServiceRequestsPage.SortNewestFirst | src/pages/ServiceRequests.tsx:163-165 | the result is ordered newest first, is a rearrangement of the filtered requests, and keeps requests created at the same instant in their previous order |
| ServiceRequestsPage.AddResponse | src/pages/ServiceRequests.tsx:191-205 | the note is appended to the request's notes, a pending request moves to in progress, any other status stays, and nothing else changes |
| ServiceRequestsPage.WithStatus | src/pages/ServiceRequests.tsx:221-227 | the request takes the new status; resolving stamps the time and any other status keeps the old stamp; nothing else changes |
| ServiceRequestsPage.RespondAll | src/pages/ServiceRequests.tsx:190-207 | only requests with the answered id get the note; ids and length are kept, and every resolved request stays stamped |
| ServiceRequestsPage.UpdateStatusAll | src/pages/ServiceRequests.tsx:220-229 | only requests with the id take the status; ids and length are kept, and every resolved request stays stamped |
| ServiceRequestsPage.StaticStamped | src/pages/ServiceRequests.tsx:33-129 | every resolved request of the built-in list carries its resolution time |
| ServiceRequestsPage.StatusActions | src/pages/ServiceRequests.tsx:549-564 | no status button appears for a resolved request or a user who may not respond; "Mark as In Progress" appears only while pending; "Mark as Resolved" otherwise; every button moves the request strictly forward |
| ServiceRequestsPage.InProgressMessage | src/pages/ServiceRequests.tsx:240-243 | the toast for in progress reads "Service request status updated to in progress" |
| ServiceRequestsPage.StatusMessage | src/pages/ServiceRequests.tsx:242 | the toast is the fixed prefix plus a text as long as the status name; for a status without a dash that text is the name itself |
| ServiceRequestsPage.Capitalize | src/pages/ServiceRequests.tsx:282 | the word keeps its length and its first character is upper-cased, the rest unchanged |
| ServiceRequestsPage.CapitalizeAll | src/pages/ServiceRequests.tsx:282 | each word is capitalized in place |
| ServiceRequestsPage.FormatJoined | src/pages/ServiceRequests.tsx:281-283 | a dashed name of dash-free words reads as those words capitalized and joined with spaces |
| ServiceRequestsPage.FormatStatus | src/pages/ServiceRequests.tsx:281-283 | a name without a dash is just capitalized |
| ServiceRequestsPage.AuthorName | src/pages/ServiceRequests.tsx:250-253 | an unknown author id reads "Unknown User"; a stored one reads the name of the first user with that id |
| ServiceRequestsPage.ServiceRequests.constructor | src/pages/ServiceRequests.tsx:138-150 | the built-in requests, empty filters, page 1 at 10 per page, no dialog open, an empty note |
| ServiceRequestsPage.ServiceRequests.SetSearch | src/pages/ServiceRequests.tsx:320 | the search text becomes the new value |
| ServiceRequestsPage.ServiceRequests.SetStatusFilter | src/pages/ServiceRequests.tsx:326-327 | the status filter becomes the chosen value |
| ServiceRequestsPage.ServiceRequests.SetPriorityFilter | src/pages/ServiceRequests.tsx:336-337 | the priority filter becomes the chosen value |
| ServiceRequestsPage.ServiceRequests.ResetFilters | src/pages/ServiceRequests.tsx:176-181 | filters clear and the page returns to 1, so all requests are shown newest first |
| ServiceRequestsPage.ServiceRequests.SetItemsPerPage | src/pages/ServiceRequests.tsx:446-450 | the page size becomes 5, 10 or 20 and the page returns to 1 |
| ServiceRequestsPage.ServiceRequests.PreviousPage | src/pages/ServiceRequests.tsx:437-459 | the page drops by one unless it is 1; nothing changes while no request matches |
| ServiceRequestsPage.ServiceRequests.NextPage | src/pages/ServiceRequests.tsx:437-469 | the page rises by one unless it equals the page count or there are no pages; nothing changes while no request matches |
| ServiceRequestsPage.ServiceRequests.ViewRow | src/pages/ServiceRequests.tsx:400 | the detail view opens on the row's request |
| ServiceRequestsPage.ServiceRequests.CloseView | src/pages/ServiceRequests.tsx:486 | the detail view closes |
| ServiceRequestsPage.ServiceRequests.RespondToRow | src/pages/ServiceRequests.tsx:406-408 | the response dialog opens on the row's request only for those who may respond |
| ServiceRequestsPage.ServiceRequests.RespondFromView | src/pages/ServiceRequests.tsx:549-572 | "Add Response" moves an unresolved viewed request to the response dialog, for those who may respond; otherwise nothing changes |
| ServiceRequestsPage.ServiceRequests.CloseResponse | src/pages/ServiceRequests.tsx:598 | the response dialog closes |
| ServiceRequestsPage.ServiceRequests.SetNote | src/pages/ServiceRequests.tsx:616 | the note becomes the typed text |
| ServiceRequestsPage.ServiceRequests.SubmitResponse | src/pages/ServiceRequests.tsx:187-217 | nothing happens without an open dialog, a non-blank note or a signed-in user; otherwise the note signed by the user is appended, the note clears, the dialog closes, and "Response Added" is shown |
| ServiceRequestsPage.ServiceRequests.ChangeStatus | src/pages/ServiceRequests.tsx:219-244 | a status with no button does nothing; otherwise the requests with the viewed id take it, the view shows the updated record, and the toast names the status |
| ServiceRequestsPage.StatusOnlyMovesForward | src/pages/ServiceRequests.tsx:219-229 | a status change through the buttons never moves a request back and never touches a resolved one |
| DispensariesPage.ApplyDispensaryChange | src/pages/Dispensaries.tsx:53-59 | a name or address input, or a category or status select, sets that one field and leaves the rest of the form |
| DispensariesPage.NewDispensary | src/pages/Dispensaries.tsx:61-67 | the stored record is the form exactly, with the supplied id and creation time |
| DispensariesPage.NewRequestFor | src/pages/Dispensaries.tsx:85-93 | the filed request is pending, medium priority, has no notes or resolution time, belongs to the dispensary and is titled "Service Request for" its name |
| DispensariesPage.WithRequest | src/pages/Dispensaries.tsx:95-101 | only dispensaries with the id get the request, at the end of their list; the rest and the order are untouched |
| DispensariesPage.SetStatusIn | src/pages/Dispensaries.tsx:114-129 | only requests with the id take the status; the length is kept |
| DispensariesPage.SetStatusEverywhere | src/pages/Dispensaries.tsx:113-121 | every dispensary keeps its fields and order and has its own request list rewritten |
| DispensariesPage.WithRequestCounts | src/pages/Dispensaries.tsx:95-101 | for any test on requests, the dashboard's count grows by the number of dispensaries with the id when the new request passes, and is unchanged otherwise |
| DispensariesPage.CountOwnId | src/pages/Dispensaries.tsx:95-101 | with unique ids the id of a stored dispensary is held by exactly one dispensary |
| DispensariesPage.FilingCountsOnce | src/pages/Dispensaries.tsx:84-110 | filing a request raises the dashboard's total and its pending count by one each and leaves the in-progress and resolved counts alone |
| DispensariesPage.SetStatusFlattens | src/pages/Dispensaries.tsx:113-121 | changing a status on the stored dispensaries equals changing it on the dashboard's flattened list |
| DispensariesPage.SetStatusKeepsResolvedAt | src/pages/Dispensaries.tsx:116 | a status change here never stamps or clears a resolution time and changes nothing but the status |
| DispensariesPage.Dispensaries.constructor | src/pages/Dispensaries.tsx:40-51 | the stored list, else none; a blank form; both dialogs closed; no requests listed |
| DispensariesPage.Dispensaries.SetOpen | src/pages/Dispensaries.tsx:140 | the add dialog opens or closes |
| DispensariesPage.Dispensaries.ChangeForm | src/pages/Dispensaries.tsx:161-197 | the form takes the change |
| DispensariesPage.Dispensaries.AddDispensary | src/pages/Dispensaries.tsx:61-82 | no field is checked; the form is appended with the supplied id and time, the form resets, the dialog closes, and the toast names the dispensary |
| DispensariesPage.Dispensaries.ViewRequests | src/pages/Dispensaries.tsx:238-241 | the dialog opens on the row's dispensary and lists its requests |
| DispensariesPage.Dispensaries.CloseRequests | src/pages/Dispensaries.tsx:254-307 | the requests dialog closes |
| DispensariesPage.Dispensaries.AddServiceRequest | src/pages/Dispensaries.tsx:84-110 | the request is stored under the dispensary, the dialog opens on the record as it was before, the dialog's list gains the request after whatever it held, and the toast names the dispensary |
| DispensariesPage.Dispensaries.UpdateRequestStatus | src/pages/Dispensaries.tsx:112-133 | the stored requests and the dialog's copy with that id both take the status, and the toast names it |
| DashboardPage.ActiveUsers | src/pages/Dashboard.tsx:69 | the active count never exceeds the user count, and equals it exactly when every user is active |
| DashboardPage.AllRequestsConcat | src/pages/Dashboard.tsx:71 | the flattened list comes dispensary by dispensary, in order |
| DashboardPage.AllRequests | src/pages/Dashboard.tsx:71 | every request of every dispensary is in the flattened list |
| DashboardPage.AllRequestsMembers | src/pages/Dashboard.tsx:71 | a request is on the dashboard exactly when some dispensary holds it |
| DashboardPage.RequestCount | src/pages/Dashboard.tsx:72-95 | a status count never exceeds the number of requests |
| DashboardPage.RequestCountsSum | src/pages/Dashboard.tsx:72-97 | the pending, in-progress and resolved counts add up to the number of requests |
| DashboardPage.DispensaryCount | src/pages/Dashboard.tsx:100-102 | a status count never exceeds the number of dispensaries |
| DashboardPage.DispensaryCountsSum | src/pages/Dashboard.tsx:99-103 | the open, under-maintenance and closed counts add up to the number of dispensaries |
| DashboardPage.CardStats | src/pages/Dashboard.tsx:68-73 | the total card is the user count, the active card never exceeds it, and the pending and resolved cards together never exceed the requests |
| DashboardPage.RequestsByStatus | src/pages/Dashboard.tsx:93-97 | three bars named Pending, In Progress and Resolved count every request once, and the first and last repeat the stat cards |
| DashboardPage.DispensaryStatusData | src/pages/Dashboard.tsx:99-103 | three bars named Open, Under Maintenance and Closed count every dispensary once |
| KnowledgeBaseStore.FindEntry | src/pages/EditKnowledgeBaseEntry.tsx:28 | nothing is found iff no entry has the id; otherwise the first entry with the id |
| KnowledgeBaseStore.FindUnique | src/pages/ViewKnowledgeBaseEntry.tsx:23 | with unique ids, looking up an entry's id finds that entry |
| KnowledgeBaseStore.RemoveEntry | src/pages/KnowledgeBase.tsx:57 | nothing with the id remains, every other entry stays, and nothing new appears |
| KnowledgeBaseStore.RemoveAbsent | src/pages/KnowledgeBase.tsx:57 | deleting an id no entry has changes nothing |
| KnowledgeBaseStore.RemoveAtIndex | src/pages/KnowledgeBase.tsx:57 | with unique ids, deleting an entry's id cuts out that one entry and keeps the rest in order |
| KnowledgeBaseStore.RemoveIdempotent | src/pages/KnowledgeBase.tsx:56-63 | deleting twice is deleting once, and deleting keeps ids unique |
| KnowledgeBaseStore.ApplyKbChange | src/pages/AddKnowledgeBaseEntry.tsx:26-31 | one change event sets its field and leaves every other field and the loaded entry as they were |
| KnowledgeBaseStore.ApplyKbChanges | src/pages/EditKnowledgeBaseEntry.tsx:42-47 | any run of change events keeps the loaded entry |
| KnowledgeBaseStore.TextOnlyKeepsSelects | src/pages/AddKnowledgeBaseEntry.tsx:16-31 | events that touch neither select leave category and status as they were |
| KnowledgeBaseStore.NewEntry | src/pages/AddKnowledgeBaseEntry.tsx:47-57 | the new entry has the fresh id and time and every shown field of the form, the URLs as typed |
| KnowledgeBaseStore.KbFilled | src/pages/AddKnowledgeBaseEntry.tsx:37 | an entry form is refused when its title or its description is empty; the URLs are never required |
| KnowledgeBaseStore.AppendEntry | src/pages/AddKnowledgeBaseEntry.tsx:59 | the new entry goes last and the earlier entries stay in place; a fresh id keeps the ids unique |
| KnowledgeBaseStore.LoadKbForm | src/pages/EditKnowledgeBaseEntry.tsx:29-30 | the form holds the entry and shows its seven fields |
| KnowledgeBaseStore.MergeEntry | src/pages/EditKnowledgeBaseEntry.tsx:64 | the form's seven fields win; id and creation time come from the loaded entry, else from the stored one |
| KnowledgeBaseStore.UpdateEntry | src/pages/EditKnowledgeBaseEntry.tsx:63-65 | only entries with the id are merged with the form; the length is kept |
| KnowledgeBaseStore.SaveLoadedEntry | src/pages/EditKnowledgeBaseEntry.tsx:28-30 | with unique ids, saving a form loaded from an entry rewrites that entry alone, keeping its id and creation time, and the ids stay unique |
| KnowledgeBaseStore.MergeLoadedUnchanged | src/pages/EditKnowledgeBaseEntry.tsx:63-65 | saving a loaded form unchanged writes back the entry it was loaded from |
| KnowledgeBasePage.Filtered | src/pages/KnowledgeBase.tsx:32-38 | exactly the entries whose title holds the search (ignoring case) and whose category and status match the chosen filters are kept |
| KnowledgeBasePage.ClearedFiltersShowAll | src/pages/KnowledgeBase.tsx:32-38 | with every filter cleared all entries are listed, in stored order |
| KnowledgeBasePage.EntryActions | src/pages/KnowledgeBase.tsx:176-199 | View always comes first; Edit is offered iff the user is an administrator or manager, Delete iff an administrator |
| KnowledgeBasePage.ActionPath | src/pages/KnowledgeBase.tsx:176-190 | View leads to /knowledge-base/view/ and Edit to /knowledge-base/edit/ followed by the id; Delete is no link |
| KnowledgeBasePage.DeleteKeepsOtherRows | src/pages/KnowledgeBase.tsx:32-38 | after a delete no row that did not match before appears, the deleted id is gone, and every other matching entry stays listed |
| KnowledgeBasePage.KnowledgeBase.constructor | src/pages/KnowledgeBase.tsx:24-29 | the stored entries, else none; empty filters; page 1 at 5 per page |
| KnowledgeBasePage.KnowledgeBase.SetSearch | src/pages/KnowledgeBase.tsx:100 | the search text becomes the new value |
| KnowledgeBasePage.KnowledgeBase.SetCategoryFilter | src/pages/KnowledgeBase.tsx:107 | the category filter becomes the chosen value |
| KnowledgeBasePage.KnowledgeBase.SetStatusFilter | src/pages/KnowledgeBase.tsx:117 | the status filter becomes the chosen value |
| KnowledgeBasePage.KnowledgeBase.ResetFilters | src/pages/KnowledgeBase.tsx:49-54 | every filter clears and the page returns to 1, so every entry is listed |
| KnowledgeBasePage.KnowledgeBase.SetItemsPerPage | src/pages/KnowledgeBase.tsx:232-235 | the page size becomes 5, 10 or 20 and the page returns to 1 |
| KnowledgeBasePage.KnowledgeBase.PreviousPage | src/pages/KnowledgeBase.tsx:222-244 | the page drops by one unless it is 1; nothing changes while no entry matches |
| KnowledgeBasePage.KnowledgeBase.NextPage | src/pages/KnowledgeBase.tsx:222-254 | the page rises by one unless it equals the page count or there are no pages; nothing changes while no entry matches |
| KnowledgeBasePage.KnowledgeBase.Delete | src/pages/KnowledgeBase.tsx:56-63 | for a non-administrator nothing happens; otherwise every entry with the id goes and the success toast is shown |
| AddKnowledgeBaseEntryPage.AddKnowledgeBaseEntry.constructor | src/pages/AddKnowledgeBaseEntry.tsx:14-24 | the stored entries, else none; the blank form with category Services and status active |
| AddKnowledgeBaseEntryPage.AddKnowledgeBaseEntry.Change | src/pages/AddKnowledgeBaseEntry.tsx:26-31 | the form takes the change |
| AddKnowledgeBaseEntryPage.AddKnowledgeBaseEntry.Submit | src/pages/AddKnowledgeBaseEntry.tsx:33-67 | a missing title or description gives the error toast and changes nothing; otherwise the new entry is appended and the page returns to the list |
| AddKnowledgeBaseEntryPage.DefaultsKept | src/pages/AddKnowledgeBaseEntry.tsx:16-24 | an entry submitted without touching category or status is filed under Services and active |
| EditKnowledgeBaseEntryPage.EditKnowledgeBaseEntry.constructor | src/pages/EditKnowledgeBaseEntry.tsx:12-24 | the route's id, the stored entries, else none, and the blank form |
| EditKnowledgeBaseEntryPage.EditKnowledgeBaseEntry.Load | src/pages/EditKnowledgeBaseEntry.tsx:26-40 | with no id nothing happens; a known id fills the form; an unknown one gives "Knowledge base entry not found" and a redirect |
| EditKnowledgeBaseEntryPage.EditKnowledgeBaseEntry.Change | src/pages/EditKnowledgeBaseEntry.tsx:42-47 | the form takes the change |
| EditKnowledgeBaseEntryPage.EditKnowledgeBaseEntry.Submit | src/pages/EditKnowledgeBaseEntry.tsx:49-75 | a missing title or description gives the error toast and changes nothing; otherwise every entry with the id is merged with the form and the page returns to the list |
| EditKnowledgeBaseEntryPage.LoadEditSave | src/pages/EditKnowledgeBaseEntry.tsx:26-75 | loading an entry, editing and saving rewrites that entry alone, keeping its id and creation time and the list's unique ids |
| EditKnowledgeBaseEntryPage.UnchangedSaveIsNoOp | src/pages/EditKnowledgeBaseEntry.tsx:26-75 | loading an entry and saving it untouched leaves the list as it was |
| EditKnowledgeBaseEntryPage.SaveUnknownIdChangesNothing | src/pages/EditKnowledgeBaseEntry.tsx:63-74 | saving under an id no entry has changes nothing, though the success toast still follows |
| ViewKnowledgeBaseEntryPage.ViewKnowledgeBaseEntry.constructor | src/pages/ViewKnowledgeBaseEntry.tsx:12-16 | the route's id, the stored entries, else none, and no entry held yet |
| ViewKnowledgeBaseEntryPage.ViewKnowledgeBaseEntry.Render | src/pages/ViewKnowledgeBaseEntry.tsx:36-42 | the spinner shows exactly while no entry is held; otherwise the held entry |
| ViewKnowledgeBaseEntryPage.ViewKnowledgeBaseEntry.Load | src/pages/ViewKnowledgeBaseEntry.tsx:21-34 | with no id nothing happens; a known id holds the first entry with it; an unknown one gives "Knowledge base entry not found" and a redirect |
| ViewKnowledgeBaseEntryPage.Paragraphs | src/pages/ViewKnowledgeBaseEntry.tsx:100-102 | one paragraph more than line breaks, none holding a line break, and joined with line breaks they give back the description |
| ViewKnowledgeBaseEntryPage.Resources | src/pages/ViewKnowledgeBaseEntry.tsx:111-148 | the video, blog and file links each appear iff their URL is non-empty, and nothing else appears |
| ViewKnowledgeBaseEntryPage.ResourcesSectionNonEmpty | src/pages/ViewKnowledgeBaseEntry.tsx:106-148 | the Resources section is shown exactly when it holds at least one link |
| Collections.Filter | src/pages/Users.tsx:29-36 | the kept elements all pass the test and come from the list, and every element that passes is kept |
| Collections.FilterConcat | src/pages/KnowledgeBase.tsx:32-38 | filtering works piecewise, so kept elements stay in their original order |
| Collections.FilterIdempotent | src/pages/KnowledgeBase.tsx:57 | filtering twice with the same test is filtering once |
| Collections.FilterDropsOne | src/pages/KnowledgeBase.tsx:57 | when exactly one element fails the test, the filter removes it and keeps the rest in order |
| Collections.FirstIndex | src/pages/EditKnowledgeBaseEntry.tsx:28 | nothing is found iff no element passes; otherwise the index passes and no earlier one does |
| Collections.Find | src/pages/ViewKnowledgeBaseEntry.tsx:23 | nothing is found iff no element passes; otherwise the element at the first passing index |
| Collections.MapWhere | src/pages/EditKnowledgeBaseEntry.tsx:63-65 | the length is kept, passing elements are rewritten and the rest are untouched |
| Collections.SortDescending | src/pages/ServiceRequests.tsx:163-165 | the result is ordered largest key first and is a rearrangement of the input |
| Collections.SortStable | src/pages/ServiceRequests.tsx:163-165 | elements that share a key keep their relative order |
| Collections.SortKeepsSorted | src/pages/ServiceRequests.tsx:163-165 | a list already in order is left as it is |
| Collections.CountAll | src/pages/Dashboard.tsx:69 | every element passes exactly when the count equals the length |
| Collections.CountPartition3 | src/pages/Dashboard.tsx:93-103 | when each element passes exactly one of three tests, the three counts add up to the length |
| Collections.TotalPages | src/pages/Users.tsx:39 | the page count is the least number whose pages hold every row |
| Collections.PageSlice | src/pages/Users.tsx:40-41 | a page holds at most the page size, the rows from its start index on, and nothing past the end |
| Collections.StartIndex | src/pages/Users.tsx:40 | page p starts at a non-negative index for p >= 1, and page p + 1 starts one page size later |
| Collections.Slice | src/pages/Users.tsx:41 | `slice` with JavaScript's clamping: in-range bounds give that range, an end past the length stops at the end, a start at or past the end gives nothing |
| Collections.PagesPartition | src/pages/Users.tsx:39-41 | read one after the other, the pages give back every row exactly once and in order |
| Collections.PageSizes | src/pages/Users.tsx:39-41 | every page before the last is full, the last holds the remainder, and later pages are empty |
| Collections.ShownRange | src/pages/Users.tsx:303-305 | the "Showing from to to of n" figures stay between 1 and n, in order, and start one past the start index |
| Collections.ShownRangeMatchesPage | src/pages/Users.tsx:303-305 | on a page with rows the range shown counts exactly the rows on the page |
| Collections.AfterPrevious | src/pages/Users.tsx:321-322 | the page drops by one unless the button is disabled on page 1 |
| Collections.AfterNext | src/pages/Users.tsx:331-332 | the page rises by one unless the button is disabled on the last page or with no pages |
| Collections.PagerInRange | src/pages/Users.tsx:321-332 | from a page in range neither button leaves the range, and previous then next returns to the page |
| Collections.NextPastTheEnd | src/pages/Users.tsx:331-332 | past the last page the next button stays enabled and the page keeps growing |
| Text.Lower | src/pages/Users.tsx:30-31 | the text keeps its length and each character is lower-cased |
| Text.LowerIdempotent | src/pages/Users.tsx:30-31 | lower-casing twice is lower-casing once |
| Text.ContainsEmpty | src/pages/Users.tsx:30-31 | every text contains the empty search, with or without case |
| Text.TrimEmpty | src/pages/ServiceRequests.tsx:632 | a note trims to nothing exactly when it is all white space |
| Text.Trim | src/pages/ServiceRequests.tsx:188 | the trimmed note is no longer than the note, neither starts nor ends with white space, and is empty iff the note is all white space |
| Text.TrimIsSlice | src/pages/ServiceRequests.tsx:188 | trimming cuts only white space from the two ends: the result is the text between a white-space prefix and a white-space suffix |
| Text.Split | src/pages/ServiceRequests.tsx:282 | splitting always gives at least one piece |
| Text.SplitPiecesFree | src/pages/ViewKnowledgeBaseEntry.tsx:100 | no piece holds the separator |
| Text.SplitCount | src/pages/ViewKnowledgeBaseEntry.tsx:100 | there is one piece more than separators |
| Text.SplitJoin | src/pages/ViewKnowledgeBaseEntry.tsx:100 | joining the pieces with the separator gives back the text |
| Text.JoinSplit | src/pages/ServiceRequests.tsx:282 | splitting separator-free pieces joined by the separator gives back the pieces |
| Text.ReplaceFirst | src/pages/ServiceRequests.tsx:242 | replacing keeps the length |
| Text.ReplaceFirstAbsent | src/pages/ServiceRequests.tsx:242 | a text without the character is left as it is |
| Text.ReplaceFirstAt | src/pages/ServiceRequests.tsx:242 | only the first occurrence changes; later ones stay |

## Left out

- Local storage: the `useLocalStorage` hook, JSON serialisation and persistence across reloads are plain I/O. Each stored list is a field, initialised from a constructor parameter.
- Text.Lower: `toLowerCase` and `toUpperCase` are modelled on ASCII letters only. Unicode case mapping is not modelled.
- Text.Trim: `trim` removes ASCII white space only (space, tab, line feed, vertical tab, form feed, carriage return), not the full set of Unicode white space.
- ServiceRequestsPage.SortNewestFirst: creation times are integers, so the ISO date strings and their parsing (`new Date(...).getTime()`) are not modelled.
- Text.ReplaceFirst: its own contract states only that the length is kept. What it replaces is stated by `Text.ReplaceFirstAbsent` and `Text.ReplaceFirstAt`.
- Text.Split: its own contract states only that there is at least one piece. The pieces are described by `Text.SplitPiecesFree`, `Text.SplitCount` and `Text.SplitJoin`.
- Non-determinism: `uuidv4()`, `Date.now()` and `new Date().toISOString()` become method parameters. The model does not show that they are fresh.
- Timers and asynchrony: the loading timer in `src/context/AuthContext.tsx:26-33` is not modelled. The splash screen, the login page's timers and the forgot-password simulation are not part of this model.
- Effects: toasts and `navigate` are returned as `Outcome` values. What they do on screen is not modelled.
- Rendering: markup, CSS badge classes, icons, modal animation, the Recharts charts and the last-seven-days chart (`src/pages/Dashboard.tsx:76-91`) are not modelled. Date and time formatting with `toLocaleString` is not modelled either.
- Plain navigation: back buttons, "Cancel" links and the Add Entry link's route are not modelled beyond the predicates that show them.
- `src/pages/ServiceRequests.tsx:183-185` declares `getDispensaryById`, which nothing calls, so it is not modelled.
- The Delete button of the dispensary dialog (`src/pages/Dispensaries.tsx:295`) has no handler and is not modelled.
- The header, the not-found page and the route table in `src/App.tsx` are presentation or configuration and are not part of this model.
- The model's record types add what the pages use but `src/lib/types.ts` omits:
  - the service request's priority, dispensary id and response notes;
  - the engineer's first and last name, password and phone;
  - the whole knowledge-base entry type, which `src/lib/types.ts` does not declare.

  The knowledge-base storage key is also missing from `src/lib/constants.ts`, and its value is not modelled: the lists are only ever constructor parameters.

## Observations

These follow from the code as written. The model keeps the code's behaviour in each case.

- The support-engineer search looks in the name only, although the search box's hint mentions email (`src/pages/ManageSupportEngineers.tsx:20-23`). `SupportEngineersPage.Engineers` states this.
- No page clamps its current page when a filter shrinks the list. Past the last page the next button stays enabled and the page number keeps growing, while the rows are empty (`Collections.NextPastTheEnd`, `Collections.PageSizes`).
- The pages fall back to different user lists when nothing is stored:
  - `src/pages/Users.tsx:13` and the engineer pages use an empty list;
  - `src/pages/AddUser.tsx:16` and `src/pages/EditUser.tsx:16` use the shorter built-in list (`Constants.UsersData`);
  - `src/context/AuthContext.tsx:24` uses the seeded users (`Constants.InitialUsers`).
- The engineer edit page fills in the first and last name by writing into the record object of the in-memory list (`src/pages/EditSupportEngineer.tsx:30-34`). The model keeps two fields, `users` (in memory) and `persisted` (in storage), so this change is visible in memory only until the next save.
- Saving a record through either engineer page forces its role to "user". An administrator or manager opened there is demoted (`EditSupportEngineerPage.SaveForcesUserRole`, `AddEditSupportEngineerPage.SavedRecordsAreEngineers`).
- The dispensary dialog's request list is a copy of its own. Filing a request appends to whatever the dialog listed last, which may belong to another dispensary (`src/pages/Dispensaries.tsx:104`). The model carries that copy as `shownRequests`, next to the stored nested update.
- A status change on the dispensary page stamps no resolution time, unlike the service-request page (`DispensariesPage.SetStatusKeepsResolvedAt`, `ServiceRequestsPage.WithStatus`).
- The status toast uses `replace('-', ' ')`, which replaces only the first dash (`Text.ReplaceFirstAt`, `ServiceRequestsPage.InProgressMessage`).
- Deleting a knowledge-base entry has no guard beyond the administrator-only button.
- Saving the knowledge-base edit form under an id that no entry has changes nothing but still reports success (`EditKnowledgeBaseEntryPage.SaveUnknownIdChangesNothing`).
- The knowledge-base edit form is the whole loaded entry (`setFormData(entryToEdit)`), so its merge takes id and creation time from the loaded entry. With unique ids that is the stored entry (`KnowledgeBaseStore.SaveLoadedEntry`).
- `src/context/ThemeContext.tsx:18-25` edits the document root's class list. The model represents that class list as the field `rootClasses`.
