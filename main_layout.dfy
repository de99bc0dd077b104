/** The authenticated frame around every page: a spinner while the session loads, a
    redirect to the login page without a session, otherwise sidebar, header, trail and
    page, with a dimming overlay while the sidebar is open on small screens. */
module MainLayout {
  import opened Types
  import Auth

  datatype Screen = Spinner | Redirect(to: string) | Shell(sidebarOpen: bool, overlay: bool)

  /** What the layout renders for a session state and the sidebar flag. */
  function Render(state: AuthState, sidebarOpen: bool): (r: Screen)
    ensures r.Spinner? <==> state.loading
    ensures r.Redirect? <==> !state.loading && !state.isAuthenticated
    ensures r.Redirect? ==> r.to == "/login"
    ensures r.Shell? ==> r.sidebarOpen == sidebarOpen && (r.overlay <==> sidebarOpen)
  {
    if state.loading then Spinner
    else if !state.isAuthenticated then Redirect("/login")
    else Shell(sidebarOpen, sidebarOpen)
  }

  /** After logout the layout sends the visitor to the login page; after a successful
      login it shows the frame. */
  lemma RenderAfterLoginLogout(state: AuthState, users: seq<User>, email: string, open: bool)
    ensures Render(Auth.SignedOut, open) == Redirect("/login")
    ensures Auth.LoginMatch(users, email).Some? ==> Render(Auth.AfterLogin(state, users, email), open).Shell?
  {
  }

  class Layout {
    var sidebarOpen: bool

    constructor ()
      ensures !sidebarOpen
    {
      sidebarOpen := false;
    }

    /** `toggleSidebar`, wired to the header's menu button. */
    method ToggleSidebar()
      modifies this`sidebarOpen
      ensures sidebarOpen == !old(sidebarOpen)
    {
      sidebarOpen := !sidebarOpen;
    }

    /** The sidebar's `onClose`. */
    method CloseSidebar()
      modifies this`sidebarOpen
      ensures !sidebarOpen
    {
      sidebarOpen := false;
    }

    /** A click on the overlay; the overlay exists only while the sidebar is open, so a
        click with the sidebar closed finds nothing to hit. */
    method ClickOverlay(state: AuthState)
      modifies this`sidebarOpen
      ensures Render(state, old(sidebarOpen)).Shell? && Render(state, old(sidebarOpen)).overlay ==> !sidebarOpen
      ensures !(Render(state, old(sidebarOpen)).Shell? && Render(state, old(sidebarOpen)).overlay) ==>
        sidebarOpen == old(sidebarOpen)
    {
      var screen := Render(state, sidebarOpen);
      if screen.Shell? && screen.overlay {
        sidebarOpen := false;
      }
    }
  }
}
