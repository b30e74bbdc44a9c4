/**
 Login, role and screen selection in the root component: four pieces of UI
 state and the pure choice of what to display from them.
 */
module Router {

  /**
   The student navigation enum. `UnlistedScreen` stands for any member of the
   enum (declared in types.ts, which is not part of this model) that the
   render switch does not name; it falls through to the `default` branch.
   */
  datatype Screen = Dashboard | Disciplines | Shop | Ranking | Activity | UnlistedScreen(name: string)

  /** The admin navigation enum, with the same stand-in for members the switch does not name. */
  datatype AdminScreen =
    | Overview | Students | Validation | Missions | Economy | Reports | Settings
    | UnlistedAdminScreen(name: string)

  datatype Nav = Nav(loggedIn: bool, isAdmin: bool, screen: Screen, adminScreen: AdminScreen)

  /** The `useState` initial values: logged out, student role, both screens at their defaults. */
  const InitialNav := Nav(false, false, Dashboard, Overview)

  /** Before anyone logs in, the login screen shows. */
  lemma InitialView()
    ensures Render(InitialNav) == LoginView
  {
  }

  /** `handleLogin(adminMode)`: both screens go back to their defaults. */
  function Login(n: Nav, adminMode: bool): (r: Nav)
    ensures r.loggedIn && r.isAdmin == adminMode
    ensures r.screen == Dashboard && r.adminScreen == Overview
  {
    Nav(true, adminMode, Dashboard, Overview)
  }

  /** `handleLogout`: clears both flags, resets the student screen, keeps the admin screen. */
  function Logout(n: Nav): (r: Nav)
    ensures !r.loggedIn && !r.isAdmin
    ensures r.screen == Dashboard
    ensures r.adminScreen == n.adminScreen
  {
    n.(loggedIn := false, isAdmin := false, screen := Dashboard)
  }

  /** The student layout's `onNavigate`. */
  function NavigateStudent(n: Nav, s: Screen): (r: Nav)
    ensures r.screen == s
    ensures r.loggedIn == n.loggedIn && r.isAdmin == n.isAdmin && r.adminScreen == n.adminScreen
  {
    n.(screen := s)
  }

  /** The admin layout's `onNavigate`. */
  function NavigateAdmin(n: Nav, a: AdminScreen): (r: Nav)
    ensures r.adminScreen == a
    ensures r.loggedIn == n.loggedIn && r.isAdmin == n.isAdmin && r.screen == n.screen
  {
    n.(adminScreen := a)
  }

  /** What the root component renders. */
  datatype View =
    | LoginView
    | AdminView(page: AdminScreen)
    | StudentView(screen: Screen)

  /**
   The render logic: the login screen when logged out, the admin page when the
   admin flag is set, the student page otherwise; a screen the switch does not
   name renders the overview or the dashboard.
   */
  function Render(n: Nav): (r: View)
    ensures r.LoginView? <==> !n.loggedIn
    ensures r.AdminView? <==> n.loggedIn && n.isAdmin
    ensures r.AdminView? ==> !r.page.UnlistedAdminScreen?
    ensures r.StudentView? ==> !r.screen.UnlistedScreen?
    ensures r.AdminView? && !n.adminScreen.UnlistedAdminScreen? ==> r.page == n.adminScreen
    ensures r.AdminView? && n.adminScreen.UnlistedAdminScreen? ==> r.page == Overview
    ensures r.StudentView? && !n.screen.UnlistedScreen? ==> r.screen == n.screen
    ensures r.StudentView? && n.screen.UnlistedScreen? ==> r.screen == Dashboard
  {
    if !n.loggedIn then LoginView
    else if n.isAdmin then
      AdminView(if n.adminScreen.UnlistedAdminScreen? then Overview else n.adminScreen)
    else
      StudentView(if n.screen.UnlistedScreen? then Dashboard else n.screen)
  }

  /** Right after a login the admin lands on the overview and a student on the dashboard. */
  lemma LoginLanding(n: Nav, adminMode: bool)
    ensures Render(Login(n, adminMode)) == if adminMode then AdminView(Overview) else StudentView(Dashboard)
  {
  }

  /**
   Logout leaves the admin screen behind, but no later view can show it: the
   view after logging back in does not depend on anything before the logout.
   */
  lemma StaleAdminScreenInvisible(n: Nav, n': Nav, adminMode: bool)
    ensures Render(Logout(n)) == LoginView
    ensures Render(Login(Logout(n), adminMode)) == Render(Login(n', adminMode))
  {
  }

  /** While logged out, navigating anywhere still shows the login screen. */
  lemma NavigationWhileLoggedOut(n: Nav, s: Screen, a: AdminScreen)
    requires !n.loggedIn
    ensures Render(NavigateStudent(n, s)) == LoginView
    ensures Render(NavigateAdmin(n, a)) == LoginView
  {
  }
}
