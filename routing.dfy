/** `get_redirect_for_user` (smartpayapp/utils.py): the dashboard a user is
    sent to after signing in, decided by the role on the user's profile.
    URL reversal is not modelled; the result is the route name. */
module Routing {
  import opened Wrappers

  datatype Profile = Profile(role: string)

  /** The facts about a user the project's code reads: whether the user is
      authenticated and the profile, if the user has one. */
  datatype User = User(isAuthenticated: bool, profile: Option<Profile>)

  datatype Route = AdminDashboard | Home | Login

  /** The URL name each route reverses. */
  function RouteName(r: Route): string {
    match r
    case AdminDashboard => "admin_dashboard"
    case Home => "home"
    case Login => "login"
  }

  predicate HasRole(u: User, role: string) {
    u.profile.Some? && u.profile.value.role == role
  }

  /** Admins go to the admin dashboard, staff to the home page, and every
      other user, with no profile or with any other role, to the login page. */
  function RedirectFor(u: User): (r: Route)
    ensures r == AdminDashboard <==> HasRole(u, "ADMIN")
    ensures r == Home <==> HasRole(u, "STAFF")
    ensures r == Login <==> !HasRole(u, "ADMIN") && !HasRole(u, "STAFF")
  {
    if u.profile.Some? then
      if u.profile.value.role == "ADMIN" then AdminDashboard
      else if u.profile.value.role == "STAFF" then Home
      else Login
    else Login
  }

  /** Different routes reverse different names, so the route name tells the
      three outcomes apart. */
  lemma RouteNamesDistinct(r1: Route, r2: Route)
    requires r1 != r2
    ensures RouteName(r1) != RouteName(r2)
  {
  }

  /** The result depends on the profile's role only: authentication is not
      consulted. */
  lemma RedirectIgnoresAuthentication(u: User)
    ensures RedirectFor(u) == RedirectFor(u.(isAuthenticated := !u.isAuthenticated))
  {
  }

  /** A user without a profile always goes to the login page. */
  lemma NoProfileGoesToLogin(u: User)
    requires u.profile.None?
    ensures RouteName(RedirectFor(u)) == "login"
  {
  }
}
