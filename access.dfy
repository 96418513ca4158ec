/** `admin_required` (smartpayapp/decorators.py): a view decorator that lets
    a request through to the wrapped view only for an authenticated user
    whose profile has the "ADMIN" role, and answers every other request with
    403 Forbidden.

    The wrapped view is a function of the request and its arguments;
    `Guarded(view, request, args)` is what the decorated view returns. */
module Access {
  import opened Wrappers
  import opened Routing

  datatype Request = Request(user: User)

  /** Either the 403 response with its message, or what the view returned. */
  datatype Response<R> = Forbidden(message: string) | FromView(result: R)

  const ForbiddenMessage: string := "You are not authorized to access this page."

  predicate IsAdmin(u: User) {
    u.isAuthenticated && HasRole(u, "ADMIN")
  }

  /** The decorated view: the wrapped view's own result for an admin,
      Forbidden with the fixed message for anyone else. */
  function Guarded<A, R>(view: (Request, A) -> R, request: Request, args: A): (resp: Response<R>)
    ensures resp.FromView? <==> IsAdmin(request.user)
    ensures resp.FromView? ==> resp.result == view(request, args)
    ensures resp.Forbidden? ==> resp.message == ForbiddenMessage
  {
    if request.user.isAuthenticated && request.user.profile.Some? && request.user.profile.value.role == "ADMIN" then
      FromView(view(request, args))
    else
      Forbidden(ForbiddenMessage)
  }

  /** A refused request never reaches the view: its response is the same
      whatever view is wrapped. */
  lemma RefusalIgnoresView<A, R>(v1: (Request, A) -> R, v2: (Request, A) -> R, request: Request, args: A)
    requires !IsAdmin(request.user)
    ensures Guarded(v1, request, args) == Guarded(v2, request, args) == Forbidden(ForbiddenMessage)
  {
  }

  /** Unauthenticated users, users without a profile and users whose role
      is not "ADMIN" (a "STAFF" user among them) are all refused. */
  lemma NonAdminsRefused<A, R>(view: (Request, A) -> R, request: Request, args: A)
    requires || !request.user.isAuthenticated
             || request.user.profile.None?
             || request.user.profile.value.role != "ADMIN"
    ensures Guarded(view, request, args).Forbidden?
  {
  }

  /** The guard agrees with the sign-in redirect: a request passes exactly
      when its user is authenticated and would be sent to the admin
      dashboard. */
  lemma GuardAgreesWithRedirect(u: User)
    ensures IsAdmin(u) <==> u.isAuthenticated && RedirectFor(u) == AdminDashboard
  {
  }

  /** Authentication does matter to the guard: an admin's profile on a
      session that is not authenticated is refused, although the redirect
      would send it to the admin dashboard. */
  lemma UnauthenticatedAdminRefused<A, R>(view: (Request, A) -> R, p: Profile, args: A)
    requires p.role == "ADMIN"
    ensures Guarded(view, Request(User(false, Some(p))), args).Forbidden?
    ensures RedirectFor(User(false, Some(p))) == AdminDashboard
  {
  }
}
