/** Access to the pages: the guard component's decision from the session,
    the role and whether the role is still loading; the application's route
    table saying which pages need the administrator role; and the role the
    user context derives from the profile row. */
module RouteGuard {
  import opened Common

  const AdminRole := "admin"
  const TeacherRole := "teacher"

  /** What the guard renders. */
  datatype Outcome = RedirectToLogin | Spinner | RedirectToDashboard | ShowPage

  /** `requiredRole` of a guard: `None` admits any signed-in user. */
  type RequiredRole = Option<string>

  /** The guard's chain of checks, in order. */
  function Decide(hasSession: bool, loadingRole: bool, role: Option<string>, requiredRole: RequiredRole): (o: Outcome)
    ensures !hasSession ==> o == RedirectToLogin
    ensures hasSession && loadingRole ==> o == Spinner
    ensures o == RedirectToDashboard <==>
      hasSession && !loadingRole && requiredRole.Some? && role != Some(requiredRole.value) && role != Some(AdminRole)
    ensures o == ShowPage <==>
      hasSession && !loadingRole && (requiredRole.None? || role == Some(requiredRole.value) || role == Some(AdminRole))
  {
    if !hasSession then RedirectToLogin
    else if loadingRole then Spinner
    else if requiredRole.Some? && role != Some(requiredRole.value) && role != Some(AdminRole) then RedirectToDashboard
    else ShowPage
  }

  /** The administrator passes every guard; a guard without a role passes every
      loaded session. */
  lemma AdminAndOpenRoutes(loadingRole: bool, role: Option<string>, requiredRole: RequiredRole)
    requires !loadingRole
    ensures Decide(true, loadingRole, Some(AdminRole), requiredRole) == ShowPage
    ensures Decide(true, loadingRole, role, None) == ShowPage
  {
  }

  /** How the route table guards a path. */
  datatype Guard = Unguarded | SignedIn | AdminOnly

  const AdminPaths: set<string> := {"/students", "/teachers", "/classes", "/subscriptions", "/finance"}
  const SignedInPaths: set<string> := {"/", "/dashboard", "/attendance", "/evaluations", "/subjects", "/today", "/student-report"}

  /** The route table: the five management pages sit under an administrator
      guard, the other pages under a plain guard, the login page under none. */
  function GuardOf(path: string): (g: Guard)
    ensures g == AdminOnly <==> path in AdminPaths
    ensures g == SignedIn <==> path in SignedInPaths
  {
    if path in AdminPaths then AdminOnly
    else if path in SignedInPaths then SignedIn
    else Unguarded
  }

  function RequiredRoleOf(g: Guard): RequiredRole {
    if g == AdminOnly then Some(AdminRole) else None
  }

  /** The role the user context sets once the profile is read: the profile's
      role, or `teacher` when it is missing or empty. */
  function RoleFromProfile(profileRole: Option<string>): (r: string)
    ensures profileRole.Some? && profileRole.value != "" ==> r == profileRole.value
    ensures !(profileRole.Some? && profileRole.value != "") ==> r == TeacherRole
  {
    if profileRole.Some? && profileRole.value != "" then profileRole.value else TeacherRole
  }

  /** `isAdmin: role === 'admin'`. */
  predicate IsAdmin(role: Option<string>) {
    role == Some(AdminRole)
  }

  /** With a loaded role, a guarded page opens iff it is not an administrator
      page or the user is the administrator; a user whose profile has no role
      is treated as a teacher and kept off the management pages. */
  lemma RouteAccess(path: string, profileRole: Option<string>)
    requires GuardOf(path) != Unguarded
    ensures var role := Some(RoleFromProfile(profileRole));
      Decide(true, false, role, RequiredRoleOf(GuardOf(path))) == ShowPage <==> (path !in AdminPaths || IsAdmin(role))
    ensures profileRole.None? && path in AdminPaths ==>
      Decide(true, false, Some(RoleFromProfile(profileRole)), RequiredRoleOf(GuardOf(path))) == RedirectToDashboard
  {
  }
}
