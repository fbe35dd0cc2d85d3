/** The route table and its guards (web-interface/frontned/src/App.tsx):
    which page a path shows, or where it redirects, for a given sign-in
    state. Paths are matched as given. */
module AppRoutes {
  import opened Wrappers
  import opened Strings
  import opened AuthStore

  datatype Page = LoginPage | TeacherDashboard | StudentDashboard

  /** What a route element does: show a page or navigate elsewhere. */
  datatype Element = Render(page: Page) | Redirect(to: string)

  const LoginPath := "/login"
  const TeacherPath := "/teacher"
  const StudentPath := "/student"

  /** The `${role}` of a template literal: `null` when no role is set. */
  function RoleText(role: Option<Role>): string {
    match role
    case None => "null"
    case Some(Teacher) => "teacher"
    case Some(Student) => "student"
  }

  /** ProtectedRoute: signed-out users go to the login page, users of the
      other role to their own area, and the allowed role sees the page. */
  function Protected(isAuthenticated: bool, role: Option<Role>, allowed: Role, page: Page): (r: Element)
    ensures !isAuthenticated ==> r == Redirect(LoginPath)
    ensures r.Render? <==> isAuthenticated && role == Some(allowed)
    ensures r.Render? ==> r.page == page
    ensures isAuthenticated && role != Some(allowed) ==> r == Redirect("/" + RoleText(role))
  {
    if !isAuthenticated then Redirect(LoginPath)
    else if role != Some(allowed) then Redirect("/" + RoleText(role))
    else Render(page)
  }

  /** RootRedirect: the login page when signed out, the role's area when
      signed in. */
  function RootRedirect(isAuthenticated: bool, role: Option<Role>): (r: Element)
    ensures r.Redirect?
    ensures !isAuthenticated ==> r.to == LoginPath
    ensures isAuthenticated ==> r.to == "/" + RoleText(role)
  {
    if !isAuthenticated then Redirect(LoginPath) else Redirect("/" + RoleText(role))
  }

  datatype Route = LoginRoute | TeacherRoute | StudentRoute | RootRoute | CatchAll

  /** A `teacher` or `student` area route: the area itself or anything
      below it. */
  predicate InArea(path: string, area: string) {
    path == area || StartsWith(path, area + "/")
  }

  /** Every path of the teacher area starts `/t`, every path of the
      student area `/s`. */
  lemma AreaInitial(path: string)
    ensures InArea(path, TeacherPath) ==> |path| >= 2 && path[1] == 't'
    ensures InArea(path, StudentPath) ==> |path| >= 2 && path[1] == 's'
  {
    if StartsWith(path, TeacherPath + "/") {
      assert path[1] == path[0..|TeacherPath + "/"|][1];
    }
    if StartsWith(path, StudentPath + "/") {
      assert path[1] == path[0..|StudentPath + "/"|][1];
    }
  }

  /** The route a path selects. */
  function RouteOf(path: string): (r: Route)
    ensures r == LoginRoute <==> path == LoginPath
    ensures r == TeacherRoute <==> InArea(path, TeacherPath)
    ensures r == StudentRoute <==> InArea(path, StudentPath)
    ensures r == RootRoute <==> path == "/"
  {
    if path == LoginPath then LoginRoute
    else if InArea(path, TeacherPath) then
      AreaInitial(path);
      TeacherRoute
    else if InArea(path, StudentPath) then StudentRoute
    else if path == "/" then RootRoute
    else CatchAll
  }

  /** What the application shows at a path: a page only on the login
      route or on an area route for a signed-in user of that area's role;
      every other case redirects, to the login page or to the user's own
      area. */
  function App(path: string, isAuthenticated: bool, role: Option<Role>): (r: Element)
    ensures r.Render? <==> path == LoginPath ||
                           (isAuthenticated && ((InArea(path, TeacherPath) && role == Some(Teacher)) ||
                                                (InArea(path, StudentPath) && role == Some(Student))))
    ensures r.Redirect? ==> r.to == LoginPath || (isAuthenticated && r.to == "/" + RoleText(role))
  {
    match RouteOf(path)
    case LoginRoute => Render(LoginPage)
    case TeacherRoute => Protected(isAuthenticated, role, Teacher, TeacherDashboard)
    case StudentRoute => Protected(isAuthenticated, role, Student, StudentDashboard)
    case RootRoute => RootRedirect(isAuthenticated, role)
    case CatchAll => Redirect(LoginPath)
  }

  /** A dashboard is shown only to a signed-in user of its role, and a
      signed-out user sees the login page or is sent to it. */
  lemma DashboardsGuarded(path: string, isAuthenticated: bool, role: Option<Role>)
    ensures App(path, isAuthenticated, role) == Render(TeacherDashboard) ==>
      isAuthenticated && role == Some(Teacher) && InArea(path, TeacherPath)
    ensures App(path, isAuthenticated, role) == Render(StudentDashboard) ==>
      isAuthenticated && role == Some(Student) && InArea(path, StudentPath)
    ensures !isAuthenticated ==>
      App(path, isAuthenticated, role) in {Render(LoginPage), Redirect(LoginPath)}
  {
  }

  /** In a consistent sign-in state every redirect lands on a page after
      one step: there are no redirect chains or loops. */
  lemma RedirectsSettle(path: string, isAuthenticated: bool, role: Option<Role>)
    requires isAuthenticated <==> role.Some?
    ensures App(path, isAuthenticated, role).Redirect? ==>
      App(App(path, isAuthenticated, role).to, isAuthenticated, role).Render?
  {
    var e := App(path, isAuthenticated, role);
    if e.Redirect? {
      if isAuthenticated {
        assert e.to == LoginPath || e.to == "/" + RoleText(role);
        assert "/" + RoleText(Some(Teacher)) == TeacherPath;
        assert "/" + RoleText(Some(Student)) == StudentPath;
      }
    }
  }

  /** With a sign-in but no role, the role's area is `/null`, which is
      no route: the user is sent on to the login page. */
  lemma MissingRoleEndsAtLogin()
    ensures App("/", true, None) == Redirect("/null")
    ensures App("/null", true, None) == Redirect(LoginPath)
  {
    assert !StartsWith("/null", TeacherPath + "/") && !StartsWith("/null", StudentPath + "/");
  }
}
