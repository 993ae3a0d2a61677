/**
 * The login page: a trimmed user name is looked up in the client store, the stored role must
 * equal the role chosen on the form, and only then is the user kept as the current session
 * and the browser sent to that role's dashboard.
 */
module Login {
  import opened Wrappers
  import opened Strings
  import opened ClientStore

  function EnterUsername(): string { "Por favor ingresa tu nombre de usuario" }
  function UserNotFound(): string { "Usuario no encontrado" }
  function WrongRole(): string { "Rol incorrecto para este usuario" }
  function UnknownRole(): string { "Rol no reconocido" }
  function LoginError(): string { "Error al iniciar sesión" }

  /** The page `redirectToDashboard` navigates to, if any. */
  function DashboardPage(role: string): (page: Option<string>)
    ensures page.Some? <==> role == "admin" || role == "teacher" || role == "student"
  {
    match role
    case "admin" => Some("admin-dashboard.html")
    case "teacher" => Some("teacher-dashboard.html")
    case "student" => Some("student-dashboard.html")
    case _ => None
  }

  /** Each known role has the page named after it. */
  lemma DashboardPageNamed(role: string)
    ensures DashboardPage(role).Some? ==> DashboardPage(role).value == role + "-dashboard.html"
  {
    if role == "admin" {
    } else if role == "teacher" {
    } else if role == "student" {
    }
  }

  /** Different roles are sent to different pages. */
  lemma DashboardPagesDistinct(a: string, b: string)
    requires DashboardPage(a).Some? && a != b
    ensures DashboardPage(b) != DashboardPage(a)
  {
    DashboardPageNamed(a);
    DashboardPageNamed(b);
    if DashboardPage(b).Some? {
      assert DashboardPage(a).value[..|a|] == a;
      assert DashboardPage(b).value[..|b|] == b;
    }
  }

  /** What the page changes in the browser: the stored current user and the location. */
  class Session {
    var currentUser: Option<Doc>
    var location: Option<string>

    constructor ()
      ensures currentUser.None? && location.None?
    {
      currentUser := None;
      location := None;
    }

    /** `redirectToDashboard`: navigation for the three known roles, an alert otherwise. */
    method RedirectToDashboard(role: string) returns (alert: Option<string>)
      modifies this
      ensures DashboardPage(role).Some? ==> location == DashboardPage(role) && alert.None?
      ensures DashboardPage(role).None? ==> location == old(location) && alert == Some(UnknownRole())
      ensures currentUser == old(currentUser)
    {
      var page := DashboardPage(role);
      if page.Some? {
        location := page;
        alert := None;
      } else {
        alert := Some(UnknownRole());
      }
    }

    /**
     * `handleLogin`. `checkedRole` is the value of the checked role radio, `None` when none is
     * checked: reading `.value` of the missing radio throws before the name is looked at, and
     * the catch shows the generic login error. Otherwise an empty trimmed name is refused and
     * any other goes to `authenticateUser`.
     */
    method HandleLogin(dm: DataManager, rawUsername: string, checkedRole: Option<string>) returns (alert: Option<string>)
      modifies this
      ensures checkedRole.None? ==>
                alert == Some(LoginError()) && currentUser == old(currentUser) && location == old(location)
      ensures checkedRole.Some? && Trim(rawUsername) == [] ==>
                alert == Some(EnterUsername()) && currentUser == old(currentUser) && location == old(location)
      ensures checkedRole.Some? && Trim(rawUsername) != [] ==>
                Authenticated(dm, Trim(rawUsername), checkedRole.value, alert, old(currentUser), old(location))
    {
      var username := Trim(rawUsername);
      if checkedRole.None? {
        return Some(LoginError());
      }
      if username == [] {
        return Some(EnterUsername());
      }
      alert := AuthenticateUser(dm, username, checkedRole.value);
    }

    /** What `authenticateUser` leaves behind, given the session before it. */
    ghost predicate Authenticated(dm: DataManager, username: string, role: string, alert: Option<string>,
                                  oldUser: Option<Doc>, oldLocation: Option<string>)
      reads this, dm
    {
      var user := dm.GetUserByUsername(username);
      (user.None? ==> alert == Some(UserNotFound()) && currentUser == oldUser && location == oldLocation) &&
      (user.Some? && Field(user.value, "role") != Some(role) ==>
         alert == Some(WrongRole()) && currentUser == oldUser && location == oldLocation) &&
      (user.Some? && Field(user.value, "role") == Some(role) ==>
         currentUser == user && location == (if DashboardPage(role).Some? then DashboardPage(role) else oldLocation) &&
         alert == (if DashboardPage(role).Some? then None else Some(UnknownRole())))
    }

    /**
     * `authenticateUser`: the user with that name must exist and hold the chosen role; then it
     * becomes the current user, and only a user with that name and role can.
     */
    method AuthenticateUser(dm: DataManager, username: string, role: string) returns (alert: Option<string>)
      modifies this
      ensures Authenticated(dm, username, role, alert, old(currentUser), old(location))
      ensures currentUser != old(currentUser) ==>
                currentUser.Some? && currentUser.value in dm.users &&
                Field(currentUser.value, "username") == Some(username) &&
                Field(currentUser.value, "role") == Some(role)
    {
      var user := dm.GetUserByUsername(username);
      if user.None? {
        return Some(UserNotFound());
      }
      if Field(user.value, "role") != Some(role) {
        return Some(WrongRole());
      }
      currentUser := user;
      alert := RedirectToDashboard(role);
    }
  }
}
