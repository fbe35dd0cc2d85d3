/** The sign-in store (web-interface/frontned/src/store/auth.ts): whether
    someone is signed in, and as which role. */
module AuthStore {
  import opened Wrappers

  datatype Role = Teacher | Student

  class Auth {
    var isAuthenticated: bool
    var role: Option<Role>

    /** Signed in exactly when a role is set. */
    predicate Valid()
      reads this
    {
      isAuthenticated <==> role.Some?
    }

    /** The initial state: signed out, no role. */
    constructor()
      ensures Valid()
      ensures !isAuthenticated && role == None
    {
      isAuthenticated := false;
      role := None;
    }

    /** login: signed in with the given role, whatever came before. */
    method Login(r: Role)
      modifies this
      ensures Valid()
      ensures isAuthenticated && role == Some(r)
    {
      isAuthenticated := true;
      role := Some(r);
    }

    /** logout: signed out with no role, whatever came before; a second
        logout therefore changes nothing. */
    method Logout()
      modifies this
      ensures Valid()
      ensures !isAuthenticated && role == None
    {
      isAuthenticated := false;
      role := None;
    }
  }

  /** Signing in and then out again returns a new store to exactly the
      state it started in. */
  method LoginThenLogout(r: Role) returns (initial: (bool, Option<Role>), after: (bool, Option<Role>))
    ensures after == initial
    ensures initial == (false, None)
  {
    var store := new Auth();
    initial := (store.isAuthenticated, store.role);
    store.Login(r);
    store.Logout();
    after := (store.isAuthenticated, store.role);
  }
}
