/** The session held by the authentication context: the optional current
    user, the placeholder login, logout, and the role-membership guard the
    incident list and detail pages use to decide what to show. */
module Auth {
  import opened Wrappers
  import opened JsBuiltins

  datatype Role = Supervisor | Coordinator | Handler

  datatype User = User(id: string, username: string, email: string, role: Role)

  /** The current user together with the copy kept under the `user` storage
      key, which is what a reload of the page restores. */
  datatype AuthState = AuthState(user: Option<User>, persisted: Option<User>)

  /** The id every placeholder login assigns. */
  const PlaceholderId := "1"
  /** Appended to the username to form the e-mail address. */
  const EmailDomain := "@example.com"
  /** The shortest password, in UTF-16 code units, that login accepts. */
  const MinPasswordLength := 6

  /** The in-memory user and the stored copy agree. */
  predicate Consistent(st: AuthState) {
    st.user == st.persisted
  }

  /** The state at start-up: whatever user was stored is the current user. */
  function Restore(persisted: Option<User>): (st: AuthState)
    ensures st.user == persisted
    ensures Consistent(st)
  {
    AuthState(persisted, persisted)
  }

  /** `isAuthenticated` is `!!user`. */
  function IsAuthenticated(st: AuthState): bool {
    st.user.Some?
  }

  function EmailFor(username: string): string {
    username + EmailDomain
  }

  /** Recovers the username from an e-mail address built by `EmailFor`. */
  function UsernameOf(email: string): string
    requires |email| >= |EmailDomain|
  {
    email[..|email| - |EmailDomain|]
  }

  /** The e-mail address determines the username it was built from. */
  lemma EmailRoundTrip(username: string)
    ensures |EmailFor(username)| >= |EmailDomain|
    ensures UsernameOf(EmailFor(username)) == username
    ensures EmailFor(username)[|username|..] == EmailDomain
  {
  }

  datatype LoginResult = LoginResult(success: bool, state: AuthState)

  /** The placeholder `login`: a non-empty username and a password of at
      least six UTF-16 code units sign the user in with the chosen role; the
      password is otherwise ignored. */
  function Login(st: AuthState, username: string, password: string, role: Role): (r: LoginResult)
    ensures r.success <==> |username| > 0 && Utf16Length(password) >= MinPasswordLength
    ensures !r.success ==> r.state == st
    ensures r.success ==> r.state.user.Some? && Consistent(r.state)
    ensures r.success ==>
      var u := r.state.user.value;
      && u.username == username && u.role == role && u.id == PlaceholderId
      && |u.email| == |username| + |EmailDomain|
      && u.email[..|username|] == username && u.email[|username|..] == EmailDomain
  {
    if username != "" && Utf16Length(password) >= MinPasswordLength then
      var u := User(PlaceholderId, username, EmailFor(username), role);
      EmailRoundTrip(username);
      LoginResult(true, AuthState(Some(u), Some(u)))
    else
      LoginResult(false, st)
  }

  /** `logout` clears both the current and the stored user. */
  function Logout(st: AuthState): (r: AuthState)
    ensures !IsAuthenticated(r)
    ensures Consistent(r)
  {
    AuthState(None, None)
  }

  /** `hasPermission(requiredRoles)`: false without a user, otherwise whether
      the user's role is listed. */
  function HasPermission(user: Option<User>, requiredRoles: seq<Role>): (b: bool)
    ensures b <==> user.Some? && user.value.role in requiredRoles
  {
    match user
    case None => false
    case Some(u) => Includes(requiredRoles, u.role)
  }

  /** Nobody signed in holds any role, whatever list is asked for. */
  lemma NoUserNoPermission(requiredRoles: seq<Role>)
    ensures !HasPermission(None, requiredRoles)
  {
  }

  /** An empty list of roles admits nobody. */
  lemma EmptyListDenies(user: Option<User>)
    ensures !HasPermission(user, [])
  {
  }

  /** Adding roles to the list can only admit more users. */
  lemma HasPermissionMonotonic(user: Option<User>, rs: seq<Role>, rs': seq<Role>)
    requires forall r :: r in rs ==> r in rs'
    ensures HasPermission(user, rs) ==> HasPermission(user, rs')
  {
  }

  /** Login, logout and restoring keep the stored user in step with the
      current one, so a reload after any of them shows the same session. */
  lemma TransitionsKeepConsistent(st: AuthState, username: string, password: string, role: Role)
    requires Consistent(st)
    ensures Consistent(Login(st, username, password, role).state)
    ensures Consistent(Logout(st))
    ensures Restore(Login(st, username, password, role).state.persisted) == Login(st, username, password, role).state
  {
  }

  /** The password length counts UTF-16 code units: three characters outside
      the Basic Multilingual Plane are long enough, five ordinary ones are not. */
  lemma PasswordLengthIsUtf16(st: AuthState)
    ensures Login(st, "a", "\U{1F600}\U{1F600}\U{1F600}", Handler).success
    ensures !Login(st, "a", "abcde", Handler).success
  {
    var face := "\U{1F600}";
    assert Utf16Length(face) == 2 by { assert face[..0] == ""; }
    assert Utf16Length(face + face) == 4 by { assert (face + face)[..1] == face; }
    assert (face + face + face)[..2] == face + face;
    assert "\U{1F600}\U{1F600}\U{1F600}" == face + face + face;
    assert Utf16Length(face + face + face) == 6;
    Utf16LengthBmp("abcde");
  }

  /** Any password of at least six characters passes the length check. */
  lemma SixCharactersSuffice(st: AuthState, username: string, password: string, role: Role)
    requires |username| > 0 && |password| >= MinPasswordLength
    ensures Login(st, username, password, role).success
  {
  }
}
