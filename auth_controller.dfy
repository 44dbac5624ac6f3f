/**
 * AuthController: the login and registration pages (which model attributes
 * the query flags switch on) and the two registration entry points, which
 * check the username, encode the password, fix the role and save the bound
 * User form object.
 */
module AuthController {
  import opened Common
  import opened Entities
  import opened Store
  import opened Web
  import opened Passwords
  import opened SuccessHandler
  import opened SecurityConfig

  /** The registration form each entry point serves. */
  function RegistrationPage(role: Role): string {
    match role
    case RoleUser => "/register-user"
    case RoleAdmin => "/register-admin"
  }

  /** Where a registration with a taken username is sent back to. */
  function ExistsUrl(role: Role): string {
    RegistrationPage(role) + "?" + "error=exists"
  }

  /** The login page of each role. */
  function LoginPage(role: Role): string {
    match role
    case RoleUser => UserLoginPage
    case RoleAdmin => AdminLoginPage
  }

  /** The login page a successful registration leads to, with its flag. */
  function RegisteredUrl(role: Role): string {
    LoginPage(role) + "?" + "registered"
  }

  // ---- Page handlers ----

  /** showAdminLoginPage: only the error flag is looked at. */
  function ShowAdminLoginPage(error: Option<string>): (page: Outcome<Attributes>)
    ensures page.Rendered? && page.view == "login-admin"
    ensures "loginError" in page.model <==> error.Some?
    ensures page.model.Keys <= {"loginError"}
  {
    Rendered("login-admin",
             if error.Some? then map["loginError" := "Invalid username or password for Admin."] else map[])
  }

  /** showUserLoginPage: the error and registered flags each switch on their own message. */
  function ShowUserLoginPage(error: Option<string>, registered: Option<string>): (page: Outcome<Attributes>)
    ensures page.Rendered? && page.view == "login-user"
    ensures "loginError" in page.model <==> error.Some?
    ensures "registrationSuccess" in page.model <==> registered.Some?
    ensures page.model.Keys <= {"loginError", "registrationSuccess"}
  {
    var withError: Attributes :=
      if error.Some? then map["loginError" := "Invalid username or password for User."] else map[];
    Rendered("login-user",
             if registered.Some? then withError["registrationSuccess" := "Registration successful! Please log in."]
             else withError)
  }

  /** The registration form of either entry point: the message appears only for error=exists. */
  function ShowRegistrationForm(role: Role, error: Option<string>): (page: Outcome<Attributes>)
    ensures page.Rendered? && "/" + page.view == RegistrationPage(role)
    ensures "registrationError" in page.model <==> error == Some("exists")
    ensures page.model.Keys <= {"registrationError"}
  {
    Rendered(RegistrationPage(role)[1..],
             if error.Some? && error.value == "exists" then map["registrationError" := "Username already exists."]
             else map[])
  }

  /** showUserRegistrationForm */
  function ShowUserRegistrationForm(error: Option<string>): (page: Outcome<Attributes>)
    ensures page.Rendered? && page.view == "register-user"
    ensures "registrationError" in page.model <==> error == Some("exists")
  {
    ShowRegistrationForm(RoleUser, error)
  }

  /** showAdminRegistrationForm */
  function ShowAdminRegistrationForm(error: Option<string>): (page: Outcome<Attributes>)
    ensures page.Rendered? && page.view == "register-admin"
    ensures "registrationError" in page.model <==> error == Some("exists")
  {
    ShowRegistrationForm(RoleAdmin, error)
  }

  // ---- Where the redirects lead ----

  /** A failed login, from either form, lands on the user login page with the error message. */
  lemma FailedLoginShowsError()
    ensures var request := Follow(LoginFailureUrl);
            && request.path == UserLoginPage
            && var page := ShowUserLoginPage(Param(request, "error"), Param(request, "registered"));
               "loginError" in page.model && "registrationSuccess" !in page.model
  {
    FollowSplits(UserLoginPage, "error");
    FlagParameter("error");
    FlagSetsNoOtherParameter("error", "registered");
  }

  /** A user registration lands on the user login page with the success message only. */
  lemma UserRegistrationShowsSuccess()
    ensures var request := Follow(RegisteredUrl(RoleUser));
            && request.path == UserLoginPage
            && var page := ShowUserLoginPage(Param(request, "error"), Param(request, "registered"));
               "registrationSuccess" in page.model && "loginError" !in page.model
  {
    FollowSplits(UserLoginPage, "registered");
    FlagParameter("registered");
    FlagSetsNoOtherParameter("registered", "error");
  }

  /** An admin registration lands on the admin login page, which ignores the registered flag. */
  lemma AdminRegistrationFlagIgnored()
    ensures var request := Follow(RegisteredUrl(RoleAdmin));
            && request.path == AdminLoginPage
            && Param(request, "registered") == Some("")
            && ShowAdminLoginPage(Param(request, "error")).model == map[]
  {
    FollowSplits(AdminLoginPage, "registered");
    FlagParameter("registered");
    FlagSetsNoOtherParameter("registered", "error");
  }

  /** A taken username lands back on the same registration form, with its error message. */
  lemma TakenUsernameShowsError(role: Role)
    ensures var request := Follow(ExistsUrl(role));
            && request.path == RegistrationPage(role)
            && "registrationError" in ShowRegistrationForm(role, Param(request, "error")).model
  {
    var request := Follow(ExistsUrl(role));
    assert '?' !in RegistrationPage(role);
    FollowSplits(RegistrationPage(role), "error=exists");
    ExistsPairBinds();
    assert Param(request, "error") == Some("exists");
  }

  /** The query string of that redirect binds error to "exists". */
  lemma ExistsPairBinds()
    ensures ParameterValues("error=exists", "error") == ["exists"]
  {
    PairParameter("error", "exists");
    assert "error" + "=" + "exists" == "error=exists";
  }

  // ---- Registration ----

  /** What a registration answers and the user table it leaves behind. */
  datatype RegistrationEffect = RegistrationEffect(outcome: Outcome<()>, users: map<int, UserRow>)

  /**
   * registerUser / registerAdmin on a form bound to (id, username, password),
   * as written: the username check, then encode (which rejects a null
   * password), the entry point's fixed role, and save -- which merges onto
   * the row a bound id names.
   */
  function RegistrationOf(users: map<int, UserRow>, next: int, id: Option<int>, username: Option<string>,
                          password: Option<string>, salt: Salt, role: Role): (effect: RegistrationEffect)
    requires UsernamesUnique(users)
    ensures effect.outcome == Redirected(ExistsUrl(role)) <==> username.Some? && UsernameTaken(users, username.value)
    ensures effect.outcome == Redirected(RegisteredUrl(role)) <==>
      username.Some? && password.Some? && !UsernameTaken(users, username.value)
    ensures effect.outcome != Redirected(RegisteredUrl(role)) ==> effect.users == users
    ensures effect.outcome == Redirected(RegisteredUrl(role)) ==>
      var key := SaveKey(users, next, id);
      effect.users == users[key := UserRow(key, username.value, Encode(password.value, salt), role)]
    ensures UsernamesUnique(effect.users)
  {
    if username.Some? && FindByUsername(users, username.value).Some? then
      RegistrationEffect(Redirected(ExistsUrl(role)), users)
    else if password.None? then
      RegistrationEffect(Failed(NullPassword), users)
    else
      var key := SaveKey(users, next, id);
      match UserRowFor(users, key, username, Some(Encode(password.value, salt)), Some(role))
      case Failure(error) => RegistrationEffect(Failed(Persistence(error)), users)
      case Success(row) =>
        UserWriteKeepsUnique(users, key, username, Some(Encode(password.value, salt)), Some(role));
        RegistrationEffect(Redirected(RegisteredUrl(role)), users[key := row])
  }

  /**
   * A registration whose form carries no id (or an unknown one) adds exactly
   * one account, under the next IDENTITY value, and changes no other.
   */
  lemma FreshRegistrationAddsOneUser(users: map<int, UserRow>, next: int, id: Option<int>, username: Option<string>,
                                     password: Option<string>, salt: Salt, role: Role)
    requires UsernamesUnique(users)
    requires forall k :: k in users ==> k < next
    requires id.None? || id.value !in users
    requires RegistrationOf(users, next, id, username, password, salt, role).outcome == Redirected(RegisteredUrl(role))
    ensures var after := RegistrationOf(users, next, id, username, password, salt, role).users;
            && next !in users
            && after.Keys == users.Keys + {next}
            && (forall k :: k in users ==> after[k] == users[k])
            && after[next] == UserRow(next, username.value, Encode(password.value, salt), role)
  {
  }

  /**
   * Whoever registers a non-empty name without surrounding blanks can then
   * log in with it and the submitted password, and lands on the dashboard of
   * the entry point's role.
   */
  lemma LoginAfterRegistration(users: map<int, UserRow>, next: int, id: Option<int>, username: Option<string>,
                               password: Option<string>, salt: Salt, role: Role)
    requires UsernamesUnique(users)
    requires RegistrationOf(users, next, id, username, password, salt, role).outcome == Redirected(RegisteredUrl(role))
    requires username.value != "" && Trimmed(username.value)
    ensures var after := RegistrationOf(users, next, id, username, password, salt, role).users;
            ProcessLogin(after, username.value, password.value) ==
              if role == RoleAdmin then AdminDashboard else UserDashboard
  {
    var after := RegistrationOf(users, next, id, username, password, salt, role).users;
    var key := SaveKey(users, next, id);
    TrimKeepsTrimmed(username.value);
    assert after[key].username == username.value && Matches(password.value, after[key].password);
    if role == RoleAdmin {
      assert after[key].role == RoleAdmin;
    } else {
      assert after[key].role == RoleUser;
    }
  }

  /** After registering a name without surrounding blanks, any other password is refused for it. */
  lemma WrongPasswordRejected(users: map<int, UserRow>, next: int, id: Option<int>, username: Option<string>,
                              password: Option<string>, salt: Salt, role: Role, wrong: string)
    requires UsernamesUnique(users)
    requires RegistrationOf(users, next, id, username, password, salt, role).outcome == Redirected(RegisteredUrl(role))
    requires Trimmed(username.value)
    requires wrong != password.value
    ensures ProcessLogin(RegistrationOf(users, next, id, username, password, salt, role).users, username.value, wrong)
            == LoginFailureUrl
  {
    var name := username.value;
    var after := RegistrationOf(users, next, id, username, password, salt, role).users;
    var key := SaveKey(users, next, id);
    assert after == users[key := UserRow(key, name, Encode(password.value, salt), role)];
    forall k | k in after && k != key ensures after[k].username != name {
      assert after[k] == users[k];
    }
    MatchesOnlyEncodedPassword(wrong, password.value, salt);
    assert !Verifies(after, name, wrong);
    TrimKeepsTrimmed(name);
  }

  /**
   * As written, an id bound from the submitted form makes save merge onto
   * that account: registering "mallory" with id=1 replaces "alice".
   */
  lemma BoundIdOverwritesAccount()
    ensures var alice := UserRow(1, "alice", Encode("secret", 'a'), RoleAdmin);
            var users := map[1 := alice];
            var effect := RegistrationOf(users, 2, Some(1), Some("mallory"), Some("pw"), 'b', RoleUser);
            && effect.outcome == Redirected(RegisteredUrl(RoleUser))
            && effect.users.Keys == {1}
            && !UsernameTaken(effect.users, "alice")
  {
    var alice := UserRow(1, "alice", Encode("secret", 'a'), RoleAdmin);
    var users := map[1 := alice];
    assert "mallory" != "alice" by { assert "mallory"[0] != "alice"[0]; }
    assert !UsernameTaken(users, "mallory");
  }

  /**
   * The shared body of registerUser and registerAdmin, for the entry
   * point's role. The bound User is updated in place (password, role, and
   * the id save writes back).
   */
  method RegisterAs(db: Database, user: User, salt: Salt, role: Role) returns (outcome: Outcome<()>)
    requires db.Valid()
    modifies db`users, db`nextUserId, user`id, user`password, user`role
    ensures db.Valid()
    ensures var effect := RegistrationOf(old(db.users), old(db.nextUserId), old(user.id), old(user.username),
                                         old(user.password), salt, role);
            outcome == effect.outcome && db.users == effect.users
    ensures var key := SaveKey(old(db.users), old(db.nextUserId), old(user.id));
            db.nextUserId == if outcome == Redirected(RegisteredUrl(role)) && key == old(db.nextUserId)
                             then old(db.nextUserId) + 1 else old(db.nextUserId)
    ensures outcome == Redirected(RegisteredUrl(role)) ==>
      && user.password == Some(Encode(old(user.password).value, salt))
      && user.role == Some(role)
      && user.id == (if old(user.id).None? then Some(old(db.nextUserId)) else old(user.id))
    ensures outcome.Failed? && outcome.failure.Persistence? ==>
      && old(user.password).Some?
      && user.password == Some(Encode(old(user.password).value, salt))
      && user.role == Some(role)
      && user.id == old(user.id)
    ensures outcome == Redirected(ExistsUrl(role)) || outcome == Failed(NullPassword) ==> unchanged(user)
  {
    if user.username.Some? && FindByUsername(db.users, user.username.value).Some? {
      return Redirected(ExistsUrl(role));
    }
    if user.password.None? {
      return Failed(NullPassword);
    }
    user.SetPassword(Some(Encode(user.password.value, salt)));
    user.SetRole(Some(role));
    var saved := db.SaveUser(user);
    if saved.Failure? {
      return Failed(Persistence(saved.error));
    }
    return Redirected(RegisteredUrl(role));
  }

  /** registerUser: the account always gets ROLE_USER, whatever role the form carried. */
  method RegisterUser(db: Database, user: User, salt: Salt) returns (outcome: Outcome<()>)
    requires db.Valid()
    modifies db`users, db`nextUserId, user`id, user`password, user`role
    ensures db.Valid()
    ensures var effect := RegistrationOf(old(db.users), old(db.nextUserId), old(user.id), old(user.username),
                                         old(user.password), salt, RoleUser);
            outcome == effect.outcome && db.users == effect.users
    ensures var key := SaveKey(old(db.users), old(db.nextUserId), old(user.id));
            db.nextUserId == if outcome == Redirected(RegisteredUrl(RoleUser)) && key == old(db.nextUserId)
                             then old(db.nextUserId) + 1 else old(db.nextUserId)
    ensures outcome == Redirected(RegisteredUrl(RoleUser)) ==>
      && user.password == Some(Encode(old(user.password).value, salt))
      && user.role == Some(RoleUser)
      && user.id == (if old(user.id).None? then Some(old(db.nextUserId)) else old(user.id))
    ensures outcome.Failed? && outcome.failure.Persistence? ==>
      && old(user.password).Some?
      && user.password == Some(Encode(old(user.password).value, salt))
      && user.role == Some(RoleUser)
      && user.id == old(user.id)
    ensures outcome == Redirected(ExistsUrl(RoleUser)) || outcome == Failed(NullPassword) ==> unchanged(user)
  {
    outcome := RegisterAs(db, user, salt, RoleUser);
  }

  /** registerAdmin: the account always gets ROLE_ADMIN. */
  method RegisterAdmin(db: Database, user: User, salt: Salt) returns (outcome: Outcome<()>)
    requires db.Valid()
    modifies db`users, db`nextUserId, user`id, user`password, user`role
    ensures db.Valid()
    ensures var effect := RegistrationOf(old(db.users), old(db.nextUserId), old(user.id), old(user.username),
                                         old(user.password), salt, RoleAdmin);
            outcome == effect.outcome && db.users == effect.users
    ensures var key := SaveKey(old(db.users), old(db.nextUserId), old(user.id));
            db.nextUserId == if outcome == Redirected(RegisteredUrl(RoleAdmin)) && key == old(db.nextUserId)
                             then old(db.nextUserId) + 1 else old(db.nextUserId)
    ensures outcome == Redirected(RegisteredUrl(RoleAdmin)) ==>
      && user.password == Some(Encode(old(user.password).value, salt))
      && user.role == Some(RoleAdmin)
      && user.id == (if old(user.id).None? then Some(old(db.nextUserId)) else old(user.id))
    ensures outcome.Failed? && outcome.failure.Persistence? ==>
      && old(user.password).Some?
      && user.password == Some(Encode(old(user.password).value, salt))
      && user.role == Some(RoleAdmin)
      && user.id == old(user.id)
    ensures outcome == Redirected(ExistsUrl(RoleAdmin)) || outcome == Failed(NullPassword) ==> unchanged(user)
  {
    outcome := RegisterAs(db, user, salt, RoleAdmin);
  }

  /**
   * Registration as intended: the id the form may carry is discarded, so a
   * successful registration adds exactly one new account and leaves every
   * existing account as it was.
   */
  method RegisterFixed(db: Database, user: User, salt: Salt, role: Role) returns (outcome: Outcome<()>)
    requires db.Valid()
    modifies db`users, db`nextUserId, user`id, user`password, user`role
    ensures db.Valid()
    ensures var effect := RegistrationOf(old(db.users), old(db.nextUserId), None, old(user.username),
                                         old(user.password), salt, role);
            outcome == effect.outcome && db.users == effect.users
    ensures outcome == Redirected(RegisteredUrl(role)) ==>
      && old(db.nextUserId) !in old(db.users)
      && db.users.Keys == old(db.users).Keys + {old(db.nextUserId)}
      && (forall k :: k in old(db.users) ==> db.users[k] == old(db.users)[k])
    ensures db.nextUserId == if outcome == Redirected(RegisteredUrl(role)) then old(db.nextUserId) + 1
                             else old(db.nextUserId)
    ensures outcome == Redirected(RegisteredUrl(role)) ==> user.id == Some(old(db.nextUserId))
  {
    user.SetId(None);
    outcome := RegisterAs(db, user, salt, role);
    if outcome == Redirected(RegisteredUrl(role)) {
      FreshRegistrationAddsOneUser(old(db.users), old(db.nextUserId), None, old(user.username),
                                   old(user.password), salt, role);
    }
  }

  /**
   * As written, registration stores the name exactly as submitted, while the
   * login form trims it: " bob" registers, and logging in as " bob" looks up
   * "bob", which does not exist.
   */
  lemma PaddedNameCannotLogIn(users: map<int, UserRow>, next: int, name: string, password: string, salt: Salt,
                              role: Role)
    requires UsernamesUnique(users)
    requires Trimmed(name) && !UsernameTaken(users, name) && !UsernameTaken(users, [' '] + name)
    ensures var effect := RegistrationOf(users, next, None, Some([' '] + name), Some(password), salt, role);
            && effect.outcome == Redirected(RegisteredUrl(role))
            && ProcessLogin(effect.users, [' '] + name, password) == LoginFailureUrl
  {
    var after := RegistrationOf(users, next, None, Some([' '] + name), Some(password), salt, role).users;
    assert after == users[next := UserRow(next, [' '] + name, Encode(password, salt), role)];
    forall k | k in after ensures after[k].username != name {
      if k != next { assert after[k] == users[k]; }
      else { assert |after[k].username| != |name|; }
    }
    TrimLeadingSpace(name);
  }

  /** As written, the empty name registers, and the framework refuses to load it at login. */
  lemma EmptyNameCannotLogIn(users: map<int, UserRow>, next: int, password: string, salt: Salt, role: Role)
    requires UsernamesUnique(users) && !UsernameTaken(users, "")
    ensures var effect := RegistrationOf(users, next, None, Some(""), Some(password), salt, role);
            && effect.outcome == Redirected(RegisteredUrl(role))
            && ProcessLogin(effect.users, "", password) == LoginFailureUrl
  {
    TrimKeepsTrimmed("");
  }

  /**
   * Registration as intended: the name is trimmed as the login form will
   * trim it, and a blank name is refused before anything is saved.
   */
  function IntendedRegistrationOf(users: map<int, UserRow>, next: int, id: Option<int>, username: Option<string>,
                                  password: Option<string>, salt: Salt, role: Role): (effect: RegistrationEffect)
    requires UsernamesUnique(users)
    ensures effect.outcome == Failed(BlankUsername) <==> username.Some? && Trim(username.value) == ""
    ensures effect.outcome == Redirected(RegisteredUrl(role)) <==>
      && username.Some? && Trim(username.value) != "" && password.Some?
      && !UsernameTaken(users, Trim(username.value))
    ensures effect.outcome != Redirected(RegisteredUrl(role)) ==> effect.users == users
    ensures effect.outcome == Redirected(RegisteredUrl(role)) ==>
      var key := SaveKey(users, next, id);
      effect.users == users[key := UserRow(key, Trim(username.value), Encode(password.value, salt), role)]
  {
    if username.Some? && Trim(username.value) == "" then RegistrationEffect(Failed(BlankUsername), users)
    else RegistrationOf(users, next, id, if username.Some? then Some(Trim(username.value)) else None,
                        password, salt, role)
  }

  /**
   * Under the intended registration every account it creates can log in,
   * typing the name as it was typed at registration, and reaches the
   * dashboard of its role.
   */
  lemma IntendedRegistrationCanLogIn(users: map<int, UserRow>, next: int, id: Option<int>,
                                     username: Option<string>, password: Option<string>, salt: Salt, role: Role)
    requires UsernamesUnique(users)
    requires IntendedRegistrationOf(users, next, id, username, password, salt, role).outcome
             == Redirected(RegisteredUrl(role))
    ensures var after := IntendedRegistrationOf(users, next, id, username, password, salt, role).users;
            ProcessLogin(after, username.value, password.value) == if role == RoleAdmin then AdminDashboard else UserDashboard
  {
    var name := Trim(username.value);
    LoginAfterRegistration(users, next, id, Some(name), password, salt, role);
    var after := RegistrationOf(users, next, id, Some(name), password, salt, role).users;
    assert ProcessLogin(after, name, password.value) == ProcessLogin(after, username.value, password.value) by {
      TrimKeepsTrimmed(name);
    }
  }
}
