/** The account handlers of server/src/controllers/auth.controller.js over
    the table of users: register, login, getMe, updateProfile and
    changePassword, and the token a sign-in issues. The User model is not
    part of this model: `user.matchPassword(candidate)` is the `matches`
    parameter (candidate first, stored password second), `jwt.sign` is
    `sign`, and the table is the users in insertion order, which is the
    order in which `findOne` meets them. */
module AuthController {
  import opened Common
  import opened Documents
  import Activity
  import AuthMiddleware
  import Validate

  datatype User = User(id: UserId, username: string, email: string, password: string, role: string)

  /** The `user` object of a reply: everything but the password. */
  datatype PublicUser = PublicUser(id: UserId, username: string, email: string, role: string)

  function Public(u: User): PublicUser {
    PublicUser(u.id, u.username, u.email, u.role)
  }

  /** `generateToken(user)`: the payload `{ user: { id, role } }`. */
  function TokenClaims(u: User): (c: AuthMiddleware.Claims)
    ensures c.user == Some(AuthUser(u.id, u.role))
  {
    AuthMiddleware.Claims(Some(AuthUser(u.id, u.role)))
  }

  /** The JSON bodies the handlers answer with. */
  datatype AuthPayload =
    | Errors(errors: seq<Validate.FieldError>)
    | SignedIn(token: string, user: PublicUser)
    | Profile(user: PublicUser)
    | Me(found: Option<PublicUser>)
    | PasswordUpdated

  // ---------------------------------------------------------------------------
  // Queries

  /** The filters the handlers give to `findOne` and `findById`. */
  datatype Query =
    | ById(id: UserId)
    | ByEmail(email: string)
    | ByUsername(username: string)
    | EmailOrUsername(email: string, username: string)

  predicate Selects(q: Query, u: User) {
    match q
    case ById(id) => u.id == id
    case ByEmail(e) => u.email == e
    case ByUsername(n) => u.username == n
    case EmailOrUsername(e, n) => u.email == e || u.username == n
  }

  /** `User.findOne(q)`: the position of the first user the filter selects. */
  function FindOne(users: seq<User>, q: Query): (r: Option<nat>)
    ensures r.Some? ==> r.value < |users| && Selects(q, users[r.value])
                        && forall j :: 0 <= j < r.value ==> !Selects(q, users[j])
    ensures r.None? ==> forall j :: 0 <= j < |users| ==> !Selects(q, users[j])
  {
    if users == [] then None
    else if Selects(q, users[0]) then Some(0)
    else
      match FindOne(users[1..], q)
      case None => None
      case Some(i) => Some(i + 1)
  }

  /** Identifiers are present, and no two users share an identifier, a
      username or an e-mail. */
  ghost predicate Unique(users: seq<User>) {
    && (forall i :: 0 <= i < |users| ==> users[i].id != "")
    && (forall i, j :: 0 <= i < j < |users| ==>
          && users[i].id != users[j].id
          && users[i].username != users[j].username
          && users[i].email != users[j].email)
  }

  /** A fresh identifier from the database. */
  predicate Fresh(users: seq<User>, id: UserId) {
    id != "" && forall i :: 0 <= i < |users| ==> users[i].id != id
  }

  /** Under uniqueness a lookup by one key finds the one user holding it. */
  lemma FindUnique(users: seq<User>, q: Query, i: nat)
    requires Unique(users) && !q.EmailOrUsername?
    requires i < |users| && Selects(q, users[i])
    ensures FindOne(users, q) == Some(i)
  {
    var k := FindOne(users, q).value;
    assert Selects(q, users[k]);
  }

  // ---------------------------------------------------------------------------
  // register

  /** `register`: the reply and the table afterwards. `errors` is what
      `validationResult(req)` collected. */
  function RegisterOutcome(users: seq<User>, errors: seq<Validate.FieldError>,
                           username: string, email: string, password: string,
                           newId: UserId, sign: AuthMiddleware.Claims -> string)
    : (out: (Response<AuthPayload>, seq<User>))
    requires Fresh(users, newId)
    ensures errors != [] ==> out == (Reply(400, Errors(errors)), users)
    ensures out.0.Status() == 201 <==>
      errors == [] && forall j :: 0 <= j < |users| ==>
        users[j].email != email && users[j].username != username
    ensures errors == [] && out.0.Status() != 201 ==>
      out == (Refuse(400, "User already exists"), users)
    ensures out.0.Status() == 201 ==>
      var u := User(newId, username, email, password, "user");
      && out.1 == users + [u]
      && out.0 == Reply(201, SignedIn(sign(TokenClaims(u)), Public(u)))
  {
    if errors != [] then (Reply(400, Errors(errors)), users)
    else if FindOne(users, EmailOrUsername(email, username)).Some? then
      (Refuse(400, "User already exists"), users)
    else
      var u := User(newId, username, email, password, "user");
      (Reply(201, SignedIn(sign(TokenClaims(u)), Public(u))), users + [u])
  }

  lemma RegisterKeepsUnique(users: seq<User>, errors: seq<Validate.FieldError>,
                            username: string, email: string, password: string,
                            newId: UserId, sign: AuthMiddleware.Claims -> string)
    requires Unique(users) && Fresh(users, newId)
    ensures Unique(RegisterOutcome(users, errors, username, email, password, newId, sign).1)
  {
    var out := RegisterOutcome(users, errors, username, email, password, newId, sign);
    if out.0.Status() == 201 {
      var after := out.1;
      forall i, j | 0 <= i < j < |after|
        ensures && after[i].id != after[j].id
                && after[i].username != after[j].username
                && after[i].email != after[j].email
      {
        assert after[i] == users[i];
        if j == |users| {
          assert after[j] == User(newId, username, email, password, "user");
        } else {
          assert after[j] == users[j];
        }
      }
    }
  }

  // ---------------------------------------------------------------------------
  // login

  /** `login`: an unknown e-mail and a wrong password get the same answer. */
  function LoginOutcome(users: seq<User>, errors: seq<Validate.FieldError>,
                        email: string, password: string,
                        matches: (string, string) -> bool,
                        sign: AuthMiddleware.Claims -> string): (r: Response<AuthPayload>)
    ensures errors != [] ==> r == Reply(400, Errors(errors))
    ensures errors == [] && r.Status() != 200 ==> r == Refuse(400, "Invalid credentials")
    ensures errors == [] ==>
      (r.Status() == 200 <==>
         FindOne(users, ByEmail(email)).Some?
         && matches(password, users[FindOne(users, ByEmail(email)).value].password))
    ensures r.Status() == 200 ==>
      exists i :: 0 <= i < |users| && users[i].email == email
                  && matches(password, users[i].password)
                  && r == Reply(200, SignedIn(sign(TokenClaims(users[i])), Public(users[i])))
  {
    if errors != [] then Reply(400, Errors(errors))
    else
      match FindOne(users, ByEmail(email))
      case None => Refuse(400, "Invalid credentials")
      case Some(i) =>
        if !matches(password, users[i].password) then Refuse(400, "Invalid credentials")
        else Reply(200, SignedIn(sign(TokenClaims(users[i])), Public(users[i])))
  }

  /** With unique e-mails, login succeeds exactly when some user has the
      e-mail and the password matches that user's. */
  lemma LoginSucceedsIff(users: seq<User>, email: string, password: string,
                         matches: (string, string) -> bool,
                         sign: AuthMiddleware.Claims -> string)
    requires Unique(users)
    ensures LoginOutcome(users, [], email, password, matches, sign).Status() == 200 <==>
      exists i :: 0 <= i < |users| && users[i].email == email && matches(password, users[i].password)
  {
    if i :| 0 <= i < |users| && users[i].email == email && matches(password, users[i].password) {
      FindUnique(users, ByEmail(email), i);
    }
  }

  /** The activity a successful login records: "login" is one of the
      enumerated actions, so unlike the other handlers' entries it is
      saved. */
  function LoginRecord(u: User, ipAddress: Option<string>, userAgent: Option<string>)
    : Activity.ActivityRecord
  {
    Activity.ActivityRecord(u.id, None, Activity.Login, None, ipAddress, userAgent)
  }

  lemma LoginIsLogged(u: User, ipAddress: Option<string>, userAgent: Option<string>)
    requires u.id != ""
    ensures Activity.Logged(Activity.ActivityData(Some(u.id), None, "login", None, ipAddress, userAgent))
            == Some(LoginRecord(u, ipAddress, userAgent))
  {
    Activity.ParseActionName(Activity.Login);
  }

  /** Whoever registers can log in at once with the same e-mail and
      password, and gets the same token and user back. */
  lemma RegisterThenLogin(users: seq<User>, username: string, email: string, password: string,
                          newId: UserId, sign: AuthMiddleware.Claims -> string,
                          matches: (string, string) -> bool)
    requires Unique(users) && Fresh(users, newId)
    requires RegisterOutcome(users, [], username, email, password, newId, sign).0.Status() == 201
    requires matches(password, password)
    ensures var out := RegisterOutcome(users, [], username, email, password, newId, sign);
            LoginOutcome(out.1, [], email, password, matches, sign) == Reply(200, out.0.body)
  {
    var out := RegisterOutcome(users, [], username, email, password, newId, sign);
    RegisterKeepsUnique(users, [], username, email, password, newId, sign);
    assert out.1[|users|] == User(newId, username, email, password, "user");
    FindUnique(out.1, ByEmail(email), |users|);
  }

  /** The token of a sign-in, sent back as `Bearer <token>`, passes the
      `auth` middleware with the user's id and role, provided the JWT
      library verifies what it signed. */
  lemma IssuedTokenAuthenticates(u: User, sign: AuthMiddleware.Claims -> string,
                                 verify: string -> AuthMiddleware.Verified)
    requires sign(TokenClaims(u)) != ""
    requires verify(sign(TokenClaims(u))) == AuthMiddleware.Decoded(TokenClaims(u))
    ensures AuthMiddleware.Authenticate(Some(AuthMiddleware.BearerPrefix + sign(TokenClaims(u))), verify)
            == AuthMiddleware.Next(Some(AuthUser(u.id, u.role)))
  {
    AuthMiddleware.ExtractBearer(sign(TokenClaims(u)));
  }

  // ---------------------------------------------------------------------------
  // getMe

  /** `getMe`: the caller's user without the password, or null. */
  function GetMeOutcome(users: seq<User>, userId: UserId): (r: Response<AuthPayload>)
    ensures r.Reply? && r.status == 200 && r.body.Me?
    ensures r.body.found.Some? <==> exists i :: 0 <= i < |users| && users[i].id == userId
    ensures r.body.found.Some? ==>
      exists i :: 0 <= i < |users| && users[i].id == userId && r.body.found.value == Public(users[i])
  {
    match FindOne(users, ById(userId))
    case None => Reply(200, Me(None))
    case Some(i) => Reply(200, Me(Some(Public(users[i]))))
  }

  /** A registered user finds their own profile. */
  lemma RegisterThenGetMe(users: seq<User>, username: string, email: string, password: string,
                          newId: UserId, sign: AuthMiddleware.Claims -> string)
    requires Unique(users) && Fresh(users, newId)
    requires RegisterOutcome(users, [], username, email, password, newId, sign).0.Status() == 201
    ensures var out := RegisterOutcome(users, [], username, email, password, newId, sign);
            GetMeOutcome(out.1, newId) == Reply(200, Me(Some(PublicUser(newId, username, email, "user"))))
  {
    var out := RegisterOutcome(users, [], username, email, password, newId, sign);
    RegisterKeepsUnique(users, [], username, email, password, newId, sign);
    assert out.1[|users|] == User(newId, username, email, password, "user");
    FindUnique(out.1, ById(newId), |users|);
  }

  // ---------------------------------------------------------------------------
  // updateProfile

  /** A field is changed only when it is given (non-empty) and different. */
  predicate Changes(current: string, requested: string) {
    requested != "" && requested != current
  }

  function NewValue(current: string, requested: string): string {
    if Changes(current, requested) then requested else current
  }

  /** `updateProfile`: both checks run before the single save, so a clash on
      the e-mail discards the username change too. */
  function UpdateProfileOutcome(users: seq<User>, userId: UserId, username: string, email: string)
    : (out: (Response<AuthPayload>, seq<User>))
    ensures FindOne(users, ById(userId)).None? ==> out == (Refuse(404, "User not found"), users)
    ensures out.0.Status() != 200 ==> out.1 == users
    ensures FindOne(users, ById(userId)).Some? ==>
      var i := FindOne(users, ById(userId)).value;
      var u := users[i];
      var nameTaken := exists j :: 0 <= j < |users| && users[j].username == username;
      var emailTaken := exists j :: 0 <= j < |users| && users[j].email == email;
      && (Changes(u.username, username) && nameTaken ==>
            out.0 == Refuse(400, "Username already in use"))
      && (!(Changes(u.username, username) && nameTaken) && Changes(u.email, email) && emailTaken ==>
            out.0 == Refuse(400, "Email already in use"))
      && (out.0.Status() == 200 <==>
            !(Changes(u.username, username) && nameTaken) && !(Changes(u.email, email) && emailTaken))
      && (out.0.Status() == 200 ==>
            && |out.1| == |users|
            && (forall j :: 0 <= j < |users| && j != i ==> out.1[j] == users[j])
            && out.1[i] == u.(username := NewValue(u.username, username), email := NewValue(u.email, email))
            && out.0 == Reply(200, Profile(Public(out.1[i]))))
  {
    match FindOne(users, ById(userId))
    case None => (Refuse(404, "User not found"), users)
    case Some(i) =>
      var u := users[i];
      if Changes(u.username, username) && FindOne(users, ByUsername(username)).Some? then
        (Refuse(400, "Username already in use"), users)
      else if Changes(u.email, email) && FindOne(users, ByEmail(email)).Some? then
        (Refuse(400, "Email already in use"), users)
      else
        var v := u.(username := NewValue(u.username, username), email := NewValue(u.email, email));
        (Reply(200, Profile(Public(v))), users[i := v])
  }

  lemma UpdateProfileKeepsUnique(users: seq<User>, userId: UserId, username: string, email: string)
    requires Unique(users)
    ensures Unique(UpdateProfileOutcome(users, userId, username, email).1)
  {
    var out := UpdateProfileOutcome(users, userId, username, email);
    if out.0.Status() == 200 {
      var i := FindOne(users, ById(userId)).value;
      var after := out.1;
      forall a, b | 0 <= a < b < |after|
        ensures && after[a].id != after[b].id
                && after[a].username != after[b].username
                && after[a].email != after[b].email
      {
        if a == i {
          assert after[b] == users[b];
        } else if b == i {
          assert after[a] == users[a];
        } else {
          assert after[a] == users[a] && after[b] == users[b];
        }
      }
    }
  }

  // ---------------------------------------------------------------------------
  // changePassword

  /** `changePassword`: only the caller's password changes, and only when
      the current one matches. The new password is not checked against the
      registration rules. */
  function ChangePasswordOutcome(users: seq<User>, userId: UserId, currentPassword: string,
                                 newPassword: string, matches: (string, string) -> bool)
    : (out: (Response<AuthPayload>, seq<User>))
    ensures FindOne(users, ById(userId)).None? ==> out == (Refuse(404, "User not found"), users)
    ensures out.0.Status() != 200 ==> out.1 == users
    ensures FindOne(users, ById(userId)).Some? ==>
      var i := FindOne(users, ById(userId)).value;
      && (out.0.Status() == 200 <==> matches(currentPassword, users[i].password))
      && (out.0.Status() != 200 ==> out.0 == Refuse(400, "Current password is incorrect"))
      && (out.0.Status() == 200 ==>
            && out.0 == Reply(200, PasswordUpdated)
            && |out.1| == |users|
            && (forall j :: 0 <= j < |users| && j != i ==> out.1[j] == users[j])
            && out.1[i] == users[i].(password := newPassword))
    ensures Unique(users) ==> Unique(out.1)
  {
    match FindOne(users, ById(userId))
    case None => (Refuse(404, "User not found"), users)
    case Some(i) =>
      if !matches(currentPassword, users[i].password) then
        (Refuse(400, "Current password is incorrect"), users)
      else
        (Reply(200, PasswordUpdated), users[i := users[i].(password := newPassword)])
  }

  /** After a password change the user logs in with the new password, and
      no longer with the old one unless it matches the new stored one. */
  lemma ChangePasswordThenLogin(users: seq<User>, userId: UserId, currentPassword: string,
                                newPassword: string, matches: (string, string) -> bool,
                                sign: AuthMiddleware.Claims -> string)
    requires Unique(users)
    requires ChangePasswordOutcome(users, userId, currentPassword, newPassword, matches).0.Status() == 200
    ensures var after := ChangePasswordOutcome(users, userId, currentPassword, newPassword, matches).1;
            var email := users[FindOne(users, ById(userId)).value].email;
            && (LoginOutcome(after, [], email, newPassword, matches, sign).Status() == 200 <==>
                  matches(newPassword, newPassword))
            && (!matches(currentPassword, newPassword) ==>
                  LoginOutcome(after, [], email, currentPassword, matches, sign)
                  == Refuse(400, "Invalid credentials"))
  {
    var after := ChangePasswordOutcome(users, userId, currentPassword, newPassword, matches).1;
    var i := FindOne(users, ById(userId)).value;
    assert after[i].email == users[i].email && after[i].password == newPassword;
    FindUnique(after, ByEmail(users[i].email), i);
  }

  // ---------------------------------------------------------------------------
  // The handlers over the stored table

  class UserStore {
    var users: seq<User>

    ghost predicate Valid()
      reads this
    {
      Unique(users)
    }

    constructor ()
      ensures users == [] && Valid()
    {
      users := [];
    }

    /** `register`: `newId` is the identifier the database gives the new
        user. The `register` activity is not an enumerated action, so the
        log is left as it was. */
    method Register(errors: seq<Validate.FieldError>, username: string, email: string,
                    password: string, newId: UserId, sign: AuthMiddleware.Claims -> string,
                    log: Activity.ActivityLog) returns (r: Response<AuthPayload>)
      requires Valid() && Fresh(users, newId)
      modifies this, log
      ensures Valid()
      ensures (r, users) == RegisterOutcome(old(users), errors, username, email, password, newId, sign)
      ensures log.records == old(log.records)
    {
      RegisterKeepsUnique(users, errors, username, email, password, newId, sign);
      if errors != [] {
        return Reply(400, Errors(errors));
      }
      var existing := FindOne(users, EmailOrUsername(email, username));
      if existing.Some? {
        return Refuse(400, "User already exists");
      }
      var user := User(newId, username, email, password, "user");
      users := users + [user];
      var token := sign(TokenClaims(user));
      Activity.LogControllerAction(log, user.id, None, Activity.Register, None);
      r := Reply(201, SignedIn(token, Public(user)));
    }

    /** `login`: a successful login is the one activity the log keeps. */
    method Login(errors: seq<Validate.FieldError>, email: string, password: string,
                 matches: (string, string) -> bool, sign: AuthMiddleware.Claims -> string,
                 ipAddress: Option<string>, userAgent: Option<string>,
                 log: Activity.ActivityLog) returns (r: Response<AuthPayload>)
      requires Valid()
      modifies log
      ensures r == LoginOutcome(users, errors, email, password, matches, sign)
      ensures r.Status() != 200 ==> log.records == old(log.records)
      ensures r.Status() == 200 ==>
        var i := FindOne(users, ByEmail(email)).value;
        log.records == old(log.records) + [LoginRecord(users[i], ipAddress, userAgent)]
    {
      if errors != [] {
        return Reply(400, Errors(errors));
      }
      var found := FindOne(users, ByEmail(email));
      if found.None? {
        return Refuse(400, "Invalid credentials");
      }
      var user := users[found.value];
      if !matches(password, user.password) {
        return Refuse(400, "Invalid credentials");
      }
      var token := sign(TokenClaims(user));
      LoginIsLogged(user, ipAddress, userAgent);
      var _ := log.Log(Activity.ActivityData(Some(user.id), None, "login", None, ipAddress, userAgent));
      r := Reply(200, SignedIn(token, Public(user)));
    }

    method GetMe(userId: UserId) returns (r: Response<AuthPayload>)
      ensures r == GetMeOutcome(users, userId)
    {
      var found := FindOne(users, ById(userId));
      if found.None? {
        return Reply(200, Me(None));
      }
      r := Reply(200, Me(Some(Public(users[found.value]))));
    }

    /** `updateProfile`: the fields change in memory one after the other, and
        the table is written once, after both checks. */
    method UpdateProfile(caller: AuthUser, username: string, email: string,
                         log: Activity.ActivityLog) returns (r: Response<AuthPayload>)
      requires Valid()
      modifies this, log
      ensures Valid()
      ensures (r, users) == UpdateProfileOutcome(old(users), caller.id, username, email)
      ensures log.records == old(log.records)
    {
      UpdateProfileKeepsUnique(users, caller.id, username, email);
      var found := FindOne(users, ById(caller.id));
      if found.None? {
        return Refuse(404, "User not found");
      }
      var i := found.value;
      var user := users[i];
      if Changes(user.username, username) {
        var existingUser := FindOne(users, ByUsername(username));
        if existingUser.Some? {
          return Refuse(400, "Username already in use");
        }
        user := user.(username := username);
      }
      if Changes(user.email, email) {
        var existingEmail := FindOne(users, ByEmail(email));
        if existingEmail.Some? {
          return Refuse(400, "Email already in use");
        }
        user := user.(email := email);
      }
      users := users[i := user];
      Activity.LogControllerAction(log, caller.id, None, Activity.UpdateProfile, None);
      r := Reply(200, Profile(Public(user)));
    }

    /** `changePassword`. */
    method ChangePassword(caller: AuthUser, currentPassword: string, newPassword: string,
                          matches: (string, string) -> bool,
                          log: Activity.ActivityLog) returns (r: Response<AuthPayload>)
      requires Valid()
      modifies this, log
      ensures Valid()
      ensures (r, users) == ChangePasswordOutcome(old(users), caller.id, currentPassword, newPassword, matches)
      ensures log.records == old(log.records)
    {
      var found := FindOne(users, ById(caller.id));
      if found.None? {
        return Refuse(404, "User not found");
      }
      var i := found.value;
      if !matches(currentPassword, users[i].password) {
        return Refuse(400, "Current password is incorrect");
      }
      users := users[i := users[i].(password := newPassword)];
      Activity.LogControllerAction(log, caller.id, None, Activity.ChangePassword, None);
      r := Reply(200, PasswordUpdated);
    }
  }
}
