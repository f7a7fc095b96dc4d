/** controllers/AuthController.php: login, registration, the current user
    and logout. The decisions of `login` and `register` are functions of
    the request body and the user collection; the handler methods add the
    rate limiter and the write to the collection. */
module AuthApi {
  import opened Common
  import opened Validator
  import opened Users
  import opened Jwt
  import opened RateLimiter
  import AuthMiddleware

  /** The body of a successful login or registration: the token and the
      user without password. */
  datatype Grant = Grant(token: string, user: Profile)

  const LoginFields: seq<string> := ["email", "password"]
  const RegisterFields: seq<string> := ["name", "email", "password"]
  const InvalidCredentials := "Invalid email or password"

  /** The payload signed for a user: its id, email and role. */
  function TokenClaims(p: Profile): (c: Claims)
    ensures c.Keys == {"userId", "email", "role"}
    ensures c["userId"] == Text(p.id) && c["email"] == Text(p.email) && c["role"] == Text(p.role)
  {
    map["userId" := Text(p.id), "email" := Text(p.email), "role" := Text(p.role)]
  }

  /** The grant answered for the stored user `u` under `id`, with the
      token issued at `now`. */
  function GrantFor(id: Id, u: User, now: int, cfg: JwtConfig, rt: Runtime): Grant {
    var p := ProfileOf(id, u);
    Grant(Encode(TokenClaims(p), now, now, cfg, rt), p)
  }

  /** Whether `password` opens the account of the user holding `email`. */
  predicate Opens(users: map<Id, User>, id: Id, email: string, password: string, rt: Runtime) {
    id in users && users[id].email == email && rt.passwordVerify(password, users[id].password)
  }

  /** `login` after the rate limiter: the required fields, the e-mail
      format, then one 401 for an unknown e-mail and for a wrong password
      alike; success answers the token and the user. */
  function LoginDecision(data: Body, um: UserModel, now: int, cfg: JwtConfig, rt: Runtime): (r: Response<Grant>)
    requires um.Valid()
    reads um
    ensures RequiredErrors(data, LoginFields) != map[] ==>
      r == Response(400, "Validation failed", RequiredErrors(data, LoginFields), None)
    ensures RequiredErrors(data, LoginFields) == map[] && !rt.isEmail(AsText(Field(data, "email"))) ==>
      r == Fail(400, "Invalid email format")
    ensures r.code == 200 <==>
      && RequiredErrors(data, LoginFields) == map[]
      && rt.isEmail(AsText(Field(data, "email")))
      && exists id :: Opens(um.users, id, AsText(Field(data, "email")), AsText(Field(data, "password")), rt)
    ensures r.code == 200 ==> exists id :: && Opens(um.users, id, AsText(Field(data, "email")), AsText(Field(data, "password")), rt)
                                          && r == Response(200, "", map[], Some(GrantFor(id, um.users[id], now, cfg, rt)))
    ensures r.code != 200 ==> r.code == 400 || r == Fail(401, InvalidCredentials)
  {
    var errors := RequiredErrors(data, LoginFields);
    if errors != map[] then Response(400, "Validation failed", errors, None)
    else
      var email := AsText(Field(data, "email"));
      var password := AsText(Field(data, "password"));
      match ValidateEmail(email, rt)
      case Some(message) => Fail(400, message)
      case None =>
        match um.FindByEmail(email)
        case None => Fail(401, InvalidCredentials)
        case Some(account) =>
          if !rt.passwordVerify(password, account.user.password) then
            assert forall id :: Opens(um.users, id, email, password, rt) ==> id == account.id;
            Fail(401, InvalidCredentials)
          else
            assert Opens(um.users, account.id, email, password, rt);
            Response(200, "", map[], Some(GrantFor(account.id, account.user, now, cfg, rt)))
  }

  /** The checks of `register`, in order: the required fields, the e-mail
      format, a password of at least six characters. When all pass, the
      sanitised name and e-mail and the password as given. */
  function RegisterCheck(data: Body, rt: Runtime): (r: Result<(string, string, string), Response<Grant>>)
    ensures RequiredErrors(data, RegisterFields) != map[] ==>
      r == Err(Response(400, "Validation failed", RequiredErrors(data, RegisterFields), None))
    ensures RequiredErrors(data, RegisterFields) == map[] && !rt.isEmail(AsText(Field(data, "email"))) ==>
      r == Err(Fail(400, "Invalid email format"))
    ensures RequiredErrors(data, RegisterFields) == map[] && rt.isEmail(AsText(Field(data, "email")))
            && |AsText(Field(data, "password"))| < 6 ==>
      r == Err(Fail(400, "Password must be at least 6 characters"))
    ensures r.Ok? <==> && RequiredErrors(data, RegisterFields) == map[]
                       && rt.isEmail(AsText(Field(data, "email")))
                       && |AsText(Field(data, "password"))| >= 6
    ensures r.Ok? ==> r.value == (rt.sanitize(AsText(Field(data, "name"))),
                                  rt.sanitize(AsText(Field(data, "email"))),
                                  AsText(Field(data, "password")))
  {
    var errors := RequiredErrors(data, RegisterFields);
    if errors != map[] then Err(Response(400, "Validation failed", errors, None))
    else
      match ValidateEmail(AsText(Field(data, "email")), rt)
      case Some(message) => Err(Fail(400, message))
      case None =>
        var password := AsText(Field(data, "password"));
        if |password| < 6 then Err(Fail(400, "Password must be at least 6 characters"))
        else Ok((rt.sanitize(AsText(Field(data, "name"))), rt.sanitize(AsText(Field(data, "email"))), password))
  }

  /** `me`: 401 without an authenticated user, else the user. */
  function Me(currentUser: Option<Profile>): (r: Response<Profile>)
    ensures r.code == 200 <==> currentUser.Some?
    ensures currentUser.None? ==> r == Fail(401, "Not authenticated")
    ensures currentUser.Some? ==> r.data == currentUser
  {
    match currentUser
    case None => Fail(401, "Not authenticated")
    case Some(user) => Response(200, "", map[], Some(user))
  }

  /** `logout`: tokens are not revoked, so it always answers 200. */
  function Logout(): (r: Response<Grant>)
    ensures r.code == 200 && r.message == "Logged out successfully" && r.data.None?
  {
    Response(200, "Logged out successfully", map[], None)
  }

  /** A registered user logs in with the e-mail and password of the
      registration, provided sanitising leaves the e-mail unchanged (login
      looks the raw e-mail up) and the hash verifies its own password. */
  lemma RegisteredUserLogsIn(data: Body, um: UserModel, id: Id, now: int, cfg: JwtConfig, rt: Runtime)
    requires um.Valid() && id in um.users
    requires RequiredErrors(data, LoginFields) == map[] && rt.isEmail(AsText(Field(data, "email")))
    requires um.users[id].email == AsText(Field(data, "email"))
    requires um.users[id].password == rt.passwordHash(AsText(Field(data, "password")))
    requires rt.passwordVerify(AsText(Field(data, "password")), rt.passwordHash(AsText(Field(data, "password"))))
    ensures LoginDecision(data, um, now, cfg, rt) == Response(200, "", map[], Some(GrantFor(id, um.users[id], now, cfg, rt)))
  {
    var email, password := AsText(Field(data, "email")), AsText(Field(data, "password"));
    assert Opens(um.users, id, email, password, rt);
    var r := LoginDecision(data, um, now, cfg, rt);
    var other :| Opens(um.users, other, email, password, rt) && r == Response(200, "", map[], Some(GrantFor(other, um.users[other], now, cfg, rt)));
    assert other == id;
  }

  /** The token of a login, presented as `Bearer <token>` while it has not
      expired, authenticates the same user in the middleware, given a
      runtime whose JSON decoder inverts its encoder. */
  lemma GrantedTokenAuthenticates(id: Id, um: UserModel, iat: int, now: int, cfg: JwtConfig, rt: Runtime)
    requires um.Valid() && id in um.users
    requires var payload := rt.jsonEncode(Stamped(TokenClaims(ProfileOf(id, um.users[id])), iat, iat, cfg));
      rt.jsonDecode(payload) == Some(Stamped(TokenClaims(ProfileOf(id, um.users[id])), iat, iat, cfg))
    requires now <= iat + cfg.expire
    ensures AuthMiddleware.AuthOutcome(Some("Bearer " + GrantFor(id, um.users[id], iat, cfg, rt).token), now, cfg, rt, um)
            == AuthMiddleware.Authenticated(ProfileOf(id, um.users[id]))
  {
    assert LowerId(id);
    var claims := TokenClaims(ProfileOf(id, um.users[id]));
    AuthMiddleware.IssuedTokenAuthenticates(claims, iat, iat, now, cfg, rt, um, id);
  }

  class AuthController {
    const users: UserModel
    const limiter: Limiter

    constructor (users: UserModel, limiter: Limiter)
      ensures this.users == users && this.limiter == limiter
    {
      this.users := users;
      this.limiter := limiter;
    }

    /** `login`: the rate limiter counts the call under the client address
        and answers 429 once over the limit; otherwise the login decision. */
    method Login(data: Body, remoteAddr: string, now: int, windowEnv: Option<int>, maxEnv: Option<int>,
                 cfg: JwtConfig, rt: Runtime) returns (r: Response<Grant>)
      requires users.Valid() && windowEnv.GetOr(900) != 0
      modifies limiter
      ensures limiter.window == windowEnv.GetOr(900) && limiter.maxRequests == maxEnv.GetOr(100)
      ensures var key := Key(remoteAddr, now, limiter.window);
        && limiter.storage == Checked(old(limiter.storage), key, now, limiter.window)
        && (limiter.storage[key].count > limiter.maxRequests ==> r == Fail(429, TooManyRequests))
        && (limiter.storage[key].count <= limiter.maxRequests ==> r == LoginDecision(data, users, now, cfg, rt))
    {
      var gate := limiter.Check(None, remoteAddr, now, windowEnv, maxEnv);
      if gate.Halt? {
        return Fail(gate.code, gate.message);
      }
      r := LoginDecision(data, users, now, cfg, rt);
    }

    /** `register`: a failed check answers before the collection is
        touched; a taken e-mail answers 400 "Email already exists";
        otherwise the user is stored with role `customer` and 201 answers
        a token for it. */
    method Register(data: Body, newId: Id, now: int, cfg: JwtConfig, rt: Runtime) returns (r: Response<Grant>)
      requires users.Valid() && LowerId(newId) && newId !in users.users
      modifies users
      ensures users.Valid()
      ensures RegisterCheck(data, rt).Err? ==> r == RegisterCheck(data, rt).error && users.users == old(users.users)
      ensures RegisterCheck(data, rt).Ok? ==>
        var (name, email, password) := RegisterCheck(data, rt).value;
        && (old(users.EmailTaken(email, newId)) ==>
              r == Fail(400, "Email already exists") && users.users == old(users.users))
        && (!old(users.EmailTaken(email, newId)) ==>
              && users.users == old(users.users)[newId := User(name, email, rt.passwordHash(password), "customer", now, now)]
              && r == Response(201, "User registered successfully", map[], Some(GrantFor(newId, users.users[newId], now, cfg, rt))))
    {
      var check := RegisterCheck(data, rt);
      if check.Err? {
        return check.error;
      }
      var (name, email, password) := check.value;
      var result := users.Create(name, email, password, Some("customer"), newId, now, rt);
      match result
      case Err(message) =>
        r := Fail(400, message);
      case Ok(p) =>
        r := Response(201, "User registered successfully", map[], Some(Grant(Encode(TokenClaims(p), now, now, cfg, rt), p)));
    }
  }
}
