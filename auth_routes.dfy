/**
 * The authentication endpoints: `register` validates its fields in a fixed
 * order before creating a user; `login` answers unknown e-mail and wrong
 * password alike.
 */
module AuthRoutes {
  import opened Options
  import opened Text
  import opened Users

  /** The JSON fields of a registration; `None` is an absent key. */
  datatype RegisterRequest = RegisterRequest(name: Option<string>, email: Option<string>,
                                             password: Option<string>, role: Option<string>)

  datatype LoginRequest = LoginRequest(email: Option<string>, password: Option<string>)

  /** `create_access_token(identity=user.id)`; signing is not modelled. */
  datatype Token = AccessToken(identity: int)

  datatype AuthBody = Failure(message: string) | Session(token: Token, user: UserDict)

  datatype AuthResponse = AuthResponse(status: int, body: AuthBody)

  function Reject(status: int, message: string): AuthResponse {
    AuthResponse(status, Failure(message))
  }

  /** `data.get('name', '').strip()`. */
  function NameOf(req: RegisterRequest): string { Strip(req.name.GetOr("")) }

  /** `data.get('email', '').strip().lower()`. */
  function EmailOf(req: RegisterRequest): string { Lower(Strip(req.email.GetOr(""))) }

  function PasswordOf(req: RegisterRequest): string { req.password.GetOr("") }

  /** The four checks of `register`, in order; `None` when all pass. */
  function RegisterRejection(users: seq<User>, req: RegisterRequest): (r: Option<AuthResponse>)
    ensures r.Some? ==> r.value.status == 400 && r.value.body.Failure?
    ensures |NameOf(req)| < 2 ==> r == Some(Reject(400, "Name must be at least 2 characters"))
    ensures |NameOf(req)| >= 2 && '@' !in EmailOf(req) ==> r == Some(Reject(400, "Valid email is required"))
    ensures |NameOf(req)| >= 2 && '@' in EmailOf(req) && |PasswordOf(req)| < 6 ==>
      r == Some(Reject(400, "Password must be at least 6 characters"))
    ensures |NameOf(req)| >= 2 && '@' in EmailOf(req) && |PasswordOf(req)| >= 6 ==>
      (r.Some? <==> exists i :: 0 <= i < |users| && users[i].email == NormalizeEmail(EmailOf(req)))
    ensures r.Some? && |NameOf(req)| >= 2 && '@' in EmailOf(req) && |PasswordOf(req)| >= 6 ==>
      r == Some(Reject(400, "User with this email already exists"))
  {
    var name, email, password := NameOf(req), EmailOf(req), PasswordOf(req);
    if name == [] || |name| < 2 then Some(Reject(400, "Name must be at least 2 characters"))
    else if email == [] || '@' !in email then Some(Reject(400, "Valid email is required"))
    else if password == [] || |password| < 6 then Some(Reject(400, "Password must be at least 6 characters"))
    else if FindByEmail(users, email).Some? then Some(Reject(400, "User with this email already exists"))
    else None
  }

  /**
   * `register`: a missing JSON body fails with 500; a rejected request
   * creates nobody; otherwise the user is created and a session opened.
   */
  method Register(table: UserTable, request: Option<RegisterRequest>, now: nat) returns (resp: AuthResponse)
    requires table.Valid()
    modifies table
    ensures table.Valid()
    ensures request.None? ==>
      resp == Reject(500, "Server error during registration")
      && table.users == old(table.users) && table.nextId == old(table.nextId)
    ensures request.Some? && old(RegisterRejection(table.users, request.value)).Some? ==>
      resp == old(RegisterRejection(table.users, request.value)).value
      && table.users == old(table.users) && table.nextId == old(table.nextId)
    ensures request.Some? && old(RegisterRejection(table.users, request.value)).None? ==>
      var req := request.value;
      var u := NewUser(old(table.nextId), NameOf(req), EmailOf(req), PasswordOf(req), req.role.GetOr("viewer"), now);
      && table.users == old(table.users) + [u]
      && table.nextId == old(table.nextId) + 1
      && resp == AuthResponse(201, Session(AccessToken(u.id), u.ToDict()))
  {
    if request.None? {
      return Reject(500, "Server error during registration");
    }
    var req := request.value;
    var rejection := RegisterRejection(table.users, req);
    if rejection.Some? {
      return rejection.value;
    }
    var created := table.CreateUser(NameOf(req), EmailOf(req), PasswordOf(req), req.role.GetOr("viewer"), now);
    // The lookup inside `create_user` normalises the already-normalised e-mail to the same key.
    RouteEmailIsNormal(req);
    var u := created.value;
    resp := AuthResponse(201, Session(AccessToken(u.id), u.ToDict()));
  }

  /**
   * `login`: a missing JSON body fails with 500, a missing e-mail or
   * password with 400, an unknown e-mail or a wrong password with the same
   * 401, and a match opens a session for the user found.
   */
  function Login(users: seq<User>, request: Option<LoginRequest>): (resp: AuthResponse)
    ensures request.None? ==> resp == Reject(500, "Server error during login")
    ensures request.Some? && (Lower(Strip(request.value.email.GetOr(""))) == [] || request.value.password.GetOr("") == [])
            ==> resp == Reject(400, "Email and password are required")
    ensures resp.status == 401 ==> resp == Reject(401, "Invalid credentials")
    ensures (request.Some? && Lower(Strip(request.value.email.GetOr(""))) != []
             && request.value.password.GetOr("") != [] && resp.status != 200)
            ==> resp == Reject(401, "Invalid credentials")
    ensures resp.status == 200 <==>
      request.Some? && request.value.password.GetOr("") != []
      && var email := Lower(Strip(request.value.email.GetOr("")));
      && email != []
      && FindByEmail(users, email).Some?
      && CheckPassword(FindByEmail(users, email).value.credential, request.value.password.GetOr(""))
    ensures resp.status == 200 ==>
      && resp.body.Session? && resp.body.token.identity == resp.body.user.id
      && resp.body.user.email == Lower(Strip(request.value.email.GetOr("")))
      && (exists i :: 0 <= i < |users| && resp.body.user == users[i].ToDict()
                      && CheckPassword(users[i].credential, request.value.password.GetOr("")))
  {
    if request.None? then Reject(500, "Server error during login")
    else
      var email := Lower(Strip(request.value.email.GetOr("")));
      var password := request.value.password.GetOr("");
      if email == [] || password == [] then Reject(400, "Email and password are required")
      else match FindByEmail(users, email)
        case None => Reject(401, "Invalid credentials")
        case Some(u) =>
          if !CheckPassword(u.credential, password) then Reject(401, "Invalid credentials")
          else
            RouteNormalisationAgrees(request.value.email.GetOr(""));
            AuthResponse(200, Session(AccessToken(u.id), u.ToDict()))
  }

  // ---------------------------------------------------------------- lemmas

  /** The e-mail the route passes on is already in normal form. */
  lemma RouteEmailIsNormal(req: RegisterRequest)
    ensures NormalizeEmail(EmailOf(req)) == EmailOf(req)
    ensures EmailOf(req) == NormalizeEmail(req.email.GetOr(""))
  {
    RouteNormalisationAgrees(req.email.GetOr(""));
  }

  /**
   * Two spellings with the same normal form ("  A@x.com" and "a@x.com"):
   * once the first is registered, the second is refused as a duplicate.
   */
  lemma SecondRegistrationIsDuplicate(users: seq<User>, first: RegisterRequest, second: RegisterRequest,
                                      id: int, now: nat)
    requires EmailsUnique(users)
    requires RegisterRejection(users, first).None?
    requires NormalizeEmail(second.email.GetOr("")) == NormalizeEmail(first.email.GetOr(""))
    requires |NameOf(second)| >= 2 && '@' in EmailOf(second) && |PasswordOf(second)| >= 6
    ensures var u := NewUser(id, NameOf(first), EmailOf(first), PasswordOf(first), first.role.GetOr("viewer"), now);
      RegisterRejection(users + [u], second) == Some(Reject(400, "User with this email already exists"))
  {
    var u := NewUser(id, NameOf(first), EmailOf(first), PasswordOf(first), first.role.GetOr("viewer"), now);
    var all := users + [u];
    RouteEmailIsNormal(first);
    RouteEmailIsNormal(second);
    assert u.email == NormalizeEmail(EmailOf(first));
    assert all[|users|] == u;
    assert NormalizeEmail(EmailOf(second)) == all[|users|].email;
  }

  /** A registered user logs in with the e-mail in any case or padding and the same password. */
  lemma RegisteredUserCanLogIn(users: seq<User>, k: nat, raw: string, password: string)
    requires EmailsUnique(users) && k < |users|
    requires NormalizeEmail(raw) == users[k].email && users[k].email != []
    requires password != [] && CheckPassword(users[k].credential, password)
    ensures Login(users, Some(LoginRequest(Some(raw), Some(password))))
         == AuthResponse(200, Session(AccessToken(users[k].id), users[k].ToDict()))
  {
    RouteNormalisationAgrees(raw);
    FindByEmailFindsVariant(users, k, Lower(Strip(raw)));
  }
}
