/** POST /api/auth/login: a read-only decision over the user collection. The
    request is checked against `loginSchema`, the user is looked up by email,
    the password is checked against the stored hash, and a token is signed
    with the user's id and role. */
module Login {
  import opened Records
  import opened Responses
  import opened Query
  import opened Foreign
  import Accounts

  datatype LoginRequest = LoginRequest(email: Option<string>, password: Option<string>)

  const InvalidCredentials := "Invalid credentials"

  /** The issues of `loginSchema`: a well-formed email and a non-empty password. */
  function LoginIssues(req: LoginRequest, isEmail: string -> bool): (r: seq<Issue>)
    ensures r == [] <==> req.email.Some? && isEmail(req.email.value) && req.password.Some? && req.password.value != ""
    ensures req.email.None? ==> r[0] == Issue("email", Required)
    ensures req.email.Some? && !isEmail(req.email.value) ==> r[0] == Issue("email", InvalidEmail)
  {
    Accounts.EmailIssues(req.email, isEmail) + Accounts.MinLength("password", req.password, 1)
  }

  /** The message of a schema failure: the first issue's, or "Invalid input". */
  function FirstMessage(issues: seq<Issue>): (m: string)
    ensures issues == [] ==> m == "Invalid input"
    ensures issues != [] ==> m == IssueMessage(issues[0].kind)
  {
    if issues == [] then "Invalid input" else IssueMessage(issues[0].kind)
  }

  function SignIn(users: seq<User>, req: LoginRequest, env: Env): (r: Response)
    ensures r.status == 200 <==> r.body.SignedIn?
    ensures r.status != 200 ==> (r.status == 400 || r.status == 401) && r.body.Refused?
    ensures r.status == 401 ==> r.body.reason == InvalidCredentials
  {
    var issues := LoginIssues(req, env.isEmail);
    if issues != [] then Response(400, Refused(FirstMessage(issues)))
    else match Find(users, UserEmail, req.email.value)
      case None => Response(401, Refused(InvalidCredentials))
      case Some(i) =>
        if !env.verify(req.password.value, users[i].password) then Response(401, Refused(InvalidCredentials))
        else Response(200, SignedIn(env.sign(Claims(users[i].id, users[i].role)), PublicView(users[i])))
  }

  predicate WellFormed(req: LoginRequest, env: Env)
  {
    req.email.Some? && env.isEmail(req.email.value) && req.password.Some? && req.password.value != ""
  }

  /** Input failing the schema is a 400 carrying the first issue's message. */
  lemma SignInRejectsMalformed(users: seq<User>, req: LoginRequest, env: Env)
    requires !WellFormed(req, env)
    ensures SignIn(users, req, env).status == 400
    ensures SignIn(users, req, env).body == Refused(IssueMessage(LoginIssues(req, env.isEmail)[0].kind))
  {
  }

  /** An unknown email and a wrong password get the same answer, so a caller
      cannot tell which of the two happened. */
  lemma SignInFailuresAlike(users: seq<User>, unknown: LoginRequest, wrong: LoginRequest, env: Env, i: nat)
    requires WellFormed(unknown, env) && WellFormed(wrong, env)
    requires !Holds(users, UserEmail, unknown.email.value)
    requires Unique(users, UserEmail)
    requires i < |users| && users[i].email == wrong.email.value
    requires !env.verify(wrong.password.value, users[i].password)
    ensures SignIn(users, unknown, env) == SignIn(users, wrong, env) == Response(401, Refused(InvalidCredentials))
  {
    var k := Find(users, UserEmail, wrong.email.value).value;
    assert UserEmail(users[k]) == UserEmail(users[i]);
  }

  /** With unique emails, a login succeeds exactly when the email belongs to a
      user whose stored hash accepts the password; the token carries that
      user's id and role, and the returned user has no password. */
  lemma SignInSucceedsExactly(users: seq<User>, req: LoginRequest, env: Env, i: nat)
    requires Unique(users, UserEmail)
    requires i < |users| && req.email == Some(users[i].email)
    ensures SignIn(users, req, env).status == 200
            <==> WellFormed(req, env) && env.verify(req.password.value, users[i].password)
    ensures SignIn(users, req, env).status == 200 ==>
      SignIn(users, req, env).body == SignedIn(env.sign(Claims(users[i].id, users[i].role)), PublicView(users[i]))
  {
    if WellFormed(req, env) {
      var k := Find(users, UserEmail, req.email.value).value;
      assert UserEmail(users[k]) == UserEmail(users[i]);
    }
  }

  /** An email that no user holds never logs in. */
  lemma SignInUnknownEmail(users: seq<User>, req: LoginRequest, env: Env)
    requires WellFormed(req, env) && !Holds(users, UserEmail, req.email.value)
    ensures SignIn(users, req, env) == Response(401, Refused(InvalidCredentials))
  {
  }

  /** Whoever has just signed up can log in with the same email and password,
      and is issued claims for the new account. */
  lemma SignInAfterRegister(users: seq<User>, req: Accounts.RegisterRequest, env: Env, stamp: nat)
    requires HashChecks(env)
    requires Unique(users, UserEmail)
    requires Accounts.Register(users, req, env, stamp).response.status == 200
    ensures var after := Accounts.Register(users, req, env, stamp).records;
      var u := after[|users|];
      SignIn(after, LoginRequest(req.email, req.password), env)
        == Response(200, SignedIn(env.sign(Claims(u.id, u.role)), PublicView(u)))
  {
    var after := Accounts.Register(users, req, env, stamp).records;
    var u := after[|users|];
    assert after == users + [u];
    Accounts.RegisterKeepsEmailsUnique(users, req, env, stamp);
    assert env.verify(req.password.value, env.hash(req.password.value));
    SignInSucceedsExactly(after, LoginRequest(req.email, req.password), env, |users|);
  }
}
