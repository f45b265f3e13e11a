/** The sign-in page: the role chosen through the `role` query parameter, and
    what the login form does with the server's answer. */
module AuthPage {
  import opened Records
  import opened Responses
  import Login
  import Foreign

  /** `r === "admin" || r === "student" ? r : "student"`. */
  function NormalizeRole(param: Option<string>): (r: Role)
    ensures param == Some("admin") ==> r == Admin
    ensures param != Some("admin") ==> r == Student
  {
    if param == Some("admin") then Admin else Student
  }

  lemma NormalizeRoleIdempotent(param: Option<string>)
    ensures NormalizeRole(Some(RoleName(NormalizeRole(param)))) == NormalizeRole(param)
  {
  }

  /** Where a successful login goes. */
  function Landing(role: Role): (path: string)
    ensures role == Admin <==> path == "/admin"
    ensures role == Student <==> path == "/dashboard"
  {
    match role
    case Admin => "/admin"
    case Student => "/dashboard"
  }

  /** What the form reads: nothing when the request or its JSON failed, or the
      status check `res.ok` with the body's message and token. */
  datatype Reply = Unreachable | Reply(ok: bool, message: Option<string>, token: Option<string>)

  /** Either a message is shown and nothing is stored, or the token is stored
      and the browser goes to a path. */
  datatype FormOutcome = Show(message: string) | Enter(token: Option<string>, path: string)

  /** `LoginForm.handleSubmit` after the request. The landing page follows the
      role chosen on the page, not the role of the account. */
  function AfterLogin(pageRole: Role, reply: Reply): (o: FormOutcome)
    ensures reply.Unreachable? ==> o == Show("Network/Server error")
    ensures reply.Reply? && !reply.ok ==> o == Show(if Blank(reply.message) then "Login failed" else reply.message.value)
    ensures reply.Reply? && reply.ok ==> o == Enter(reply.token, Landing(pageRole))
  {
    match reply
    case Unreachable => Show("Network/Server error")
    case Reply(ok, message, token) =>
      if !ok then Show(if Blank(message) then "Login failed" else message.value)
      else Enter(token, Landing(pageRole))
  }

  /** The JSON of a login response as the page sees it. */
  function ReplyOf(r: Response): (o: Reply)
    ensures o.Reply? && (o.ok <==> 200 <= r.status < 300)
    ensures r.body.Refused? ==> o.message == Some(r.body.reason) && o.token.None?
    ensures r.body.SignedIn? ==> o.message == Some("Login successful") && o.token == Some(r.body.token)
    ensures o.token.Some? <==> r.body.SignedIn?
  {
    Reply(200 <= r.status < 300,
          match r.body
          case Refused(reason) => Some(reason)
          case SignedIn(_, _) => Some("Login successful")
          case _ => None,
          if r.body.SignedIn? then Some(r.body.token) else None)
  }

  /** Put together with the login route: a successful login stores the signed
      token and lands by the page's role; a refused one shows the server's
      message and stores nothing. */
  lemma LoginRoundTrip(pageRole: Role, users: seq<User>, req: Login.LoginRequest, env: Foreign.Env)
    ensures var r := Login.SignIn(users, req, env);
      var o := AfterLogin(pageRole, ReplyOf(r));
      && (r.status == 200 ==> o == Enter(Some(r.body.token), Landing(pageRole)))
      && (r.status != 200 ==> o == Show(r.body.reason))
  {
    var r := Login.SignIn(users, req, env);
    if r.status != 200 {
      if r.status == 400 {
        assert r.body.reason != "" by {
          var issues := Login.LoginIssues(req, env.isEmail);
          assert r.body.reason == Login.FirstMessage(issues);
        }
      }
    }
  }

  /** An account holding the student role that signs in from the page opened
      with role=admin is sent to "/admin". */
  lemma LandingIgnoresAccountRole(users: seq<User>, req: Login.LoginRequest, env: Foreign.Env)
    requires Login.SignIn(users, req, env).status == 200
    ensures AfterLogin(Admin, ReplyOf(Login.SignIn(users, req, env))).path == "/admin"
  {
  }
}
