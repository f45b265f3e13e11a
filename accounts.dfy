/** The user registry: sign-up through /api/auth/register (schema check, email
    uniqueness, hashed password) and the profile update through
    /api/users/update (major and interests of one user). */
module Accounts {
  import opened Records
  import opened Responses
  import opened Query
  import opened Foreign

  datatype RegisterRequest = RegisterRequest(name: Option<string>, email: Option<string>,
                                             password: Option<string>, role: Option<string>)

  const EmailExists := "Email already exists"

  /** The length of a string as JavaScript counts it, in UTF-16 code units:
      a character outside the Basic Multilingual Plane is a surrogate pair. */
  function Utf16Length(s: string): (n: nat)
    ensures |s| <= n <= 2 * |s|
    ensures n == |s| <==> forall i :: 0 <= i < |s| ==> (s[i] as int) < 0x1_0000
  {
    if s == [] then 0 else (if (s[0] as int) < 0x1_0000 then 1 else 2) + Utf16Length(s[1..])
  }

  /** The issue of a string path with a minimum length, if any. The minimum is
      on the UTF-16 length, as zod's `.min(n)` measures it. */
  function MinLength(path: string, o: Option<string>, n: nat): (r: seq<Issue>)
    ensures r == [] <==> o.Some? && Utf16Length(o.value) >= n
    ensures o.None? ==> r == [Issue(path, Required)]
    ensures o.Some? && Utf16Length(o.value) < n ==> r == [Issue(path, TooSmall(n))]
  {
    if o.None? then [Issue(path, Required)] else if Utf16Length(o.value) < n then [Issue(path, TooSmall(n))] else []
  }

  function EmailIssues(o: Option<string>, isEmail: string -> bool): (r: seq<Issue>)
    ensures r == [] <==> o.Some? && isEmail(o.value)
  {
    if o.None? then [Issue("email", Required)] else if !isEmail(o.value) then [Issue("email", InvalidEmail)] else []
  }

  function RoleIssues(o: Option<string>): (r: seq<Issue>)
    ensures r == [] <==> o.Some? && ParseRole(o.value).Some?
  {
    if o.None? then [Issue("role", Required)]
    else if ParseRole(o.value).None? then [Issue("role", InvalidEnum(o.value))] else []
  }

  /** The issues of `registerSchema`, in the order of its keys: name of at least
      2 UTF-16 code units, a well-formed email, password of at least 6, and a
      role in the enum. Any of them rejects the request. */
  function RegisterIssues(req: RegisterRequest, isEmail: string -> bool): (r: seq<Issue>)
    ensures r == [] <==>
      && req.name.Some? && Utf16Length(req.name.value) >= 2
      && req.email.Some? && isEmail(req.email.value)
      && req.password.Some? && Utf16Length(req.password.value) >= 6
      && req.role.Some? && ParseRole(req.role.value).Some?
  {
    MinLength("name", req.name, 2) + EmailIssues(req.email, isEmail)
    + MinLength("password", req.password, 6) + RoleIssues(req.role)
  }

  predicate EmailTaken(users: seq<User>, email: string)
  {
    Holds(users, UserEmail, email)
  }

  /** POST /api/auth/register. A request failing the schema is a 500 like any
      other error; a taken email is a 400; otherwise the user is created with
      the hash of the password in place of the password. */
  function Register(users: seq<User>, req: RegisterRequest, env: Env, stamp: nat): (s: Step<User>)
    ensures RegisterIssues(req, env.isEmail) != [] ==>
      s == Step(users, Response(500, RefusedFault(Invalid(RegisterIssues(req, env.isEmail)))))
    ensures RegisterIssues(req, env.isEmail) == [] && EmailTaken(users, req.email.value) ==>
      s == Step(users, Response(400, Refused(EmailExists)))
    ensures s.response.status == 200 <==>
      && RegisterIssues(req, env.isEmail) == [] && !EmailTaken(users, req.email.value)
      && req.email.value != "" && env.hash(req.password.value) != ""
    ensures s.response.status != 200 ==> s.records == users
    ensures s.response.status == 200 ==>
      && RegisterIssues(req, env.isEmail) == [] && !EmailTaken(users, req.email.value)
      && |s.records| == |users| + 1 && s.records[..|users|] == users
      && var u := s.records[|users|];
      && u.id == stamp && u.createdAt == stamp
      && u.name == req.name.value && u.email == req.email.value
      && u.password == env.hash(req.password.value)
      && Some(u.role) == ParseRole(req.role.value)
      && u.major == "" && u.interests == []
      && s.response == Response(200, NewAccount(PublicView(u)))
  {
    var issues := RegisterIssues(req, env.isEmail);
    if issues != [] then Step(users, Response(500, RefusedFault(Invalid(issues))))
    else if Find(users, UserEmail, req.email.value).Some? then Step(users, Response(400, Refused(EmailExists)))
    else
      assert Utf16Length(req.name.value) <= 2 * |req.name.value|;
      var fields := UserFields(req.name, req.email, Some(env.hash(req.password.value)), ParseRole(req.role.value));
      match NewUser(fields, stamp)
      case Missing(paths) => Step(users, Response(500, RefusedFault(MissingRequired(paths))))
      case Ok(u) =>
        assert (users + [u])[..|users|] == users;
        Step(users + [u], Response(200, NewAccount(PublicView(u))))
  }

  /** A schema-valid sign-up with a fresh email fails only when the email
      check accepts "" or the hash is "", which the store rejects as a missing
      required path. Neither happens with the real email check and hash. */
  lemma RegisterFaultsOnlyOnBlank(users: seq<User>, req: RegisterRequest, env: Env, stamp: nat)
    requires RegisterIssues(req, env.isEmail) == [] && !EmailTaken(users, req.email.value)
    requires req.email.value == "" || env.hash(req.password.value) == ""
    ensures var s := Register(users, req, env, stamp);
      && s.records == users && s.response.status == 500
      && s.response.body.RefusedFault? && s.response.body.error.MissingRequired?
      && ("email" in s.response.body.error.paths <==> req.email.value == "")
      && ("password" in s.response.body.error.paths <==> env.hash(req.password.value) == "")
      && "name" !in s.response.body.error.paths
  {
    assert Utf16Length(req.name.value) <= 2 * |req.name.value|;
    assert Find(users, UserEmail, req.email.value).None?;
    var fields := UserFields(req.name, req.email, Some(env.hash(req.password.value)), ParseRole(req.role.value));
    assert NewUser(fields, stamp).Missing?;
    assert Register(users, req, env, stamp)
        == Step(users, Response(500, RefusedFault(MissingRequired(NewUser(fields, stamp).paths))));
  }

  /** Sequential sign-ups never give two users the same email. */
  lemma RegisterKeepsEmailsUnique(users: seq<User>, req: RegisterRequest, env: Env, stamp: nat)
    requires Unique(users, UserEmail)
    ensures Unique(Register(users, req, env, stamp).records, UserEmail)
  {
    var s := Register(users, req, env, stamp);
    if s.response.status == 200 {
      var u := s.records[|users|];
      assert s.records == users + [u];
      AppendKeepsUnique(users, UserEmail, u);
    }
  }

  // ---- PUT /api/users/update ----

  /** The body of PUT /api/users/update. A key the body leaves out is dropped
      from the update, so the stored value of that field stays. */
  datatype ProfileUpdate = ProfileUpdate(userId: Option<Id>, major: Option<string>, interests: Option<seq<string>>)

  function FindUser(users: seq<User>, id: Option<Id>): (r: Option<nat>)
    ensures r.Some? ==> id.Some? && r.value < |users| && users[r.value].id == id.value
    ensures r.None? ==> id.None? || forall i :: 0 <= i < |users| ==> users[i].id != id.value
  {
    if id.None? then None else Find(users, UserId, id.value)
  }

  /** The user after the update `{ major, interests }`: each field the body
      carries replaces the stored one, and nothing else changes. */
  function Updated(u: User, req: ProfileUpdate): (v: User)
    ensures req.major.Some? ==> v.major == req.major.value
    ensures req.major.None? ==> v.major == u.major
    ensures req.interests.Some? ==> v.interests == req.interests.value
    ensures req.interests.None? ==> v.interests == u.interests
    ensures v.id == u.id && v.name == u.name && v.email == u.email && v.password == u.password
            && v.role == u.role && v.createdAt == u.createdAt
    ensures req.major.None? && req.interests.None? ==> v == u
  {
    u.(major := OrDefault(req.major, u.major), interests := OrDefault(req.interests, u.interests))
  }

  function UpdateAt(users: seq<User>, target: Option<nat>, req: ProfileUpdate): (s: Step<User>)
    requires target.Some? ==> target.value < |users|
  {
    match target
    case None => Step(users, Response(200, UpdatedUser(None)))
    case Some(k) =>
      var u := Updated(users[k], req);
      Step(users[k := u], Response(200, UpdatedUser(Some(u))))
  }

  /** The document `findByIdAndUpdate(userId, …)` picks, as written: an absent
      id turns into the empty filter `{}`, which matches the first user. */
  function FilterTarget(users: seq<User>, id: Option<Id>): (r: Option<nat>)
    ensures r.Some? ==> r.value < |users|
    ensures id.None? ==> (r.Some? <==> users != []) && (r.Some? ==> r.value == 0)
    ensures id.Some? ==> r == FindUser(users, id)
  {
    if id.None? then (if users == [] then None else Some(0)) else FindUser(users, id)
  }

  /** `findByIdAndUpdate(userId, { major, interests }, { new: true })` as
      written: with no id in the body, the first user of the collection is
      updated. */
  function UpdateProfileAsWritten(users: seq<User>, req: ProfileUpdate): (s: Step<User>)
    ensures req.userId.Some? ==> s == UpdateProfile(users, req)
    ensures req.userId.None? && users != [] ==>
      && s.records == users[0 := Updated(users[0], req)]
      && s.response == Response(200, UpdatedUser(Some(Updated(users[0], req))))
  {
    UpdateAt(users, FilterTarget(users, req.userId), req)
  }

  /** With no id in the body and a major that differs from the first user's,
      the as-written update changes that user, whom the request never named. */
  lemma UpdateProfileAsWrittenEditsFirstUser(users: seq<User>, req: ProfileUpdate)
    requires users != [] && req.userId.None?
    requires req.major.Some? && req.major.value != users[0].major
    ensures UpdateProfileAsWritten(users, req).records[0] != users[0]
    ensures UpdateProfile(users, req).records == users
  {
    assert UpdateProfileAsWritten(users, req).records[0].major == req.major.value;
  }

  /** The profile update: the user whose id the body carries, if any, takes the
      major and interests the body carries; the response carries the updated
      document, or null. No validator runs. */
  function UpdateProfile(users: seq<User>, req: ProfileUpdate): (s: Step<User>)
    ensures |s.records| == |users|
    ensures match FindUser(users, req.userId)
      case None => s == Step(users, Response(200, UpdatedUser(None)))
      case Some(k) =>
        && s.records[k].major == OrDefault(req.major, users[k].major)
        && s.records[k].interests == OrDefault(req.interests, users[k].interests)
        && s.records[k] == users[k].(major := s.records[k].major, interests := s.records[k].interests)
        && (forall j :: 0 <= j < |users| && j != k ==> s.records[j] == users[j])
        && s.response == Response(200, UpdatedUser(Some(s.records[k])))
  {
    UpdateAt(users, FindUser(users, req.userId), req)
  }

  /** Only the user the body names can change. */
  lemma UpdateProfileOnlyNamedUser(users: seq<User>, req: ProfileUpdate)
    ensures var r := UpdateProfile(users, req).records;
      forall j :: 0 <= j < |users| && r[j] != users[j] ==> req.userId == Some(users[j].id)
  {
  }

  /** The updated user ends with the submitted major and interests, keeps those
      the body leaves out, and keeps its name, email, password, role, id and
      stamp. */
  lemma UpdateProfileFields(users: seq<User>, req: ProfileUpdate, i: nat)
    requires i < |users| && req.userId == Some(users[i].id)
    requires Unique(users, UserId)
    ensures var u := UpdateProfile(users, req).records[i];
      && u.major == OrDefault(req.major, users[i].major)
      && u.interests == OrDefault(req.interests, users[i].interests)
      && u.name == users[i].name && u.email == users[i].email && u.password == users[i].password
      && u.role == users[i].role && u.id == users[i].id && u.createdAt == users[i].createdAt
  {
    var k := FindUser(users, req.userId).value;
    assert UserId(users[k]) == UserId(users[i]);
  }

  /** Applying the same update twice leaves the same users as applying it once. */
  lemma UpdateProfileIdempotent(users: seq<User>, req: ProfileUpdate)
    ensures var once := UpdateProfile(users, req).records;
      UpdateProfile(once, req).records == once
  {
    var once := UpdateProfile(users, req).records;
    match FindUser(users, req.userId)
    case None =>
    case Some(k) =>
      assert forall j :: 0 <= j < |users| ==> UserId(once[j]) == UserId(users[j]);
      assert Find(once, UserId, req.userId.value) == Some(k);
  }

  /** The update never touches emails, ids or stamps. */
  lemma UpdateProfileKeepsKeys(users: seq<User>, req: ProfileUpdate)
    ensures var r := UpdateProfile(users, req).records;
      forall j :: 0 <= j < |users| ==> r[j].email == users[j].email && r[j].id == users[j].id
                                       && r[j].createdAt == users[j].createdAt
  {
  }
}
