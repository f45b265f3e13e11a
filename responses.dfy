/** Response records of the route handlers (status code plus JSON body), the
    validation issues of the request schemas, and the libraries the handlers
    call but the model cannot see. */
module Responses {
  import opened Records

  /** What a schema check reports about one path of the request body. */
  datatype IssueKind = Required | TooSmall(minimum: nat) | InvalidEmail | InvalidEnum(received: string)

  datatype Issue = Issue(path: string, kind: IssueKind)

  function Digits(n: nat): (s: string)
    ensures |s| > 0
  {
    if n < 10 then [(48 + n) as char] else Digits(n / 10) + [(48 + n % 10) as char]
  }

  /** The default message texts of the schema library (zod 3). */
  function IssueMessage(k: IssueKind): (m: string)
    ensures m != ""
  {
    match k
    case Required => "Required"
    case TooSmall(n) => "String must contain at least " + Digits(n) + " character(s)"
    case InvalidEmail => "Invalid email"
    case InvalidEnum(v) => "Invalid enum value. Expected 'admin' | 'student', received '" + v + "'"
  }

  /** The error a handler catches: the schema library's error (its message lists
      the issues) or the store's validation error (it names the missing paths). */
  datatype Fault = Invalid(issues: seq<Issue>) | MissingRequired(paths: seq<string>)

  /** The user as the auth routes return it: no password. */
  datatype PublicUser = PublicUser(id: Id, name: string, email: string, role: Role)

  function PublicView(u: User): (p: PublicUser)
    ensures p.id == u.id && p.name == u.name && p.email == u.email && p.role == u.role
  {
    PublicUser(u.id, u.name, u.email, u.role)
  }

  datatype Body =
    | Message(text: string)                      // { message }
    | StoreFault(fault: Fault)                   // { message: error.message }
    | Refused(reason: string)                    // { success: false, message }
    | RefusedFault(error: Fault)                 // { success: false, error: error.message }
    | Done                                       // { success: true }
    | JoinedClub(membership: Membership)         // { success: true, membership }
    | RegisteredForEvent(reg: Registration)      // { success: true, reg }
    | CreatedClub(club: Club)                    // { success: true, club }
    | CreatedEvent(event: Event)                 // the event document itself
    | UpdatedUser(user: Option<User>)            // { success: true, user }, user null when no match
    | NewAccount(account: PublicUser)            // { success: true, message: "User registered successfully", user }
    | SignedIn(token: string, profile: PublicUser) // { success: true, message: "Login successful", token, user }
    | ClubList(clubs: seq<Club>)
    | EventList(events: seq<Event>)
    | MembershipList(memberships: seq<Membership>)
    | RegistrationList(registrations: seq<Registration>)

  datatype Response = Response(status: nat, body: Body)

  /** A mutating handler's effect on the one collection it touches. */
  datatype Step<T> = Step(records: seq<T>, response: Response)
}

/** The calls into libraries: the schema library's email check, password
    hashing and checking, and token signing. They are parameters of the model. */
module Foreign {
  import opened Records

  /** The claims a signed token carries. */
  datatype Claims = Claims(userId: Id, role: Role)

  datatype Env = Env(isEmail: string -> bool, hash: string -> string,
                     verify: (string, string) -> bool, sign: Claims -> string)

  /** The one thing assumed of the hashing library: a password checks against its own hash. */
  ghost predicate HashChecks(env: Env)
  {
    forall p :: env.verify(p, env.hash(p))
  }
}
