/** The five document schemas of the application (the files under src/models) and what the
    document store's `create` does with them: required paths must be present,
    absent optional paths take their schema default, and the new document gets
    an id and a creation stamp from the store's clock. */
module Records {

  datatype Option<T> = None | Some(value: T)

  function OrDefault<T>(o: Option<T>, default: T): T
  {
    if o.Some? then o.value else default
  }

  /** A string field that is absent, or the empty string. Both are false in
      JavaScript (`!x`, `x || ""`), and both fail a `required` String path. */
  predicate Blank(o: Option<string>)
  {
    o.None? || o.value == ""
  }

  /** Document ids are opaque; they are drawn from the store's clock. */
  type Id = nat

  /** The role enum of the user schema. */
  datatype Role = Admin | Student

  function RoleName(r: Role): string
  {
    match r
    case Admin => "admin"
    case Student => "student"
  }

  /** Membership of a string in the enum ["admin", "student"]. */
  function ParseRole(s: string): (r: Option<Role>)
    ensures r.Some? <==> s == "admin" || s == "student"
    ensures r.Some? ==> RoleName(r.value) == s
  {
    if s == "admin" then Some(Admin) else if s == "student" then Some(Student) else None
  }

  datatype User = User(id: Id, name: string, email: string, password: string, role: Role,
                       major: string, interests: seq<string>, createdAt: nat)

  datatype Club = Club(id: Id, name: string, description: string, createdAt: nat)

  /** `clubId` is a plain string path: it is not a reference and is never checked
      against the club collection. Dates are integers. */
  datatype Event = Event(id: Id, title: string, description: string, date: int, location: string,
                         clubId: string, keywords: seq<string>, createdAt: nat)

  datatype Membership = Membership(id: Id, userId: Id, clubId: Id, studentName: string,
                                   studentId: string, major: string, reason: string,
                                   joinDate: nat, createdAt: nat)

  datatype Registration = Registration(id: Id, userId: Id, eventId: Id, registeredAt: nat, createdAt: nat)

  /** The outcome of `create`: the new document, or the store's validation error
      naming every required path that was missing, in schema order. */
  datatype Result<T> = Ok(value: T) | Missing(paths: seq<string>)

  function RequiredPath(path: string, present: bool): seq<string>
  {
    if present then [] else [path]
  }

  // ---- what the store holds: every required String path is non-empty ----

  predicate UserComplete(u: User)
  {
    u.name != "" && u.email != "" && u.password != ""
  }

  predicate ClubComplete(c: Club)
  {
    c.name != ""
  }

  predicate EventComplete(e: Event)
  {
    e.title != "" && e.clubId != ""
  }

  // ---- the objects handed to `create` ----

  datatype UserFields = UserFields(name: Option<string>, email: Option<string>,
                                   password: Option<string>, role: Option<Role>)

  datatype ClubFields = ClubFields(name: Option<string>, description: Option<string>)

  /** `keywords` is None when the value is absent or is not an array. */
  datatype EventFields = EventFields(title: Option<string>, description: Option<string>,
                                     date: Option<int>, location: Option<string>,
                                     clubId: Option<string>, keywords: Option<seq<string>>)

  datatype MembershipFields = MembershipFields(userId: Option<Id>, clubId: Option<Id>,
                                               studentName: Option<string>, studentId: Option<string>,
                                               major: Option<string>, reason: Option<string>)

  datatype RegistrationFields = RegistrationFields(userId: Option<Id>, eventId: Option<Id>)

  /** `User.create`: name, email and password are required; role defaults to
      "student", major to "" and interests to the empty list. */
  function NewUser(f: UserFields, stamp: nat): (r: Result<User>)
    ensures r.Ok? <==> !Blank(f.name) && !Blank(f.email) && !Blank(f.password)
    ensures r.Missing? ==> r.paths != []
    ensures r.Missing? ==> ("name" in r.paths <==> Blank(f.name)) && ("email" in r.paths <==> Blank(f.email))
                           && ("password" in r.paths <==> Blank(f.password))
    ensures r.Ok? ==> UserComplete(r.value) && r.value.id == stamp && r.value.createdAt == stamp
    ensures r.Ok? ==> r.value.name == f.name.value && r.value.email == f.email.value
                      && r.value.password == f.password.value
    ensures r.Ok? ==> r.value.role == OrDefault(f.role, Student) && r.value.major == "" && r.value.interests == []
  {
    var missing := RequiredPath("name", !Blank(f.name)) + RequiredPath("email", !Blank(f.email))
                   + RequiredPath("password", !Blank(f.password));
    if missing != [] then Missing(missing)
    else Ok(User(stamp, f.name.value, f.email.value, f.password.value, OrDefault(f.role, Student), "", [], stamp))
  }

  /** `Club.create`: name is required, description defaults to "". */
  function NewClub(f: ClubFields, stamp: nat): (r: Result<Club>)
    ensures r.Ok? <==> !Blank(f.name)
    ensures r.Missing? ==> r.paths == ["name"]
    ensures r.Ok? ==> ClubComplete(r.value) && r.value.id == stamp && r.value.createdAt == stamp
    ensures r.Ok? ==> r.value.name == f.name.value && r.value.description == OrDefault(f.description, "")
  {
    if Blank(f.name) then Missing(["name"])
    else Ok(Club(stamp, f.name.value, OrDefault(f.description, ""), stamp))
  }

  /** `Event.create`: title, date and clubId are required; description and
      location default to "", keywords to the empty list. */
  function NewEvent(f: EventFields, stamp: nat): (r: Result<Event>)
    ensures r.Ok? <==> !Blank(f.title) && f.date.Some? && !Blank(f.clubId)
    ensures r.Missing? ==> r.paths != []
    ensures r.Missing? ==> ("title" in r.paths <==> Blank(f.title)) && ("date" in r.paths <==> f.date.None?)
                           && ("clubId" in r.paths <==> Blank(f.clubId))
    ensures r.Ok? ==> EventComplete(r.value) && r.value.id == stamp && r.value.createdAt == stamp
    ensures r.Ok? ==> r.value.title == f.title.value && r.value.date == f.date.value
                      && r.value.clubId == f.clubId.value
    ensures r.Ok? ==> r.value.description == OrDefault(f.description, "")
                      && r.value.location == OrDefault(f.location, "")
                      && r.value.keywords == OrDefault(f.keywords, [])
  {
    var missing := RequiredPath("title", !Blank(f.title)) + RequiredPath("date", f.date.Some?)
                   + RequiredPath("clubId", !Blank(f.clubId));
    if missing != [] then Missing(missing)
    else Ok(Event(stamp, f.title.value, OrDefault(f.description, ""), f.date.value,
                  OrDefault(f.location, ""), f.clubId.value, OrDefault(f.keywords, []), stamp))
  }

  /** `Membership.create`: both ids are required; the four detail strings default
      to ""; joinDate and createdAt are the creation time. */
  function NewMembership(f: MembershipFields, stamp: nat): (r: Result<Membership>)
    ensures r.Ok? <==> f.userId.Some? && f.clubId.Some?
    ensures r.Missing? ==> ("userId" in r.paths <==> f.userId.None?) && ("clubId" in r.paths <==> f.clubId.None?)
    ensures r.Ok? ==> r.value.id == stamp && r.value.joinDate == stamp && r.value.createdAt == stamp
    ensures r.Ok? ==> r.value.userId == f.userId.value && r.value.clubId == f.clubId.value
    ensures r.Ok? ==> r.value.studentName == OrDefault(f.studentName, "") && r.value.studentId == OrDefault(f.studentId, "")
                      && r.value.major == OrDefault(f.major, "") && r.value.reason == OrDefault(f.reason, "")
  {
    var missing := RequiredPath("userId", f.userId.Some?) + RequiredPath("clubId", f.clubId.Some?);
    if missing != [] then Missing(missing)
    else Ok(Membership(stamp, f.userId.value, f.clubId.value, OrDefault(f.studentName, ""),
                       OrDefault(f.studentId, ""), OrDefault(f.major, ""), OrDefault(f.reason, ""), stamp, stamp))
  }

  /** `EventRegistration.create`: both ids are required; registeredAt is the
      creation time. */
  function NewRegistration(f: RegistrationFields, stamp: nat): (r: Result<Registration>)
    ensures r.Ok? <==> f.userId.Some? && f.eventId.Some?
    ensures r.Missing? ==> ("userId" in r.paths <==> f.userId.None?) && ("eventId" in r.paths <==> f.eventId.None?)
    ensures r.Ok? ==> r.value == Registration(stamp, f.userId.value, f.eventId.value, stamp, stamp)
  {
    var missing := RequiredPath("userId", f.userId.Some?) + RequiredPath("eventId", f.eventId.Some?);
    if missing != [] then Missing(missing)
    else Ok(Registration(stamp, f.userId.value, f.eventId.value, stamp, stamp))
  }

  // ---- keys the store sorts, stamps and looks records up by ----

  function UserId(u: User): int { u.id }
  function UserCreatedAt(u: User): int { u.createdAt }
  function UserEmail(u: User): string { u.email }
  function ClubId(c: Club): int { c.id }
  function ClubCreatedAt(c: Club): int { c.createdAt }
  function EventId(e: Event): int { e.id }
  function EventCreatedAt(e: Event): int { e.createdAt }
  function EventDate(e: Event): int { e.date }
  function MembershipId(m: Membership): int { m.id }
  function MembershipCreatedAt(m: Membership): int { m.createdAt }
  function RegistrationId(g: Registration): int { g.id }
  function RegistrationCreatedAt(g: Registration): int { g.createdAt }
}
