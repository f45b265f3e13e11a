/** The document store and its route handlers. One `Store` holds the five
    collections; each handler is a method that reads or changes them and
    answers with a `Response`. Every changing handler is specified by the step
    function of its route module, and keeps the store's invariant. */
module Api {
  import opened Records
  import opened Responses
  import opened Query
  import opened Ordering
  import opened Consistency
  import Foreign
  import Memberships
  import Registrations
  import Accounts
  import Catalog
  import Login

  class Store {
    var users: seq<User>
    var clubs: seq<Club>
    var events: seq<Event>
    var memberships: seq<Membership>
    var registrations: seq<Registration>
    /** The next id and creation stamp; it advances on every successful create. */
    var clock: nat

    /** Every collection is in creation order with ids and stamps below the
        clock; stored documents have their required strings; emails are unique
        and each join ledger holds a pair at most once. */
    ghost predicate Valid()
      reads this
    {
      Consistent(users, clubs, events, memberships, registrations, clock)
    }

    constructor ()
      ensures Valid()
      ensures users == [] && clubs == [] && events == [] && memberships == [] && registrations == []
      ensures clock == 0
    {
      users, clubs, events, memberships, registrations := [], [], [], [], [];
      clock := 0;
      assert Consistent([], [], [], [], [], 0);
    }

    // ---- /api/memberships ----

    /** GET: every membership, newest first. */
    method ListMemberships() returns (r: Response)
      requires Valid()
      ensures r.status == 200 && r.body.MembershipList?
      ensures r.body.memberships == NewestFirst(memberships)
      ensures StrictlyDescending(r.body.memberships, MembershipCreatedAt)
      ensures multiset(r.body.memberships) == multiset(memberships)
    {
      RisingIsIncreasing(memberships, MembershipCreatedAt, clock);
      NewestFirstDescending(memberships, MembershipCreatedAt, clock);
      r := Response(200, MembershipList(NewestFirst(memberships)));
    }

    /** POST: look the pair up, and create the membership only when it is new. */
    method JoinClub(req: MembershipFields) returns (r: Response)
      requires Valid()
      modifies this
      ensures Valid()
      ensures var s := Memberships.Join(old(memberships), req, old(clock));
        memberships == s.records && r == s.response
      ensures clock == old(clock) + (|memberships| - |old(memberships)|)
      ensures users == old(users) && clubs == old(clubs) && events == old(events)
      ensures registrations == old(registrations)
    {
      ghost var s := Memberships.Join(memberships, req, clock);
      if req.userId.None? || req.clubId.None? {
        assert s == Step(memberships, Response(400, Message(Memberships.IdsRequired)));
        return Response(400, Message(Memberships.IdsRequired));
      }
      var pair := (req.userId.value, req.clubId.value);
      var existing := Find(memberships, Memberships.Pair, pair);
      if existing.Some? {
        assert s == Step(memberships, Response(400, Message(Memberships.AlreadyJoined)));
        return Response(400, Message(Memberships.AlreadyJoined));
      }
      var m := NewMembership(Memberships.Draft(req), clock).value;
      assert s == Step(memberships + [m], Response(200, JoinedClub(m)));
      JoinConsistent(users, clubs, events, memberships, registrations, req, clock);
      memberships := memberships + [m];
      clock := clock + 1;
      r := Response(200, JoinedClub(m));
    }

    /** DELETE: remove the first membership of the pair, if any. */
    method LeaveClub(req: Memberships.LeaveRequest) returns (r: Response)
      requires Valid()
      modifies this
      ensures Valid()
      ensures var s := Memberships.Leave(old(memberships), req);
        memberships == s.records && r == s.response
      ensures clock == old(clock)
      ensures users == old(users) && clubs == old(clubs) && events == old(events)
      ensures registrations == old(registrations)
    {
      if req.userId.None? || req.clubId.None? {
        return Response(400, Message(Memberships.IdsRequired));
      }
      var pair := (req.userId.value, req.clubId.value);
      var found := Find(memberships, Memberships.Pair, pair);
      if found.Some? {
        var i := found.value;
        LeaveConsistent(users, clubs, events, memberships, registrations, req, clock);
        memberships := memberships[..i] + memberships[i + 1..];
      }
      r := Response(200, Done);
    }

    // ---- /api/registrations ----

    /** GET: every registration in the order the store holds them. */
    method ListRegistrations() returns (r: Response)
      ensures r == Response(200, RegistrationList(registrations))
    {
      r := Response(200, RegistrationList(registrations));
    }

    /** POST: refuse a body some registration matches, otherwise hand both ids
        to `create`. */
    method RegisterForEvent(req: RegistrationFields) returns (r: Response)
      requires Valid()
      modifies this
      ensures Valid()
      ensures var s := Registrations.Register(old(registrations), req, old(clock));
        registrations == s.records && r == s.response
      ensures clock == old(clock) + (|registrations| - |old(registrations)|)
      ensures users == old(users) && clubs == old(clubs) && events == old(events)
      ensures memberships == old(memberships)
    {
      ghost var s := Registrations.Register(registrations, req, clock);
      var existing := Find(registrations, Registrations.Filter(req), true);
      if existing.Some? {
        assert s == Step(registrations, Response(400, Message(Registrations.AlreadyRegistered)));
        return Response(400, Message(Registrations.AlreadyRegistered));
      }
      var created := NewRegistration(req, clock);
      if created.Missing? {
        assert s == Step(registrations, Response(500, StoreFault(MissingRequired(created.paths))));
        return Response(500, StoreFault(MissingRequired(created.paths)));
      }
      var g := created.value;
      assert s == Step(registrations + [g], Response(200, RegisteredForEvent(g)));
      RegisterConsistent(users, clubs, events, memberships, registrations, req, clock);
      registrations := registrations + [g];
      clock := clock + 1;
      r := Response(200, RegisteredForEvent(g));
    }

    /** DELETE: remove the first registration of the pair, if any; a body
        without both ids removes nothing. */
    method UnregisterFromEvent(req: RegistrationFields) returns (r: Response)
      requires Valid()
      modifies this
      ensures Valid()
      ensures var s := Registrations.Unregister(old(registrations), req);
        registrations == s.records && r == s.response
      ensures clock == old(clock)
      ensures users == old(users) && clubs == old(clubs) && events == old(events)
      ensures memberships == old(memberships)
    {
      if req.userId.Some? && req.eventId.Some? {
        var found := Find(registrations, Registrations.Pair, (req.userId.value, req.eventId.value));
        if found.Some? {
          var i := found.value;
          UnregisterConsistent(users, clubs, events, memberships, registrations, req, clock);
          registrations := registrations[..i] + registrations[i + 1..];
        }
      }
      r := Response(200, Done);
    }

    // ---- /api/auth/login, /api/auth/register and /api/users/update ----

    /** POST /api/auth/login: check the body, look the user up by email, check
        the password against the stored hash and sign a token. Nothing in the
        store changes. */
    method SignIn(req: Login.LoginRequest, env: Foreign.Env) returns (r: Response)
      ensures r == Login.SignIn(users, req, env)
    {
      var issues := Login.LoginIssues(req, env.isEmail);
      if issues != [] {
        return Response(400, Refused(Login.FirstMessage(issues)));
      }
      var found := Find(users, UserEmail, req.email.value);
      if found.None? {
        return Response(401, Refused(Login.InvalidCredentials));
      }
      var u := users[found.value];
      if !env.verify(req.password.value, u.password) {
        return Response(401, Refused(Login.InvalidCredentials));
      }
      r := Response(200, SignedIn(env.sign(Foreign.Claims(u.id, u.role)), PublicView(u)));
    }

    /** POST /api/auth/register: check the schema, then the email, then insert
        the user with the hashed password. */
    method RegisterUser(req: Accounts.RegisterRequest, env: Foreign.Env) returns (r: Response)
      requires Valid()
      modifies this
      ensures Valid()
      ensures var s := Accounts.Register(old(users), req, env, old(clock));
        users == s.records && r == s.response
      ensures clock == old(clock) + (|users| - |old(users)|)
      ensures clubs == old(clubs) && events == old(events)
      ensures memberships == old(memberships) && registrations == old(registrations)
    {
      ghost var s := Accounts.Register(users, req, env, clock);
      var issues := Accounts.RegisterIssues(req, env.isEmail);
      if issues != [] {
        return Response(500, RefusedFault(Invalid(issues)));
      }
      var existing := Find(users, UserEmail, req.email.value);
      if existing.Some? {
        return Response(400, Refused(Accounts.EmailExists));
      }
      var fields := UserFields(req.name, req.email, Some(env.hash(req.password.value)), ParseRole(req.role.value));
      var created := NewUser(fields, clock);
      if created.Missing? {
        assert s == Step(users, Response(500, RefusedFault(MissingRequired(created.paths))));
        return Response(500, RefusedFault(MissingRequired(created.paths)));
      }
      var u := created.value;
      assert s == Step(users + [u], Response(200, NewAccount(PublicView(u))));
      SignUpConsistent(users, clubs, events, memberships, registrations, req, env, clock);
      users := users + [u];
      clock := clock + 1;
      r := Response(200, NewAccount(PublicView(u)));
    }

    /** PUT /api/users/update: overwrite the major and interests the body
        carries on the user with the given id, in place. */
    method UpdateProfile(req: Accounts.ProfileUpdate) returns (r: Response)
      requires Valid()
      modifies this
      ensures Valid()
      ensures var s := Accounts.UpdateProfile(old(users), req);
        users == s.records && r == s.response
      ensures clock == old(clock)
      ensures clubs == old(clubs) && events == old(events)
      ensures memberships == old(memberships) && registrations == old(registrations)
    {
      var found := Accounts.FindUser(users, req.userId);
      if found.None? {
        return Response(200, UpdatedUser(None));
      }
      var k := found.value;
      var u := users[k].(major := OrDefault(req.major, users[k].major),
                         interests := OrDefault(req.interests, users[k].interests));
      UpdateConsistent(users, clubs, events, memberships, registrations, req, clock);
      users := users[k := u];
      r := Response(200, UpdatedUser(Some(u)));
    }

    // ---- /api/events and /api/clubs ----

    /** GET /api/events: every event, by ascending date. */
    method ListEvents() returns (r: Response)
      ensures r.status == 200 && r.body.EventList?
      ensures r.body.events == SortBy(events, EventDate)
      ensures Ascending(r.body.events, EventDate)
      ensures multiset(r.body.events) == multiset(events)
    {
      SortBySorted(events, EventDate);
      r := Response(200, EventList(SortBy(events, EventDate)));
    }

    /** POST /api/events. */
    method CreateEvent(req: EventFields) returns (r: Response)
      requires Valid()
      modifies this
      ensures Valid()
      ensures var s := Catalog.CreateEvent(old(events), req, old(clock));
        events == s.records && r == s.response
      ensures clock == old(clock) + (|events| - |old(events)|)
      ensures users == old(users) && clubs == old(clubs)
      ensures memberships == old(memberships) && registrations == old(registrations)
    {
      ghost var s := Catalog.CreateEvent(events, req, clock);
      var fields := EventFields(req.title, Some(OrDefault(req.description, "")), req.date,
                                Some(OrDefault(req.location, "")), req.clubId, Some(OrDefault(req.keywords, [])));
      var created := NewEvent(fields, clock);
      if created.Missing? {
        assert s == Step(events, Response(500, StoreFault(MissingRequired(created.paths))));
        return Response(500, StoreFault(MissingRequired(created.paths)));
      }
      var e := created.value;
      assert s == Step(events + [e], Response(200, CreatedEvent(e)));
      CreateEventConsistent(users, clubs, events, memberships, registrations, req, clock);
      events := events + [e];
      clock := clock + 1;
      r := Response(200, CreatedEvent(e));
    }

    /** GET /api/clubs: every club, newest first. */
    method ListClubs() returns (r: Response)
      requires Valid()
      ensures r.status == 200 && r.body.ClubList?
      ensures r.body.clubs == NewestFirst(clubs)
      ensures StrictlyDescending(r.body.clubs, ClubCreatedAt)
      ensures multiset(r.body.clubs) == multiset(clubs)
    {
      RisingIsIncreasing(clubs, ClubCreatedAt, clock);
      NewestFirstDescending(clubs, ClubCreatedAt, clock);
      r := Response(200, ClubList(NewestFirst(clubs)));
    }

    /** POST /api/clubs. */
    method CreateClub(req: ClubFields) returns (r: Response)
      requires Valid()
      modifies this
      ensures Valid()
      ensures var s := Catalog.CreateClub(old(clubs), req, old(clock));
        clubs == s.records && r == s.response
      ensures clock == old(clock) + (|clubs| - |old(clubs)|)
      ensures users == old(users) && events == old(events)
      ensures memberships == old(memberships) && registrations == old(registrations)
    {
      ghost var s := Catalog.CreateClub(clubs, req, clock);
      var created := NewClub(ClubFields(req.name, Some(OrDefault(req.description, ""))), clock);
      if created.Missing? {
        assert s == Step(clubs, Response(500, StoreFault(MissingRequired(created.paths))));
        return Response(500, StoreFault(MissingRequired(created.paths)));
      }
      var c := created.value;
      assert s == Step(clubs + [c], Response(200, CreatedClub(c)));
      CreateClubConsistent(users, clubs, events, memberships, registrations, req, clock);
      clubs := clubs + [c];
      clock := clock + 1;
      r := Response(200, CreatedClub(c));
    }
  }
}
