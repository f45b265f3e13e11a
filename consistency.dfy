/** What a consistent store satisfies, collection by collection, and the proof
    that every route step keeps it. */
module Consistency {
  import opened Records
  import opened Query
  import opened Ordering
  import Foreign
  import Memberships
  import Registrations
  import Accounts
  import Catalog

  // ---- what each collection of a consistent store satisfies ----

  /** Users are in creation order, have name, email and password, and no two
      share an email. */
  ghost predicate UsersInv(users: seq<User>, clock: int)
  {
    && Stamped(users, UserId, UserCreatedAt, clock)
    && (forall i :: 0 <= i < |users| ==> UserComplete(users[i]))
    && Unique(users, UserEmail)
  }

  ghost predicate ClubsInv(clubs: seq<Club>, clock: int)
  {
    Stamped(clubs, ClubId, ClubCreatedAt, clock) && (forall i :: 0 <= i < |clubs| ==> ClubComplete(clubs[i]))
  }

  ghost predicate EventsInv(events: seq<Event>, clock: int)
  {
    Stamped(events, EventId, EventCreatedAt, clock) && (forall i :: 0 <= i < |events| ==> EventComplete(events[i]))
  }

  /** Memberships are in creation order and hold each (userId, clubId) at most once. */
  ghost predicate MembershipsInv(ms: seq<Membership>, clock: int)
  {
    Stamped(ms, MembershipId, MembershipCreatedAt, clock) && Unique(ms, Memberships.Pair)
  }

  /** Registrations are in creation order and hold each (userId, eventId) at most once. */
  ghost predicate RegistrationsInv(rs: seq<Registration>, clock: int)
  {
    Stamped(rs, RegistrationId, RegistrationCreatedAt, clock) && Unique(rs, Registrations.Pair)
  }

  // ---- the same facts, read one document at a time from the newest end ----
  // These recursive forms say what the quantified ones above say, but a
  // handler that assumes them sees one document at a time rather than a
  // statement about every pair of documents.

  /** Keys strictly increase along `s` and stay below `bound`. */
  ghost predicate Rising<T>(s: seq<T>, key: T -> int, bound: int)
    decreases |s|
  {
    s == [] || (key(s[|s| - 1]) < bound && Rising(s[..|s| - 1], key, key(s[|s| - 1])))
  }

  lemma {:induction false} RisingIsIncreasing<T>(s: seq<T>, key: T -> int, bound: int)
    ensures Rising(s, key, bound) <==> Increasing(s, key, bound)
    decreases |s|
  {
    if s != [] {
      var f, x := s[..|s| - 1], s[|s| - 1];
      RisingIsIncreasing(f, key, key(x));
      assert forall i :: 0 <= i < |f| ==> f[i] == s[i];
      if Increasing(s, key, bound) {
        forall i | 0 <= i < |f|
          ensures key(f[i]) < key(x)
        {
          assert i < |s| - 1;
        }
      }
      if key(x) < bound && Increasing(f, key, key(x)) {
        forall i, j | 0 <= i < j < |s|
          ensures key(s[i]) < key(s[j])
        {
          if j < |f| {
            assert s[i] == f[i] && s[j] == f[j];
          } else {
            assert s[i] == f[i];
          }
        }
      }
    }
  }

  /** No document of `s` has key `k`. */
  ghost predicate Fresh<T, K>(s: seq<T>, key: T -> K, k: K)
    decreases |s|
  {
    s == [] || (key(s[|s| - 1]) != k && Fresh(s[..|s| - 1], key, k))
  }

  lemma {:induction false} FreshIsAbsent<T, K>(s: seq<T>, key: T -> K, k: K)
    ensures Fresh(s, key, k) <==> forall i :: 0 <= i < |s| ==> key(s[i]) != k
    decreases |s|
  {
    if s != [] {
      var f := s[..|s| - 1];
      FreshIsAbsent(f, key, k);
      assert forall i :: 0 <= i < |f| ==> f[i] == s[i];
      if Fresh(s, key, k) {
        forall i | 0 <= i < |s|
          ensures key(s[i]) != k
        {
          if i < |f| {
            assert s[i] == f[i];
          }
        }
      }
    }
  }

  /** No two documents of `s` share a key. */
  ghost predicate Distinct<T, K>(s: seq<T>, key: T -> K)
    decreases |s|
  {
    s == [] || (Fresh(s[..|s| - 1], key, key(s[|s| - 1])) && Distinct(s[..|s| - 1], key))
  }

  lemma {:induction false} DistinctIsUnique<T, K>(s: seq<T>, key: T -> K)
    ensures Distinct(s, key) <==> Unique(s, key)
    decreases |s|
  {
    if s != [] {
      var f, x := s[..|s| - 1], s[|s| - 1];
      DistinctIsUnique(f, key);
      FreshIsAbsent(f, key, key(x));
      assert forall i :: 0 <= i < |f| ==> f[i] == s[i];
      if Unique(s, key) {
        forall i | 0 <= i < |f|
          ensures key(f[i]) != key(x)
        {
          assert i < |s| - 1;
        }
      }
      if Distinct(s, key) {
        forall i, j | 0 <= i < j < |s|
          ensures key(s[i]) != key(s[j])
        {
          if j < |f| {
            assert s[i] == f[i] && s[j] == f[j];
          } else {
            assert s[i] == f[i];
          }
        }
      }
    }
  }

  /** Every document of `s` satisfies `p`. */
  ghost predicate Every<T>(s: seq<T>, p: T -> bool)
    decreases |s|
  {
    s == [] || (p(s[|s| - 1]) && Every(s[..|s| - 1], p))
  }

  lemma {:induction false} EveryIsAll<T>(s: seq<T>, p: T -> bool)
    ensures Every(s, p) <==> forall i :: 0 <= i < |s| ==> p(s[i])
    decreases |s|
  {
    if s != [] {
      var f := s[..|s| - 1];
      EveryIsAll(f, p);
      assert forall i :: 0 <= i < |f| ==> f[i] == s[i];
      if Every(s, p) {
        forall i | 0 <= i < |s|
          ensures p(s[i])
        {
          if i < |f| {
            assert s[i] == f[i];
          }
        }
      }
    }
  }

  /** The whole store: every collection consistent under one clock. */
  ghost predicate Consistent(users: seq<User>, clubs: seq<Club>, events: seq<Event>, ms: seq<Membership>,
                             rs: seq<Registration>, clock: int)
  {
    && Rising(users, UserId, clock) && Rising(users, UserCreatedAt, clock)
    && Every(users, UserComplete) && Distinct(users, UserEmail)
    && Rising(clubs, ClubId, clock) && Rising(clubs, ClubCreatedAt, clock) && Every(clubs, ClubComplete)
    && Rising(events, EventId, clock) && Rising(events, EventCreatedAt, clock) && Every(events, EventComplete)
    && Rising(ms, MembershipId, clock) && Rising(ms, MembershipCreatedAt, clock) && Distinct(ms, Memberships.Pair)
    && Rising(rs, RegistrationId, clock) && Rising(rs, RegistrationCreatedAt, clock)
    && Distinct(rs, Registrations.Pair)
  }

  /** The recursive whole-store predicate is the five collection invariants. */
  lemma ConsistentMeans(users: seq<User>, clubs: seq<Club>, events: seq<Event>, ms: seq<Membership>,
                        rs: seq<Registration>, clock: int)
    ensures Consistent(users, clubs, events, ms, rs, clock) <==>
      && UsersInv(users, clock) && ClubsInv(clubs, clock) && EventsInv(events, clock)
      && MembershipsInv(ms, clock) && RegistrationsInv(rs, clock)
  {
    RisingIsIncreasing(users, UserId, clock);
    RisingIsIncreasing(users, UserCreatedAt, clock);
    EveryIsAll(users, UserComplete);
    DistinctIsUnique(users, UserEmail);
    RisingIsIncreasing(clubs, ClubId, clock);
    RisingIsIncreasing(clubs, ClubCreatedAt, clock);
    EveryIsAll(clubs, ClubComplete);
    RisingIsIncreasing(events, EventId, clock);
    RisingIsIncreasing(events, EventCreatedAt, clock);
    EveryIsAll(events, EventComplete);
    RisingIsIncreasing(ms, MembershipId, clock);
    RisingIsIncreasing(ms, MembershipCreatedAt, clock);
    DistinctIsUnique(ms, Memberships.Pair);
    RisingIsIncreasing(rs, RegistrationId, clock);
    RisingIsIncreasing(rs, RegistrationCreatedAt, clock);
    DistinctIsUnique(rs, Registrations.Pair);
  }

  /** A clock that has moved on keeps every collection consistent. */
  lemma Later(users: seq<User>, clubs: seq<Club>, events: seq<Event>, ms: seq<Membership>,
              rs: seq<Registration>, clock: int, later: int)
    requires clock <= later
    requires UsersInv(users, clock) && ClubsInv(clubs, clock) && EventsInv(events, clock)
    requires MembershipsInv(ms, clock) && RegistrationsInv(rs, clock)
    ensures UsersInv(users, later) && ClubsInv(clubs, later) && EventsInv(events, later)
    ensures MembershipsInv(ms, later) && RegistrationsInv(rs, later)
  {
  }

  // ---- every route step keeps its collection consistent ----

  lemma JoinKeepsInv(ms: seq<Membership>, req: MembershipFields, clock: nat)
    requires MembershipsInv(ms, clock)
    ensures var s := Memberships.Join(ms, req, clock);
      MembershipsInv(s.records, clock + (|s.records| - |ms|))
  {
    var s := Memberships.Join(ms, req, clock);
    Memberships.JoinKeepsPairsUnique(ms, req, clock);
    if s.response.status == 200 {
      var m := s.records[|ms|];
      assert s.records == ms + [m];
      StampedAppend(ms, MembershipId, MembershipCreatedAt, clock, m);
    }
  }

  lemma LeaveKeepsInv(ms: seq<Membership>, req: Memberships.LeaveRequest, clock: nat)
    requires MembershipsInv(ms, clock)
    ensures MembershipsInv(Memberships.Leave(ms, req).records, clock)
  {
    if req.userId.Some? && req.clubId.Some? {
      var pair := (req.userId.value, req.clubId.value);
      RemoveFirstClears(ms, Memberships.Pair, pair);
      match Find(ms, Memberships.Pair, pair)
      case None =>
      case Some(i) => StampedRemove(ms, MembershipId, MembershipCreatedAt, clock, i);
    }
  }

  lemma RegisterKeepsInv(rs: seq<Registration>, req: RegistrationFields, clock: nat)
    requires RegistrationsInv(rs, clock)
    ensures var s := Registrations.Register(rs, req, clock);
      RegistrationsInv(s.records, clock + (|s.records| - |rs|))
  {
    var s := Registrations.Register(rs, req, clock);
    Registrations.RegisterKeepsPairsUnique(rs, req, clock);
    if s.response.status == 200 {
      StampedAppend(rs, RegistrationId, RegistrationCreatedAt, clock, s.records[|rs|]);
    }
  }

  lemma UnregisterKeepsInv(rs: seq<Registration>, req: RegistrationFields, clock: nat)
    requires RegistrationsInv(rs, clock)
    ensures RegistrationsInv(Registrations.Unregister(rs, req).records, clock)
  {
    if req.userId.Some? && req.eventId.Some? {
      var pair := (req.userId.value, req.eventId.value);
      RemoveFirstClears(rs, Registrations.Pair, pair);
      match Find(rs, Registrations.Pair, pair)
      case None =>
      case Some(i) => StampedRemove(rs, RegistrationId, RegistrationCreatedAt, clock, i);
    }
  }

  lemma SignUpKeepsInv(users: seq<User>, req: Accounts.RegisterRequest, env: Foreign.Env, clock: nat)
    requires UsersInv(users, clock)
    ensures var s := Accounts.Register(users, req, env, clock);
      UsersInv(s.records, clock + (|s.records| - |users|))
  {
    var s := Accounts.Register(users, req, env, clock);
    Accounts.RegisterKeepsEmailsUnique(users, req, env, clock);
    if s.response.status == 200 {
      var u := s.records[|users|];
      assert s.records == users + [u];
      var fields := UserFields(req.name, req.email, Some(env.hash(req.password.value)), ParseRole(req.role.value));
      assert NewUser(fields, clock) == Ok(u);
      StampedAppend(users, UserId, UserCreatedAt, clock, u);
    }
  }

  lemma UpdateKeepsInv(users: seq<User>, req: Accounts.ProfileUpdate, clock: nat)
    requires UsersInv(users, clock)
    ensures UsersInv(Accounts.UpdateProfile(users, req).records, clock)
  {
    match Accounts.FindUser(users, req.userId)
    case None =>
    case Some(k) =>
      var u := Accounts.Updated(users[k], req);
      StampedReplace(users, UserId, UserCreatedAt, clock, k, u);
      assert forall i :: 0 <= i < |users| ==> UserEmail(users[k := u][i]) == UserEmail(users[i]);
  }

  lemma CreateEventKeepsInv(events: seq<Event>, req: EventFields, clock: nat)
    requires EventsInv(events, clock)
    ensures var s := Catalog.CreateEvent(events, req, clock);
      EventsInv(s.records, clock + (|s.records| - |events|))
  {
    var s := Catalog.CreateEvent(events, req, clock);
    if s.response.status == 200 {
      var e := s.records[|events|];
      assert s.records == events + [e];
      StampedAppend(events, EventId, EventCreatedAt, clock, e);
    }
  }

  lemma CreateClubKeepsInv(clubs: seq<Club>, req: ClubFields, clock: nat)
    requires ClubsInv(clubs, clock)
    ensures var s := Catalog.CreateClub(clubs, req, clock);
      ClubsInv(s.records, clock + (|s.records| - |clubs|))
  {
    var s := Catalog.CreateClub(clubs, req, clock);
    if s.response.status == 200 {
      var c := s.records[|clubs|];
      assert s.records == clubs + [c];
      StampedAppend(clubs, ClubId, ClubCreatedAt, clock, c);
    }
  }

  // ---- the whole store after each route step ----

  lemma JoinConsistent(users: seq<User>, clubs: seq<Club>, events: seq<Event>, ms: seq<Membership>,
                       rs: seq<Registration>, req: MembershipFields, clock: nat)
    requires Consistent(users, clubs, events, ms, rs, clock)
    ensures var s := Memberships.Join(ms, req, clock);
      s.response.status == 200 ==> Consistent(users, clubs, events, s.records, rs, clock + 1)
    ensures var s := Memberships.Join(ms, req, clock);
      s.response.status != 200 ==> Consistent(users, clubs, events, s.records, rs, clock)
  {
    var s := Memberships.Join(ms, req, clock);
    ConsistentMeans(users, clubs, events, ms, rs, clock);
    JoinKeepsInv(ms, req, clock);
    Later(users, clubs, events, ms, rs, clock, clock + (|s.records| - |ms|));
    ConsistentMeans(users, clubs, events, s.records, rs, clock + (|s.records| - |ms|));
    assert |s.records| == |ms| + (if s.response.status == 200 then 1 else 0);
  }

  lemma LeaveConsistent(users: seq<User>, clubs: seq<Club>, events: seq<Event>, ms: seq<Membership>,
                        rs: seq<Registration>, req: Memberships.LeaveRequest, clock: nat)
    requires Consistent(users, clubs, events, ms, rs, clock)
    ensures Consistent(users, clubs, events, Memberships.Leave(ms, req).records, rs, clock)
  {
    ConsistentMeans(users, clubs, events, ms, rs, clock);
    LeaveKeepsInv(ms, req, clock);
    ConsistentMeans(users, clubs, events, Memberships.Leave(ms, req).records, rs, clock);
  }

  lemma RegisterConsistent(users: seq<User>, clubs: seq<Club>, events: seq<Event>, ms: seq<Membership>,
                           rs: seq<Registration>, req: RegistrationFields, clock: nat)
    requires Consistent(users, clubs, events, ms, rs, clock)
    ensures var s := Registrations.Register(rs, req, clock);
      s.response.status == 200 ==> Consistent(users, clubs, events, ms, s.records, clock + 1)
    ensures var s := Registrations.Register(rs, req, clock);
      s.response.status != 200 ==> Consistent(users, clubs, events, ms, s.records, clock)
  {
    var s := Registrations.Register(rs, req, clock);
    ConsistentMeans(users, clubs, events, ms, rs, clock);
    RegisterKeepsInv(rs, req, clock);
    Later(users, clubs, events, ms, rs, clock, clock + (|s.records| - |rs|));
    ConsistentMeans(users, clubs, events, ms, s.records, clock + (|s.records| - |rs|));
    assert |s.records| == |rs| + (if s.response.status == 200 then 1 else 0);
  }

  lemma UnregisterConsistent(users: seq<User>, clubs: seq<Club>, events: seq<Event>, ms: seq<Membership>,
                             rs: seq<Registration>, req: RegistrationFields, clock: nat)
    requires Consistent(users, clubs, events, ms, rs, clock)
    ensures Consistent(users, clubs, events, ms, Registrations.Unregister(rs, req).records, clock)
  {
    ConsistentMeans(users, clubs, events, ms, rs, clock);
    UnregisterKeepsInv(rs, req, clock);
    ConsistentMeans(users, clubs, events, ms, Registrations.Unregister(rs, req).records, clock);
  }

  lemma SignUpConsistent(users: seq<User>, clubs: seq<Club>, events: seq<Event>, ms: seq<Membership>,
                         rs: seq<Registration>, req: Accounts.RegisterRequest, env: Foreign.Env, clock: nat)
    requires Consistent(users, clubs, events, ms, rs, clock)
    ensures var s := Accounts.Register(users, req, env, clock);
      s.response.status == 200 ==> Consistent(s.records, clubs, events, ms, rs, clock + 1)
    ensures var s := Accounts.Register(users, req, env, clock);
      s.response.status != 200 ==> Consistent(s.records, clubs, events, ms, rs, clock)
  {
    var s := Accounts.Register(users, req, env, clock);
    ConsistentMeans(users, clubs, events, ms, rs, clock);
    SignUpKeepsInv(users, req, env, clock);
    Later(users, clubs, events, ms, rs, clock, clock + (|s.records| - |users|));
    ConsistentMeans(s.records, clubs, events, ms, rs, clock + (|s.records| - |users|));
    assert |s.records| == |users| + (if s.response.status == 200 then 1 else 0);
  }

  lemma UpdateConsistent(users: seq<User>, clubs: seq<Club>, events: seq<Event>, ms: seq<Membership>,
                         rs: seq<Registration>, req: Accounts.ProfileUpdate, clock: nat)
    requires Consistent(users, clubs, events, ms, rs, clock)
    ensures Consistent(Accounts.UpdateProfile(users, req).records, clubs, events, ms, rs, clock)
  {
    ConsistentMeans(users, clubs, events, ms, rs, clock);
    UpdateKeepsInv(users, req, clock);
    ConsistentMeans(Accounts.UpdateProfile(users, req).records, clubs, events, ms, rs, clock);
  }

  lemma CreateEventConsistent(users: seq<User>, clubs: seq<Club>, events: seq<Event>, ms: seq<Membership>,
                              rs: seq<Registration>, req: EventFields, clock: nat)
    requires Consistent(users, clubs, events, ms, rs, clock)
    ensures var s := Catalog.CreateEvent(events, req, clock);
      s.response.status == 200 ==> Consistent(users, clubs, s.records, ms, rs, clock + 1)
    ensures var s := Catalog.CreateEvent(events, req, clock);
      s.response.status != 200 ==> Consistent(users, clubs, s.records, ms, rs, clock)
  {
    var s := Catalog.CreateEvent(events, req, clock);
    ConsistentMeans(users, clubs, events, ms, rs, clock);
    CreateEventKeepsInv(events, req, clock);
    Later(users, clubs, events, ms, rs, clock, clock + (|s.records| - |events|));
    ConsistentMeans(users, clubs, s.records, ms, rs, clock + (|s.records| - |events|));
    assert |s.records| == |events| + (if s.response.status == 200 then 1 else 0);
  }

  lemma CreateClubConsistent(users: seq<User>, clubs: seq<Club>, events: seq<Event>, ms: seq<Membership>,
                             rs: seq<Registration>, req: ClubFields, clock: nat)
    requires Consistent(users, clubs, events, ms, rs, clock)
    ensures var s := Catalog.CreateClub(clubs, req, clock);
      s.response.status == 200 ==> Consistent(users, s.records, events, ms, rs, clock + 1)
    ensures var s := Catalog.CreateClub(clubs, req, clock);
      s.response.status != 200 ==> Consistent(users, s.records, events, ms, rs, clock)
  {
    var s := Catalog.CreateClub(clubs, req, clock);
    ConsistentMeans(users, clubs, events, ms, rs, clock);
    CreateClubKeepsInv(clubs, req, clock);
    Later(users, clubs, events, ms, rs, clock, clock + (|s.records| - |clubs|));
    ConsistentMeans(users, s.records, events, ms, rs, clock + (|s.records| - |clubs|));
    assert |s.records| == |clubs| + (if s.response.status == 200 then 1 else 0);
  }
}
