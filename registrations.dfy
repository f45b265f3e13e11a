/** The registration ledger behind /api/registrations: registering for an event
    (POST) and cancelling (DELETE), at most one registration per
    (userId, eventId). The handler has no presence check of its own, and its
    filters leave out the keys the body leaves out. */
module Registrations {
  import opened Records
  import opened Responses
  import opened Query

  function Pair(g: Registration): (Id, Id)
  {
    (g.userId, g.eventId)
  }

  const AlreadyRegistered := "Already registered."

  /** The filter `{ userId, eventId }` built from the body. A key the body
      leaves out is dropped from the filter, so it constrains nothing. */
  predicate Matches(req: RegistrationFields, g: Registration)
    ensures req.userId.Some? && req.eventId.Some? ==>
      (Matches(req, g) <==> Pair(g) == (req.userId.value, req.eventId.value))
    ensures req.userId.None? && req.eventId.None? ==> Matches(req, g)
    ensures req.userId.None? && req.eventId.Some? ==> (Matches(req, g) <==> g.eventId == req.eventId.value)
    ensures req.userId.Some? && req.eventId.None? ==> (Matches(req, g) <==> g.userId == req.userId.value)
  {
    && (req.userId.None? || g.userId == req.userId.value)
    && (req.eventId.None? || g.eventId == req.eventId.value)
  }

  /** The filter as a key for `findOne` and `deleteOne`: a registration
      matches when its key is `true`. */
  function Filter(req: RegistrationFields): (f: Registration -> bool)
    ensures forall g :: f(g) <==> Matches(req, g)
  {
    g => Matches(req, g)
  }

  /** True when both ids are given and that pair is already registered. */
  predicate Registered(rs: seq<Registration>, req: RegistrationFields)
  {
    req.userId.Some? && req.eventId.Some? && Holds(rs, Pair, (req.userId.value, req.eventId.value))
  }

  /** With both ids given, the filter finds exactly the registrations of the pair. */
  lemma FilterIsPair(rs: seq<Registration>, req: RegistrationFields)
    ensures req.userId.Some? && req.eventId.Some? ==>
      && (Holds(rs, Filter(req), true) <==> Registered(rs, req))
      && Find(rs, Filter(req), true) == Find(rs, Pair, (req.userId.value, req.eventId.value))
  {
    if req.userId.Some? && req.eventId.Some? {
      var k := (req.userId.value, req.eventId.value);
      assert forall g :: Filter(req)(g) == true <==> Pair(g) == k;
      FindSameMatches(rs, Filter(req), true, Pair, k);
    }
  }

  /** POST: a body some registration matches is refused; otherwise `create` is
      called, whose validation fails with 500 when an id is absent. */
  function Register(rs: seq<Registration>, req: RegistrationFields, stamp: nat): (s: Step<Registration>)
    ensures Holds(rs, Filter(req), true) ==> s == Step(rs, Response(400, Message(AlreadyRegistered)))
    ensures Registered(rs, req) ==> s == Step(rs, Response(400, Message(AlreadyRegistered)))
    ensures (req.userId.None? || req.eventId.None?) && !Holds(rs, Filter(req), true) ==>
      && s.records == rs && s.response.status == 500 && s.response.body.StoreFault?
      && s.response.body.fault.MissingRequired?
      && ("userId" in s.response.body.fault.paths <==> req.userId.None?)
      && ("eventId" in s.response.body.fault.paths <==> req.eventId.None?)
    ensures s.response.status == 200 <==> req.userId.Some? && req.eventId.Some? && !Registered(rs, req)
    ensures s.response.status != 200 ==> s.records == rs
    ensures s.response.status == 200 ==>
      s.records == rs + [Registration(stamp, req.userId.value, req.eventId.value, stamp, stamp)]
      && s.response == Response(200, RegisteredForEvent(s.records[|rs|]))
  {
    FilterIsPair(rs, req);
    if Find(rs, Filter(req), true).Some? then
      Step(rs, Response(400, Message(AlreadyRegistered)))
    else
      match NewRegistration(req, stamp)
      case Missing(paths) => Step(rs, Response(500, StoreFault(MissingRequired(paths))))
      case Ok(g) => Step(rs + [g], Response(200, RegisteredForEvent(g)))
  }

  /** DELETE as written: `deleteOne({ userId, eventId })` removes the first
      registration the filter matches, whoever's it is when an id is absent. */
  function UnregisterAsWritten(rs: seq<Registration>, req: RegistrationFields): (s: Step<Registration>)
    ensures s.response == Response(200, Done)
    ensures req.userId.Some? && req.eventId.Some? ==> s == Unregister(rs, req)
  {
    FilterIsPair(rs, req);
    Step(RemoveFirst(rs, Filter(req), true), Response(200, Done))
  }

  /** A body with only an event id deletes the first registration for that
      event, and an empty body the first registration of all, though neither
      names the user whose registration goes. */
  lemma UnregisterAsWrittenDeletesUnnamed(rs: seq<Registration>)
    requires rs != []
    ensures UnregisterAsWritten(rs, RegistrationFields(None, Some(rs[0].eventId))).records == rs[1..]
    ensures UnregisterAsWritten(rs, RegistrationFields(None, None)).records == rs[1..]
    ensures Unregister(rs, RegistrationFields(None, Some(rs[0].eventId))).records == rs
  {
    assert Filter(RegistrationFields(None, Some(rs[0].eventId)))(rs[0]);
    assert Filter(RegistrationFields(None, None))(rs[0]);
  }

  /** DELETE, corrected: the first registration of the pair is deleted when
      both ids are given; with an id absent nothing is deleted. Success either
      way. */
  function Unregister(rs: seq<Registration>, req: RegistrationFields): (s: Step<Registration>)
    ensures s.response == Response(200, Done)
    ensures req.userId.None? || req.eventId.None? ==> s.records == rs
    ensures req.userId.Some? && req.eventId.Some? ==>
      s.records == RemoveFirst(rs, Pair, (req.userId.value, req.eventId.value))
  {
    if req.userId.None? || req.eventId.None? then Step(rs, Response(200, Done))
    else Step(RemoveFirst(rs, Pair, (req.userId.value, req.eventId.value)), Response(200, Done))
  }

  lemma RegisterKeepsPairsUnique(rs: seq<Registration>, req: RegistrationFields, stamp: nat)
    requires Unique(rs, Pair)
    ensures Unique(Register(rs, req, stamp).records, Pair)
    ensures req.userId.Some? && req.eventId.Some? ==> Registered(Register(rs, req, stamp).records, req)
  {
    var s := Register(rs, req, stamp);
    if s.response.status == 200 {
      AppendKeepsUnique(rs, Pair, s.records[|rs|]);
    }
  }

  /** DELETE removes at most one registration, only one of the given pair, and
      afterwards the pair is not registered. */
  lemma UnregisterRemovesPair(rs: seq<Registration>, req: RegistrationFields)
    requires Unique(rs, Pair)
    ensures var r := Unregister(rs, req).records;
      && multiset(r) <= multiset(rs)
      && |rs| - 1 <= |r| <= |rs|
      && (forall g :: g in multiset(rs) && !(req.userId == Some(g.userId) && req.eventId == Some(g.eventId))
                      ==> multiset(r)[g] == multiset(rs)[g])
      && !Registered(r, req)
      && Unique(r, Pair)
  {
    if req.userId.Some? && req.eventId.Some? {
      var k := (req.userId.value, req.eventId.value);
      RemoveFirstEffect(rs, Pair, k);
      RemoveFirstClears(rs, Pair, k);
    }
  }

  /** Registering and then cancelling the same pair restores the ledger. */
  lemma RegisterThenUnregister(rs: seq<Registration>, req: RegistrationFields, stamp: nat)
    requires Register(rs, req, stamp).response.status == 200
    ensures Unregister(Register(rs, req, stamp).records, req).records == rs
  {
    var s := Register(rs, req, stamp);
    AppendThenRemove(rs, Pair, s.records[|rs|]);
  }
}
