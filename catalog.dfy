/** Clubs and events as the admin pages create and list them: /api/clubs and
    /api/events. Both creates fill absent optional fields with defaults; the
    store rejects a missing required field. */
module Catalog {
  import opened Records
  import opened Responses

  /** POST /api/clubs: `Club.create({ name, description: description || "" })`. */
  function CreateClub(clubs: seq<Club>, req: ClubFields, stamp: nat): (s: Step<Club>)
    ensures s.response.status == 200 <==> !Blank(req.name)
    ensures Blank(req.name) ==> s == Step(clubs, Response(500, StoreFault(MissingRequired(["name"]))))
    ensures s.response.status == 200 ==>
      && |s.records| == |clubs| + 1 && s.records[..|clubs|] == clubs
      && var c := s.records[|clubs|];
      && c.id == stamp && c.createdAt == stamp
      && c.name == req.name.value && c.description == OrDefault(req.description, "")
      && s.response == Response(200, CreatedClub(c))
  {
    var fields := ClubFields(req.name, Some(OrDefault(req.description, "")));
    match NewClub(fields, stamp)
    case Missing(paths) => Step(clubs, Response(500, StoreFault(MissingRequired(paths))))
    case Ok(c) =>
      assert (clubs + [c])[..|clubs|] == clubs;
      Step(clubs + [c], Response(200, CreatedClub(c)))
  }

  /** POST /api/events: description and location default to "", keywords are
      kept only when they are a list; clubId is stored without any check that
      such a club exists. */
  function CreateEvent(events: seq<Event>, req: EventFields, stamp: nat): (s: Step<Event>)
    ensures s.response.status == 200 <==> !Blank(req.title) && req.date.Some? && !Blank(req.clubId)
    ensures s.response.status != 200 ==>
      && s.records == events && s.response.status == 500
      && s.response.body.StoreFault? && s.response.body.fault.MissingRequired?
      && ("title" in s.response.body.fault.paths <==> Blank(req.title))
      && ("date" in s.response.body.fault.paths <==> req.date.None?)
      && ("clubId" in s.response.body.fault.paths <==> Blank(req.clubId))
    ensures s.response.status == 200 ==>
      && |s.records| == |events| + 1 && s.records[..|events|] == events
      && var e := s.records[|events|];
      && e.id == stamp && e.createdAt == stamp
      && e.title == req.title.value && e.date == req.date.value && e.clubId == req.clubId.value
      && e.description == OrDefault(req.description, "") && e.location == OrDefault(req.location, "")
      && e.keywords == OrDefault(req.keywords, [])
      && s.response == Response(200, CreatedEvent(e))
  {
    var fields := EventFields(req.title, Some(OrDefault(req.description, "")), req.date,
                              Some(OrDefault(req.location, "")), req.clubId, Some(OrDefault(req.keywords, [])));
    match NewEvent(fields, stamp)
    case Missing(paths) => Step(events, Response(500, StoreFault(MissingRequired(paths))))
    case Ok(e) =>
      assert (events + [e])[..|events|] == events;
      Step(events + [e], Response(200, CreatedEvent(e)))
  }
}
