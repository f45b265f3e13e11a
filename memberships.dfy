/** The membership ledger behind /api/memberships: joining a club (POST) and
    leaving it (DELETE), at most one membership per (userId, clubId). */
module Memberships {
  import opened Records
  import opened Responses
  import opened Query

  function Pair(m: Membership): (Id, Id)
  {
    (m.userId, m.clubId)
  }

  const IdsRequired := "userId and clubId are required"
  const AlreadyJoined := "Already joined"

  /** Body of the DELETE request. */
  datatype LeaveRequest = LeaveRequest(userId: Option<Id>, clubId: Option<Id>)

  /** What the handler hands to `create`: the ids, and each detail string or "". */
  function Draft(req: MembershipFields): (d: MembershipFields)
    ensures d.userId == req.userId && d.clubId == req.clubId
    ensures d.studentName == Some(if req.studentName.Some? then req.studentName.value else "")
    ensures d.studentId == Some(if req.studentId.Some? then req.studentId.value else "")
    ensures d.major == Some(if req.major.Some? then req.major.value else "")
    ensures d.reason == Some(if req.reason.Some? then req.reason.value else "")
  {
    MembershipFields(req.userId, req.clubId, Some(OrDefault(req.studentName, "")),
                     Some(OrDefault(req.studentId, "")), Some(OrDefault(req.major, "")),
                     Some(OrDefault(req.reason, "")))
  }

  /** POST: reject missing ids, reject an existing pair, otherwise create. */
  function Join(ms: seq<Membership>, req: MembershipFields, stamp: nat): (s: Step<Membership>)
    ensures req.userId.None? || req.clubId.None? ==> s == Step(ms, Response(400, Message(IdsRequired)))
    ensures req.userId.Some? && req.clubId.Some? && Holds(ms, Pair, (req.userId.value, req.clubId.value))
            ==> s == Step(ms, Response(400, Message(AlreadyJoined)))
    ensures s.response.status == 200
            <==> req.userId.Some? && req.clubId.Some? && !Holds(ms, Pair, (req.userId.value, req.clubId.value))
    ensures s.response.status != 200 ==> s.records == ms
    ensures s.response.status == 200 ==>
      && |s.records| == |ms| + 1 && s.records[..|ms|] == ms
      && s.response == Response(200, JoinedClub(s.records[|ms|]))
      && var m := s.records[|ms|];
      && m.id == stamp && m.joinDate == stamp && m.createdAt == stamp
      && m.userId == req.userId.value && m.clubId == req.clubId.value
      && m.studentName == OrDefault(req.studentName, "") && m.studentId == OrDefault(req.studentId, "")
      && m.major == OrDefault(req.major, "") && m.reason == OrDefault(req.reason, "")
  {
    if req.userId.None? || req.clubId.None? then Step(ms, Response(400, Message(IdsRequired)))
    else if Find(ms, Pair, (req.userId.value, req.clubId.value)).Some? then Step(ms, Response(400, Message(AlreadyJoined)))
    else
      var m := NewMembership(Draft(req), stamp).value;
      assert (ms + [m])[..|ms|] == ms;
      Step(ms + [m], Response(200, JoinedClub(m)))
  }

  /** DELETE: reject missing ids, otherwise delete the first membership of the
      pair, if any, and report success either way. */
  function Leave(ms: seq<Membership>, req: LeaveRequest): (s: Step<Membership>)
    ensures req.userId.None? || req.clubId.None? ==> s == Step(ms, Response(400, Message(IdsRequired)))
    ensures req.userId.Some? && req.clubId.Some? ==>
      s == Step(RemoveFirst(ms, Pair, (req.userId.value, req.clubId.value)), Response(200, Done))
  {
    if req.userId.None? || req.clubId.None? then Step(ms, Response(400, Message(IdsRequired)))
    else Step(RemoveFirst(ms, Pair, (req.userId.value, req.clubId.value)), Response(200, Done))
  }

  /** A join keeps the ledger free of duplicate pairs, and afterwards the pair is
      a member whatever the outcome: a second join is always refused. */
  lemma JoinKeepsPairsUnique(ms: seq<Membership>, req: MembershipFields, stamp: nat)
    requires Unique(ms, Pair)
    ensures Unique(Join(ms, req, stamp).records, Pair)
    ensures req.userId.Some? && req.clubId.Some? ==>
      var s := Join(ms, req, stamp);
      && Holds(s.records, Pair, (req.userId.value, req.clubId.value))
      && Join(s.records, req, stamp + 1) == Step(s.records, Response(400, Message(AlreadyJoined)))
  {
    var s := Join(ms, req, stamp);
    if s.response.status == 200 {
      var m := s.records[|ms|];
      assert s.records == ms + [m];
      AppendKeepsUnique(ms, Pair, m);
    }
  }

  /** DELETE removes at most one membership and only one of the given pair, and
      afterwards the pair is no longer a member. */
  lemma LeaveRemovesPair(ms: seq<Membership>, req: LeaveRequest)
    requires Unique(ms, Pair)
    requires req.userId.Some? && req.clubId.Some?
    ensures var k := (req.userId.value, req.clubId.value); var r := Leave(ms, req).records;
      && multiset(r) <= multiset(ms)
      && |r| == (if Holds(ms, Pair, k) then |ms| - 1 else |ms|)
      && (forall m :: m in multiset(ms) && Pair(m) != k ==> multiset(r)[m] == multiset(ms)[m])
      && !Holds(r, Pair, k)
      && Unique(r, Pair)
  {
    var k := (req.userId.value, req.clubId.value);
    RemoveFirstEffect(ms, Pair, k);
    RemoveFirstClears(ms, Pair, k);
  }

  /** A successful join followed by a leave of the same pair restores the ledger. */
  lemma JoinThenLeave(ms: seq<Membership>, req: MembershipFields, stamp: nat)
    requires Join(ms, req, stamp).response.status == 200
    ensures Leave(Join(ms, req, stamp).records, LeaveRequest(req.userId, req.clubId)).records == ms
  {
    var s := Join(ms, req, stamp);
    var m := s.records[|ms|];
    assert s.records == ms + [m];
    AppendThenRemove(ms, Pair, m);
  }
}
