/** The friendly-match rules of Cogs/LeagueCog.py: who a user acts for, the
    slot clash, and the guard chains of `registraramistoso` and of the accept
    and reject buttons of a friendly request. Each guard chain is a total
    function from the store and the inputs to a refusal or to what gets
    written; the commands apply it to the store. */
module Friendlies {
  import opened LeagueTypes
  import opened LeagueStore

  /** `get_team_by_manager(user) or get_team_by_captain(user)`: the team a user
      acts for, preferring the team they manage. */
  function ActorTeam(store: Store, user: UserId): (r: Option<TeamId>)
    reads store
    requires store.Valid()
    ensures r.Some? ==> r.value in store.teams && store.MayActFor(r.value, user)
    ensures r.None? <==> store.ManagedTeam(user).None? && store.CaptainedTeam(user).None?
    ensures store.ManagedTeam(user).Some? ==> r == store.ManagedTeam(user)
  {
    if store.ManagedTeam(user).Some? then store.ManagedTeam(user) else store.CaptainedTeam(user)
  }

  /** The clash test `any(...)` over the friendlies of a table: some friendly
      in that slot already involves team `a` or team `b`, on either side. */
  predicate SlotClash(matches: map<int, FriendlyMatch>, table: int, hour: string, a: TeamId, b: TeamId)
  {
    exists id :: id in matches && matches[id].table == table && matches[id].slot == hour
      && (matches[id].team1 == a || matches[id].team1 == b || matches[id].team2 == a || matches[id].team2 == b)
  }

  /** A friendly has team `t` on one side or the other. */
  predicate Involves(m: FriendlyMatch, t: TeamId)
  {
    m.team1 == t || m.team2 == t
  }

  /** What the clash test keeps: no team plays two friendlies in one slot of
      one table. */
  ghost predicate NoTeamDoubleBooked(matches: map<int, FriendlyMatch>)
  {
    forall i, j :: i in matches && j in matches && i != j
      && matches[i].table == matches[j].table && matches[i].slot == matches[j].slot
      ==> !Involves(matches[j], matches[i].team1) && !Involves(matches[j], matches[i].team2)
  }

  /** What the clash test does not keep: at most one friendly in each slot
      of a table. */
  ghost predicate OneFriendlyPerSlot(matches: map<int, FriendlyMatch>)
  {
    forall i, j :: i in matches && j in matches
      && matches[i].table == matches[j].table && matches[i].slot == matches[j].slot
      ==> i == j
  }

  /** Storing a friendly that passes the clash test keeps every team to one
      friendly per slot. */
  lemma UnclashedKeepsTeamsApart(matches: map<int, FriendlyMatch>, id: int, m: FriendlyMatch)
    requires NoTeamDoubleBooked(matches) && id !in matches
    requires !SlotClash(matches, m.table, m.slot, m.team1, m.team2)
    ensures NoTeamDoubleBooked(matches[id := m])
  {
  }

  /** `next((h for h in horarios if h['horario'] == horario), None)`: the
      position of the first slot with that hour, from position `i` on. */
  function FirstSlot(slots: seq<Slot>, hour: string, i: nat): (r: Option<nat>)
    requires i <= |slots|
    ensures r.Some? ==> i <= r.value < |slots| && slots[r.value].hour == hour
    ensures r.Some? ==> forall j :: i <= j < r.value ==> slots[j].hour != hour
    ensures r.None? <==> forall j :: i <= j < |slots| ==> slots[j].hour != hour
    decreases |slots| - i
  {
    if i == |slots| then None
    else if slots[i].hour == hour then Some(i)
    else FirstSlot(slots, hour, i + 1)
  }

  /** Some slot with that hour is marked available. */
  predicate SlotOpen(slots: seq<Slot>, hour: string)
  {
    exists j :: 0 <= j < |slots| && slots[j].hour == hour && slots[j].available
  }

  /** Why `registraramistoso` refuses, in the order it checks. */
  datatype RequestRefusal =
    | NotManagerOrCaptain
    | NoActiveTable
    | SlotNotInTable
    | SlotTaken
    | TeamNotFound
    | OwnTeam
    | TeamsBusy

  /** The guard chain of `registraramistoso`, given the latest friendly table
      (if any): either a refusal, or the pending request it creates. */
  function RequestGuard(store: Store, user: UserId, latest: Option<FriendlyTable>, teamName: string, hour: string)
    : (r: Result<FriendlyRequest, RequestRefusal>)
    reads store
    requires store.Valid()
    ensures r.Ok? ==> && ActorTeam(store, user) == Some(r.value.requester)
                      && store.TeamNamed(teamName) == Some(r.value.requested)
                      && latest.Some? && r.value.table == latest.value.id
                      && r.value.slot == hour && r.value.status == RequestPending
    ensures r.Ok? ==> var slot := FirstSlot(latest.value.slots, hour, 0);
                      slot.Some? && latest.value.slots[slot.value].available
    ensures r.Ok? ==> r.value.requester != r.value.requested
    ensures r.Ok? ==> !SlotClash(store.matches, r.value.table, hour, r.value.requester, r.value.requested)
    ensures ActorTeam(store, user).Some? && latest.Some? && FirstSlot(latest.value.slots, hour, 0).None? ==>
      r == Err(SlotNotInTable)
    ensures ActorTeam(store, user).Some? && latest.Some? && !SlotOpen(latest.value.slots, hour) ==> r.Err?
    ensures ActorTeam(store, user).Some? && store.TeamNamed(teamName) == ActorTeam(store, user) ==> r.Err?
  {
    match ActorTeam(store, user)
    case None => Err(NotManagerOrCaptain)
    case Some(team) =>
      match latest
      case None => Err(NoActiveTable)
      case Some(table) =>
        match FirstSlot(table.slots, hour, 0)
        case None => Err(SlotNotInTable)
        case Some(k) =>
          if !table.slots[k].available then Err(SlotTaken)
          else match store.TeamNamed(teamName)
            case None => Err(TeamNotFound)
            case Some(other) =>
              if other == team then Err(OwnTeam)
              else if SlotClash(store.matches, table.id, hour, team, other) then Err(TeamsBusy)
              else Ok(FriendlyRequest(team, other, hour, table.id, RequestPending))
  }

  /** `registraramistoso`: a refused request creates nothing; an accepted one
      is stored as pending under a fresh id. The notification of the requested
      team happens after the request is stored and is not modelled. */
  method RegisterFriendly(store: Store, user: UserId, latest: Option<FriendlyTable>, teamName: string, hour: string)
    returns (r: Result<int, RequestRefusal>)
    requires store.Valid()
    modifies store`requests, store`nextRequestId
    ensures store.Valid()
    ensures old(RequestGuard(store, user, latest, teamName, hour)).Err? ==>
      && r == Err(old(RequestGuard(store, user, latest, teamName, hour)).error)
      && store.requests == old(store.requests) && store.nextRequestId == old(store.nextRequestId)
    ensures old(RequestGuard(store, user, latest, teamName, hour)).Ok? ==>
      && r == Ok(old(store.nextRequestId))
      && old(store.nextRequestId) !in old(store.requests)
      && store.requests == old(store.requests)[old(store.nextRequestId) := old(RequestGuard(store, user, latest, teamName, hour)).value]
      && store.nextRequestId == old(store.nextRequestId) + 1
  {
    var g := RequestGuard(store, user, latest, teamName, hour);
    if g.Err? {
      return Err(g.error);
    }
    var q := g.value;
    var id := store.AddFriendlyRequest(q.requester, q.requested, q.slot, q.table, user);
    r := Ok(id);
  }

  /** Why the accept and reject buttons refuse, in the order they check. */
  datatype ResolveRefusal =
    | NotPendingRequest
    | NotRequestedTeam
    | TeamsBusyAtSlot

  /** The checks shared by the accept and reject buttons: the request exists
      and is pending, and the user acts for the requested team. */
  function ResolveGuard(store: Store, requestId: int, user: UserId): (r: Result<FriendlyRequest, ResolveRefusal>)
    reads store
    requires store.Valid()
    ensures r.Ok? <==> && requestId in store.requests
                       && store.requests[requestId].status == RequestPending
                       && ActorTeam(store, user) == Some(store.requests[requestId].requested)
    ensures r.Ok? ==> r.value == store.requests[requestId]
    ensures r.Ok? ==> r.value.requested in store.teams && store.MayActFor(r.value.requested, user)
  {
    if requestId !in store.requests || store.requests[requestId].status != RequestPending then Err(NotPendingRequest)
    else if ActorTeam(store, user) != Some(store.requests[requestId].requested) then Err(NotRequestedTeam)
    else Ok(store.requests[requestId])
  }

  /** The accept button: the shared checks, then the same clash test as the
      request, on the request's own table and slot. */
  function AcceptGuard(store: Store, requestId: int, user: UserId): (r: Result<FriendlyRequest, ResolveRefusal>)
    reads store
    requires store.Valid()
    ensures r.Ok? <==> (ResolveGuard(store, requestId, user).Ok?
                        && !SlotClash(store.matches, store.requests[requestId].table, store.requests[requestId].slot,
                                      store.requests[requestId].requester, store.requests[requestId].requested))
    ensures r.Ok? ==> r == ResolveGuard(store, requestId, user)
  {
    match ResolveGuard(store, requestId, user)
    case Err(e) => Err(e)
    case Ok(q) =>
      if SlotClash(store.matches, q.table, q.slot, q.requester, q.requested) then Err(TeamsBusyAtSlot)
      else Ok(q)
  }

  /** `ConfirmAmistosoView.accept`: on success the request is accepted and the
      friendly is stored; the slot's availability flag is left as it was.
      Afterwards the slot clashes for both teams and the request can be
      neither accepted nor rejected again. */
  method AcceptFriendly(store: Store, requestId: int, user: UserId) returns (r: Result<FriendlyMatch, ResolveRefusal>)
    requires store.Valid()
    modifies store`requests, store`matches, store`nextMatchId
    ensures store.Valid()
    ensures old(AcceptGuard(store, requestId, user)).Err? ==>
      && r == Err(old(AcceptGuard(store, requestId, user)).error)
      && store.requests == old(store.requests) && store.matches == old(store.matches)
      && store.nextMatchId == old(store.nextMatchId)
    ensures old(AcceptGuard(store, requestId, user)).Ok? ==> var q := old(store.requests)[requestId];
      && r == Ok(FriendlyMatch(q.requester, q.requested, q.slot, q.table))
      && store.requests == old(store.requests)[requestId := q.(status := RequestAccepted)]
      && store.matches == old(store.matches)[old(store.nextMatchId) := r.value]
      && old(store.nextMatchId) !in old(store.matches)
      && store.nextMatchId == old(store.nextMatchId) + 1
    ensures old(NoTeamDoubleBooked(store.matches)) ==> NoTeamDoubleBooked(store.matches)
    ensures r.Ok? ==> SlotClash(store.matches, r.value.table, r.value.slot, r.value.team1, r.value.team2)
    ensures r.Ok? ==> SlotClash(store.matches, r.value.table, r.value.slot, r.value.team2, r.value.team1)
    ensures r.Ok? ==> forall u :: AcceptGuard(store, requestId, u) == Err(NotPendingRequest)
  {
    var g := AcceptGuard(store, requestId, user);
    if g.Err? {
      return Err(g.error);
    }
    var q := g.value;
    ghost var before := store.matches;
    store.UpdateRequestStatus(requestId, RequestAccepted, user);
    var id := store.nextMatchId;
    var _ := store.AddFriendlyMatch(q.requester, q.requested, q.slot, q.table);
    r := Ok(FriendlyMatch(q.requester, q.requested, q.slot, q.table));
    assert store.matches[id] == r.value;
    if NoTeamDoubleBooked(before) {
      UnclashedKeepsTeamsApart(before, id, r.value);
    }
  }

  /** Two requests of the same slot of the same table, between four
      different teams, both passing the accept button's checks. */
  ghost predicate DisjointAcceptable(store: Store, id1: int, u1: UserId, id2: int, u2: UserId)
    reads store
    requires store.Valid()
  {
    && id1 != id2 && AcceptGuard(store, id1, u1).Ok? && AcceptGuard(store, id2, u2).Ok?
    && var q1, q2 := store.requests[id1], store.requests[id2];
    && q1.table == q2.table && q1.slot == q2.slot
    && q1.requester != q2.requester && q1.requester != q2.requested
    && q1.requested != q2.requester && q1.requested != q2.requested
  }

  /** Accepting the first of two such requests leaves the second acceptable. */
  method AcceptFirstOfDisjoint(store: Store, id1: int, u1: UserId, id2: int, u2: UserId)
    returns (first: Result<FriendlyMatch, ResolveRefusal>)
    requires store.Valid() && DisjointAcceptable(store, id1, u1, id2, u2)
    modifies store`requests, store`matches, store`nextMatchId
    ensures store.Valid()
    ensures first.Ok? && first.value.table == old(store.requests[id2]).table && first.value.slot == old(store.requests[id2]).slot
    ensures store.matches == old(store.matches)[old(store.nextMatchId) := first.value]
    ensures store.nextMatchId == old(store.nextMatchId) + 1
    ensures old(NoTeamDoubleBooked(store.matches)) ==> NoTeamDoubleBooked(store.matches)
    ensures AcceptGuard(store, id2, u2).Ok? && store.requests[id2] == old(store.requests[id2])
  {
    var q2 := store.requests[id2];
    ghost var actor := ActorTeam(store, u2);
    ghost var before := store.matches;
    first := AcceptFriendly(store, id1, u1);
    assert ActorTeam(store, u2) == actor;
    assert store.requests[id2] == q2;
    NoClashWithOtherPair(before, old(store.nextMatchId), first.value, q2.table, q2.slot, q2.requester, q2.requested);
  }

  /** The clash test looks only at the two teams of a request, and accepting
      leaves the slot's availability flag as it was. So two requests between
      four different teams for the same slot of the same table can both be
      accepted, one after the other: the slot then holds two friendlies,
      though every team still plays at most one friendly in it. The table
      shows only the later one (`LaterFriendlyHidesEarlier`). */
  method DisjointFriendliesShareSlot(store: Store, id1: int, u1: UserId, id2: int, u2: UserId)
    returns (first: Result<FriendlyMatch, ResolveRefusal>, second: Result<FriendlyMatch, ResolveRefusal>,
             k1: int, k2: int)
    requires store.Valid() && DisjointAcceptable(store, id1, u1, id2, u2)
    modifies store`requests, store`matches, store`nextMatchId
    ensures first.Ok? && second.Ok? && k1 != k2
    ensures k1 in store.matches && store.matches[k1] == first.value
    ensures k2 in store.matches && store.matches[k2] == second.value
    ensures first.value.table == second.value.table && first.value.slot == second.value.slot
    ensures !OneFriendlyPerSlot(store.matches)
    ensures old(NoTeamDoubleBooked(store.matches)) ==> NoTeamDoubleBooked(store.matches)
  {
    k1 := store.nextMatchId;
    first := AcceptFirstOfDisjoint(store, id1, u1, id2, u2);
    k2 := store.nextMatchId;
    second := AcceptFriendly(store, id2, u2);
  }

  /** A friendly between two other teams does not make a slot clash. */
  lemma NoClashWithOtherPair(matches: map<int, FriendlyMatch>, id: int, m: FriendlyMatch,
                             table: int, hour: string, a: TeamId, b: TeamId)
    requires !SlotClash(matches, table, hour, a, b)
    requires !Involves(m, a) && !Involves(m, b)
    ensures !SlotClash(matches[id := m], table, hour, a, b)
  {
  }

  /** `ConfirmAmistosoView.reject`: the shared checks, then the request is
      rejected; no friendly is stored. */
  method RejectFriendly(store: Store, requestId: int, user: UserId) returns (r: Result<FriendlyRequest, ResolveRefusal>)
    requires store.Valid()
    modifies store`requests
    ensures store.Valid()
    ensures old(ResolveGuard(store, requestId, user)).Err? ==>
      r == Err(old(ResolveGuard(store, requestId, user)).error) && store.requests == old(store.requests)
    ensures old(ResolveGuard(store, requestId, user)).Ok? ==> var q := old(store.requests)[requestId];
      && r == Ok(q)
      && store.requests == old(store.requests)[requestId := q.(status := RequestRejected)]
    ensures r.Ok? ==> forall u :: ResolveGuard(store, requestId, u) == Err(NotPendingRequest)
  {
    var g := ResolveGuard(store, requestId, user);
    if g.Err? {
      return Err(g.error);
    }
    store.UpdateRequestStatus(requestId, RequestRejected, user);
    r := g;
  }
}
