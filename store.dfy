/** The league store of database.py: one field per SQL table, one method per
    store function. Each method is one atomic step; the row updates it applies
    are the functions of LeagueRows and Ledger. */
module LeagueStore {
  import opened LeagueTypes
  import opened LeagueRows
  import opened Ledger

  /** The lowest team id in [from, bound) whose row satisfies `p`: the row a
      `SELECT ... fetchone()` over `teams` returns when several rows match
      (SQLite scans the table in id order). */
  function LowestTeam(teams: map<TeamId, Team>, p: (TeamId, Team) -> bool, from: int, bound: int): (r: Option<TeamId>)
    ensures r.Some? ==> from <= r.value < bound && r.value in teams && p(r.value, teams[r.value])
    ensures r.Some? ==> forall t :: from <= t < r.value && t in teams ==> !p(t, teams[t])
    ensures r.None? ==> forall t :: from <= t < bound && t in teams ==> !p(t, teams[t])
    decreases bound - from
  {
    if from >= bound then None
    else if from in teams && p(from, teams[from]) then Some(from)
    else LowestTeam(teams, p, from + 1, bound)
  }

  /** No two teams share a name (`name TEXT UNIQUE`). */
  ghost predicate UniqueNames(teams: map<TeamId, Team>)
  {
    forall a, b :: a in teams && b in teams && teams[a].name == teams[b].name ==> a == b
  }

  /** No two players share a Discord user (`user_id INTEGER UNIQUE`). */
  ghost predicate UniqueUsers(players: map<string, Player>)
  {
    forall a, b :: a in players && b in players && players[a].userId == players[b].userId ==> a == b
  }

  /** The `transfer_offers` table after `DELETE ... WHERE from_team_id = t OR
      to_team_id = t`. */
  function OffersWithout(offers: map<OfferId, Offer>, t: TeamId): (r: map<OfferId, Offer>)
    ensures forall o :: o in r <==> o in offers && offers[o].fromTeam != Some(t) && offers[o].toTeam != t
    ensures forall o :: o in r ==> r[o] == offers[o]
  {
    map o | o in offers && offers[o].fromTeam != Some(t) && offers[o].toTeam != t :: offers[o]
  }

  /** The `players` table after the first write of `delete_team`: every player
      of team `t` is freed and taken off the market, everyone else is untouched. */
  function ReleaseTeam(players: map<string, Player>, t: TeamId): (r: map<string, Player>)
    ensures r.Keys == players.Keys
    ensures forall n :: n in r ==> r[n].team != Some(t)
    ensures forall n :: n in players && players[n].team == Some(t) ==> r[n] == FreedByDeletion(players[n])
    ensures forall n :: n in players && players[n].team != Some(t) ==> r[n] == players[n]
  {
    map n | n in players :: if players[n].team == Some(t) then FreedByDeletion(players[n]) else players[n]
  }

  /** The `players` table after `advance_season`. */
  function EndSeason(players: map<string, Player>): (r: map<string, Player>)
    ensures r.Keys == players.Keys
    ensures forall n :: n in players ==> r[n] == SeasonEnd(players[n])
  {
    map n | n in players :: SeasonEnd(players[n])
  }

  /** A season change keeps every player's user id, so user ids stay unique. */
  lemma EndSeasonKeepsUsers(players: map<string, Player>)
    requires UniqueUsers(players)
    ensures UniqueUsers(EndSeason(players))
  {
    forall n | n in players
      ensures EndSeason(players)[n].userId == players[n].userId
    {
      SeasonEndOnlyReleases(players[n]);
    }
  }

  /** The team a clause purchase takes the player from: the player's team,
      or none when the player is unknown or has no (or a zero) team id. */
  function SellerOf(players: map<string, Player>, name: string): (r: Option<TeamId>)
    ensures r.Some? ==> name in players && players[name].team == r && r.value != 0
    ensures name in players && players[name].team.Some? && players[name].team.value != 0 ==> r == players[name].team
  {
    if name in players then Truthy(players[name].team) else None
  }

  class Store {
    var teams: map<TeamId, Team>
    var players: map<string, Player>
    var offers: map<OfferId, Offer>
    var balances: map<TeamId, int>
    var captains: set<Captaincy>
    var requests: map<int, FriendlyRequest>
    var matches: map<int, FriendlyMatch>
    /** The AUTOINCREMENT counters: the id the next successful insert gets. */
    var nextTeamId: int
    var nextOfferId: int
    var nextRequestId: int
    var nextMatchId: int

    /** Ids are handed out from 1 upwards and never reused, every team has
        exactly one balance row, and the UNIQUE columns hold. */
    ghost predicate Valid()
      reads this
    {
      && 1 <= nextTeamId && 1 <= nextOfferId && 1 <= nextRequestId && 1 <= nextMatchId
      && (forall t :: t in teams ==> 1 <= t < nextTeamId)
      && balances.Keys == teams.Keys
      && (forall o :: o in offers ==> 1 <= o < nextOfferId)
      && (forall q :: q in requests ==> 1 <= q < nextRequestId)
      && (forall a :: a in matches ==> 1 <= a < nextMatchId)
      && UniqueNames(teams)
      && UniqueUsers(players)
    }

    /** A fresh, empty database. */
    constructor ()
      ensures Valid()
      ensures teams == map[] && players == map[] && offers == map[] && balances == map[]
      ensures captains == {} && requests == map[] && matches == map[]
    {
      teams, players, offers, balances := map[], map[], map[], map[];
      captains, requests, matches := {}, map[], map[];
      nextTeamId, nextOfferId, nextRequestId, nextMatchId := 1, 1, 1, 1;
    }

    /** `get_team_by_manager`: the first team managed by `user`. */
    function ManagedTeam(user: UserId): (r: Option<TeamId>)
      reads this
      requires Valid()
      ensures r.Some? ==> r.value in teams && teams[r.value].manager == Some(user)
      ensures r.None? <==> forall t :: t in teams ==> teams[t].manager != Some(user)
      ensures r.Some? ==> forall t :: t in teams && t < r.value ==> teams[t].manager != Some(user)
    {
      LowestTeam(teams, (id: TeamId, t: Team) => t.manager == Some(user), 1, nextTeamId)
    }

    /** `get_team_by_captain`: the first team that has `user` among its captains. */
    function CaptainedTeam(user: UserId): (r: Option<TeamId>)
      reads this
      requires Valid()
      ensures r.Some? ==> r.value in teams && Captaincy(r.value, user) in captains
      ensures r.None? <==> forall t :: t in teams ==> Captaincy(t, user) !in captains
    {
      var caps := captains;
      LowestTeam(teams, (id: TeamId, t: Team) => Captaincy(id, user) in caps, 1, nextTeamId)
    }

    /** `get_team_by_name`: the team with that name, if any. */
    function TeamNamed(name: string): (r: Option<TeamId>)
      reads this
      requires Valid()
      ensures r.Some? ==> r.value in teams && teams[r.value].name == name
      ensures r.None? <==> forall t :: t in teams ==> teams[t].name != name
    {
      LowestTeam(teams, (id: TeamId, t: Team) => t.name == name, 1, nextTeamId)
    }

    /** `get_player_by_id`: the name of the player registered for `user`. */
    function PlayerNameOf(user: UserId): (r: Option<string>)
      reads this
      requires Valid()
      ensures r.Some? ==> r.value in players && players[r.value].userId == user
      ensures r.None? <==> forall n :: n in players ==> players[n].userId != user
    {
      if exists n :: n in players && players[n].userId == user then
        var n :| n in players && players[n].userId == user; Some(n)
      else None
    }

    /** `is_captain`: `user` is among the captains listed for `team`. */
    function IsCaptain(team: TeamId, user: UserId): (r: bool)
      reads this
      ensures r <==> exists c :: c in captains && c.team == team && c.captain == user
    {
      Captaincy(team, user) in captains
    }

    /** The check of `add_solicitud_amistoso` and `update_solicitud_status`:
        `user` manages or captains `team`. */
    predicate MayActFor(team: TeamId, user: UserId)
      reads this
      requires team in teams
    {
      teams[team].manager == Some(user) || IsCaptain(team, user)
    }

    /** `get_club_balance`. */
    function ClubBalance(team: TeamId): (b: int)
      reads this
      requires Valid()
      ensures team !in teams ==> b == 0
      ensures team in teams ==> b == balances[team]
    {
      Balance(balances, team)
    }

    /** `has_pending_offer`: some contract offer or paid clause from `manager`
        for the player registered as `user` is still open; false when `user`
        is not a registered player. */
    function HasPendingOffer(manager: UserId, user: UserId): (r: bool)
      reads this
      requires Valid()
      ensures r <==> (exists n, id :: n in players && players[n].userId == user && id in offers
                        && offers[id].fromManager == manager && offers[id].playerName == n
                        && offers[id].status.IsOpen())
      ensures (forall n :: n in players ==> players[n].userId != user) ==> !r
    {
      match PlayerNameOf(user)
      case None => false
      case Some(n) =>
        exists id :: id in offers && offers[id].fromManager == manager && offers[id].playerName == n
          && offers[id].status.IsOpen()
    }

    /** `add_team`: refused for an empty name, for a manager (other than none
        or 0) who already manages a team, and for a name in use; otherwise the
        team gets the next id and a balance row of 0. */
    method AddTeam(name: string, manager: Option<UserId>) returns (ok: bool)
      requires Valid()
      modifies this`teams, this`balances, this`nextTeamId
      ensures Valid()
      ensures ok <==> (name != "" && (Truthy(manager).None? || old(ManagedTeam(manager.value)).None?)
                       && old(TeamNamed(name)).None?)
      ensures ok ==> (teams == old(teams)[old(nextTeamId) := Team(name, manager)]
                      && balances == old(balances)[old(nextTeamId) := 0] && nextTeamId == old(nextTeamId) + 1)
      ensures ok ==> old(nextTeamId) !in old(teams)
      ensures !ok ==> teams == old(teams) && balances == old(balances) && nextTeamId == old(nextTeamId)
    {
      if name == "" {
        return false;
      }
      if Truthy(manager).Some? && ManagedTeam(manager.value).Some? {
        return false;
      }
      if TeamNamed(name).Some? {
        return false;
      }
      var id := nextTeamId;
      teams := teams[id := Team(name, manager)];
      balances := balances[id := 0];
      nextTeamId := id + 1;
      ok := true;
    }

    /** `delete_team`: for a known name, its players are freed and taken off
        the market, every offer from or to it is deleted, and its balance row
        and team row are deleted. Captains, friendly requests and friendlies
        are left as they are. An unknown name changes nothing. */
    method DeleteTeam(name: string) returns (ok: bool)
      requires Valid()
      modifies this`teams, this`players, this`offers, this`balances
      ensures Valid()
      ensures ok <==> old(TeamNamed(name)).Some?
      ensures !ok ==> teams == old(teams) && players == old(players) && offers == old(offers) && balances == old(balances)
      ensures ok ==> var t := old(TeamNamed(name)).value;
        && teams == old(teams) - {t}
        && balances == old(balances) - {t}
        && offers == OffersWithout(old(offers), t)
        && players == ReleaseTeam(old(players), t)
    {
      var found := TeamNamed(name);
      if found.None? {
        return false;
      }
      var t := found.value;
      players := ReleaseTeam(players, t);
      offers := OffersWithout(offers, t);
      balances := balances - {t};
      teams := teams - {t};
      ok := true;
    }

    /** `add_player`: refused when the name or the user is already registered. */
    method AddPlayer(name: string, user: UserId, team: Option<TeamId>) returns (ok: bool)
      requires Valid()
      modifies this`players
      ensures Valid()
      ensures ok <==> name !in old(players) && old(PlayerNameOf(user)).None?
      ensures players == if ok then old(players)[name := Player(user, team, false, false, None, None, None)]
        else old(players)
    {
      if name in players || PlayerNameOf(user).Some? {
        return false;
      }
      players := players[name := Player(user, team, false, false, None, None, None)];
      ok := true;
    }

    /** `ban_player`. */
    method BanPlayer(name: string)
      requires Valid()
      modifies this`players
      ensures Valid()
      ensures players == if name in old(players) then old(players)[name := old(players)[name].(banned := true)]
        else old(players)
    {
      if name in players {
        players := players[name := players[name].(banned := true)];
      }
    }

    /** `unban_player`. */
    method UnbanPlayer(name: string)
      requires Valid()
      modifies this`players
      ensures Valid()
      ensures players == if name in old(players) then old(players)[name := old(players)[name].(banned := false)]
        else old(players)
    {
      if name in players {
        players := players[name := players[name].(banned := false)];
      }
    }

    /** `remove_player_from_team`: true exactly when the player exists. */
    method RemovePlayerFromTeam(name: string) returns (ok: bool)
      requires Valid()
      modifies this`players
      ensures Valid()
      ensures ok <==> name in old(players)
      ensures players == if ok then old(players)[name := Freed(old(players)[name])] else old(players)
    {
      ok := name in players;
      if ok {
        players := players[name := Freed(players[name])];
      }
    }

    /** `add_captain`: refused for a pair already present. */
    method AddCaptain(team: TeamId, captain: UserId) returns (ok: bool)
      requires Valid()
      modifies this`captains
      ensures Valid()
      ensures ok <==> Captaincy(team, captain) !in old(captains)
      ensures captains == old(captains) + {Captaincy(team, captain)}
    {
      ok := Captaincy(team, captain) !in captains;
      captains := captains + {Captaincy(team, captain)};
    }

    /** `remove_captain`: true exactly when the pair was present. */
    method RemoveCaptain(team: TeamId, captain: UserId) returns (ok: bool)
      requires Valid()
      modifies this`captains
      ensures Valid()
      ensures ok <==> Captaincy(team, captain) in old(captains)
      ensures captains == old(captains) - {Captaincy(team, captain)}
    {
      ok := Captaincy(team, captain) in captains;
      captains := captains - {Captaincy(team, captain)};
    }

    /** `set_player_transferable`: true exactly when the player exists. */
    method SetPlayerTransferable(name: string, newClause: Option<int>) returns (ok: bool)
      requires Valid()
      modifies this`players
      ensures Valid()
      ensures ok <==> name in old(players)
      ensures players == if ok then old(players)[name := Listed(old(players)[name], newClause)] else old(players)
    {
      ok := name in players;
      if ok {
        players := players[name := Listed(players[name], newClause)];
      }
    }

    /** `unset_player_transferable`: true exactly when the player exists. */
    method UnsetPlayerTransferable(name: string) returns (ok: bool)
      requires Valid()
      modifies this`players
      ensures Valid()
      ensures ok <==> name in old(players)
      ensures players == if ok then old(players)[name := Unlisted(old(players)[name])] else old(players)
    {
      ok := name in players;
      if ok {
        players := players[name := Unlisted(players[name])];
      }
    }

    /** `create_transfer_offer`: -1 and no insert when price, duration or
        clause is not positive; otherwise one pending offer under a fresh id. */
    method CreateTransferOffer(playerName: string, fromTeam: Option<TeamId>, toTeam: TeamId,
                               fromManager: UserId, price: int, duration: int, clause: int)
      returns (id: OfferId)
      requires Valid()
      modifies this`offers, this`nextOfferId
      ensures Valid()
      ensures price <= 0 || duration <= 0 || clause <= 0 ==>
        id == -1 && offers == old(offers) && nextOfferId == old(nextOfferId)
      ensures price > 0 && duration > 0 && clause > 0 ==>
        && id == old(nextOfferId) && id >= 1 && id !in old(offers)
        && offers == old(offers)[id := Offer(playerName, fromTeam, toTeam, fromManager, price, Pending,
                                             Some(duration), Some(clause))]
        && nextOfferId == id + 1
    {
      if price <= 0 || duration <= 0 || clause <= 0 {
        return -1;
      }
      id := nextOfferId;
      offers := offers[id := Offer(playerName, fromTeam, toTeam, fromManager, price, Pending, Some(duration), Some(clause))];
      nextOfferId := id + 1;
    }

    /** `update_offer_status`: false for a status outside the valid set;
        otherwise true, and the offer (if it exists) takes the status. */
    method UpdateOfferStatus(id: OfferId, status: string) returns (ok: bool)
      requires Valid()
      modifies this`offers
      ensures Valid()
      ensures ok <==> status in ValidStatuses
      ensures ok && id in old(offers) ==>
        offers == old(offers)[id := old(offers)[id].(status := ParseStatus(status).value)]
        && StatusName(offers[id].status) == status
      ensures !ok || id !in old(offers) ==> offers == old(offers)
    {
      var parsed := ParseStatus(status);
      if parsed.None? {
        return false;
      }
      if id in offers {
        offers := offers[id := offers[id].(status := parsed.value)];
      }
      ok := true;
    }

    /** `accept_offer`: the player joins the offering team on the offer's
        contract and the offer is accepted. The status is not checked, no
        balance moves, and nothing is returned. */
    method AcceptOffer(id: OfferId)
      requires Valid()
      modifies this`players, this`offers
      ensures Valid()
      ensures id !in old(offers) ==> players == old(players) && offers == old(offers)
      ensures id in old(offers) ==> var o := old(offers)[id];
        && offers == old(offers)[id := o.(status := Accepted)]
        && players == if o.playerName in old(players)
                      then old(players)[o.playerName := Signed(old(players)[o.playerName], o)]
                      else old(players)
    {
      if id in offers {
        var o := offers[id];
        if o.playerName in players {
          players := players[o.playerName := Signed(players[o.playerName], o)];
        }
        offers := offers[id := o.(status := Accepted)];
      }
    }

    /** `reject_offer`. */
    method RejectOffer(id: OfferId)
      requires Valid()
      modifies this`offers
      ensures Valid()
      ensures offers == if id in old(offers) then old(offers)[id := old(offers)[id].(status := Rejected)]
        else old(offers)
    {
      if id in offers {
        offers := offers[id := offers[id].(status := Rejected)];
      }
    }

    /** `accept_clause_payment`: false, with nothing changed, for an unknown
        offer or a buyer whose balance (0 without a row) is below the price.
        Otherwise the buyer pays the seller, the player joins the buyer and the
        offer is accepted. The status is not checked. */
    method AcceptClausePayment(id: OfferId) returns (ok: bool)
      requires Valid()
      modifies this`balances, this`players, this`offers
      ensures Valid()
      ensures ok <==> id in old(offers) && Balance(old(balances), old(offers)[id].toTeam) >= old(offers)[id].price
      ensures !ok ==> balances == old(balances) && players == old(players) && offers == old(offers)
      ensures ok ==> var o := old(offers)[id];
        && balances == Settle(old(balances), o.toTeam, o.fromTeam, o.price)
        && offers == old(offers)[id := o.(status := Accepted)]
        && players == if o.playerName in old(players)
                      then old(players)[o.playerName := Bought(old(players)[o.playerName], o.toTeam)]
                      else old(players)
      ensures ok ==> var o := old(offers)[id];
        Truthy(o.fromTeam) != Some(o.toTeam) || o.price >= 0 ==> Balance(balances, o.toTeam) >= 0
      ensures ok ==> var o := old(offers)[id];
        o.toTeam in old(teams) && Truthy(o.fromTeam).Some? && Truthy(o.fromTeam).value in old(teams) ==>
        Total(balances) == Total(old(balances))
    {
      if id !in offers {
        return false;
      }
      var o := offers[id];
      if Balance(balances, o.toTeam) < o.price {
        return false;
      }
      ghost var before := balances;
      // The debit of the buyer, then the credit of the seller when there is one.
      balances := Settle(balances, o.toTeam, o.fromTeam, o.price);
      if Truthy(o.fromTeam) != Some(o.toTeam) || o.price >= 0 {
        SettleSolvent(before, o.toTeam, o.fromTeam, o.price);
      }
      if o.toTeam in before && (Truthy(o.fromTeam).Some? ==> Truthy(o.fromTeam).value in before) {
        SettleConserves(before, o.toTeam, o.fromTeam, o.price);
      }
      if o.playerName in players {
        players := players[o.playerName := Bought(players[o.playerName], o.toTeam)];
      }
      offers := offers[id := o.(status := Accepted)];
      ok := true;
    }

    /** `pay_clause_and_transfer`: -1 and no offer when the buyer's balance
        (0 without a row) is below the amount; otherwise one `bought_clause`
        offer from the player's current team, with no contract or clause of
        its own. No balance changes here: the money moves when the player
        accepts. */
    method PayClauseAndTransfer(name: string, toTeam: TeamId, amount: int, fromManager: UserId)
      returns (id: OfferId)
      requires Valid()
      modifies this`offers, this`nextOfferId
      ensures Valid()
      ensures Balance(balances, toTeam) < amount ==>
        id == -1 && offers == old(offers) && nextOfferId == old(nextOfferId)
      ensures Balance(balances, toTeam) >= amount ==>
        && id == old(nextOfferId) && id >= 1 && id !in old(offers)
        && offers == old(offers)[id := Offer(name, SellerOf(players, name), toTeam, fromManager, amount,
                                             BoughtClause, None, None)]
        && nextOfferId == id + 1
    {
      if Balance(balances, toTeam) < amount {
        return -1;
      }
      id := nextOfferId;
      offers := offers[id := Offer(name, SellerOf(players, name), toTeam, fromManager, amount, BoughtClause, None, None)];
      nextOfferId := id + 1;
    }

    /** `advance_season`: the two bulk updates, in order. */
    method AdvanceSeason()
      requires Valid()
      modifies this`players
      ensures Valid()
      ensures players == EndSeason(old(players))
    {
      ghost var before := players;
      players := map n | n in players :: SeasonTick(players[n]);
      players := map n | n in players :: ExpireIfZero(players[n]);
      assert players == EndSeason(before);
      EndSeasonKeepsUsers(before);
    }

    /** `add_money_to_club`: a team without a balance row is not credited. */
    method AddMoneyToClub(team: TeamId, amount: int)
      requires Valid()
      modifies this`balances
      ensures Valid()
      ensures balances == Credit(old(balances), team, amount)
    {
      balances := Credit(balances, team, amount);
    }

    /** `remove_money_from_club`: no floor, the balance may go negative. */
    method RemoveMoneyFromClub(team: TeamId, amount: int)
      requires Valid()
      modifies this`balances
      ensures Valid()
      ensures balances == Credit(old(balances), team, -amount)
      ensures team in balances ==> balances[team] == old(balances)[team] - amount
    {
      balances := Credit(balances, team, -amount);
    }

    /** `add_solicitud_amistoso`: -1 unless `user` manages or captains the
        requesting team; otherwise a pending request under a fresh id. The
        source fails on a requesting team that does not exist. */
    method AddFriendlyRequest(requester: TeamId, requested: TeamId, hour: string, table: int, user: UserId)
      returns (id: int)
      requires Valid()
      requires requester in teams
      modifies this`requests, this`nextRequestId
      ensures Valid()
      ensures !MayActFor(requester, user) ==>
        id == -1 && requests == old(requests) && nextRequestId == old(nextRequestId)
      ensures MayActFor(requester, user) ==>
        && id == old(nextRequestId) && id >= 1 && id !in old(requests)
        && requests == old(requests)[id := FriendlyRequest(requester, requested, hour, table, RequestPending)]
        && nextRequestId == id + 1
    {
      if !MayActFor(requester, user) {
        return -1;
      }
      id := nextRequestId;
      requests := requests[id := FriendlyRequest(requester, requested, hour, table, RequestPending)];
      nextRequestId := id + 1;
    }

    /** `update_solicitud_status`: the request takes the status when it exists
        and `user` manages or captains the requested team; otherwise nothing
        changes. The source fails on a requested team that does not exist. */
    method UpdateRequestStatus(id: int, status: RequestStatus, user: UserId)
      requires Valid()
      requires id in requests ==> requests[id].requested in teams
      modifies this`requests
      ensures Valid()
      ensures id in old(requests) && MayActFor(old(requests)[id].requested, user) ==>
        requests == old(requests)[id := old(requests)[id].(status := status)]
      ensures id !in old(requests) || !MayActFor(old(requests)[id].requested, user) ==>
        requests == old(requests)
    {
      if id !in requests {
        return;
      }
      if !MayActFor(requests[id].requested, user) {
        return;
      }
      requests := requests[id := requests[id].(status := status)];
    }

    /** `add_amistoso`: the friendly is stored under a fresh id; always true. */
    method AddFriendlyMatch(team1: TeamId, team2: TeamId, hour: string, table: int) returns (ok: bool)
      requires Valid()
      modifies this`matches, this`nextMatchId
      ensures Valid()
      ensures ok
      ensures old(nextMatchId) !in old(matches)
      ensures matches == old(matches)[old(nextMatchId) := FriendlyMatch(team1, team2, hour, table)]
      ensures nextMatchId == old(nextMatchId) + 1
    {
      matches := matches[nextMatchId := FriendlyMatch(team1, team2, hour, table)];
      nextMatchId := nextMatchId + 1;
      ok := true;
    }
  }
}
