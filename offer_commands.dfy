/** The transfer-offer commands of Cogs/LeagueCog.py: the accept and reject
    buttons of an offer, `cancelaroferta`, `ofertarcontrato` and
    `pagarclausula`. Each guard chain is a function from the store and the
    inputs to a refusal or to what the command writes; the command methods
    apply it through the store methods. */
module OfferCommands {
  import opened LeagueTypes
  import opened LeagueRows
  import opened Ledger
  import opened LeagueStore

  /** `check_ban`, as the command layer calls it: the user is a registered
      player who is banned. */
  function IsBanned(store: Store, user: UserId): (r: bool)
    reads store
    requires store.Valid()
    ensures r <==> exists n :: n in store.players && store.players[n].userId == user && store.players[n].banned
  {
    match store.PlayerNameOf(user)
    case None => false
    case Some(n) => store.players[n].banned
  }

  /** Why an offer command refuses. */
  datatype OfferRefusal =
    | Banned
    | OfferNotOpen
    | NotTargetPlayer
    | InsufficientFunds
    | NotOwner
    | NotManager
    | NonPositiveTerms
    | NotRegistered
    | AlreadyOffered
    | NoClause
    | AlreadyOnTeam

  /** The guard chain of `OfferView.accept`: the user is not banned, the
      offer exists and is open, and the user is the player it is for. */
  function AcceptOfferGuard(store: Store, offerId: OfferId, user: UserId): (r: Result<Offer, OfferRefusal>)
    reads store
    requires store.Valid()
    ensures r.Ok? <==> && !IsBanned(store, user)
                       && offerId in store.offers && store.offers[offerId].status.IsOpen()
                       && store.PlayerNameOf(user) == Some(store.offers[offerId].playerName)
    ensures r.Ok? ==> r.value == store.offers[offerId] && r.value.playerName in store.players
    ensures IsBanned(store, user) ==> r == Err(Banned)
  {
    if IsBanned(store, user) then Err(Banned)
    else if offerId !in store.offers || !store.offers[offerId].status.IsOpen() then Err(OfferNotOpen)
    else if store.PlayerNameOf(user) != Some(store.offers[offerId].playerName) then Err(NotTargetPlayer)
    else Ok(store.offers[offerId])
  }

  /** What the accept button ends with. On the contract path
      `accept_offer` returns nothing, which the button reads as a failure:
      the player is signed but the reply is the error message. */
  datatype AcceptReply =
    | Refused(reason: OfferRefusal)
    | ClauseTransferAccepted
    | ContractSignedReportedAsError

  /** `OfferView.accept`. `clausePath` is the view's `is_clause_payment` flag.
      After any reply other than a refusal the offer is accepted, so no user
      can accept it again: the clause price is debited at most once per offer. */
  method AcceptOfferCommand(store: Store, offerId: OfferId, user: UserId, clausePath: bool) returns (reply: AcceptReply)
    requires store.Valid()
    modifies store`players, store`offers, store`balances
    ensures store.Valid()
    ensures old(AcceptOfferGuard(store, offerId, user)).Err? ==>
      && reply == Refused(old(AcceptOfferGuard(store, offerId, user)).error)
      && store.players == old(store.players) && store.offers == old(store.offers)
      && store.balances == old(store.balances)
    ensures old(AcceptOfferGuard(store, offerId, user)).Ok? && clausePath ==> var o := old(store.offers)[offerId];
      if Balance(old(store.balances), o.toTeam) < o.price then
        && reply == Refused(InsufficientFunds)
        && store.players == old(store.players) && store.offers == old(store.offers)
        && store.balances == old(store.balances)
      else
        && reply == ClauseTransferAccepted
        && store.balances == Settle(old(store.balances), o.toTeam, o.fromTeam, o.price)
        && store.players == old(store.players)[o.playerName := Bought(old(store.players)[o.playerName], o.toTeam)]
        && store.offers == old(store.offers)[offerId := o.(status := Accepted)]
    ensures old(AcceptOfferGuard(store, offerId, user)).Ok? && !clausePath ==> var o := old(store.offers)[offerId];
      && reply == ContractSignedReportedAsError
      && store.balances == old(store.balances)
      && store.players == old(store.players)[o.playerName := Signed(old(store.players)[o.playerName], o)]
      && store.offers == old(store.offers)[offerId := o.(status := Accepted)]
    ensures !reply.Refused? ==> forall u :: AcceptOfferGuard(store, offerId, u).Err?
  {
    var g := AcceptOfferGuard(store, offerId, user);
    if g.Err? {
      return Refused(g.error);
    }
    if clausePath {
      var ok := store.AcceptClausePayment(offerId);
      reply := if ok then ClauseTransferAccepted else Refused(InsufficientFunds);
    } else {
      store.AcceptOffer(offerId);
      reply := ContractSignedReportedAsError;
    }
  }

  /** The guard chain of `OfferView.reject`: the user is not banned and the
      offer exists and is open. It does not check that the user is the
      player the offer is for. */
  function RejectOfferGuard(store: Store, offerId: OfferId, user: UserId): (r: Result<Offer, OfferRefusal>)
    reads store
    requires store.Valid()
    ensures r.Ok? <==> !IsBanned(store, user) && offerId in store.offers && store.offers[offerId].status.IsOpen()
    ensures r.Ok? ==> r.value == store.offers[offerId]
    ensures AcceptOfferGuard(store, offerId, user).Ok? ==> r.Ok?
  {
    if IsBanned(store, user) then Err(Banned)
    else if offerId !in store.offers || !store.offers[offerId].status.IsOpen() then Err(OfferNotOpen)
    else Ok(store.offers[offerId])
  }

  /** `OfferView.reject`: an open offer is rejected and nothing else changes. */
  method RejectOfferCommand(store: Store, offerId: OfferId, user: UserId) returns (r: Result<Offer, OfferRefusal>)
    requires store.Valid()
    modifies store`offers
    ensures store.Valid()
    ensures r == old(RejectOfferGuard(store, offerId, user))
    ensures r.Err? ==> store.offers == old(store.offers)
    ensures r.Ok? ==> store.offers == old(store.offers)[offerId := r.value.(status := Rejected)]
    ensures r.Ok? ==> forall u :: RejectOfferGuard(store, offerId, u).Err? && AcceptOfferGuard(store, offerId, u).Err?
  {
    r := RejectOfferGuard(store, offerId, user);
    if r.Ok? {
      store.RejectOffer(offerId);
    }
  }

  /** The guard chain of `cancelaroferta`: the offer exists and was sent by
      the user, and it is still open. No ban check. */
  function CancelOfferGuard(store: Store, offerId: OfferId, user: UserId): (r: Result<Offer, OfferRefusal>)
    reads store
    ensures r.Ok? <==> && offerId in store.offers && store.offers[offerId].fromManager == user
                       && store.offers[offerId].status.IsOpen()
    ensures r.Ok? ==> r.value == store.offers[offerId]
    ensures offerId !in store.offers || store.offers[offerId].fromManager != user ==> r == Err(NotOwner)
  {
    if offerId !in store.offers || store.offers[offerId].fromManager != user then Err(NotOwner)
    else if !store.offers[offerId].status.IsOpen() then Err(OfferNotOpen)
    else Ok(store.offers[offerId])
  }

  /** `cancelaroferta`: the sender of an open offer cancels it, through
      `update_offer_status` with the status "cancelled". */
  method CancelOfferCommand(store: Store, offerId: OfferId, user: UserId) returns (r: Result<Offer, OfferRefusal>)
    requires store.Valid()
    modifies store`offers
    ensures store.Valid()
    ensures r == old(CancelOfferGuard(store, offerId, user))
    ensures r.Err? ==> store.offers == old(store.offers)
    ensures r.Ok? ==> store.offers == old(store.offers)[offerId := r.value.(status := Cancelled)]
    ensures r.Ok? ==> forall u :: CancelOfferGuard(store, offerId, u).Err? && AcceptOfferGuard(store, offerId, u).Err?
  {
    r := CancelOfferGuard(store, offerId, user);
    if r.Ok? {
      var _ := store.UpdateOfferStatus(offerId, "cancelled");
    }
  }

  /** The guard chain of `ofertarcontrato`: the target is not banned, the
      user manages a team, clause and duration are positive, the target is a
      registered player, and the user has no open offer for them. On success,
      the offer to create: from the player's team (none when it is 0 or
      missing) to the user's team, priced at the clause. */
  function ContractOfferGuard(store: Store, user: UserId, target: UserId, clause: int, duration: int)
    : (r: Result<Offer, OfferRefusal>)
    reads store
    requires store.Valid()
    ensures r.Ok? <==> && !IsBanned(store, target) && store.ManagedTeam(user).Some?
                       && clause > 0 && duration > 0 && store.PlayerNameOf(target).Some?
                       && !store.HasPendingOffer(user, target)
    ensures r.Ok? ==> && Some(r.value.playerName) == store.PlayerNameOf(target)
                      && r.value.fromTeam == Truthy(store.players[r.value.playerName].team)
                      && Some(r.value.toTeam) == store.ManagedTeam(user)
                      && r.value == Offer(r.value.playerName, r.value.fromTeam, r.value.toTeam, user, clause, Pending,
                                          Some(duration), Some(clause))
  {
    if IsBanned(store, target) then Err(Banned)
    else match store.ManagedTeam(user)
      case None => Err(NotManager)
      case Some(team) =>
        if clause <= 0 || duration <= 0 then Err(NonPositiveTerms)
        else match store.PlayerNameOf(target)
          case None => Err(NotRegistered)
          case Some(name) =>
            if store.HasPendingOffer(user, target) then Err(AlreadyOffered)
            else Ok(Offer(name, Truthy(store.players[name].team), team, user, clause, Pending, Some(duration), Some(clause)))
  }

  /** No manager has two open offers for the same player. */
  ghost predicate OneOpenOfferPerPair(offers: map<OfferId, Offer>)
  {
    forall i, j ::
      (&& i in offers && j in offers && offers[i].status.IsOpen() && offers[j].status.IsOpen()
       && offers[i].fromManager == offers[j].fromManager && offers[i].playerName == offers[j].playerName)
      ==> i == j
  }

  /** `ofertarcontrato`: a refused offer creates nothing; an accepted one is
      stored as pending under a fresh id (the store never answers -1 here,
      since the terms are positive). The command keeps at most one open
      offer per manager and player. */
  method ContractOfferCommand(store: Store, user: UserId, target: UserId, clause: int, duration: int)
    returns (r: Result<OfferId, OfferRefusal>)
    requires store.Valid()
    modifies store`offers, store`nextOfferId
    ensures store.Valid()
    ensures old(ContractOfferGuard(store, user, target, clause, duration)).Err? ==>
      && r == Err(old(ContractOfferGuard(store, user, target, clause, duration)).error)
      && store.offers == old(store.offers) && store.nextOfferId == old(store.nextOfferId)
    ensures old(ContractOfferGuard(store, user, target, clause, duration)).Ok? ==>
      && r == Ok(old(store.nextOfferId)) && r.value !in old(store.offers)
      && store.offers == old(store.offers)[r.value := old(ContractOfferGuard(store, user, target, clause, duration)).value]
      && store.nextOfferId == old(store.nextOfferId) + 1
    ensures r.Ok? ==> store.HasPendingOffer(user, target)
    ensures OneOpenOfferPerPair(old(store.offers)) ==> OneOpenOfferPerPair(store.offers)
  {
    var g := ContractOfferGuard(store, user, target, clause, duration);
    if g.Err? {
      return Err(g.error);
    }
    var o := g.value;
    var id := store.CreateTransferOffer(o.playerName, o.fromTeam, o.toTeam, user, clause, duration, clause);
    r := Ok(id);
    assert store.offers[id] == o;
  }

  /** The guard chain of `pagarclausula`: the target is not banned, the user
      manages a team, the target is a registered player with a clause (NULL
      and 0 count as none), and is not already on the user's team. It does
      not look at open offers. On success: the player's name, the buying
      team and the price, which is the player's clause. */
  function ClauseBuyGuard(store: Store, user: UserId, target: UserId): (r: Result<(string, TeamId, int), OfferRefusal>)
    reads store
    requires store.Valid()
    ensures r.Ok? <==> && !IsBanned(store, target) && store.ManagedTeam(user).Some?
                       && store.PlayerNameOf(target).Some?
                       && Truthy(store.players[store.PlayerNameOf(target).value].clause).Some?
                       && store.players[store.PlayerNameOf(target).value].team != store.ManagedTeam(user)
    ensures r.Ok? ==> && Some(r.value.0) == store.PlayerNameOf(target)
                      && Some(r.value.1) == store.ManagedTeam(user)
                      && store.players[r.value.0].clause == Some(r.value.2) && r.value.2 != 0
  {
    if IsBanned(store, target) then Err(Banned)
    else match store.ManagedTeam(user)
      case None => Err(NotManager)
      case Some(team) =>
        match store.PlayerNameOf(target)
        case None => Err(NoClause)
        case Some(name) =>
          match Truthy(store.players[name].clause)
          case None => Err(NoClause)
          case Some(price) =>
            if store.players[name].team == Some(team) then Err(AlreadyOnTeam)
            else Ok((name, team, price))
  }

  /** `pagarclausula`: on success one `bought_clause` offer is stored under a
      fresh id, from the player's current team to the user's team at the
      clause price. No balance changes: the buyer's balance is only checked
      here and debited when the player accepts. */
  method ClauseBuyCommand(store: Store, user: UserId, target: UserId) returns (r: Result<OfferId, OfferRefusal>)
    requires store.Valid()
    modifies store`offers, store`nextOfferId
    ensures store.Valid()
    ensures store.balances == old(store.balances)
    ensures old(ClauseBuyGuard(store, user, target)).Err? ==>
      && r == Err(old(ClauseBuyGuard(store, user, target)).error)
      && store.offers == old(store.offers) && store.nextOfferId == old(store.nextOfferId)
    ensures old(ClauseBuyGuard(store, user, target)).Ok? ==> var (name, team, price) := old(ClauseBuyGuard(store, user, target)).value;
      if Balance(store.balances, team) < price then
        r == Err(InsufficientFunds) && store.offers == old(store.offers) && store.nextOfferId == old(store.nextOfferId)
      else
        && r == Ok(old(store.nextOfferId)) && r.value !in old(store.offers)
        && store.offers == old(store.offers)[r.value := Offer(name, SellerOf(store.players, name), team, user, price,
                                                               BoughtClause, None, None)]
        && store.nextOfferId == old(store.nextOfferId) + 1
  {
    var g := ClauseBuyGuard(store, user, target);
    if g.Err? {
      return Err(g.error);
    }
    var (name, team, price) := g.value;
    var id := store.PayClauseAndTransfer(name, team, price, user);
    r := if id == -1 then Err(InsufficientFunds) else Ok(id);
  }

  /** `pagarclausula` twice in a row, by the same manager for the same player
      whose clause the team can afford: the guard does not look at open
      offers and nothing is debited, so both succeed. Two open
      `bought_clause` offers for one player from one manager exist afterwards,
      and either can later be accepted and debited. */
  method DoubleClausePurchase(store: Store, user: UserId, target: UserId)
    returns (first: Result<OfferId, OfferRefusal>, second: Result<OfferId, OfferRefusal>)
    requires store.Valid() && ClauseBuyGuard(store, user, target).Ok?
    requires Balance(store.balances, ClauseBuyGuard(store, user, target).value.1)
             >= ClauseBuyGuard(store, user, target).value.2
    modifies store`offers, store`nextOfferId
    ensures first.Ok? && second.Ok? && first.value != second.value
    ensures first.value in store.offers && second.value in store.offers
    ensures store.offers[first.value].status == BoughtClause && store.offers[second.value].status == BoughtClause
    ensures store.offers[first.value].fromManager == user == store.offers[second.value].fromManager
    ensures store.offers[first.value].playerName == store.offers[second.value].playerName
    ensures !OneOpenOfferPerPair(store.offers)
  {
    first := ClauseBuyCommand(store, user, target);
    second := ClauseBuyCommand(store, user, target);
  }
}
