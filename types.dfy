/** Row types of the league store: one datatype per table row, plus the
    offer-status vocabulary that database.py accepts. */
module LeagueTypes {

  datatype Option<+T> = None | Some(value: T)

  datatype Result<+T, +E> = Ok(value: T) | Err(error: E)

  /** Discord user identities and SQLite row ids are plain integers. */
  type UserId = int
  type TeamId = int
  type OfferId = int

  /** A nullable integer column read in a Python boolean context:
      both NULL and 0 are false. */
  function Truthy(x: Option<int>): Option<int>
  {
    if x.Some? && x.value != 0 then x else None
  }

  /** A row of `teams`. */
  datatype Team = Team(name: string, manager: Option<UserId>)

  /** A row of `players` (the table is keyed by the player's name). */
  datatype Player = Player(
    userId: UserId,
    team: Option<TeamId>,
    transferable: bool,
    banned: bool,
    duration: Option<int>,
    clause: Option<int>,
    originalClause: Option<int>)

  /** The statuses a transfer offer may carry. */
  datatype OfferStatus = Pending | Accepted | Rejected | Cancelled | Finalized | BoughtClause
  {
    /** An offer still waiting for the player: a contract offer or a paid clause. */
    predicate IsOpen()
    {
      this == Pending || this == BoughtClause
    }
  }

  /** The spelling of each status in the `status` column. */
  function StatusName(s: OfferStatus): string
  {
    match s
    case Pending => "pending"
    case Accepted => "accepted"
    case Rejected => "rejected"
    case Cancelled => "cancelled"
    case Finalized => "finalized"
    case BoughtClause => "bought_clause"
  }

  /** The set of strings `update_offer_status` accepts. */
  const ValidStatuses: set<string> :=
    {"pending", "accepted", "rejected", "cancelled", "finalized", "bought_clause"}

  /** Reads a status string; fails exactly on the strings outside `ValidStatuses`. */
  function ParseStatus(s: string): (r: Option<OfferStatus>)
    ensures r.Some? <==> s in ValidStatuses
    ensures r.Some? ==> StatusName(r.value) == s
  {
    if s == "pending" then Some(Pending)
    else if s == "accepted" then Some(Accepted)
    else if s == "rejected" then Some(Rejected)
    else if s == "cancelled" then Some(Cancelled)
    else if s == "finalized" then Some(Finalized)
    else if s == "bought_clause" then Some(BoughtClause)
    else None
  }

  /** Every status is written as a string that reads back as that status. */
  lemma StatusNameRoundTrip(s: OfferStatus)
    ensures StatusName(s) in ValidStatuses
    ensures ParseStatus(StatusName(s)) == Some(s)
  {
  }

  /** A row of `transfer_offers`. `to_manager_id` is left out: no operation of
      the store ever writes it. */
  datatype Offer = Offer(
    playerName: string,
    fromTeam: Option<TeamId>,
    toTeam: TeamId,
    fromManager: UserId,
    price: int,
    status: OfferStatus,
    duration: Option<int>,
    clause: Option<int>)

  /** A row of `team_captains`; the pair is the primary key. */
  datatype Captaincy = Captaincy(team: TeamId, captain: UserId)

  /** Statuses of a friendly request (`solicitudes_amistosos`). */
  datatype RequestStatus = RequestPending | RequestAccepted | RequestRejected

  /** A row of `solicitudes_amistosos`: requesting team, requested team, slot label
      and the friendly table it was made against. */
  datatype FriendlyRequest = FriendlyRequest(
    requester: TeamId,
    requested: TeamId,
    slot: string,
    table: int,
    status: RequestStatus)

  /** A row of `amistosos`: a scheduled friendly. */
  datatype FriendlyMatch = FriendlyMatch(team1: TeamId, team2: TeamId, slot: string, table: int)

  /** A time slot of a friendly table: its hour label ("20:30") and its availability flag. */
  datatype Slot = Slot(hour: string, available: bool)

  /** A friendly table: its id and its slots in the order the store lists them. */
  datatype FriendlyTable = FriendlyTable(id: int, slots: seq<Slot>)
}
