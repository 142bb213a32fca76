/** The updates that database.py applies to a single `players` row, as
    functions on the row, and what they promise about the contract fields. */
module LeagueRows {
  import opened LeagueTypes

  /** The row after `remove_player_from_team`, and after the release step of
      `advance_season`: no team, no contract, no clause. The market flag and
      the remembered clause stay as they were. */
  function Freed(p: Player): (r: Player)
    ensures r.team.None? && r.duration.None? && r.clause.None?
    ensures r.userId == p.userId && r.banned == p.banned
    ensures r.transferable == p.transferable && r.originalClause == p.originalClause
  {
    p.(team := None, duration := None, clause := None)
  }

  /** The row of a player whose team is deleted: freed and taken off the market. */
  function FreedByDeletion(p: Player): (r: Player)
    ensures r.team.None? && r.duration.None? && r.clause.None? && !r.transferable
    ensures r.userId == p.userId && r.banned == p.banned && r.originalClause == p.originalClause
  {
    Freed(p).(transferable := false)
  }

  /** First bulk update of `advance_season`: a positive contract loses one season. */
  function SeasonTick(p: Player): Player
  {
    if p.duration.Some? && p.duration.value > 0 then p.(duration := Some(p.duration.value - 1)) else p
  }

  /** Second bulk update of `advance_season`: a contract at zero releases the player. */
  function ExpireIfZero(p: Player): Player
  {
    if p.duration == Some(0) then Freed(p) else p
  }

  /** One season change for one row: both bulk updates, in the order they run.
      A contract of one season or of zero seasons ends with the player released;
      a longer one loses a season; a missing or negative one is left alone. */
  function SeasonEnd(p: Player): (r: Player)
    ensures p.duration.None? ==> r == p
    ensures p.duration.Some? && p.duration.value < 0 ==> r == p
    ensures p.duration.Some? && 0 <= p.duration.value <= 1 ==> r == Freed(p)
    ensures p.duration.Some? && p.duration.value > 1 ==> r == p.(duration := Some(p.duration.value - 1))
  {
    ExpireIfZero(SeasonTick(p))
  }

  /** A season change never puts a player on a team or changes anything but
      the contract fields. */
  lemma SeasonEndOnlyReleases(p: Player)
    ensures SeasonEnd(p).team == p.team || SeasonEnd(p).team.None?
    ensures SeasonEnd(p).userId == p.userId && SeasonEnd(p).banned == p.banned
    ensures SeasonEnd(p).transferable == p.transferable
    ensures SeasonEnd(p).originalClause == p.originalClause
  {
  }

  /** A second season change does not touch a player the first one released,
      and the row of a player released by it has no contract left. */
  lemma {:induction false} SeasonEndReleasedStaysReleased(p: Player)
    requires SeasonEnd(p).team.None? && SeasonEnd(p).duration.None?
    ensures SeasonEnd(SeasonEnd(p)) == SeasonEnd(p)
  {
    var q := SeasonEnd(p);
    assert q.duration.None?;
  }

  /** Contract durations only go down: after a season every contract that
      was positive is exactly one season shorter or has been released. */
  lemma SeasonEndShortens(p: Player)
    requires p.duration.Some? && p.duration.value > 0
    ensures SeasonEnd(p).duration.None? || SeasonEnd(p).duration == Some(p.duration.value - 1)
    ensures SeasonEnd(p).duration.None? <==> p.duration.value == 1
  {
  }

  /** The row after `set_player_transferable`: on the market; with a new clause,
      the clause in force is remembered and replaced. */
  function Listed(p: Player, newClause: Option<int>): (r: Player)
    ensures r.transferable
    ensures newClause.None? ==> r.clause == p.clause && r.originalClause == p.originalClause
    ensures newClause.Some? ==> r.clause == newClause && r.originalClause == p.clause
    ensures r.team == p.team && r.duration == p.duration && r.banned == p.banned && r.userId == p.userId
  {
    match newClause
    case None => p.(transferable := true)
    case Some(c) => p.(transferable := true, clause := Some(c), originalClause := p.clause)
  }

  /** The row after `unset_player_transferable`: off the market; a remembered
      clause is put back in force and forgotten. */
  function Unlisted(p: Player): (r: Player)
    ensures !r.transferable && r.originalClause.None?
    ensures r.clause == if p.originalClause.Some? then p.originalClause else p.clause
    ensures r.team == p.team && r.duration == p.duration && r.banned == p.banned && r.userId == p.userId
  {
    if p.originalClause.Some? then p.(transferable := false, clause := p.originalClause, originalClause := None)
    else p.(transferable := false)
  }

  /** Listing a player with a new clause and taking them off the market gives
      back the row they had, with the market flag cleared: the clause they had
      before is in force again. */
  lemma ListThenUnlistRestoresClause(p: Player, c: int)
    requires p.clause.Some? && p.originalClause.None?
    ensures Unlisted(Listed(p, Some(c))) == p.(transferable := false)
  {
  }

  /** Listing without a new clause and unlisting changes nothing but the flag. */
  lemma ListThenUnlistWithoutClause(p: Player)
    requires p.originalClause.None?
    ensures Unlisted(Listed(p, None)) == p.(transferable := false)
  {
  }

  /** When the player had no clause at all, the NULL remembered by the listing
      reads as "nothing remembered": unlisting keeps the market clause. */
  lemma ListThenUnlistKeepsMarketClause(p: Player, c: int)
    requires p.clause.None?
    ensures Unlisted(Listed(p, Some(c))).clause == Some(c)
  {
  }

  /** The row after `accept_offer`: the player joins the offering team on the
      offer's contract. */
  function Signed(p: Player, o: Offer): (r: Player)
    ensures r.team == Some(o.toTeam) && r.duration == o.duration && r.clause == o.clause
    ensures r.transferable == p.transferable && r.originalClause == p.originalClause
    ensures r.banned == p.banned && r.userId == p.userId
  {
    p.(team := Some(o.toTeam), duration := o.duration, clause := o.clause)
  }

  /** The row after `accept_clause_payment`: the player joins the buying team
      and keeps the contract and clause they had. */
  function Bought(p: Player, buyer: TeamId): (r: Player)
    ensures r.team == Some(buyer) && r.duration == p.duration && r.clause == p.clause
    ensures r.transferable == p.transferable && r.originalClause == p.originalClause
    ensures r.banned == p.banned && r.userId == p.userId
  {
    p.(team := Some(buyer))
  }

  /** Signing a listed player keeps the market flag and the clause remembered
      by the listing, so taking the player off the market afterwards replaces
      the new contract's clause by the clause of the old one. */
  lemma SignedThenUnlistedRestoresOldClause(p: Player, c: int, o: Offer)
    requires p.clause.Some? && o.clause != p.clause
    ensures Listed(p, Some(c)).originalClause == p.clause
    ensures Signed(Listed(p, Some(c)), o).transferable
    ensures Unlisted(Signed(Listed(p, Some(c)), o)).clause == p.clause
    ensures Unlisted(Signed(Listed(p, Some(c)), o)).clause != o.clause
  {
  }
}
