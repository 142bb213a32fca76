# League bot core in Dafny

This project models the core of a Discord bot that runs a football league. The core has three parts.

**The league store** (`database.py`) holds:
- teams;
- players, keyed by name, each with a unique Discord user;
- transfer offers;
- club balances;
- team captains;
- friendly requests and friendlies.

`Store` (store.dfy) has one `map`/`set` field per SQL table and one method per store function. Each method states its whole new state. The updates to a single player row (freeing, listing on the market, signing, buying, ending a season) are functions in `LeagueRows` (rows.dfy). The money movements are functions in `Ledger` (ledger.dfy): the balance read, the credit, and the clause settlement.

**The command logic** (`Cogs/LeagueCog.py`) is split across three files:
- **Guard chains.** Each guard chain of a command is a total function from the store and the inputs to a refusal or to what the command writes. The command methods apply that result to the store. The offer guards are in `OfferCommands` (offer_commands.dfy): the accept and reject buttons of an offer, `cancelaroferta`, `ofertarcontrato` and `pagarclausula`. The friendly guards are in `Friendlies` (friendlies.dfy): `registraramistoso` and the accept and reject buttons of a friendly request.
- **Friendly table text.** `generate_amistosos_table` is in `FriendlyTableText` (friendly_table.dfy) as three loops, each proved against a function.
- **Pagination.** The free-agent `PaginationView` is a class with its page arithmetic (pagination.dfy).

**Nicktag selection** (`ocr_utils.py`) is modelled as pure functions in `NickTags` (nicktags.dfy): `normalize_name`, `extract_nicktags` and the three-tier `find_best_nicktag`. The similarity ratio of `fuzzy_match` is a predicate parameter.

**Multi-guild setup.** The store has a single tenant. `Cogs/LeagueCog.py` passes a guild id to every store call. The `database.py` in this repository takes none. A multi-guild deployment is therefore a map from guild id to independent `Store` objects, and nothing here depends on the guild.

**Call mismatches between the two files.** `Cogs/LeagueCog.py` calls `database.py` with arguments that the functions in `database.py` do not take. The model follows one file or the other depending on the area:
- Friendlies follow the command layer. The Cog passes a slot label (`horario`) and a friendly-table id (`tabla_id`) where `add_solicitud_amistoso` and `add_amistoso` take `hora` and `fecha` (database.py:303, 362). So `FriendlyRequest` and `FriendlyMatch` carry a `slot` and a `table`. These fill the `hora` and `fecha` columns (database.py:276-296). The clash tests compare them as the Cog does (Cogs/LeagueCog.py:122-123, 1017-1018).
- The ban test follows the command layer. `IsBanned` models the three-argument `check_ban(interaction, id, guild)` that the Cog calls (Cogs/LeagueCog.py:37, 76, 750, 924). Its test is the one in utils/helpers.py:19-23, which takes two arguments: a registered player whose `banned` flag is set.
- `pay_clause_and_transfer` follows `database.py` (database.py:672). The Cog names its arguments `player_name`, `price` and `manager_id`, where the function names them `name`, `clause_amount` and `from_manager_id`. It also passes `duration` and `new_clause`, which the function does not take (Cogs/LeagueCog.py:938-946). So `ClauseBuyCommand` ignores the new contract terms of `pagarclausula`.
- `add_team` follows `database.py` (database.py:106). The Cog passes a `division` that the function does not take (Cogs/LeagueCog.py:649). `AddTeam` has a name and an optional manager, and no division.
- `create_transfer_offer` follows `database.py`. `ofertarcontrato` handles a `-2` ("market closed") result that `create_transfer_offer` never returns.
- `accept_offer` follows `database.py`. `accept_offer` returns nothing, and the accept button reads that as a failure. So `AcceptOfferCommand` reports the contract path as `ContractSignedReportedAsError`: the player is signed, but the button shows its error message.

**Double clause purchase.** `pagarclausula` does not check for open offers, so two `bought_clause` offers for the same player can be open at the same time. `ClauseBuyCommand` states this guard as written: `ClauseBuyGuard` does not mention offers. `AcceptOfferCommand` proves that each single offer is debited at most once. Nothing stops a second open clause offer from being accepted and debited as well. `DoubleClausePurchase` shows two such offers arising from two commands in a row.

**SQL lookups with several matching rows.** Some lookups have no `ORDER BY` and can match several rows (a manager of several teams, a captain of several teams). The model returns the row with the lowest id, as `LowestTeam` states.

## Model

| member | source | states |
|---|---|---|
| LeagueTypes.ParseStatus | database.py:14 | a status string is accepted exactly when it is in `VALID_STATUSES`, and it reads back as the status spelled that way |
| LeagueTypes.StatusNameRoundTrip | database.py:14 | every offer status is written as a valid status string that parses back to the same status |
| LeagueRows.Freed | database.py:241-253 | a released player has no team, contract or clause; identity, ban, market flag and remembered clause are kept |
| LeagueRows.FreedByDeletion | database.py:124-142 | a player of a deleted team is released and taken off the market; identity, ban and remembered clause are kept |
| LeagueRows.SeasonEnd | database.py:905-914 | the two bulk updates in order: a missing or negative contract is untouched, a contract of 0 or 1 season releases the player, a longer one loses one season |
| LeagueRows.SeasonEndOnlyReleases | database.py:905-914 | a season change never puts a player on a team and touches only the contract fields |
| LeagueRows.SeasonEndReleasedStaysReleased | database.py:905-914 | a second season change leaves a player released by the first one untouched |
| LeagueRows.SeasonEndShortens | database.py:905-914 | a positive contract is exactly one season shorter afterwards, or released exactly when it had one season left |
| LeagueRows.Listed | database.py:396-415 | listing sets the market flag; with a new clause the clause in force is remembered and replaced, without one nothing else changes |
| LeagueRows.Unlisted | database.py:417-435 | unlisting clears the market flag and puts a remembered clause back in force, forgetting it |
| LeagueRows.ListThenUnlistRestoresClause | database.py:396-435 | listing with a new clause and then unlisting gives back the original row with the market flag cleared |
| LeagueRows.ListThenUnlistWithoutClause | database.py:396-435 | listing without a clause and then unlisting changes only the market flag |
| LeagueRows.ListThenUnlistKeepsMarketClause | database.py:396-435 | a player with no clause who is listed with one keeps that clause after unlisting, because the remembered NULL counts as nothing remembered |
| LeagueRows.Signed | database.py:557-570 | an accepted contract offer puts the player on the offering team with the offer's duration and clause |
| LeagueRows.Bought | database.py:582-607 | a clause purchase puts the player on the buying team and keeps the player's contract and clause |
| LeagueRows.SignedThenUnlistedRestoresOldClause | database.py:417-435 | signing a listed player keeps the remembered clause, so unlisting afterwards replaces the new contract's clause with the old one |
| Ledger.Balance | database.py:737-746 | the balance of a team without a balance row reads as 0 |
| Ledger.Credit | database.py:748-756 | only the team's own row changes, by exactly the amount; a missing row is not created and there is no floor |
| Ledger.Settle | database.py:582-607 | the buyer is debited the price and a seller (team id not NULL or 0) is credited the same amount; no other row changes |
| Ledger.CreditTotal | database.py:748-756 | crediting an existing row changes the sum of all balances by the amount; crediting a missing row changes nothing |
| Ledger.SettleConserves | database.py:582-607 | a clause payment between two clubs with balance rows keeps the sum of all balances; with no seller the price leaves the league |
| Ledger.SettleSolvent | database.py:582-607 | a payment made only when the buyer can afford it leaves the buyer's balance at 0 or above |
| LeagueStore.LowestTeam | database.py:144-153 | the lowest team id whose row matches, with no matching row below it; none exactly when no row in range matches |
| LeagueStore.OffersWithout | database.py:124-142 | exactly the offers that name the team neither as seller nor as buyer remain, unchanged |
| LeagueStore.ReleaseTeam | database.py:124-142 | every player of the deleted team is released and taken off the market; every other player row is unchanged |
| LeagueStore.EndSeason | database.py:905-914 | every player row takes one season change and no row is added or removed |
| LeagueStore.EndSeasonKeepsUsers | database.py:905-914 | a season change keeps every user id, so no two player rows come to share one |
| LeagueStore.SellerOf | database.py:672-697 | the selling team of a clause purchase is the player's current team when there is one (and it is not 0), otherwise none |
| LeagueStore.Store.constructor | database.py:16-69 | a fresh store has empty tables and satisfies the id and uniqueness invariant |
| LeagueStore.Store.ManagedTeam | database.py:144-153 | a team managed by the user, the first by id; none exactly when the user manages no team |
| LeagueStore.Store.CaptainedTeam | database.py:1018-1031 | a team that lists the user as captain; none exactly when no team does |
| LeagueStore.Store.TeamNamed | database.py:155-164 | the team with that name; none exactly when no team has it |
| LeagueStore.Store.PlayerNameOf | database.py:210-219 | the name of the player registered for the user; none exactly when the user is not registered |
| LeagueStore.Store.IsCaptain | database.py:1014-1016 | true exactly when the pair (team, user) is in the captains table |
| LeagueStore.Store.MayActFor | database.py:305 | the authorization test of the friendly-request functions: the user is the team's manager or one of its captains (the same test guards database.py:350) |
| LeagueStore.Store.ClubBalance | database.py:737-746 | the team's balance, or 0 for a team with no row |
| LeagueStore.Store.HasPendingOffer | database.py:609-623 | true exactly when the manager has a pending or bought_clause offer for the player's name; false for an unregistered user |
| LeagueStore.Store.AddTeam | database.py:106-122 | refused exactly for an empty name, a manager who already manages a team, or a name in use; otherwise the team and a zero balance get the next id |
| LeagueStore.Store.DeleteTeam | database.py:124-142 | succeeds exactly for a known name: players released, offers from or to the team deleted, balance and team rows deleted; otherwise nothing changes |
| LeagueStore.Store.AddPlayer | database.py:198-208 | refused exactly when the name or the user is already registered; otherwise one free player row is added |
| LeagueStore.Store.BanPlayer | database.py:221-229 | sets the ban flag of a known player and changes nothing else |
| LeagueStore.Store.UnbanPlayer | database.py:231-239 | clears the ban flag of a known player and changes nothing else |
| LeagueStore.Store.RemovePlayerFromTeam | database.py:241-253 | true exactly for a known player, who is released |
| LeagueStore.Store.AddCaptain | database.py:977-987 | true exactly when the pair was not already present; afterwards it is present |
| LeagueStore.Store.RemoveCaptain | database.py:989-1001 | true exactly when the pair was present; afterwards it is absent |
| LeagueStore.Store.SetPlayerTransferable | database.py:396-415 | true exactly for a known player, whose row is listed |
| LeagueStore.Store.UnsetPlayerTransferable | database.py:417-435 | true exactly for a known player, whose row is unlisted |
| LeagueStore.Store.CreateTransferOffer | database.py:510-529 | -1 and no insert when price, duration or clause is not positive; otherwise exactly one pending offer with the given fields under a fresh id |
| LeagueStore.Store.UpdateOfferStatus | database.py:542-555 | false exactly for a status outside the valid set; otherwise an existing offer takes that status and no other offer changes |
| LeagueStore.Store.AcceptOffer | database.py:557-570 | without checking the status, the offer is accepted and its player signed on its terms; no balance changes |
| LeagueStore.Store.RejectOffer | database.py:572-580 | an existing offer is rejected and nothing else changes |
| LeagueStore.Store.AcceptClausePayment | database.py:582-607 | false and no change for an unknown offer or a buyer who cannot pay; otherwise settlement, the player moves to the buyer, the offer is accepted; the buyer stays solvent and money is conserved between two existing clubs |
| LeagueStore.Store.PayClauseAndTransfer | database.py:672-697 | -1 and no offer when the buyer's balance (0 without a row) is below the amount; otherwise one bought_clause offer from the player's current team under a fresh id; balances never change |
| LeagueStore.Store.AdvanceSeason | database.py:905-914 | every player row takes the season change of the two bulk updates |
| LeagueStore.Store.AddMoneyToClub | database.py:748-756 | the team's balance row grows by the amount; a team without a row is not credited |
| LeagueStore.Store.RemoveMoneyFromClub | database.py:758-766 | the team's balance row shrinks by the amount, with no floor |
| LeagueStore.Store.AddFriendlyRequest | database.py:303-320 | -1 and no insert unless the user manages or captains the requesting team; otherwise a pending request under a fresh id |
| LeagueStore.Store.UpdateRequestStatus | database.py:345-360 | the request takes the status exactly when it exists and the user manages or captains the requested team; otherwise nothing changes |
| LeagueStore.Store.AddFriendlyMatch | database.py:362-372 | the friendly is stored under a fresh id and the result is always true |
| Friendlies.ActorTeam | Cogs/LeagueCog.py:988-990 | the team the user manages if there is one, otherwise a team the user captains; none exactly when neither exists |
| Friendlies.FirstSlot | Cogs/LeagueCog.py:1001 | the first slot of the table with that hour; none exactly when no slot has it |
| Friendlies.SlotClash | Cogs/LeagueCog.py:123 | the `any(...)` clash test, used both when a request is made (Cogs/LeagueCog.py:1018) and when it is accepted: some friendly of the same table and hour has either team on either side |
| Friendlies.UnclashedKeepsTeamsApart | Cogs/LeagueCog.py:122-128 | storing a friendly that passes the clash test keeps every team to at most one friendly per slot of a table |
| Friendlies.NoClashWithOtherPair | Cogs/LeagueCog.py:123 | a friendly between two other teams does not make the clash test fail for a pair |
| Friendlies.RequestGuard | Cogs/LeagueCog.py:988-1020 | a request is created only by a manager or captain, against the latest table, for a listed and available slot, for another existing team, with no friendly of either team in that slot; it is refused when the slot is missing, taken or the team is the user's own |
| Friendlies.RegisterFriendly | Cogs/LeagueCog.py:985-1024 | a refused request stores nothing; an accepted one is stored as pending under a fresh id, and the id counter moves past it |
| Friendlies.ResolveGuard | Cogs/LeagueCog.py:113-120 | passes exactly when the request is pending and the user's team is the requested team |
| Friendlies.AcceptGuard | Cogs/LeagueCog.py:113-125 | the shared checks followed by the same slot-clash test the request used, on the request's own table and slot |
| Friendlies.AcceptFriendly | Cogs/LeagueCog.py:112-128 | on success the request is accepted and the friendly is stored, after which the slot clashes for both teams, with either given first, and no user can accept the request again; the id counter moves past the new friendly; if no team played two friendlies in one slot of a table before, none does after; on refusal nothing changes |
| Friendlies.AcceptFirstOfDisjoint | Cogs/LeagueCog.py:112-128 | accepting one of two requests for the same slot between four different teams stores its friendly and leaves the other request acceptable |
| Friendlies.DisjointFriendliesShareSlot | Cogs/LeagueCog.py:112-128 | both such requests are accepted one after the other, and the slot then holds two friendlies under two ids, while no team plays twice in it |
| Friendlies.RejectFriendly | Cogs/LeagueCog.py:164-174 | on success the request is rejected and can be resolved by no one afterwards; on refusal nothing changes |
| OfferCommands.IsBanned | utils/helpers.py:19-24 | true exactly when the user is a registered player whose ban flag is set |
| OfferCommands.AcceptOfferGuard | Cogs/LeagueCog.py:36-49 | passes exactly for a user who is not banned, on an open offer, who is the offer's player; a banned user is refused first |
| OfferCommands.AcceptOfferCommand | Cogs/LeagueCog.py:36-72 | refusals change nothing; the clause path is refused for lack of funds or settles, moves the player and accepts the offer; the contract path signs the player; once accepted, no user passes the guard again, so the price is debited at most once per offer |
| OfferCommands.RejectOfferGuard | Cogs/LeagueCog.py:75-82 | passes exactly for a user who is not banned, on an open offer, without checking that the user is the offer's player; weaker than the accept guard |
| OfferCommands.RejectOfferCommand | Cogs/LeagueCog.py:75-91 | an open offer is rejected and no user can accept, reject or otherwise resolve it afterwards |
| OfferCommands.CancelOfferGuard | Cogs/LeagueCog.py:798-805 | passes exactly for the offer's sender on an open offer; an unknown offer or another sender is refused as not authorised |
| OfferCommands.CancelOfferCommand | Cogs/LeagueCog.py:798-808 | the offer is cancelled through update_offer_status and can no longer be accepted or cancelled |
| OfferCommands.ContractOfferGuard | Cogs/LeagueCog.py:750-780 | passes exactly when the target is not banned, the user manages a team, the terms are positive, the target is registered and there is no open offer; the offer is priced at the clause and comes from the player's team (none for NULL or 0) |
| OfferCommands.ContractOfferCommand | Cogs/LeagueCog.py:749-788 | a refusal stores nothing; otherwise the offer is stored under a fresh id, the id counter moves past it, and the offer is then pending for the pair; at most one open offer per manager and player is preserved |
| OfferCommands.ClauseBuyGuard | Cogs/LeagueCog.py:923-937 | passes exactly when the target is not banned, the user manages a team, the player has a non-zero clause and is not on the user's team; open offers are not consulted |
| OfferCommands.ClauseBuyCommand | Cogs/LeagueCog.py:923-949 | refused for lack of funds; otherwise one bought_clause offer at the clause price from the player's current team under a fresh id, past which the id counter moves; no balance ever changes here |
| OfferCommands.DoubleClausePurchase | Cogs/LeagueCog.py:923-949 | two `pagarclausula` commands in a row by one manager for one affordable player both succeed, leaving two open bought_clause offers for that player from that manager, so at most one open offer per manager and player is not kept |
| FriendlyTableText.InitialCellsLast | Cogs/LeagueCog.py:425 | the initial cell of an hour is the availability of the last slot with that hour |
| FriendlyTableText.InitialCells | Cogs/LeagueCog.py:425 | the availability dictionary has exactly the hours of the table's slots as keys, so every hour of the table has a cell |
| FriendlyTableText.MatchCell | Cogs/LeagueCog.py:429-430 | the cell of a booked slot starts with the bold marker, so it is never "Disponible" |
| FriendlyTableText.ApplyMatches | Cogs/LeagueCog.py:426-430 | after the friendlies are written, the keys are the old keys plus the hours of the friendlies whose two teams both exist, and no others; no cell is removed |
| FriendlyTableText.ApplyMatchesUntouched | Cogs/LeagueCog.py:426-430 | an hour that no shown friendly names keeps its availability cell |
| FriendlyTableText.ApplyMatchesLast | Cogs/LeagueCog.py:426-430 | the cell of an hour is that of the last friendly in it whose two teams both exist |
| FriendlyTableText.LaterFriendlyHidesEarlier | Cogs/LeagueCog.py:426-430 | of two friendlies with both teams present in the same slot, the cell names only the later one |
| FriendlyTableText.NatToDecimal | Cogs/LeagueCog.py:431 | the table id is written as a non-empty string of decimal digits |
| FriendlyTableText.DigitChar | Cogs/LeagueCog.py:431 | a digit is written as the character of that value |
| FriendlyTableText.DecimalRoundTrip | Cogs/LeagueCog.py:431 | reading back the digits written for the id gives the id |
| FriendlyTableText.IntToDecimal | Cogs/LeagueCog.py:431 | a negative id is written as a minus sign and the digits of its magnitude |
| FriendlyTableText.Lines | Cogs/LeagueCog.py:432-434 | exactly one line per slot, in slot order, duplicates included |
| FriendlyTableText.SlotLine | Cogs/LeagueCog.py:434 | the line of one slot: a white circle, the hour, the cell and a green circle for a free slot; a stadium, the hour and the cell otherwise |
| FriendlyTableText.SlotLineShape | Cogs/LeagueCog.py:434 | every slot line is non-empty and ends with a newline, and it opens with the white circle exactly when the cell is "Disponible" |
| FriendlyTableText.FinalCells | Cogs/LeagueCog.py:425-430 | after the friendlies are placed, every hour of the table still has a cell |
| FriendlyTableText.TableText | Cogs/LeagueCog.py:422-436 | the text of the table: header, one line per slot in slot order, closing fence |
| FriendlyTableText.TableTextFrame | Cogs/LeagueCog.py:431-435 | the text of every table starts with the header naming its id and ends with the closing fence, whatever the slots and friendlies |
| FriendlyTableText.GenerateTable | Cogs/LeagueCog.py:422-436 | the text is the header, one line per slot in order, and the closing fence |
| FriendlyTableText.BuildCells | Cogs/LeagueCog.py:425 | the dictionary comprehension builds the availability cells |
| FriendlyTableText.PlaceMatches | Cogs/LeagueCog.py:426-430 | the loop writes each friendly whose two teams both exist into its hour's cell, later ones overwriting earlier ones |
| FriendlyTableText.RenderLines | Cogs/LeagueCog.py:432-434 | the loop appends each slot's line in slot order |
| FriendlyTableText.BookedSlotLine | Cogs/LeagueCog.py:426-434 | a slot holding a shown friendly is rendered with the stadium marker and "team1 vs team2" of the last such friendly |
| FriendlyTableText.UnbookedSlotLine | Cogs/LeagueCog.py:425-434 | any other slot reads "Disponible" with the green marker when the last slot with its hour is available, and "Ocupado" otherwise |
| Pagination.PageCount | Cogs/LeagueCog.py:342-343 | `total_pages`, the number of pages of n items computed with floor division; what it means is proved in PageCountIsCeiling |
| Pagination.PageCountIsCeiling | Cogs/LeagueCog.py:342-343 | the page count is the least number of full pages that holds every item, and it is zero only for an empty list |
| Pagination.SinglePage | Cogs/LeagueCog.py:346 | there is at most one page exactly when the items fit on one, so the next button starts disabled exactly then |
| Pagination.Slice | Cogs/LeagueCog.py:351 | Python slicing: the items between the bounds, clipped to the list, non-empty when the start is inside the list |
| Pagination.FirstPagesPrefix | Cogs/LeagueCog.py:349-351 | the first p pages together are the first p * per-page items |
| Pagination.PagesCoverItems | Cogs/LeagueCog.py:343-351 | the pages, in order, are exactly the list, and each page holds between 1 and per-page items |
| Pagination.PaginationView.constructor | Cogs/LeagueCog.py:337-346 | the view starts on the first page with the previous button disabled, and the next button is disabled exactly when every item fits on one page |
| Pagination.PaginationView.PageItems | Cogs/LeagueCog.py:349-351 | the items of the current page, at most per-page of them, empty exactly when the list is |
| Pagination.PaginationView.Footer | Cogs/LeagueCog.py:353-369 | a footer is shown exactly when the list is non-empty; it names the current page plus one and the page count, the first between 1 and the second |
| Pagination.PaginationView.Prev | Cogs/LeagueCog.py:372-378 | one page back unless on the first page; the buttons stay consistent with the page |
| Pagination.PaginationView.Next | Cogs/LeagueCog.py:380-385 | one page forward unless on the last page; the buttons stay consistent with the page |
| NickTags.LowerChar | ocr_utils.py:48 | lower-casing leaves no upper-case letter, keeps whitespace as whitespace and changes nothing else |
| NickTags.TagCharNotSpace | ocr_utils.py:41 | no character of the tag class is whitespace |
| NickTags.StripLeft | ocr_utils.py:48 | only leading whitespace is removed, all of it |
| NickTags.StripRight | ocr_utils.py:48 | only trailing whitespace is removed, all of it |
| NickTags.Strip | ocr_utils.py:48 | neither end of the result is whitespace, and a string whose two ends are not whitespace is unchanged |
| NickTags.StripEmpty | ocr_utils.py:48 | strip never lengthens a string, and leaves nothing exactly when every character is whitespace |
| NickTags.Lower | ocr_utils.py:48 | each character lower-cased, length kept |
| NickTags.LowerKeepsEnds | ocr_utils.py:48 | lower-casing leaves no upper-case letter and does not change whether either end is whitespace |
| NickTags.Collapse | ocr_utils.py:48 | the result is empty exactly for empty input, and each end is whitespace exactly when that end of the input is |
| NickTags.CollapseSpaces | ocr_utils.py:48 | after the substitution every whitespace character is a plain space and no two of them are adjacent |
| NickTags.CollapseKeepsLower | ocr_utils.py:48 | the substitution introduces no upper-case letter into a lower-cased string |
| NickTags.CollapseFixpoint | ocr_utils.py:48 | collapsing a string whose spaces are already collapsed changes nothing |
| NickTags.CollapseIsNormal | ocr_utils.py:48 | collapsing a lower-case string with no whitespace at either end gives a string in normal form |
| NickTags.Normalize | ocr_utils.py:44-48 | `normalize_name`: strip, lower-case, then each whitespace run becomes one space; the result is never longer than the name |
| NickTags.NormalizeEmpty | ocr_utils.py:44-48 | a name normalizes to the empty string exactly when it is made only of whitespace |
| NickTags.NormalizeIsNormal | ocr_utils.py:44-48 | a normalized name is lower-case, has no whitespace at either end, and has single plain spaces inside |
| NickTags.NormalFormIsFixpoint | ocr_utils.py:44-48 | a name already in that form is its own normalization |
| NickTags.NormalizeIdempotent | ocr_utils.py:44-48 | normalizing twice gives the same result as normalizing once |
| NickTags.Run | ocr_utils.py:41 | a greedy run of a character class is the longest run from that position |
| NickTags.MatchAt | ocr_utils.py:41 | a match at a position starts there and captures a non-empty tag after at least one word character and one whitespace |
| NickTags.MatchShape | ocr_utils.py:41 | a match is a '#', a word run, a whitespace run and the longest run of tag characters after it |
| NickTags.FindAll | ocr_utils.py:42 | the findall loop reports spans that lie at or after its start position and inside the text, each with its tag after its '#' |
| NickTags.FindAllFound | ocr_utils.py:42 | every span the loop reports is what the search finds at that span's '#' |
| NickTags.FindAllOrdered | ocr_utils.py:42 | the reported matches come in left-to-right order without overlap: each starts no earlier than the previous one ended |
| NickTags.FindAllNone | ocr_utils.py:42 | when the loop reports nothing, the search finds nothing at any position from the start on |
| NickTags.Matcher | ocr_utils.py:41 | the pattern tried at each position only reports matches that start there and end after it, inside the text |
| NickTags.Scan | ocr_utils.py:41-42 | findall on the text: each reported span lies inside the text with its tag after its '#' |
| NickTags.ExtractNicktags | ocr_utils.py:36-43 | one tag per match of the pattern |
| NickTags.CapturedTag | ocr_utils.py:41 | the text a match captures is a non-empty run of word characters, dots and hyphens after a '#word' token and whitespace |
| NickTags.StripTag | ocr_utils.py:43 | strip leaves a non-empty run of tag characters unchanged |
| NickTags.ExtractedTag | ocr_utils.py:41-43 | the k-th extracted tag is the text captured by the pattern's match at its '#', unchanged by strip; that text is made of word characters, dots and hyphens and follows a '#word' token and whitespace |
| NickTags.ExtractedInOrder | ocr_utils.py:42-43 | consecutive extracted tags come from non-overlapping matches in text order |
| NickTags.NoTagsNoMatch | ocr_utils.py:41-43 | extract_nicktags returns an empty list exactly when the pattern matches at no position |
| NickTags.ContainsIsSubstring | ocr_utils.py:72-73 | the `in` test on strings holds exactly when the needle occurs at some position |
| NickTags.FuzzyMatch | ocr_utils.py:50-55 | `fuzzy_match`: the similarity test applied to the two normalized names; the ratio and its 0.6 threshold are the parameter `similar` |
| NickTags.FuzzyOnNormalized | ocr_utils.py:50-55 | the fuzzy tier compares already normalized names, so the second normalization inside fuzzy_match changes nothing |
| NickTags.FirstIndex | ocr_utils.py:65-81 | a search loop returns the first element passing its test; none exactly when no element passes |
| NickTags.FirstByTiers | ocr_utils.py:57-83 | the three early-return loops return an element of the list, and none for an empty list |
| NickTags.FirstTierWins | ocr_utils.py:65-69 | the first element passing the first test is returned |
| NickTags.SecondTierWins | ocr_utils.py:71-75 | with no element passing the first test, the first passing the second is returned |
| NickTags.ThirdTierLastResort | ocr_utils.py:77-81 | a result passing neither of the first two tests passes the third, and then no element passes the first two |
| NickTags.NoTierNoResult | ocr_utils.py:83 | no result exactly when no element passes any test |
| NickTags.ExactTier | ocr_utils.py:65-69 | the first tier's test: the normalized tag equals the normalized username or the normalized display name |
| NickTags.ContainTier | ocr_utils.py:71-75 | the second tier's test: either normalized name occurs in the normalized tag, or the normalized tag occurs in either name |
| NickTags.FuzzyTier | ocr_utils.py:77-81 | the third tier's test: fuzzy_match of the normalized tag against either normalized name |
| NickTags.FindBestNicktag | ocr_utils.py:57-83 | the chosen tag is an element of the list, and an empty list gives none |
| NickTags.ExactTierFirst | ocr_utils.py:65-69 | the first tag whose normalized form equals either normalized name wins over every other tier |
| NickTags.ContainTierFirst | ocr_utils.py:71-75 | with no exact match, the first tag that contains or is contained in either normalized name is returned |
| NickTags.FuzzyTierOnlyAsLastResort | ocr_utils.py:77-81 | a fuzzy result is returned only when no tag matches exactly or by containment |
| NickTags.NoneWhenNoTierMatches | ocr_utils.py:57-83 | no tag is chosen exactly when no tag matches in any tier |

## Left out

- Discord I/O. Left out: interaction replies, embeds, direct messages, channel posts, message edits and view timeouts. This includes the replies sent after a request has been stored (for example "the requested team has no manager or captains") and the crash of the friendly notifications when a team has been deleted.
- OCR: image download, preprocessing and pytesseract are foreign libraries.
- The similarity ratio of `fuzzy_match`: it is a float `SequenceMatcher` ratio, so it is the predicate parameter `similar`.
- Character classes: `str.lower`, `str.isspace` and `\w` are modelled for the Latin-1 range only. Characters above U+00FF are treated as neither upper-case letters nor word characters. The exception is the Unicode whitespace characters, which are modelled in full.
- `export_database_to_file`, `restore_database_from_file`, the screenshot routines, `reset_transferable_status`, `assign_manager_to_team`, and the listing and history queries. They are backup, timestamped logging or display-only reads, outside the transaction core.
- `get_team_by_id` is read directly as `teams` lookups. `get_offer` and `get_solicitud_by_id` are read the same way.
- The routines that create friendly tables and list their slots (`create_amistosos_tabla`, `get_horarios_for_tabla`, `get_amistosos_for_tabla`, `get_latest_amistosos_tabla`) are not part of this model. The latest table and its slot list are inputs, and the friendlies of a table are the stored friendlies with that table id.
- LeagueStore.Store.AddFriendlyRequest: a requesting team that does not exist makes the source fail. This is a precondition here.
- LeagueStore.Store.UpdateRequestStatus: the status is a `RequestStatus` value rather than a free string. A requested team that does not exist makes the source fail, and this is a precondition here.
- The `to_manager_id` column of `transfer_offers` is dropped, because no store function writes it.
- OfferCommands.ClauseBuyCommand: the `duracion` and `clausula` arguments of `pagarclausula` are not passed on, because `database.py`'s `pay_clause_and_transfer` takes no such arguments.
- OfferCommands.ContractOfferCommand: the `-2` ("market closed") branch of `ofertarcontrato` is not modelled, because `database.py`'s `create_transfer_offer` never returns it.
- Friendlies.AcceptFriendly: does not keep one friendly per slot of a table, because the program does not. The clash test (Cogs/LeagueCog.py:123, 1018) only asks whether one of the two teams already plays in the slot, and accepting never clears the slot's `disponible` flag (Cogs/LeagueCog.py:127-128). So friendlies between two disjoint pairs can share one slot (`DisjointFriendliesShareSlot`), and the table then shows only the later of them (`LaterFriendlyHidesEarlier`). What the program does keep is that no team plays two friendlies in one slot (`NoTeamDoubleBooked`, preserved by `AcceptFriendly`).
- Pagination.PaginationView.constructor: requires a positive page size. The only caller uses the default of 10.
- The text of the page entries that `update_embed` formats is not modelled, nor the thousands separator of the clause. Only the page contents and the footer numbers are modelled.
- `TeamBookView` and its page buttons are not part of this model.
- SQLite transactions and concurrency between interactions: every operation is one atomic step.
- Integer widths: SQLite's 64-bit integers are unbounded `int`s here, so balance overflow is not modelled.
- `generate_amistosos_table` is one method whose three loops are separate helper methods, each proved against the function it computes.
