# Porozudo core, modelled in Dafny

Porozudo is a Discord bot for organising custom League of Legends matches.
Its core is sequential and is modelled here:

- **The team generator.** It splits an even number of players into two
  halves whose mean ratings are as close as the random choice allows. It
  then drafts champions for each side from a catalog by drawing without
  replacement. Finally it seats the two teams, in random order, as blue and
  red.
- **The match service.** Finalizing a match moves every winner up and every
  loser down by one point change, which depends on the K-factor of the match
  mode, and writes one rating-ledger row per player. Reverting takes back
  every unreverted row of the match. Registering champions records, once per
  match, which champion each rostered player picked in the live game.
- **The season reset.** Every ranked player returns to 1500 points. Each
  gets a ledger row outside any match and a season-final rating, and then a
  new season is opened.
- **The active-player pool.** This is the set of players the next draw uses.
  Players can be added (duplicates are dropped), removed, cleared and listed.
- **The persistent records** these operate on: players (equal when their ids
  are equal), matches, teams, ledger rows, champion picks, the pool and
  seasons.

The database is one object, `Store.Session`, with one field per table. The
services are methods on it. Each method is proved equal to a function of the
old state (`Rating.FinalizeEffect`, `Rating.RevertAll`,
`ConfigService.ResetAll`, `MatchService.Registered`,
`TeamGenerator.Generate`). The properties the code promises are then proved
as lemmas about those functions.

Random choices become parameters, called oracles here:

- `poolIndex` is the result of `random.choice`;
- `draws` are the `randint` draws;
- `swap` is the outcome of `random.shuffle`.

The losing chance `lossChance` (one minus the winners' expected win
probability) becomes a parameter in [0, 1]. The live game's participants
become a parameter as well.

Files:

- `wrappers.dfy`: `Option` and `Result`.
- `database.dfy`: the records.
- `store.dfy`: the session.
- `config_repo.dfy`: the pool.
- `rating.dfy`: the rating rules as functions.
- `match_service.dfy`: finalize, revert and register as methods.
- `config_service.dfy`: the season reset.
- `splits.dfy`: the combinations and the splits they make.
- `team_generator.dfy`: the generator.
- `match_commands.dfy`: the two ways a result reaches the service, plus the
  revert command.
- `generated_match.dfy`: how the generator and the rating rules fit
  together.

## Model

| member | source | states |
|---|---|---|
| Database.NewPlayer | shared/model/database.py:14-19 | A new player has the given fields and the default rating of 1500. |
| Database.IntHash | shared/model/database.py:21-22 | The integer hash stays within ±(2^61 - 1), is the identity on small non-negative ids, and never yields -1. |
| Database.RatingsOnlyDifferSameIds | shared/model/database.py:21-27 | Two rosters that differ only in ratings are equal player by player (equality by id), hash alike, and have the same ids. |
| Database.NewMatch | shared/model/database.py:35-45 | A new match needs a mode of 1 to 5, as the schema validates, and keeps it. It has the given id, season and teams, no result, and no registered champions. |
| Database.NewEloEntry | shared/model/database.py:71-79 | A new ledger row carries the given player, match, before/after ratings and change, and is not reverted. |
| Database.TeamOn | src/service/match_service.py:20-21 | Finds a team of a side exactly when one exists, and then returns the first team on that side. |
| Database.RosterIds | shared/repos/player_repo.py:33-37 | Contains the id of every rostered player of the teams, and nothing else. |
| Store.Session.constructor | shared/model/database.py:14-92 | An empty database satisfies the schema's key constraints. |
| ConfigRepo.GetPoolPlayers | shared/repos/config_repo.py:22-25 | Returns exactly the stored players whose id is in the pool, one per pool id. |
| ConfigRepo.NewPoolIds | shared/repos/config_repo.py:9-10 | Holds an id exactly when a given player has it and no current pool member has it (equality by id). |
| ConfigRepo.AddedPool | shared/repos/config_repo.py:11-12 | The commit succeeds exactly when the new rows have distinct ids. The pool then gains exactly those ids. |
| ConfigRepo.AddToPool | shared/repos/config_repo.py:8-12 | The pool becomes what AddedPool gives, or stays the same when the commit is rejected. The schema constraints are kept. |
| ConfigRepo.NewPoolIdsAreOutsidePool | shared/repos/config_repo.py:9-10 | The rows to insert are exactly the given ids that are not yet in the pool. |
| ConfigRepo.NewPoolIdsIgnoreRating | shared/repos/config_repo.py:9-10 | The `not in` test compares players by id, so a copy of the given players with other ratings adds exactly the same rows. |
| ConfigRepo.AddToPoolKeepsAndAdds | shared/repos/config_repo.py:8-12 | After an add, old members remain and every given player is in the pool. Re-adding members changes nothing. |
| ConfigRepo.RemoveFromPool | shared/repos/config_repo.py:15-19 | Only that id leaves the pool, and nothing happens if it was absent. |
| ConfigRepo.ClearPlayerPool | shared/repos/config_repo.py:28-32 | The pool ends up empty. |
| Rating.KFactor | src/service/match_service.py:28 | The K-factor lies between 1 and 20. |
| Rating.KFactorGrowsWithMode | src/service/match_service.py:28 | Over modes 1 to 5, a larger mode never has a smaller K-factor. |
| Rating.RoundHalfEven | src/service/match_service.py:31 | The result is within one half of the input, and ties go to the even neighbour. |
| Rating.RoundHalfEvenUnique | src/service/match_service.py:31 | Those two properties determine the rounding. |
| Rating.PointChange | src/service/match_service.py:30-32 | The point change is at least 1 and at most K. |
| Rating.PointChangeByMode | src/service/match_service.py:28-32 | Modes 1 and 2 always move exactly one point, and no mode moves more than 20. |
| Rating.PointChangeEvenMatchMode5 | src/service/match_service.py:28-32 | Evenly rated teams in mode 5 move 10 points. |
| Rating.PointChangeEvenMatchMode3 | src/service/match_service.py:28-32 | Evenly rated teams in mode 3 move 2 points (2.5 rounds to the even 2). |
| Rating.Credit | src/service/match_service.py:34-44 | One roster loop writes one row per listed player and adds no player. |
| Rating.CreditPointsAt | src/service/match_service.py:34-44 | Each player moves by delta once per place on the roster, and nothing else about the player changes. |
| Rating.CreditEntryAt | src/service/match_service.py:35-43 | The k-th row is the k-th player's: for this match, not reverted, carrying delta, from the rating the player had at that point. |
| Rating.DistinctCount | src/service/match_service.py:34 | A roster without repeats lists each player once. |
| Rating.RevertAll | src/service/match_service.py:62-68 | Reverting keeps the set of players and the number of ledger rows. |
| Rating.RevertPointsAt | src/service/match_service.py:62-67 | Each player loses the sum of the changes of their unreverted rows of the match, and nothing else about them changes. |
| Rating.RevertLedgerAt | src/service/match_service.py:62-68 | Exactly the unreverted rows of the match whose player exists become reverted. Every other row, including a row whose player is missing, stays as it was. |
| Rating.RevertClosesAll | src/service/match_service.py:62-68 | After a revert, no row of the match with an existing player is still open. |
| Rating.RevertIdempotent | src/service/match_service.py:61-70 | A second revert changes neither a rating nor a row. |
| Rating.Winner | src/service/match_service.py:20-26 | The winning team is a team of the match on the result's side. |
| Rating.Loser | src/service/match_service.py:20-26 | The losing team is a team of the match on the other side. |
| Rating.RosterIdsIn | src/service/match_service.py:34-46 | Every rostered id is a key of the player table. |
| Rating.CreditBoth | src/service/match_service.py:34-56 | Both loops write one row per rostered player and add no player. |
| Rating.FinalizeEffect | src/service/match_service.py:19-56 | Finalize writes one row per winner and per loser, and adds no player. |
| Rating.DistinctSplit | src/service/match_service.py:34-56 | Winners and losers without repeats are disjoint. |
| Rating.CreditBothPointsAt | src/service/match_service.py:34-56 | A player moves by +d per winner place and -d per loser place, and nothing else about them changes. |
| Rating.CreditBothDistinctAt | src/service/match_service.py:34-56 | Without repeats, a winner gains d, a loser loses d, and everyone else is untouched. |
| Rating.CreditBothEntryAt | src/service/match_service.py:34-56 | Row k belongs to the k-th winner with +d, or to the matching loser with -d, and always has after = before + change. |
| Rating.CreditBothDistinctBefore | src/service/match_service.py:35-47 | Without repeats, every row records the player's rating from before the match. |
| Rating.SumShifted | src/service/match_service.py:34-56 | Moving each of n players by d moves their sum by n * d. |
| Rating.SumAppend | src/service/match_service.py:34-56 | The sum over two rosters is the sum of the two sums. |
| Rating.CreditBothShifts | src/service/match_service.py:34-56 | Without repeats, each winner ends at +d and each loser at -d. |
| Rating.CreditBothKeepsTotal | src/service/match_service.py:34-56 | Equal rosters without repeats keep the sum of their ratings. |
| Rating.CreditSecondOpenChange | src/service/match_service.py:46-56 | The loser rows undo exactly what the loser loop took. |
| Rating.CreditBothOpenChange | src/service/match_service.py:34-56 | With no open rows of the match before, the open rows undo exactly what both loops moved. |
| Rating.CreditBothRevertAt | src/service/match_service.py:34-68 | A revert right after both loops gives one player back their rating. |
| Rating.CreditBothEntries | src/service/match_service.py:34-56 | All rows are for the match, not reverted, with after = before + change, winners' rows with +d first and losers' rows with -d after. |
| Rating.FinalizeMovesPoints | src/service/match_service.py:34-56 | With distinct players, every winner gains the point change, every loser loses it, and every other player is untouched. |
| Rating.FinalizeEntries | src/service/match_service.py:34-56 | One row per rostered player: for this match, not reverted, with a change, and after = before + change. |
| Rating.FinalizeEntriesOrder | src/service/match_service.py:34-56 | One row per winner with +pc in roster order, then one row per loser with -pc. |
| Rating.FinalizeEntriesRecordBefore | src/service/match_service.py:35-47 | With distinct players, every row records the player's rating from before the match. |
| Rating.FinalizeKeepsTotal | src/service/match_service.py:34-56 | With equal rosters of distinct players, the total rating of the match's players is preserved. |
| Rating.CreditBothThenRevert | src/service/match_service.py:34-68 | Reverting right after both loops restores the whole player table. |
| Rating.CreditBothChanges | src/service/match_service.py:42-55 | Every row written carries a change. |
| Rating.FinalizeLeavesRevertible | src/service/match_service.py:34-67 | After finalize, every open row of the match can be subtracted (none has a null change). |
| Rating.FinalizeThenRevertRestores | src/service/match_service.py:19-70 | Finalize followed by revert, with nothing in between, gives every player back their rating. |
| MatchService.CreditRoster | src/service/match_service.py:34-44 | One roster loop: the player table and the ledger end up as Credit gives. |
| MatchService.FinalizeMatch | src/service/match_service.py:19-59 | Ratings and ledger become FinalizeEffect under the mode's point change. The match is written back as given, and its result is neither read nor set. |
| MatchService.CreditBothRosters | src/service/match_service.py:34-56 | Winners are credited, then losers debited, exactly as CreditBoth gives. |
| MatchService.RevertMatch | src/service/match_service.py:61-71 | Ratings and ledger become RevertAll, and the result is cleared whatever it was. |
| MatchService.RevertRow | src/service/match_service.py:63-68 | An open row of the match with an existing player is subtracted and marked reverted. Any other row changes nothing. |
| MatchService.RevertStep | src/service/match_service.py:62-68 | Reverting one more row extends the revert of the prefix by that row. |
| MatchService.ChampionOfFinds | src/service/match_service.py:82-86 | A champion is found exactly when some participant has the puuid. |
| MatchService.ChampionOfIsLast | src/service/match_service.py:82 | The champion found is that of the last participant with the puuid, as in a dictionary built in order. |
| MatchService.RosterPicksSound | src/service/match_service.py:85-92 | Every pick of a roster belongs to one of its players, with that player's participant's champion. |
| MatchService.RosterPicksComplete | src/service/match_service.py:85-92 | Every roster player whose puuid a participant carries gets that pick. |
| MatchService.MatchPicksSound | src/service/match_service.py:84-92 | Every pick belongs to the match and to a rostered player found among the participants, so unmatched players get none. |
| MatchService.MatchPicksComplete | src/service/match_service.py:84-92 | Every rostered player found among the participants gets a pick with that participant's champion. |
| MatchService.Registered | src/service/match_service.py:79-94 | The flag ends up set, the match record is otherwise unchanged, and the earlier picks are kept as a prefix. |
| MatchService.RegisterIsIdempotent | src/service/match_service.py:79-94 | A second registration, with any participants, changes nothing. |
| MatchService.RegisterAddsMatchedPicks | src/service/match_service.py:84-92 | The picks a registration adds are exactly those of the rostered players found among the participants. |
| MatchService.AddRosterPicks | src/service/match_service.py:85-92 | Appends the roster's picks in roster order. |
| MatchService.RegisterMatchChampions | src/service/match_service.py:75-95 | The match and the pick table become what Registered gives. |
| ConfigService.RankedNeedsSeason | shared/repos/player_repo.py:29-43 | Ranked players exist, and a non-empty ranked list implies a current season. |
| ConfigService.ResetAll | bot/service/config_service.py:19-38 | Writes one ledger row and one final rating per ranked player, and adds no player. |
| ConfigService.ResetPointsAt | bot/service/config_service.py:19-21 | Every ranked player is at 1500 with nothing else changed, and every other player is untouched. |
| ConfigService.ResetRowsAt | bot/service/config_service.py:23-36 | Row k is player k's: no match, not reverted, old rating to 1500, change = 1500 - old. Final rating k is the old rating in the current season. |
| ConfigService.ResetRowsHaveNoMatch | bot/service/config_service.py:23-29 | No reset row belongs to a match. |
| ConfigService.ResetRowsOutsideMatches | bot/service/config_service.py:23-29 | Reset rows never change what a match revert undoes. |
| ConfigService.NextSeasons | shared/repos/season_repo.py:12-24 | Exactly one season is appended, and it is open. |
| ConfigService.NextSeasonsOpensOne | shared/repos/season_repo.py:15-21 | The new season becomes current. The old current season is the only other one that changes, and only by being ended. A fresh id is held by the new season alone. |
| ConfigService.CreateSeason | shared/repos/season_repo.py:12-24 | The season table becomes NextSeasons of the old one. |
| ConfigService.ResetElo | bot/service/config_service.py:15-40 | Players, ledger and final ratings become ResetAll in the current season. Then one new season is created; given an id no season has (the database assigns one), it becomes the current season and the only one with that id. |
| ConfigService.ResetRanked | bot/service/config_service.py:19-38 | The reset loop's state equals ResetAll. |
| ConfigService.ResetOne | bot/service/config_service.py:20-38 | One player goes to 1500, with a row outside any match and the old rating kept as final. |
| ConfigService.ResetStep | bot/service/config_service.py:19-38 | Resetting one more player extends the reset of the prefix by that player. |
| Splits.Prefixed | src/team_generator/generator.py:18 | Puts the player in front of every selection. |
| Splits.CombinationsCount | src/team_generator/generator.py:18 | There are C(n, k) selections of k players. |
| Splits.CombinationShape | src/team_generator/generator.py:18 | Every selection has k players, all from the pool. |
| Splits.TakesAt | src/team_generator/generator.py:18 | The selections taking the first player come first, in the order of the tail's selections. |
| Splits.BinomAbove | src/team_generator/generator.py:18 | There are no selections of more players than there are. |
| Splits.BinomAll | src/team_generator/generator.py:18 | There is exactly one selection of everyone. |
| Splits.BinomSymmetric | src/team_generator/generator.py:18-20 | C(n, k) = C(n, n - k). |
| Splits.FirstHalfTakesFirstPlayer | src/team_generator/generator.py:18-27 | For 2k players, the first ceil(C/2) selections are exactly the C(2k - 1, k - 1) that take the first player. |
| Splits.FirstHalfCount | src/team_generator/generator.py:20 | ceil(C(2k, k) / 2) = C(2k - 1, k - 1). |
| Splits.Without | src/team_generator/generator.py:28 | The set difference keeps exactly the players whose id is not excluded. |
| Splits.DedupById | src/team_generator/generator.py:24 | The player set keeps one player per id and loses no id. |
| Splits.RatingsOnlyDifferIdSet | src/team_generator/generator.py:24 | Rosters that differ only in ratings have the same set of ids. |
| Splits.DedupIgnoresRating | src/team_generator/generator.py:24 | Building the player set from a roster whose ratings changed keeps the same players in the same places, so the same ids; only the ratings differ. |
| Splits.DedupDistinct | src/team_generator/generator.py:24 | Players with distinct ids stay as they are. |
| Splits.SelectionSplits | src/team_generator/generator.py:18-28 | Without repeated ids, every selection has k players and splits the pool: no repeats, and with its complement it covers everyone. |
| Splits.CombinationsDistinct | src/team_generator/generator.py:18 | Without repeated ids, no selection is listed twice. |
| TeamGenerator.CandidatesCount | src/team_generator/generator.py:18-26 | ceil(C(n, n/2) / 2) matchups are built. |
| TeamGenerator.BuildMatchups | src/team_generator/generator.py:22-43 | The loop builds one matchup per selection of the first half, in order. |
| TeamGenerator.MatchupsUpToAt | src/team_generator/generator.py:26-43 | Matchup j is the one built from selection j. |
| TeamGenerator.InsertAscending | src/team_generator/generator.py:45 | Inserting into a sorted list keeps it sorted and adds exactly that matchup. |
| TeamGenerator.SortedByDifferenceSorts | src/team_generator/generator.py:45 | The sort orders by gap, ascending, and is a permutation of its input. |
| TeamGenerator.InsertAt | src/team_generator/generator.py:45 | One insertion pass leaves the prefix equal to Insert, and the rest untouched. |
| TeamGenerator.InsertionPoint | src/team_generator/generator.py:45 | Finds the stable insertion point. |
| TeamGenerator.SortByDifference | src/team_generator/generator.py:45 | The in-place sort of the array yields SortedByDifference of its contents. |
| TeamGenerator.PoolSize | src/team_generator/generator.py:47-50 | The pool is min(10, n/2), or all n when that is 0 and n > 0, and is never empty when n > 0. |
| TeamGenerator.PoolHoldsTheClosest | src/team_generator/generator.py:45-54 | The pick is at least as close as every matchup left out of the pool. |
| TeamGenerator.ChosenIsAmongTheClosest | src/team_generator/generator.py:45-54 | The chosen matchup is a candidate and at least as close as every candidate outside the pool. |
| TeamGenerator.ChooseMatchup | src/team_generator/generator.py:45-54 | Sorting in place and taking the pool index gives Chosen. |
| TeamGenerator.Seated | src/team_generator/generator.py:68-76 | Yields two teams, the first blue and the second red, in the order the shuffle gives. |
| TeamGenerator.Drawn | src/team_generator/generator.py:59-66 | n draws take n champions and leave the rest. |
| TeamGenerator.DrawOne | src/team_generator/generator.py:60-62 | One draw deletes the drawn champion from the caller's list and returns its id. |
| TeamGenerator.DrawRound | src/team_generator/generator.py:59-66 | A round draws for one team and then the other, and fails exactly when the list runs dry. |
| TeamGenerator.DraftRound | src/team_generator/generator.py:59-66 | A round appends the first draw to the first team and the second draw to the second. |
| TeamGenerator.Draft | src/team_generator/generator.py:56-66 | The draft loop's result and remaining catalog are DraftOutcome. |
| TeamGenerator.DrawnPermutes | src/team_generator/generator.py:60-66 | Drawing only moves champions from the list to the drawn ones. |
| TeamGenerator.DrawnIds | src/team_generator/generator.py:60-66 | Counted by id, the champions drawn and those left in the list make up the catalog. |
| TeamGenerator.EvensOddsIds | src/team_generator/generator.py:59-66 | Counted by id, the two teams' draws make up all the draws. |
| TeamGenerator.DraftIds | src/team_generator/generator.py:59-66 | Counted by id, what the draws leave in the list plus both teams' champions is the catalog. |
| TeamGenerator.DrawnKeepsIdsApart | src/team_generator/generator.py:60-66 | From a catalog without repeated ids, no id is drawn twice or left behind once drawn. |
| TeamGenerator.EvensOddsApart | src/team_generator/generator.py:59-66 | Splitting the draws between the two teams keeps every id once. |
| TeamGenerator.DraftOutcomeSpec | src/team_generator/generator.py:56-66 | Fails exactly when the catalog has fewer than 2·rounds entries, leaving it empty. Otherwise each team gets rounds champions, all from the catalog, with no id twice when the catalog has none twice; counted by id, what is left plus both teams' champions is exactly the catalog. |
| TeamGenerator.GenerateRejectsOddCount | src/team_generator/generator.py:13-16 | An odd player count fails before anything else and leaves the catalog untouched. |
| TeamGenerator.GenerateRejectsNoPlayers | src/team_generator/generator.py:13-30 | No players passes the parity test, then fails on the division by a team size of zero. |
| TeamGenerator.GenerateDrafts | src/team_generator/generator.py:56-76 | A run fails exactly when the catalog runs dry. A success yields two teams, blue then red, with rounds champions each; counted by id, what is left of the caller's catalog plus both teams' champions is exactly the catalog. |
| TeamGenerator.NamesSwap | src/team_generator/generator.py:73 | Swapping the teams keeps the champion ids distinct. |
| TeamGenerator.IdsSwap | src/team_generator/generator.py:73 | Swapping the teams keeps the player ids distinct. |
| TeamGenerator.CandidatesAreHalfTheSplits | src/team_generator/generator.py:18-27 | The candidates are the C(2k - 1, k - 1) selections that take the first player, none twice, so no split appears again with its teams exchanged. |
| TeamGenerator.ChosenSplitsPlayers | src/team_generator/generator.py:24-33 | The chosen teams have half the players each, share no one, cover everyone, and are rated at their means. |
| TeamGenerator.ChosenSelection | src/team_generator/generator.py:26-28 | The chosen matchup is the one made by some selection. |
| TeamGenerator.MatchupOfSplits | src/team_generator/generator.py:27-33 | A well-splitting selection makes two disjoint halves that cover everyone, each rated at its mean. |
| TeamGenerator.GenerateSplitsPlayers | src/team_generator/generator.py:12-78 | A success seats two halves, blue then red, that share no player, cover everyone, and are rated at their means. |
| TeamGenerator.GenerateTeams | src/team_generator/generator.py:12-78 | The method's result and the caller's remaining catalog are Generate. |
| MatchCommands.RostersStayIn | src/service/match_service.py:34-56 | Rosters stay valid when the player table keeps its keys. |
| MatchCommands.Finalized | src/service/match_service.py:19-59 | Finalizing keeps the tables playable and the player keys, and writes the match back. |
| MatchCommands.CommandFinalize | src/cogs/match.py:154-161 | As written: refuses a missing or decided match. Otherwise it finalizes, and the match table stays exactly as it was, so the result stays unset. |
| MatchCommands.RecordedFinalize | src/ui/views.py:110-117 | Refuses a missing or decided match. Otherwise it records the result and finalizes, so a stored match ends up decided. |
| MatchCommands.CommandRevert | src/cogs/match.py:182-189 | Refuses a missing or undecided match, otherwise reverts. The sets of keys are kept. |
| MatchCommands.RecordedFinalizeOnce | src/ui/views.py:112-117 | A second button press, with any result, changes nothing. |
| MatchCommands.TwoPlayerTables | src/ui/views.py:110-117 | The two-player example is a valid set of tables. |
| MatchCommands.CommandFinalizeRepeats | src/cogs/match.py:154-161 | Two finalize commands on an even one-against-one mode 5 match move the players to 1520 and 1480 and write four rows. |
| MatchCommands.RecordedFinalizeScoresOnce | src/ui/views.py:110-117 | Two button presses on the same match move the players only to 1510 and 1490 and write two rows. |
| MatchCommands.CommandFinalizeBlocksRevert | src/cogs/match.py:154-189 | A match finalized by the command stays undecided, so the revert command refuses it. |
| MatchCommands.RecordedFinalizeThenRevert | src/ui/views.py:110-117 | Button press and then revert, with no open rows of the match before, restore every rating and the match table. |
| MatchCommands.ResultButton | src/ui/views.py:110-117 | The button's effect on the session is RecordedFinalize. |
| MatchCommands.FinalizeCommand | src/cogs/match.py:154-161 | The command's effect on the session is CommandFinalize. |
| MatchCommands.RevertCommand | src/cogs/match.py:182-189 | The command's effect on the session is CommandRevert. |
| GeneratedMatch.GeneratedTeamsScoreFairly | src/team_generator/generator.py:68-76 | Generated teams of distinct players have both sides, equal disjoint rosters of existing players, and finalize keeps their total rating. |

## Left out

- The expected-win probability `1/(1+10**(Δ/400))` is floating point. The model takes its complement, `lossChance`, as a parameter in [0, 1]. It keeps the rounding (ties to even) and the floor of 1.
- Rating.PointChange: the code's bound is derived for a losing chance in [0, 1]. The model does not relate `lossChance` to the two team ratings.
- Team means are `real` (the code's floats, without rounding error). This also applies to the gap. Integer sums would sort identically, because both halves have the same size.
- The sort is Python's stable sort, modelled as a stable insertion sort on an array. The model fixes the order of equal gaps the same way.
- `random.choice`, `randint` and `random.shuffle` are parameters: a pool index, draw positions and a swap bit. Their ranges are the preconditions.
- `choices_number` of `None` behaves as 0 (both are falsy in the source), and a negative number as no rounds. Only `int` is modelled.
- The other team comes from a Python set, so its order is the set's iteration order. The model keeps pool order (one player per id); the contracts speak of the team's ids, not its order.
- Every player object in the code is one ORM instance, so roster entries and the player table share ratings. The model keeps rosters as snapshots and reads and writes ratings through the player table by id, as one session's identity map does.
- MatchService.RevertMatch: the code iterates `match.elo_history`. The model scans the whole ledger for rows of the match, which are the same rows.
- MatchService.RevertMatch: a row with a null change makes the code fail with a type error. The model requires that no such row is open, and `Rating.FinalizeLeavesRevertible` shows finalize never writes one.
- MatchService.RegisterMatchChampions: the pick table's primary key is not checked on insert. The model appends the rows; a player rostered twice in one match would be rejected by the database in the code.
- MatchService.FinalizeMatch: a match without a team on each side makes the code fail on a missing team. The model requires both sides; every generated match has them.
- MatchService.RegisterMatchChampions: a missing match id makes the code fail on a missing match. The model requires the match to exist.
- ConfigRepo.GetPoolPlayers: the code returns a list in the database's order, and the team draw uses that order (the selections and the first player depend on it). The model returns a set; the order the pool hands to the generator is not modelled, and the generator takes its player list as given.
- The live game is looked up through the game server's client, which is network I/O. It becomes the participant list parameter; the session handling around registration is left out.
- Store.Session.Valid is not claimed by the finalize, revert, reset and register methods, because their contracts fix the whole new state instead.
- ConfigService.ResetElo: the ranked query's order (by rating, descending) is SQL and is left to the `ranked` parameter. `RankedQuery` states which players it returns.
- ConfigService.ResetElo: with ranked players but no season the code would fail on `season.id`. The query returns no one when there is no season, so that case cannot arise and the model follows the code.
- Clocks are left out: season start and end dates become an `ended` flag, and creation timestamps are not modelled.
- The match monitor (a timed background task) is concurrency and time, and is left out.
- Discord permission checks, messages and embeds are user-interface I/O.
- Other repository functions, statistics and the web API are outside this model.

## Findings

| source | as written | input that shows it | evidently intended | confidence | as-written member | corrected member |
|---|---|---|---|---|---|---|
| src/cogs/match.py:154-161 | The finalize command refuses a match whose result is set, but never sets the result before finalizing. The same match can therefore be finalized again and again, and the revert command refuses it (its result is unset). | Players 1 and 2 at 1500, one per side of match 7, mode 5, blue wins, losing chance 0.5. Two commands leave 1520/1480 and four ledger rows, where 1510/1490 and two rows were meant. The revert command then does nothing. | Record the result before finalizing, as the result buttons do at src/ui/views.py:115. | not executed | MatchCommands.CommandFinalizeRepeats | MatchCommands.RecordedFinalizeScoresOnce |
