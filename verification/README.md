# Halite match manager, modelled in Dafny

A model of the core of `manager.py`, the tournament manager for Halite bots.
The manager keeps a table of registered bots. It repeatedly picks a few of the
active ones, runs the game engine on them with a random square map and seed,
and parses the engine's report. It then rates the participants by their ranks,
saves their new ratings and re-ranks the whole table by skill.

The model is split into six modules, one per concern of the program:

- `Results` (results.dfy): the `Option` and `Result` types. `Error` has one constructor per exception the modelled code can raise.
- `PyText` (pytext.dfy): the parts of Python's string handling the program relies on. These are `str.split` with one separator, `int()` of a literal, `str()` of an integer and `bytes.decode('ascii')`.
- `Match` (match.dfy): `Match.get_command` and `Match.parse_results_string`, including Python's negative list indexing on a rank line.
- `Players` (players.dfy): the `Player` record and `Player.update_skill`. It also has `update_player_skill` and `update_ranks`, with the TrueSkill calculator as a function parameter.
- `Database` (database.dfy): the player table as a map from name to row. Its operations are `add_player`, `delete_player`, `activate_player`, `deactivate_player`, `update_player_skill`, `save_player` and `update_player_ranks`.
- `Manager` (manager.py's `Manager` class and the guard of `Commandline.run_matches`). It covers `pick_players` as a method with loop invariants and a recursive reference definition. It also covers the choices of `run_rounds`, one round (`run_round`) with its all-or-nothing commit, and the round loop.

Randomness, the engine process and the rating calculator are parameters:

- each `random.randint` call takes a natural-number draw, and `randint(low, high)` yields `low + draw mod (high - low + 1)`;
- the engine is a function from the command line to its printed bytes, or to a timeout;
- the rating engine is a function from the participants and their ranks to the posterior `(mu, sigma)` of each name.

Where the code and its documentation disagree, the model follows the code:

- **A failing round ends the run.** A report the parser refuses, an engine timeout or undecodable output is not caught anywhere. The exception ends `run_rounds`, and with it the whole run, rather than skipping the round. The round raises before any rating is applied or saved, so the state is the one the previous rounds committed.
- **A replay that cannot be disposed of ends the run.** After the participants are rated in memory, `run_match` disposes of the replay file named in the report. By default `keep_replays` is set and the file is moved into the replay directory. With `-n`/`--no-replays` the command line clears `keep_replays` (manager.py:353-355) and the file is deleted instead. The move raises when the file is missing or a replay of that name is already there. The delete raises when the file is missing. Both raise when the report's replay line is empty. The exception ends the run before anything is saved, so the table is exactly as the previous rounds left it. The ratings Python had already written into the in-memory players of that round are lost with the run; the model reports the players as the previous rounds left them.
- **An unknown name is ignored.** Updating the skill of a name that is not in the table changes nothing. It is not an error.
- **Non-positive rank indices are accepted.** A rank line's participant index goes through Python list indexing. Index `0` addresses the last participant, and index `-k` the `k+1`-th from the end. Only an index above the participant count, or at or below minus the count, raises.
- **The player count has a fixed lower bound.** It is drawn from `[2, min(players_max, len(players))]`. `players_min` is never used to choose the player count; it only appears in the message printed when too few players are active.

## Model

| member | source | states |
|---|---|---|
| PyText.Split | manager.py:110 | `s.split(sep)` yields one more piece than there are separators, and no piece contains the separator |
| PyText.JoinSplit | manager.py:110 | joining the pieces of a split with the separator gives the string back |
| PyText.SplitJoin | manager.py:117-123 | splitting a join of separator-free pieces gives the pieces back |
| PyText.IntToString | manager.py:86-88 | `str(n)` contains neither a space nor a newline, so it survives the space-joined options |
| PyText.NatToString | manager.py:86-88 | `str(n)` of a natural number is digits only, has no leading zero, and has the value `n` |
| PyText.IntToStringRoundTrip | manager.py:124-125 | `int(str(n)) == n` for every integer, with no limit on the number of digits |
| PyText.ParseInt | manager.py:124-125 | `int()` accepts only a literal whose stripped text ends in a digit, and a negative value only after a minus sign |
| PyText.NoDigitNoInt | manager.py:124 | a token without a digit is rejected by `int()` |
| PyText.ParseIntIgnoresTrailingSpace | manager.py:124-125 | `int()` ignores surrounding white space, so a trailing space or carriage return on a rank token changes nothing |
| PyText.DecodeAscii | manager.py:96 | decoding succeeds iff every byte is below 128, gives one character per byte, and on failure names the first non-ASCII position |
| PyText.AsciiRoundTrip | manager.py:96 | decoding the ASCII encoding of a string gives the string back |
| Match.GetCommand | manager.py:85-90 | the command has `4 + n` arguments: the binary first, the quiet flag third, and the paths last in their order |
| Match.CommandTokens | manager.py:86-88 | each option travels with its values in one argument: the map argument splits into `-d`, the width and the height, and the seed argument into `-s` and the seed |
| Match.CommandReadsBack | manager.py:85-90 | the width, height and seed read back from the argument tokens with `int()` are exactly the values chosen |
| Match.ListSlot | manager.py:126 | `results[i]` on a list of length `n` exists iff `-n <= i < n`, and denotes the slot `i` or `i + n` below `n`, so negative indices count from the end |
| Match.ParseRankLine | manager.py:123-126 | a decoded rank line always names an existing slot |
| Match.RankLineRoundTrip | manager.py:123-126 | the line `"r i"` with `1 <= i <= n` sets slot `i-1` to `r` |
| Match.RankLineIndexFromEnd | manager.py:125-126 | an index `i` in `(-n, 0]` is accepted and sets slot `i-1+n`; index 0 sets the last slot |
| Match.RankLineIndexTooLarge | manager.py:125-126 | an index above `n` raises IndexError |
| Match.RankLineNonInteger | manager.py:124 | a rank token without a digit raises ValueError on that token |
| Match.RankLineErrors | manager.py:123-126 | a rank line can fail only on a literal, a missing token or an index, never on the line count |
| Match.ParseResults | manager.py:109-112 | the report is refused with the line count iff it has fewer than `2n+2` lines; on success there are exactly `n` results |
| Match.ScanLines | manager.py:114-127 | the line loop, branch by branch in the source's order, keeps `n` results on success; its meaning is stated by `ScanIsFieldwise` |
| Match.ScanNeverShort | manager.py:114-127 | the line loop itself never raises the line-count error |
| Match.DecodeLines | manager.py:122-126 | each rank line yields one decoding, and every decoded line names a slot of the match |
| Match.DecodeLinesAt | manager.py:122-126 | the `i`-th decoding is that of the `i`-th rank line |
| Match.EntriesDecodeLines | manager.py:122-126 | when all rank lines decode, the entries are those of the lines, in order |
| Match.BadLineFailsEntries | manager.py:122-126 | one rank line that does not decode fails the decoding of all of them |
| Match.FirstBadLine | manager.py:122-126 | a failed decoding reports the error of the first rank line that does not decode, all earlier lines decoding |
| Match.ApplyEntriesIsLastRank | manager.py:122-126 | applying the rank lines in order leaves in each slot the rank of the last line naming it, or stops at the first bad line with its error |
| Match.ScanRankLines | manager.py:114-126 | the loop's pass over the rank lines stops at the first bad line with its error, or applies every entry in order |
| Match.ScanAppliesRankLines | manager.py:114-127 | a pass from the top takes the replay name from line `n`, applies the rank lines to the zero results and takes the timeouts from line `2n+1` |
| Match.ScanIsFieldwise | manager.py:114-127 | the loop over the lines computes the field-by-field reading |
| Match.ParseResultsIsFieldwise | manager.py:109-127 | the single pass over the lines equals the field-by-field reading of lines `n .. 2n+1` |
| Match.ParseSuccess | manager.py:115-126 | on success the replay file is the first token of line `n`, the timeouts are the space-split of line `2n+1`, and each result is the rank of the last line naming it, else 0 |
| Match.UnnamedSlotIsZero | manager.py:68 | a participant no rank line names keeps the initial rank 0 |
| Match.LaterLineWins | manager.py:126 | of two rank lines for the same participant, the later overwrites the earlier |
| Match.BadRankLineFails | manager.py:122-126 | any rank line that does not decode makes the whole parse fail |
| Match.OnlyFieldLinesMatter | manager.py:115-121 | outputs that agree on lines `n .. 2n+1` parse alike, whatever their header lines and lines past `2n+1` |
| Players.NewPlayer | manager.py:261-270 | a new player has rank 1000, skill 0, mu 50, sigma 50/3, no games and is active; its skill agrees with `mu - 3 sigma` |
| Players.UpdateSkill | manager.py:275-276 | the skill becomes `mu - 3 sigma` and nothing else changes |
| Players.Rated | manager.py:41-43 | a player given `mu` and `sigma` keeps every other field, and its skill agrees with them |
| Players.FirstWithName | manager.py:38-40 | the position found is the first whose name matches, and there is none exactly when no name matches |
| Players.UpdatePlayerSkill | manager.py:36-44 | only the first player with the name is re-rated, with nothing changed if none matches |
| Players.UpdatePlayerSkillEffect | manager.py:36-44 | every player keeps name, path, rank, games and flag; others than the named one are untouched; skill stays consistent |
| Players.ApplyPosteriors | manager.py:55-58 | applying the posteriors one after another keeps the number of players; `ApplyPosteriorsEffect` and `ApplyPosteriorsRating` state the effect |
| Players.ApplyPosteriorsEffect | manager.py:55-58 | applying the engine's posteriors changes only ratings, leaves unnamed players untouched and keeps skills consistent |
| Players.ApplyPosteriorsRating | manager.py:55-58 | with unique names each player ends with the rating of the last posterior naming it, or its own |
| Players.LastPosteriorFirst | manager.py:55-58 | the first posterior only replaces the prior of its own name |
| Players.UpdateRanks | manager.py:47-58 | rating a match keeps the number of players |
| Database.ToPlayer | manager.py:278-280 | reading a row as a player keeps the name and loses or swaps no column: writing the player's fields back gives the row |
| Database.NewRecordIsNewPlayer | manager.py:229 | the inserted row reads back as a freshly constructed player |
| Database.AddPlayer | manager.py:228-229 | the insert fails with the name iff it is taken; otherwise it adds exactly that row with the default rating and leaves the others alone |
| Database.DeletePlayer | manager.py:231-232 | the row is removed and every other row is unchanged |
| Database.DeleteUndoesAdd | manager.py:228-232 | deleting a just-added player restores the table |
| Database.ActivatePlayer | manager.py:253-254 | only the active flag of the named row is set |
| Database.DeactivatePlayer | manager.py:256-257 | only the active flag of the named row is cleared; the row stays |
| Database.ReactivateRestores | manager.py:253-257 | deactivating and reactivating an active player restores the table |
| Database.UpdatePlayerSkill | manager.py:243-244 | the named row gets one more game and the given rating, other fields and rows are unchanged, and an absent name changes nothing |
| Database.SavePlayer | manager.py:240-241 | saving a player gives its row one more game and the player's skill, `mu` and `sigma`, and changes nothing else; an unknown name changes nothing |
| Database.SavePlayers | manager.py:151-154 | saving players keeps the set of rows |
| Database.SavePlayersEffect | manager.py:151-154 | with unique names, each saved player's row gets one more game and its rating; rows of other players are unchanged |
| Database.AssignRanksEffect | manager.py:250-251 | numbering distinct names gives the `i`-th name rank `first + i` and leaves other rows alone |
| Database.UpdatePlayerRank | manager.py:246-247 | only the rank of the named row changes |
| Database.UpdatePlayerRanks | manager.py:249-251 | re-ranking keeps the table's names; `RanksByPosition`, `RanksAreDense` and `RanksAreBySkill` state the ranks it gives |
| Database.RanksByPosition | manager.py:249-251 | with a valid query result, the `i`-th name gets rank `i+1` |
| Database.RanksAreDense | manager.py:249-251 | after re-ranking the ranks are exactly `1..N`, one per row, and nothing but the rank changes |
| Database.RanksAreBySkill | manager.py:249-251 | after re-ranking a better rank never has lower skill, and a strictly higher skill always has the better rank |
| Database.PositionsFollowSkill | manager.py:249-251 | ranking each row by its position in a non-increasing skill order makes ranks follow skill in both directions |
| Database.RankingQuery | manager.py:250 | the ranking query lists every name exactly once in non-increasing order of skill |
| Database.ActivePlayers | manager.py:342-343 | the players loaded for a run are exactly the active rows, read back field by field, with distinct names |
| Manager.RandInt | manager.py:169-173 | `randint(low, high)` raises with its bounds iff `high < low`, and otherwise lies in `[low, high]` |
| Manager.RandIntReachesAll | manager.py:169-173 | every value of a non-empty range is reachable with some draw |
| Manager.RemoveFirst | manager.py:163 | `list.remove(x)` shortens the list by one; `RemoveFirstSpec` says which element goes |
| Manager.RemoveFirstCounts | manager.py:163 | `list.remove(x)` removes exactly one copy of `x` |
| Manager.RemoveFirstSpec | manager.py:163 | `list.remove(x)` deletes the first occurrence and keeps the order of the rest |
| Manager.PickFromSpec | manager.py:156-165 | picking fails iff more are wanted than the pool holds, with `randint(0, -1)`'s error; otherwise it keeps what is chosen and adds only pool members |
| Manager.PickPlayers | manager.py:156-165 | the loop computes the reference selection. It fails iff `num > size`; otherwise it returns `num` distinct indices below `size`, keeping chosen plus open a permutation of `0..size-1` |
| Manager.Pick | manager.py:156-165 | the selection fails iff more players are wanted than exist, and then with `randint(0, -1)`'s error |
| Manager.PickSpec | manager.py:156-165 | the reference selection returns `num` distinct indices below `size` iff `num <= size` |
| Manager.ChooseRound | manager.py:169-173 | a round has between 2 and `min(players_max, len)` distinct participants, a square map whose side is a multiple of 5 within the bounds, and a seed in `[10000, 2073741824]`; it raises exactly when one of the ranges is empty |
| Manager.DefaultRoundsChoose | manager.py:169-173 | with the constructor's default settings and two or more players the choice never raises, and uses 2 to 6 players on a side of 20 to 50 |
| Manager.Participants | manager.py:143 | the participants are the picked players in pick order |
| Manager.Paths | manager.py:66 | the paths are the participants' paths in order |
| Manager.ReplayMoves | manager.py:100-107 | disposing of the replay, by a move when replays are kept or a delete under `--no-replays`, raises for an empty replay name and whenever the file system refuses |
| Manager.PlayMatch | manager.py:92-107 | a timeout, a decoding error, a short report or any other report the parser refuses is the round's error; a replay that cannot be moved or deleted raises after the rating; otherwise the participants are rated by exactly the parsed ranks, and keep everything but their rating |
| Manager.Scatter | manager.py:143-148 | writing the rated participants back keeps the number of players; `ScatterEffect` says where each lands |
| Manager.ScatterEffect | manager.py:143-148 | the rated participants replace exactly their own entries in the manager's list |
| Manager.Commit | manager.py:148-149 | saving the participants and re-ranking keeps the table's names and the number of players |
| Manager.RunRound | manager.py:142-149 | a completed round keeps the table's names and the number of players |
| Manager.ShortOutputAborts | manager.py:142-149 | a report with fewer than `2n+2` lines makes the round raise before any rating is applied or saved |
| Manager.RoundFollowsReport | manager.py:98-107 | with a decoded report the round raises the parser's error, or the replay error, or commits the participants rated by exactly the parsed ranks |
| Manager.RoundKeepsRoster | manager.py:142-149 | a completed round changes only the participants' ratings in memory, and names stay distinct |
| Manager.RatedNamesUnique | manager.py:143-148 | the rated participants carry distinct names, those of the participants |
| Manager.RoundSavesParticipants | manager.py:148 | each participant's row gets one more game and the rating it now has in memory; only its rank may differ otherwise |
| Manager.RoundKeepsBystanders | manager.py:148-149 | rows of players who did not play keep everything but their rank |
| Manager.RoundRanksBySkill | manager.py:149 | after a completed round the ranks are `1..N` in order of skill |
| Manager.Step | manager.py:169-175 | a completed turn keeps the table's names and the number of players |
| Manager.Loop | manager.py:168-176 | the round count grows by one per completed turn; the run completes iff the loop condition fails, is interrupted only when the fuel runs out, and leaves the state as it was if no turn completes |
| Manager.LoopCount | manager.py:168-176 | with `rounds >= 0` the count never passes `rounds`, and given enough turns the run ends with exactly `rounds` rounds unless one raises; a negative `rounds` never completes |
| Manager.StepAdvances | manager.py:169-175 | a completed turn keeps the table's names and the players' non-rating fields, and leaves dense ranks in skill order |
| Manager.AdvancesTransitive | manager.py:168-176 | two completed turns in a row keep what one turn keeps |
| Manager.LoopKeeps | manager.py:168-176 | a loop whose every turn keeps an invariant and moves the state along a transitive relation keeps the invariant, and once a turn has completed relates its last state to its first |
| Manager.RunRounds | manager.py:167-176 | the round count never decreases; the run completes iff the loop condition fails, and never reports too few players |
| Manager.RunRoundsInvariant | manager.py:167-176 | through the round loop the table keeps its names, players keep theirs, and after a round the ranks are `1..N` in skill order |
| Manager.RunMatches | manager.py:341-350 | with fewer than two active players nothing runs and the table is untouched |
| Manager.RunMatchesEffect | manager.py:341-350 | a run keeps the table's names, and after a round its ranks are dense and follow skill |
| Manager.AddPlayer | manager.py:178-183 | a taken name leaves the table unchanged; otherwise the default row is inserted; other rows never change |

## Left out

- The process plumbing of `run_match` (manager.py:93-97) is left out: spawning the engine, the return code and the pipes. The engine is a function parameter that either prints bytes or times out.
- The time limit `2 * n * sqrt(w * h) * 10` (manager.py:33-34, 144) uses floating-point `sqrt`. It only decides when the engine times out, which the engine parameter already covers.
- The TrueSkill calculation of the `skills` library (manager.py:49-53) is foreign floating-point code. It is the `RatingEngine` parameter.
- Creating the replay directory, the move and the delete (manager.py:100-107) are file-system I/O. Only their outcome is modelled: the engine run says whether the branch `keep_replays` selects succeeds. The `--no-replays` flag itself is not part of the model state.
- Floating point: `skill`, `mu` and `sigma` are Python floats and SQLite `real` columns, modelled as exact `real`s. Rounding in `mu - sigma * 3`, NaN or infinity from the rating library, and where SQLite sorts such values under `order by skill desc` are not modelled.
- PyText.ParseInt: models Python 3.6 to 3.10 `int()`, which accepts `_` between digits and literals of any length. Python 3.11 and later, and the security releases 3.7.14, 3.8.14, 3.9.14 and 3.10.7, raise ValueError for more than 4300 digits. So does `str()` of such an integer, which PyText.IntToStringRoundTrip does not model.
- The SQLite connection, SQL text, commits, schema creation, the `now()` timestamps and the `last_seen` column (manager.py:186-221) are abstracted to a map from name to row.
- `Database.add_match` (manager.py:223-226) refers to an undefined `turns` and is never called.
- `Database.get_player` (manager.py:234-238) is used only as the membership test of `Manager.add_player`, which is `name in db` here.
- Argument parsing, the other `Commandline` commands and all printing (manager.py:283-399) are left out. The `< 2` guard of `run_matches` is kept.
- The random number generator is left out: draws are parameters. Manager.RandInt: reduces a draw modulo the range size, which is a model of the draw and not of Python's generator.
- The order SQLite gives to players of equal skill is unspecified. Database.RankingQuery picks some valid order, and the lemmas hold for any.
- Manager.ChooseRound: uses integer division for `size_min / 5` and `size_max / 5`. Python 3 divides to a float there, which `randint` refuses unless the bounds are multiples of 5, or refuses outright in recent versions. With the defaults (20, 50) both divisions are exact.
- Manager.Loop: the loop for a negative `rounds` never stops on its own, so `fuel` bounds the number of turns started. Running out of fuel models the operator interrupting the program between rounds.
- Manager.Commit: an interrupt in the middle of a round is not modelled. Every `update` commits on its own (manager.py:214-216), so an interrupt during `save_players` (manager.py:151-154) can leave some participants' rows saved and the ranks not recomputed. The model commits a round's rows and ranks together.
- Manager.PlayMatch: `copy.deepcopy` of the results (manager.py:99) needs no counterpart, since sequences are values.
