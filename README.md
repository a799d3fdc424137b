# Chess tournament manager: pairing and scoring engine

A Dafny model of the core of a small Python chess tournament manager.
The model covers the following parts.

- **Swiss pairing** (`generate_pairs_for_round`).
  - In round 0 every unordered pair of the roster is shuffled, and disjoint pairs are accepted greedily.
  - In later rounds the roster is sorted by `score`, highest first. The head player is paired with the earliest not-yet-met opponent of closest score.
  - Every accepted pair is recorded both ways in `played_pairs`, and the new matches are appended to `rounds[current_round]`.
- **Match scoring** (`Match.play_match`): one outcome credits one point to the first highest or first lowest player, or half a point to everyone.
- **Totals and leaderboard**: `calculate_total_score` and `calculate_leaderboard`.
- **Records**: rounds, players and the `__getitem__` accessor.
- **Repository logic**: over an in-memory list of tournament records.
- **National chess ID validator**.
- **Earlier drafts**: the score-table tournament, the two-player match, the registration list and the round stub.

Modules, one file each:

| file | module | models |
|---|---|---|
| common.dfy | Common | `Option`, `Result`, distinctness, decimal text of integers |
| ordered_dicts.dfy | OrderedDicts | Python dictionaries as insertion-ordered key/value sequences |
| formatvalidator.dfy | FormatValidator | chess/utils/formatvalidator.py |
| player.dfy | Players | chess/model/player.py (names, `title()`, JSON record) |
| match.dfy | Matches | chess/model/match.py |
| scoring.dfy | Scoring | `calculate_total_score`, the stable descending sort, the leaderboard dictionary |
| pairing.dfy | Pairing | the two pairing rules as functions, with their matching properties |
| round.dfy | Rounds | chess/model/round.py |
| tournament.dfy | Tournaments | chess/model/tournament.py (class, pairing loops, leaderboard, round cursor) |
| repository.dfy | TournamentRepository | chess/repository/tournament_repository.py without file I/O |
| draft_match.dfy | DraftMatches | match.py |
| score_table.dfy | ScoreTables | model/tournament.py |
| registration.dfy | Registrations | tournament.py |
| draft_round.dfy | DraftRounds | model/round.py |

Modelling choices:

- **Players.** A player is a value with an `id` that stands for object identity. `Player` defines no `__eq__`, so two players are equal only when they are the same object.
- **Points.** Points are `real` in the `chess/` package. They are `int` in the drafts, whose score table is annotated `Dict[str, int]`.
- **Randomness.** `random.shuffle` and `random.choice` are parameters.
  - `shuffled` is the list the shuffle produced.
  - `outcome(k)` is the result drawn for the k-th match of one call.
  - The lemmas about round 0 take as hypothesis that `shuffled` is an ordering of `combinations(players_list, 2)`.
- **Dictionaries.** A dictionary is a sequence of `(key, value)` items in insertion order. `Put` is `d[k] = v`: it overwrites in place or appends.
- **Errors.** An exception is an `Err` carrying the exception's name and message.

## Model

| member | source | states |
|---|---|---|
| Tournaments.Tournament.GeneratePairsForRound | chess/model/tournament.py:128-200 | the pairs made are those of the round rule (greedy scan in round 0, closest-score rule later); `played_pairs` grows by exactly those pairs in both orientations; the k-th new match holds `{p1: 0, p2: 0}` played with the k-th outcome; `rounds[current_round]` (Python indexing, negative allowed) gets the new matches appended in acceptance order with its other fields untouched; no other field changes; a missing index raises IndexError after the pairs were recorded |
| Tournaments.PairFirstRound | chess/model/tournament.py:131-155 | the loop over the shuffled pairs with `paired_players` accepts exactly the greedy scan's pairs, records each both ways and plays one match per pair, in order |
| Tournaments.FindOpponent | chess/model/tournament.py:172-183 | the search loop returns the earliest legal opponent of least score difference, or none exactly when no legal opponent remains |
| Tournaments.PairLaterRounds | chess/model/tournament.py:159-198 | the while loop over the sorted players makes exactly the closest-score pairs of the stably sorted roster, recording each both ways and playing one match per pair |
| Tournaments.PairRound | chess/model/tournament.py:128-198 | the branch on `current_round == 0` selects the round-0 or later-round loop |
| Tournaments.RoundPairsIsMatching | chess/model/tournament.py:136-197 | on a roster without repetitions the pairs of one call, in either branch, pair no player with itself, share no player, and use only roster players |
| Tournaments.PlayNewMatch | chess/model/tournament.py:144-147 | a fresh match `{p1: 0, p2: 0}` after `play_match` holds the played points and the drawn result |
| Tournaments.PlayedAsPairedAt | chess/model/tournament.py:185-187 | the k-th created match holds the points of the k-th pair played with the k-th outcome |
| Tournaments.PyIndex | chess/model/tournament.py:200 | Python list indexing: valid exactly for `-n <= i < n`, negative indexes count from the end |
| Tournaments.Tournament.constructor | chess/model/tournament.py:29-55 | name, place, dates, director note and current round are kept; rounds, score table, player list and played pairs start empty whatever was passed |
| Tournaments.Tournament.GetItem | chess/model/tournament.py:57-90 | succeeds exactly for the ten field keys; any other key raises KeyError "Invalid key: key" |
| Tournaments.GetItemFields | chess/model/tournament.py:69-88 | each of the ten keys gives back its own field |
| Tournaments.Tournament.GetPlayers | chess/model/tournament.py:113-119 | returns the player list itself |
| Tournaments.Tournament.AddRoundAsWritten | chess/model/tournament.py:121-126 | as written: raises TypeError exactly when `num_rounds >= 1`, and no round is added |
| Tournaments.Tournament.AddRound | chess/model/tournament.py:121-126 | as intended: `max(num_rounds, 0)` fresh empty rounds named "Round 1", "Round 2", ... are appended; earlier rounds and all other fields stay |
| Tournaments.HistoryOf | chess/model/tournament.py:312 | the history read by `calculate_total_score` is every round's match points, round by round |
| Tournaments.CalculateLeaderboard | chess/model/tournament.py:310-317 | `players_score` becomes the name-to-total dictionary built from the stably sorted leaderboard of the roster's totals; roster, rounds, played pairs, cursor and notes are unchanged |
| Tournaments.PlayCursorBelowRoundCount | chess/model/tournament.py:235-251 | when the loop of `play_tournament` stops (the point where it would save), the cursor is below the number of rounds and not below the starting cursor |
| Tournaments.PlayCursorToTheEnd | chess/model/tournament.py:235-251 | answering "y" every time makes the loop stop at `current_round == len(rounds) - 1` |
| Pairing.CombinationsMembers | chess/model/tournament.py:132 | `combinations(roster, 2)` holds every `(roster[i], roster[j])` with `i < j`, and nothing else |
| Pairing.ShuffledCombinations | chess/model/tournament.py:132-133 | after the shuffle every roster pair is still present, every pair is made of roster players, and no pair repeats a player |
| Pairing.DistinctFlattenIsMatching | chess/model/tournament.py:136-154 | pairs whose players are all different pair nobody with themselves and share no player |
| Pairing.BothMembers | chess/model/tournament.py:150-151 | the recorded set holds exactly the accepted pairs and their reversals |
| Pairing.BothSymmetric | chess/model/tournament.py:190-191 | every accepted pair is recorded in both orientations, and the recorded set is symmetric |
| Pairing.GreedyScanDisjoint | chess/model/tournament.py:138-154 | the greedy scan takes pairs from its input whose players are all distinct and were not paired before |
| Pairing.GreedyScanMaximal | chess/model/tournament.py:138-154 | every input pair the scan skipped has a player that was already paired |
| Pairing.FirstRoundLeavesOneAtMost | chess/model/tournament.py:132-154 | of any two different roster players at least one is paired in round 0 |
| Pairing.FirstRoundPlayersFromRoster | chess/model/tournament.py:132-154 | round 0 pairs only roster players, each at most once |
| Pairing.FirstRoundCount | chess/model/tournament.py:132-154 | round 0 leaves at most one roster player unpaired |
| Pairing.FirstRoundIsMatching | chess/model/tournament.py:136-154 | round 0 pairs form a matching of roster players |
| Pairing.FirstRoundEvenRoster | chess/model/tournament.py:132-154 | an even roster of n players gets exactly n/2 matches in round 0 |
| Pairing.BestOpponent | chess/model/tournament.py:172-181 | none exactly when no later player is legal; otherwise a legal opponent of least score difference, the earliest among equals (strict `<`) |
| Pairing.BestOpponentUnique | chess/model/tournament.py:174-181 | the best opponent is unique |
| Pairing.RemoveFirst | chess/model/tournament.py:195 | `list.remove(x)` shortens the list by one and takes away exactly one `x` from its multiset of players |
| Pairing.RemoveFirstAt | chess/model/tournament.py:195 | `list.remove(x)` removes the first occurrence of `x`: the result is the list without that position, the others in their order |
| Pairing.AfterPairing | chess/model/tournament.py:195-197 | removing both paired players shortens the list by two and takes away exactly the head and the opponent from its multiset |
| Pairing.AfterPairingKeepsOrder | chess/model/tournament.py:195-197 | after both removals the rest is the list without the head and without the first occurrence of the opponent, in the original order |
| Pairing.Opponent | chess/model/tournament.py:166-183 | the chosen second player is a later player of the sorted list |
| Pairing.LaterPairsStep | chess/model/tournament.py:165-197 | one iteration pairs the head with its opponent and continues on the rest, with the new pair recorded |
| Pairing.LaterPairsFromRoster | chess/model/tournament.py:165-197 | later-round pairs use each sorted player at most once |
| Pairing.LaterPairsIsMatching | chess/model/tournament.py:195-197 | later-round pairs form a matching of the sorted players |
| Pairing.LaterPairsRematchOnlyLast | chess/model/tournament.py:169-181 | every later-round pair is legal except possibly the last one, and only when it takes the final two players |
| Pairing.LaterPairsCount | chess/model/tournament.py:165-197 | at most all players are paired, and never exactly two are left over |
| Pairing.LaterPairsFirstStep | chess/model/tournament.py:166-183 | two players are paired outright; three or more with no legal opponent stop the round with no pair; otherwise the first pair takes the best opponent |
| Pairing.LaterRoundPairing | chess/model/tournament.py:159-197 | the sort keeps the roster and orders it by `score`, highest first; the pairs form a matching of roster players, leave no two players behind, and only the final-two pair can be a rematch |
| Scoring.TotalOfAbsentPlayer | chess/model/player.py:34-41 | a player in no match gets exactly `self.score` |
| Scoring.MatchesTotalAppend | chess/model/player.py:38-40 | the points over a match list split over any split of the list |
| Scoring.HistoryTotalAppend | chess/model/player.py:37-40 | the total is a sum over rounds: it splits over any split of the history |
| Scoring.TotalAfterNewRound | chess/model/player.py:34-41 | one more round raises the total by exactly that round's points; `previous_scores` has no effect |
| Scoring.SortDescCorrect | chess/model/tournament.py:315 | `sorted(..., reverse=True)` gives a permutation, in descending key order, with equal keys in input order |
| Scoring.MapSortDesc | chess/model/tournament.py:315 | sorting permutes any projection of the elements too |
| Scoring.Totals | chess/model/tournament.py:312-313 | each roster player paired with its total, in roster order |
| Scoring.ScoresByNameDistinct | chess/model/tournament.py:317 | with distinct names the dictionary comprehension keeps every board entry, in board order |
| Scoring.LeaderboardNames | chess/model/tournament.py:312-317 | the board's names are the roster's names, in another order, still distinct |
| Scoring.LeaderboardEntries | chess/model/tournament.py:312-317 | with distinct names each board entry becomes one dictionary item, in board order |
| Scoring.LeaderboardScores | chess/model/tournament.py:312-317 | with distinct names the dictionary has one key per roster name; each player's key maps to that player's total; values descend |
| Scoring.LeaderboardDescending | chess/model/tournament.py:315 | the board is sorted by total, highest first |
| Scoring.LeaderboardKeys | chess/model/tournament.py:317 | with distinct names the dictionary's keys are the roster's full names, each once |
| Scoring.LeaderboardOrder | chess/model/tournament.py:315-317 | with distinct names the dictionary's values descend in insertion order |
| Scoring.LeaderboardLookup | chess/model/tournament.py:312-317 | with distinct names, looking up a player's full name gives that player's `calculate_total_score` |
| Scoring.ScoresFromAbsent | chess/model/tournament.py:317 | a name that no later board entry carries keeps the value it already had |
| Scoring.ScoresFromLast | chess/model/tournament.py:317 | whatever the names, the last board entry with a given name decides the value stored under it |
| Scoring.LastOfNameExists | chess/model/tournament.py:317 | every board entry's name has a last entry carrying it, at or after that entry |
| Scoring.ScoresByNameValue | chess/model/tournament.py:317 | whatever the names, a name is a key of the comprehension's dictionary exactly when a board entry carries it, and it holds the value of the last such entry |
| Scoring.LeaderboardNamesAll | chess/model/tournament.py:312-315 | whatever the names, the sorted board's names are the roster's full names, in another order |
| Scoring.LeaderboardEntryIsTotal | chess/model/tournament.py:312-315 | every entry of the sorted board is a roster player paired with its `calculate_total_score` |
| Scoring.LeaderboardLastOfName | chess/model/tournament.py:312-317 | whatever the names, the last board entry with a name is a roster player, and the dictionary holds that player's total under that name |
| Scoring.LeaderboardKeysShared | chess/model/tournament.py:312-317 | whatever the names, a name is a key of `players_score` exactly when it is some roster player's full name |
| Scoring.LeaderboardValuesShared | chess/model/tournament.py:312-317 | whatever the names, every key of `players_score` holds the total of a roster player with that full name |
| Matches.NewPoints | chess/model/tournament.py:144 | `{p1: 0, p2: 0}` has keys p1, p2 in that order (one key when they are the same object), all at 0 |
| Matches.NewPointsByAssignment | chess/model/tournament.py:185 | the literal equals the two assignments into an empty dictionary |
| Matches.FirstMax | chess/model/match.py:43 | `max(players, key=players.get)` is the first key of greatest points |
| Matches.FirstMin | chess/model/match.py:46 | `min(players, key=players.get)` is the first key of least points |
| Matches.Credit | chess/model/match.py:44 | crediting one key keeps the keys |
| Matches.CreditAll | chess/model/match.py:49-50 | the draw loop keeps the keys |
| Matches.Played | chess/model/match.py:36-56 | playing an outcome keeps the keys |
| Matches.SumCredit | chess/model/match.py:44 | crediting x to one key raises the total by x |
| Matches.SumCreditAll | chess/model/match.py:49-50 | a draw raises the total by half a point per player |
| Matches.TwoPlayerTotalRisesByOne | chess/model/match.py:39-56 | on a two-player match every outcome raises the total by exactly 1 |
| Matches.DrawAddsHalfToEveryone | chess/model/match.py:48-50 | a draw adds exactly 0.5 to every player |
| Matches.WinCreditsFirstHighest | chess/model/match.py:42-44 | a win adds 1 to the first highest player and leaves the others |
| Matches.LossCreditsFirstLowest | chess/model/match.py:45-47 | a loss adds 1 to the first lowest player and leaves the others |
| Matches.FreshMatchCreditsFirstPlayer | chess/model/match.py:42-50 | on `{p1: 0, p2: 0}` win and loss both credit p1; a draw gives 0.5 each |
| Matches.Match.constructor | chess/model/match.py:23-26 | keeps the points dictionary; no result yet |
| Matches.Match.PlayMatch | chess/model/match.py:34-56 | stores the outcome as the result; applies exactly one update (the `return` inside the loop); returns the outcome, or nothing on an empty dictionary; keys unchanged |
| Matches.Match.HasPlayer | chess/model/match.py:58-60 | true exactly when the player is a key of the points dictionary |
| Players.TitleAt | chess/model/player.py:18-19 | `title()` upper-cases a cased character after an uncased one, lower-cases one after a cased one, keeps uncased ones |
| Players.TitleIdempotent | chess/model/player.py:18-19 | `title()` applied twice is `title()` |
| Players.NewPlayer | chess/model/player.py:17-22 | birth and ID kept, names title-cased with their lengths kept, score 0 |
| Players.Fullname | chess/model/player.py:30-32 | first name, one space, last name |
| Players.ToJson | chess/model/player.py:43-55 | the record holds the four fields |
| Players.FromJsonToJson | chess/model/player.py:57-75 | reading back keeps birth and ID, title-cases the names, resets the score, and is a different player unless it gets the original identity |
| Players.RoundTripOfConstructedPlayer | chess/model/player.py:43-75 | a constructed player reads back as itself, up to identity |
| Rounds.Round.constructor | chess/model/round.py:19-24 | keeps only the name: no matches, no played pairs, times None |
| Rounds.Round.AddMatch | chess/model/round.py:50-52 | appends at the end, nothing else changes |
| Rounds.Round.ExtendMatches | chess/model/tournament.py:200 | `matches.extend` appends in order, nothing else changes |
| Rounds.Round.GetMatches | chess/model/round.py:54-60 | the current match list itself |
| Rounds.Round.FromJson | chess/model/round.py:36-48 | a fresh round with the record's name and times, the decoded matches in order, and no played pairs |
| FormatValidator.ValidateNationalChessIdFormat | chess/utils/formatvalidator.py:26-34 | true exactly for length 7, two ASCII letters, then five ASCII digits; total |
| FormatValidator.ExampleIds | chess/utils/formatvalidator.py:26-34 | "AB12345" passes; one character too many, a digit among the letters, or a letter among the digits each fails |
| TournamentRepository.FindByName | chess/repository/tournament_repository.py:54-57 | the first stored record with that name, or none exactly when no record has it |
| TournamentRepository.Upsert | chess/repository/tournament_repository.py:54-60 | replaces the first same-name record in place (length kept, others unchanged) or appends at the end |
| TournamentRepository.UpsertStores | chess/repository/tournament_repository.py:54-60 | after the upsert the first record of that name is the new one |
| TournamentRepository.UpsertIdempotent | chess/repository/tournament_repository.py:54-60 | saving the same record twice equals saving it once |
| TournamentRepository.Unfinished | chess/repository/tournament_repository.py:84-89 | the filter keeps at most the stored records |
| TournamentRepository.UnfinishedMembers | chess/repository/tournament_repository.py:84-89 | a record is listed exactly when it is stored and `current_round < len(rounds) - 1` |
| TournamentRepository.UnfinishedAppend | chess/repository/tournament_repository.py:84-89 | the filter keeps stored order: it distributes over concatenation |
| TournamentRepository.InsertNameSorted | chess/repository/tournament_repository.py:115 | one insertion step keeps names sorted |
| TournamentRepository.SortNames | chess/repository/tournament_repository.py:115 | the sort is a permutation |
| TournamentRepository.SortNamesSorted | chess/repository/tournament_repository.py:115 | the sort's output is in ascending order |
| TournamentRepository.Names | chess/repository/tournament_repository.py:117-118 | one name per record, in order |
| TournamentRepository.TournamentsByAlphabeticalOrder | chess/repository/tournament_repository.py:114-119 | a permutation of the stored names, sorted ascending |
| TournamentRepository.TournamentStatus | chess/repository/tournament_repository.py:151-156 | " Tournoi terminé" exactly when `current_round == len(rounds)`, else "Round actuel : c sur n" |
| TournamentRepository.LastRoundInLimbo | chess/repository/tournament_repository.py:151-156 | a record at `current_round == len(rounds) - 1` is neither unfinished for the filter at lines 84-89 nor finished for the status rule |
| TournamentRepository.PlayedToTheEndInLimbo | chess/repository/tournament_repository.py:151-156 | a tournament played to the end stops with its cursor in that in-between state |
| TournamentRepository.StoppedNeverFinished | chess/repository/tournament_repository.py:151-156 | a record with the cursor at which `play_tournament` stops is never reported finished |
| TournamentRepository.TournamentStore.constructor | chess/repository/tournament_repository.py:73-74 | a store without a file holds no records |
| TournamentRepository.TournamentStore.AddTournament | chess/repository/tournament_repository.py:54-60 | the stored list becomes the upsert of the record |
| TournamentRepository.TournamentStore.FindUnfinishedTournaments | chess/repository/tournament_repository.py:80-89 | the loop returns exactly the filtered records |
| TournamentRepository.TournamentStore.GetTournamentDetails | chess/repository/tournament_repository.py:139-158 | none exactly when no normalised name matches; otherwise the details and status of the first matching record |
| DraftMatches.DisplayName | model/tournament.py:80 | first name, one space, last name |
| DraftMatches.NewMatch | match.py:4-10 | ValueError unless exactly two players, then unless exactly two scores (players checked first); on success both lists stored |
| DraftMatches.MatchText | match.py:12-13 | starts "Match: P0 vs ", ends "-s1", and has the length of the full text |
| ScoreTables.FirstMissing | model/tournament.py:110-112 | the first player, within the zipped length, without a table entry; none exactly when all have one |
| ScoreTables.ApplyScoresKeys | model/tournament.py:110-112 | `update_scores` never adds or reorders keys |
| ScoreTables.ApplyScoresMissing | model/tournament.py:110-112 | the KeyError names the first zipped player missing from the table |
| ScoreTables.UpdateTwoPlayers | model/tournament.py:110-112 | for a two-player match of known players each entry rises by its own score (both scores when the player appears twice) and all other entries stay |
| ScoreTables.ScoreLinesAppend | model/tournament.py:131-134 | the scores text of a table extended by entries is the old text followed by the new lines |
| ScoreTables.AddScores | model/tournament.py:110-112 | the zip loop computes the table update, stopping at the first missing player |
| ScoreTables.Tournament.constructor | model/tournament.py:29-55 | keeps the details, defaults 4 rounds and current round 1, no players, empty table and notes |
| ScoreTables.Tournament.AddPlayer | model/tournament.py:70-80 | appends the player and sets the "first last" entry to 0, overwriting any earlier one in place |
| ScoreTables.Tournament.GetPlayers | model/tournament.py:82-88 | "first last" for each registered player, in order |
| ScoreTables.Tournament.AddDirectorNotes | model/tournament.py:90-99 | appends the note and a line break; old notes stay a prefix |
| ScoreTables.Tournament.UpdateScores | model/tournament.py:101-112 | adds each score to its player's entry, pairing by position; KeyError for a player without an entry, after the earlier entries were updated |
| ScoreTables.Tournament.GetPlayerScore | model/tournament.py:114-123 | the stored value, or 0 for an unknown name |
| ScoreTables.Tournament.GetAllScores | model/tournament.py:125-134 | the header followed by one "name: score" line per entry in insertion order |
| Registrations.Registered | tournament.py:18-22 | a run of `add_player` calls registers at most one player per call |
| Registrations.RegisteredAppend | tournament.py:18-22 | two runs of calls register the first run's players followed by the second's |
| Registrations.RegisteredFromCandidates | tournament.py:18-22 | every registered player was handed in as a `Player` |
| Registrations.Tournament.constructor | tournament.py:7-16 | keeps the details, defaults 4 rounds and current round 1, empty lists and notes |
| Registrations.Tournament.AddPlayer | tournament.py:18-22 | a `Player` is appended; any other value changes nothing |
| Registrations.Tournament.AddDirectorNotes | tournament.py:24-25 | appends the note and a line break; old notes stay a prefix |
| Registrations.Tournament.AddRound | tournament.py:27-28 | appends the round; nothing else changes |
| DraftRounds.RoundName | model/round.py:19 | "round " followed by `str(current_round)` |
| DraftRounds.NewRound | model/round.py:17-20 | keeps the tournament reference, is named after its current round at construction, has no matches |
| DraftRounds.GetMatches | model/round.py:22-28 | the stored match list |
| DraftRounds.RoundNameDigits | model/round.py:19 | a non-negative round number's name reads back as that number |
| DraftRounds.RoundNameInjective | model/round.py:19 | rounds made at different current rounds get different names |
| OrderedDicts.Put | model/tournament.py:80 | `d[k] = v`: k maps to v, other keys keep their values, an existing key keeps its position, a new key goes last |

## Left out

- File I/O, `json`, `os.path`, `print`, `input` and `datetime.now()` are not modelled. The repository works on an in-memory list of records. `get_tournament_details` receives the user's choice and the `unidecode`/`capitalize` normalisation as parameters.
- `random.shuffle` and `random.choice` are parameters, not computations.
  - Tournaments.Tournament.GeneratePairsForRound: does not require `shuffled` to be an ordering of `combinations(players_list, 2)`. Its contract holds for any list. The round-0 matching and counting lemmas take that as a hypothesis.
- Tournaments.Tournament.GeneratePairsForRound: does not state that the new matches are newly allocated objects, distinct from every match that existed before. `PlayNewMatch` states it for one match, but carrying it through the pairing loops exceeds the verifier's resource limit.
- `play_tournament` is modelled only through its round cursor (`PlayCursor`): the loop, printing, timing and saving are left out.
  - Tournaments.PlayCursor: `Stopped` marks the step where the loop calls `TournamentRepository().add_tournament(self)` and breaks. It does not claim that a save happens. As written, that step raises NameError, because the import of `TournamentRepository` is commented out (chess/model/tournament.py:23). Even with the import, `add_tournament` calls `tournament.to_json()` (chess/repository/tournament_repository.py:28), which reaches `Round.to_json`. That calls the undefined `Match.to_json` on any round with a match and raises AttributeError.
  - Tournaments.PlayCursor: `previous_scores` is assigned only inside the loop over a round's matches (chess/model/tournament.py:228). So while no round played so far has had a match, `calculate_leaderboard(self, previous_scores)` at line 231 raises UnboundLocalError. The cursor does not model this.
- `Tournament.to_json`/`from_json` and `Round.to_json` are left out. They rely on `Match.to_json`/`Match.from_json`, which chess/model/match.py does not define.
  - `Round.from_json` is modelled with the matches already decoded.
  - `Tournament.from_json` also passes `director_note` in the position of `rounds` and `current_round` in that of `director_note` (chess/model/tournament.py:290). That constructor call is not modelled.
- The `__str__` methods of the `chess/` classes are left out: they are display only. The draft match's `__str__` is modelled.
- `validate_date_format` and the `PlayerRepository`/`TournamentRepository` classes of model/player.py and model/tournament.py are left out: they are date-library and file behaviour.
- `Player.title()` is modelled for ASCII letters only: Unicode case mapping is library behaviour.
- FormatValidator.ValidateNationalChessIdFormat: letters and digits are ASCII only. Python's `str.isalpha` and `str.isdigit` also accept other Unicode letters and digits, so the source accepts "ÉA12345" and "AB1234²" and the model rejects them. Unicode character classes are library behaviour.
- `previous_scores` of `calculate_total_score` is accepted and never read, as in the source.
- A `Player` passed to the drafts is reduced to its first and last names (`DraftPlayer`): nothing else of it is read.
- DraftMatches.MatchText: states the prefix "Match: P0 vs ", the suffix "-s1" and the total length. It does not state the middle text ", Scores: s0" on its own.
- ScoreTables.UpdateTwoPlayers: states the entry-by-entry result only for matches of two players and two scores. Other lengths are covered by `ApplyScoresKeys` and `ApplyScoresMissing`, without per-entry values.
- Scoring.LeaderboardNames: requires distinct full names, which the source does not ensure. With a shared name, a later board entry overwrites the earlier one's value in place, so one total is lost and the values need not descend. The general case is stated by `LeaderboardNamesAll`, `LeaderboardKeysShared`, `LeaderboardValuesShared` and `LeaderboardLastOfName`.
- Scoring.LeaderboardEntries: requires distinct full names, for the same reason as `LeaderboardNames`.
- Scoring.LeaderboardScores: requires distinct full names, for the same reason as `LeaderboardNames`.
- Scoring.LeaderboardKeys: requires distinct full names, for the same reason as `LeaderboardNames`.
- Scoring.LeaderboardOrder: requires distinct full names. With a shared name the dictionary's values need not descend, and no general ordering is stated.
- Scoring.LeaderboardLookup: requires distinct full names, for the same reason as `LeaderboardNames`.
- Scoring.ScoresByNameDistinct: requires distinct full names. `ScoresFromLast` and `ScoresFromAbsent` state the general case.
- Registrations.Registered: its own contract is only a length bound. What it registers is stated by `RegisteredAppend` and `RegisteredFromCandidates`.

## Findings

| source | as written | input that shows it | evidently intended | confidence | as-written member | corrected member |
|---|---|---|---|---|---|---|
| chess/model/tournament.py:121-126 | `add_round` builds `Round(round_name)`, but `Round.__init__` (chess/model/round.py:19) needs four arguments | `add_round(1)` raises TypeError and adds no round | append `num_rounds` empty rounds named "Round 1" ... "Round n" | high, not executed | Tournaments.Tournament.AddRoundAsWritten | Tournaments.Tournament.AddRound |
