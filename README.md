# FC Online battle tracker — a verified model of its core

The tracker runs a four-player event in two parts.

- **League.** Six fixtures, two in each of three rounds. The user picks the two players of each fixture and enters the scores. A league table ranks the players by points, then goal difference, then the result of their direct match, then goals scored.
- **Stepladder knockout.** Once the league is finalised, a three-match ladder starts:
  - the semifinal is league rank 3 against rank 4;
  - the prefinal is the semifinal winner against rank 2;
  - the final is the prefinal winner against rank 1.
- **Archive.** A finished event, one that has a champion, can be saved to an archive. Lifetime statistics are aggregated over the archive, with a head-to-head table per player and a sortable lifetime table.

This project models that logic in Dafny and proves what the code promises.

| Dafny file | source | what it holds |
|---|---|---|
| `types.dfy` | types.ts | Matches, standings, archived events and lifetime records as datatypes. The participant strings `''`, `'TBD'` and a name become `Unset`, `Tbd` and `Player(name)`. The shared outcome rule is `Decide`. |
| `collections.dfy`, `sorting.dfy` | (library behaviour) | Map values in key order, sums over sequences, and a stable insertion sort standing in for `Array.prototype.sort`, with its ordering and permutation lemmas. |
| `standings.dfy` | utils.ts | The empty league fixtures, and `calculateStandings` as a loop over the matches updating a name → standing map, then sort and rank. |
| `aggregation.dfy` | utils.ts | `getAggregatedStats` as a loop over the archived matches updating a name → record map, under a phase filter. |
| `app.dfy` | App.tsx | The application state as a class: the league list, the three-slot ladder array, the champion, the league-finished flag and the archive. It has one method per handler. |
| `league_view.dfy` | components/LeagueView.tsx | Repeated players within a round, repeated pairings across the league, the finalisation gate and the per-match error flag. |
| `tournament_view.dfy` | components/TournamentView.tsx | The enabling predicates of a ladder match card, the finish action and the highlighted stage. |
| `stats_view.dfy` | components/StatsView.tsx | The flattened archive, the per-opponent head-to-head table (a loop updating a map) and the lifetime table's sort and sort-toggle. |

Source-to-model conventions:

- Loops that update a dictionary become `method`s with `while`/`for` loops. Each such method is proved equal to a left fold (`Tally`, `Fold`) over the prefix of the input seen so far.
- Properties are then proved about that fold.
- Each mutated dictionary is a `map` plus the sequence of its keys in insertion order. That sequence is the order `Object.values`/`Object.entries` returns.
- The ladder is an `array<Match>` of length 3 held by the `App.Event` class. It is updated in place as `handleConfirmMatch` does.
- The conflict checks of the league view take the match list by value, so they cannot change it.

## Model

| member | source | states |
|---|---|---|
| Types.SlotOf | types.ts:8-9 | The participant a stored string denotes converts back to that same string, so the three variants cover every stored value. |
| Types.Decide | utils.ts:119-130 | First wins exactly when its score is higher, or the scores are level and both penalties are present with First's higher. Second likewise. A level result exactly when the scores are level and the penalties are missing or equal. |
| Standings.InitialLeagueMatches | utils.ts:5-15 | Six matches with the ids L1 to L6 in order, so the ids are distinct, and match i in round i/2 + 1. All have both sides empty, no scores and are not completed. |
| Standings.Apply | utils.ts:29-59 | A match that is not completed, lacks a score or names a non-roster participant leaves the table unchanged. A counted match between two different players credits the first side's line with its share (its goals scored, then conceded) and the second side's line with the mirrored share. When both sides name one player, that line receives both shares. Players not in the match keep their lines. Consistency of every line is preserved. |
| Standings.Credit | utils.ts:35-58 | One side's share adds a game, adds the goals scored and conceded, a win exactly when it scored more, a loss exactly when it scored less, and keeps the line well formed. |
| Standings.CalculateStandings | utils.ts:17-85 | The loop that initialises and fills the table, followed by the sort and rank, returns exactly the specified standings `StandingsOf`. |
| Standings.StandingsOnePerPlayer | utils.ts:21-26 | One entry per distinct roster name and no other. Names do not repeat. The entry at position i has rank i + 1. |
| Standings.StandingsTallies | utils.ts:35-58 | Every entry is its player's tallied line with the rank added. Each line has played = won + drawn + lost, points = 3·won + drawn and gd = gf − ga. |
| Standings.StandingsBalance | utils.ts:35-58 | Over the table, total goals for equal total goals against and total wins equal total losses. |
| Standings.StandingsOrder | utils.ts:65-67 | The entries are non-increasing in points, and non-increasing in goal difference among equal points. |
| Standings.HeadToHeadRule | utils.ts:69-81 | Two neighbouring entries level on points and goal difference are ordered as follows. If their first completed direct match has both scores and they differ, the one who scored more in it comes first. Otherwise the one with more goals for comes first. |
| Standings.CompareAntisymmetric | utils.ts:65-82 | The comparator is antisymmetric: swapping its arguments negates the result, including in the head-to-head branch. |
| Aggregation.Enter | utils.ts:97-104 | A named participant gets a blank record when it has none. `''` and `'TBD'` never get one. Existing records are untouched. |
| Aggregation.Process | utils.ts:90-146 | A match missing a score changes nothing, whatever its completed flag. A scored match adds a record exactly for each named side that has none. A match with a placeholder side adds no tallies: every record equals the one before, or an all-zero one. Records stay well formed. |
| Aggregation.Credit | utils.ts:111-145 | One side's share adds a game and the goals, a win exactly for a First result and a loss exactly for a Second result, and keeps matches = wins + draws + losses and points = 3·wins + draws. |
| Aggregation.Outcome | utils.ts:118-130 | In any phase, unequal scores are won by the side that scored more. In a league match a level score is a draw, whatever the penalties. In a tournament match with a level score, a side wins exactly when both penalties are present and its penalty is the higher one. |
| Aggregation.ShootoutDecides | utils.ts:119-152 | Take a tournament match between two different players, level on score and with unequal penalties. Under the 'all' and 'tournament' filters the penalty winner gets one more win and the loser one more loss, and neither gets a draw. Under the 'league' filter the records are unchanged. |
| Aggregation.ProcessCredits | utils.ts:106-145 | A scored match between two named players credits the first player's existing or blank record with its share of the decided result and the second player's with the mirrored share. When both sides name one player, that record receives both shares. |
| Aggregation.GetAggregatedStats | utils.ts:87-155 | The loop over the matches, followed by the sort, returns exactly the specified records `Aggregate`. |
| Aggregation.AggregateRecordsWellFormed | utils.ts:111-145 | Every record has matches = wins + draws + losses and points = 3·wins + draws. |
| Aggregation.AggregateNames | utils.ts:94-109 | There is a record for a name exactly when that name plays in a match that passes the filter and has both scores. So there is never a record for `''` or `'TBD'`. |
| Aggregation.AggregateBalance | utils.ts:111-145 | Over all records, goals for equal goals against and wins equal losses. |
| Aggregation.AggregateOrder | utils.ts:154 | The records are non-increasing in points, and non-increasing in goals for among equal points. |
| Aggregation.FilterIsPhaseSelection | utils.ts:148-152 | Aggregating under the league or tournament filter gives the same records as aggregating with no filter over that phase's matches alone. |
| App.ParseScore | App.tsx:52-56 | The empty input gives no score. An input gives a score exactly when it is a non-empty digit string. |
| App.ParseShowRoundTrip | App.tsx:52-56 | Parsing the text a score input shows for a stored score gives back that score, so re-submitting the untouched side of a result keeps it. |
| App.Verdict | App.tsx:98-128 | Confirmation is refused with one reason for each case. Missing scores exactly when a score is absent. Penalties required exactly when the scores are level and a penalty is absent. Penalties tied exactly when the scores are level and the penalties equal. No winner exactly when the deciding side's slot is empty. Otherwise it confirms the winner of the shared rule. |
| App.FinishVerdict | App.tsx:193-215 | The final is unplayed exactly when a score is absent. The champion is crowned exactly when the shared rule names a side whose slot is not empty, and then the champion is that side. |
| App.ConfirmAndFinishAgree | App.tsx:112-128 | On a scored match, confirming and finishing accept exactly the same results and name the same winner. |
| App.OfferedConfirmCrownsPlayer | App.tsx:128 | A match the view offers to confirm, with no empty slot, can only be confirmed with a real player as winner. |
| App.ConfirmAcceptsPlaceholder | App.tsx:112-128 | For every match, when the result is decided and the winning side is TBD, the confirm handler accepts it and names TBD as winner. A TBD vs TBD match scored 1-0 is such a match. Only the view's guard keeps it away. |
| App.SeedRank | App.tsx:140 | The player seeded at league rank k is the table's k-th entry, or TBD when the table is shorter. |
| App.StagesFound | App.tsx:194 | On a well-formed ladder, the lookup of each stage finds that stage's slot. |
| App.FinishOfferedCrowns | App.tsx:193-215 | Whenever the view offers the finish action on a well-formed ladder with no empty slot, finishing crowns the final's winner. |
| App.Event.constructor | App.tsx:14-36 | The empty league fixtures, a fresh ladder of TBD slots, no champion, the league open and the archive as loaded. |
| App.Event.UpdatePlayer | App.tsx:41-48 | Only the league match with the given id changes, in the chosen side only. |
| App.Event.UpdateScore | App.tsx:51-77 | In the league, the target match gets the parsed scores and is completed exactly when both parse. On the ladder, the target gets the parsed scores and is unconfirmed. Nothing else changes. |
| App.Event.UpdatePenalties | App.tsx:79-95 | Only the target ladder match changes: both penalties are set from the parsed input and it is unconfirmed. |
| App.Event.ConfirmMatch | App.tsx:98-156 | An unknown id, or any refusal by `Verdict`, leaves the ladder unchanged. Confirming the semifinal does four things: it locks that match; it sets the prefinal to the winner against league rank 2; it clears the prefinal's scores, penalties and flag; and it resets the final to TBD vs TBD without touching its penalties. Confirming the prefinal locks it and sets the final to the winner against league rank 1, cleared. Confirming the final only locks it. |
| App.Event.Advance | App.tsx:130-153 | The per-stage effects of a confirmed match on the ladder array, as in ConfirmMatch. The ladder stays well formed and keeps no empty slot. |
| App.Event.ResetMatch | App.tsx:159-166 | Only the target match is unconfirmed. Its scores and penalties stay. |
| App.Event.FinalizeLeague | App.tsx:169-184 | The ladder becomes rank 3 vs rank 4, then TBD vs TBD twice, all unscored and unconfirmed. The champion is cleared and the league is marked finished. |
| App.Event.Seat | App.tsx:173-177 | The ladder array is overwritten in place with the fresh ladder for the given semifinal pair. |
| App.Event.UnlockLeague | App.tsx:186-191 | The league is reopened and the champion cleared. |
| App.Event.TournamentFinish | App.tsx:193-215 | The outcome is the final's verdict. The champion is set exactly when one is crowned and is otherwise unchanged. A confirmed final on a ladder without empty slots always crowns its winner. |
| App.Event.TournamentUndo | App.tsx:217-226 | The champion is cleared and only the final is unconfirmed. |
| App.Event.SaveTournament | App.tsx:229-275 | Without a champion nothing changes. With one, the event (league, ladder, league table, champion and roster) is appended to the archive and the current event is reset. |
| App.Event.Reset | App.tsx:277-287 | The league fixtures and the ladder start afresh, with no champion and the league open. The archive is kept. |
| TournamentView.FindStage | components/TournamentView.tsx:28-30 | The match found has the stage asked for and is the first such match in the list. Nothing is found only when no match has that stage. |
| TournamentView.CardActions | components/TournamentView.tsx:37-140 | A card never offers both confirm and reset. While a champion stands it offers neither. It offers confirm exactly when its inputs are open and no champion stands. |
| TournamentView.StagesExclusive | components/TournamentView.tsx:169-179 | The prefinal card is never highlighted together with the semifinal or the final card. |
| LeagueView.RoundMatches | components/LeagueView.tsx:30 | The round's matches are exactly the matches whose round is r, each kept as many times as it occurs in the list. |
| LeagueView.TallySlots | components/LeagueView.tsx:31-36 | After the counting loop, every non-empty participant has the number of slots it fills in the round. Only non-empty participants are keys, and each key appears once. |
| LeagueView.Repeated | components/LeagueView.tsx:38 | The keys kept are exactly those counted more than once, each once. |
| LeagueView.RoundConflicts | components/LeagueView.tsx:29-39 | A participant is listed exactly when it is non-empty and fills more than one slot of round r. Each is listed once. |
| LeagueView.SelfPairingConflicts | components/LeagueView.tsx:34-35 | A named player on both sides of one match is always a round conflict. |
| LeagueView.PairingIgnoresOrder | components/LeagueView.tsx:47-49 | Two matches have the same pairing key exactly when they have the same two participants in either order. |
| LeagueView.GroupByPairing | components/LeagueView.tsx:43-55 | After the grouping loop, each key holds, in order, the ids of the paired matches with that pairing. Pairings without a match have no key. |
| LeagueView.GroupsClash | components/LeagueView.tsx:57-61 | An id is in a group of two or more exactly when some match with that id shares its pairing with another match, neither having an empty slot. |
| LeagueView.MatchupConflicts | components/LeagueView.tsx:42-64 | An id is a conflict exactly when some match with that id, with both sides chosen, shares its unordered pairing with another match. |
| LeagueView.AnyRoundConflict | components/LeagueView.tsx:68 | Some round of 1, 2 and 3 has a conflict exactly when some player fills two slots in one of those rounds. |
| LeagueView.ConflictListEmpty | components/LeagueView.tsx:68 | A round's conflict list is non-empty exactly when some named player fills two slots in that round. |
| LeagueView.ConflictSetEmpty | components/LeagueView.tsx:69 | The conflict set is empty exactly when no pairing is repeated. |
| LeagueView.CanFinalize | components/LeagueView.tsx:26-71 | The league can be finalised exactly when every match is completed, no round among 1 to 3 repeats a player and no pairing is repeated. |
| LeagueView.ErrorFlag | components/LeagueView.tsx:132-136 | A match is flagged exactly when its pairing is repeated, or one of its named players is repeated within its round. |
| StatsView.AllMatchesAppend | components/StatsView.tsx:261-263 | Flattening a concatenated archive gives the concatenation of the two flattenings, block by block in archive order. |
| StatsView.AllMatchesMembers | components/StatsView.tsx:261-263 | A match is in the flat list exactly when some archived event holds it in its league or ladder matches. |
| StatsView.Result | components/StatsView.tsx:65-83 | From the player's side, unequal scores are a win exactly when the player scored more and a loss exactly when the opponent did, in any phase. A league match is a win exactly when their score is higher and a draw exactly when the scores are level. A tournament match level on score is a win exactly when both penalties are present and the player's is higher, and a loss exactly when the opponent's is higher. |
| StatsView.Tally | components/StatsView.tsx:61-83 | One counted match adds a game and the player's goals for and against to the opponent row, and exactly one of a win, a draw or a loss, according to the player's result. The row stays well formed. |
| StatsView.Step | components/StatsView.tsx:38-83 | A match that does not count against an opponent leaves the table unchanged. A counted one adds a row for the opponent when it has none and tallies the match into the opponent's existing or blank row. Every other row is unchanged. |
| StatsView.ShootoutRow | components/StatsView.tsx:57-83 | A counted tournament match level on score and settled on penalties adds a win to the opponent's row when the player's penalty is higher and a loss when it is lower, and never a draw. |
| StatsView.HeadToHead | components/StatsView.tsx:35-89 | The loop with its early exits, followed by the sort, returns exactly the specified table `HeadToHeadOf`. |
| StatsView.HeadToHeadRows | components/StatsView.tsx:39-83 | There is a row for an opponent exactly when the player met them in a match that counts. Such a match is not skipped as unfinished, passes the filter, involves the player, and has an opponent that is neither empty nor TBD. Each row has played = wins + draws + losses. |
| StatsView.HeadToHeadOrder | components/StatsView.tsx:88 | The rows are non-increasing in games played. |
| StatsView.HeadToHeadTotal | components/StatsView.tsx:61 | The games played over all rows add up to the number of matches that count for the player. |
| StatsView.SortedStats | components/StatsView.tsx:269-297 | For a numeric key, the result is a rearrangement of the records. It is non-increasing in the key when descending and non-decreasing when ascending. |
| StatsView.HandleSort | components/StatsView.tsx:299-304 | The chosen key is selected. The direction is ascending exactly when that key was already selected in descending order. |
| StatsView.HandleSortAlternates | components/StatsView.tsx:299-304 | A new column starts descending. Choosing the same column twice in a row flips the direction. |

## Left out

- Rendering (JSX, CSS, icons, charts), tab switching and the sort icons are presentation only.
- `TournamentDetailModal` and the reversed archive log are display only.
- `localStorage` loading and saving, and the `JSON` deep copies, are I/O. The archive is a constructor parameter.
- `Date.now()` ids and timestamps are I/O. `SaveTournament` takes the id and timestamp as parameters.
- `alert` is modelled as a rejection or outcome value (`Rejection`, `FinishResult`, the `saved` flag). The post-save `setTimeout` message is not modelled.
- `confirm` dialogs (App.tsx:187, 218, 278) are modelled as the user having agreed. Declining changes nothing.
- The roster is the fixed `PLAYERS_DEFAULT` list in the source. Here it is a constructor parameter.
- App.ParseScore: reads only digit strings. `parseInt`'s acceptance of leading whitespace, a sign or trailing non-digits ("3x" → 3) is not modelled. The inputs are numeric fields.
- Absent penalties are one `None`. The source's `undefined` and `null` are not distinguished. Ladder matches always carry explicit penalty fields.
- StatsView.SortedStats: covers numeric keys only. The `name` key (`localeCompare`) is locale-dependent and the `winRate` key divides in floating point, so both are left out.
- Sorting: `Array.prototype.sort` is modelled as a stable insertion sort. The head-to-head comparator is not guaranteed transitive, so no total order is claimed.
- Standings.HeadToHeadRule: states the head-to-head rule for neighbouring entries only, because the library sort promises nothing more for a non-transitive comparator.
- LeagueView.RoundConflicts: states the set of conflicting participants, each listed once, not the dictionary's key order.
- LeagueView.MatchupConflicts: the `' vs '` string key is an unordered pair here. Two names that collide once joined with `' vs '` are out of scope.
- Names that look like array indices change JavaScript's `Object.keys` order. Here every dictionary is ordered by first insertion.
- App.Event.UnlockLeague: as in the source, the ladder is left as it was. Only the flag and the champion change.
- App.Event.SaveTournament: the source's `try/catch` around the save covers only storage failures, which are not modelled.
- Pure view predicates without a contract (`IsReady`, `IsDraw`, `IsDisabled`, `ShowsPenalties`, `OffersConfirm`, `OffersReset`, `CanFinish` and the three stage-active predicates) are stated as definitions. Their consequences are the lemmas listed above.
