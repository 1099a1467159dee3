# Hockey team balancing — a Dafny model

This project models the decision logic of a small Streamlit application. The application forms two balanced hockey teams for an evening game and runs a four-team mini-tournament.

The model covers:

- **Preparing the teams.**
  - Assigning every present player to the forward or the defence pool (`assign_positions`).
  - Cutting a sorted list into lines (`snake_partition`).
  - Building four balanced lines per role over many shuffled trials (`make_lines_balanced`).
  - Choosing which two forward lines and two defence pairs go to each team, charging pairs that have already played together (`combo_teams`).
  - Updating the ledger of those pairs (`update_pairings`).
  - Splitting a small roster into two teams by exhaustive search (`creer_equipes_par_poste`).
  - The player selection, line checks and score totals of the team-forming page.
  - The duplicate check of the manual line page (`verifier_doublons`).
  - The per-player statistics page.
- **Running the tournament.**
  - Dealing four teams from best to worst (`creer_equipes_equilibrees`).
  - Ordering the six round-robin matches so that no team plays twice in a row (`generer_matchs_equilibres`).
  - The standings table (`compute_standings`).
  - Seeding the semi-finals and the final, naming the champion, and resetting the scores.

Everything is a pure function, or a method with loop invariants, over immutable datatypes. Randomness becomes a parameter: every shuffle is a permutation supplied by the caller. Files, CSV, Streamlit widgets and session state are not modelled.

Modules, one concept each:

| module | file | models |
|---|---|---|
| `Wrappers`, `Seqs`, `Text`, `Sorting`, `Search`, `Items` | shared | `Option`; flattening, distinctness and permutation facts; Python string order, `tuple(sorted(...))` keys, `split(", ")` and `", ".join`; stable descending sort; the "first strictly better" loop; talent sums |
| `Positions` | positions.dfy | `assign_positions` |
| `Snake` | snake.dfy | `snake_partition` |
| `Lines` | lines.dfy | `make_lines_balanced` |
| `Pairings` | pairings.dfy | `update_pairings` and the pair penalty |
| `Combo` | combo.dfy | `combo_teams` |
| `TwoTeams` | twoteams.dfy | `creer_equipes_par_poste` |
| `Formation` | formation.dfy | the team-forming page |
| `Duplicates` | duplicates.dfy | `verifier_doublons` and its gate |
| `Stats` | stats.dfy | the statistics page |
| `Draft` | draft.dfy | `creer_equipes_equilibrees` |
| `Schedule` | schedule.dfy | `generer_matchs_equilibres` and the rows it writes |
| `Rows`, `Standings`, `Bracket` | rows.dfy, standings.dfy, bracket.dfy | the tournament table, `compute_standings`, semi-final and final seeding, champion, reset |

## Model

| member | source | states |
|---|---|---|
| Positions.WithRole | utils.py:88-92 | The forward pool holds exactly the present players whose attack talent is at least their defence talent, so a tie goes to attack. The defence pool holds exactly those whose attack talent is lower. |
| Positions.RolesPartition | utils.py:88-92 | The forward and defence pools together hold every present player exactly once. |
| Positions.TakeTop | utils.py:94-104 | The k players moved have gaps at least as large as every player left behind. They come in non-increasing gap order, and movers plus stayers are the original pool. |
| Positions.Adjust | utils.py:94-113 | When a pool is short and the other pool is not empty, exactly min(shortfall, size of the other pool) players move. They are those with the largest gap towards the short role, appended after the pool's own players. Otherwise both pools are returned unchanged, and no player is ever lost or duplicated. |
| Positions.AssignPositions | utils.py:85-115 | The two returned pools are a rearrangement of the present players. |
| Positions.QuotasMetWhenEnoughPlayers | utils.py:106-113 | With at least want_fw + want_df players present, both pools reach their quota. |
| Positions.NoShortfallNoMove | utils.py:107-113 | When neither pool is short, every player keeps the natural role. |
| Snake.SnakePartition | utils.py:117-139 | There are always four groups, and concatenated they give back the input in order. The first three groups never exceed the group size, and a group is full whenever a later group has anyone. A non-positive size leaves everything in the first group. |
| Lines.SnakeFill | utils.py:152-164 | The fill places a prefix of the candidates without losing or duplicating any, never overfills a group, and stops early only when the step budget of the path is spent. |
| Lines.SpreadIsScaledVariance | utils.py:166-167 | The integer spread used to compare trials is 16 times the population variance of the four line totals. |
| Lines.ScanPicksBestTrial | utils.py:145-171 | The trial loop keeps nothing exactly when no trial is full with a variance below the initial bound. Otherwise it keeps an accepted trial that is no worse than any trial and strictly better than every earlier one. |
| Lines.MakeLinesBalanced | utils.py:141-171 | The result is the first accepted trial of least spread, or None when no trial is accepted. A returned set of lines is four full lines, and each player is used at most once. |
| Lines.TrialUsesEachPlayerOnce | utils.py:151-164 | A trial never places a player more often than the player appears in the input. |
| Lines.CannotFill | utils.py:152-171 | With fewer than 4 x line_size players, or a line size the step budget cannot reach, the result is None. |
| Search.FirstMin | utils.py:168-170 | The scan returns nothing exactly when no candidate beats the bound. Otherwise it returns a candidate that beats the bound, is no worse than any other and is strictly better than every earlier one. |
| Text.Key | utils.py:70 | A pair key is the pair in one of its two orders, with the smaller name first in Python string order. |
| Text.KeyUnordered | utils.py:66-70 | Both orders of a pair give one key, and a key identifies exactly one unordered pair. |
| Pairings.Bump | utils.py:69-77 | Each key's count grows by the number of times the key occurs in the list, and new keys are created at that count. |
| Pairings.UpdatePairings | utils.py:66-77 | Every key's count grows by the number of lines forming that pair. The ledger's keys become the old keys plus every pair formed on some line. |
| Pairings.DistinctLineCount | utils.py:69-70 | In a line of distinct names, a pair is formed once when both players are on it and never otherwise. |
| Pairings.UpdateCountsShared | utils.py:66-77 | For lines of distinct names, the count of two different players grows by the number of lines on which both play. |
| Pairings.SumGetBounds | utils.py:206-213 | With a non-negative ledger, a penalty is never negative, and it is zero when none of its pairs has been seen before. |
| Combo.SplitCostIsWeighted | utils.py:190-214 | The cost of split s is the absolute difference between the two teams' talent totals plus the weight times the replay penalty of both teams. |
| Combo.ComboTeams | utils.py:173-224 | The choice is the first split of least cost, with its teams and scores. There is no choice exactly when every split costs at least the initial ceiling. |
| Combo.Choose | utils.py:186-224 | Over any 36 split costs, the dictionary kept is that of the first split of least cost below the ceiling, with that split's teams and scores. There is none exactly when no cost is below the ceiling. |
| Combo.SplitPartitions | utils.py:190-203 | Every split gives each team two forward lines and two defence pairs, and together the two teams hold the four lines of each role. |
| Combo.PerLinePenaltyConstant | utils.py:206-213 | As written, the penalty of every split is the same number: the penalty of all eight lines. |
| Combo.PenaltyNeverDecides | utils.py:206-224 | As written, the chosen split is the first split of smallest score gap, whatever the ledger and the weight. |
| Combo.PenaltySteersChoice | utils.py:206-224 | Counted per team and with a positive weight, of two splits with equal gaps the one with more replayed pairs is never chosen. |
| Combo.ScaleIsProduct | utils.py:214 | The repeated-addition weight is the product of weight and penalty. |
| TwoTeams.OfPosition | equipes_hockey.py:44-45 | A position pool holds exactly the players of that position. |
| TwoTeams.PoolsPartition | equipes_hockey.py:44-45 | For players with one of the two positions, the attacker and defender pools together hold every player exactly once. |
| TwoTeams.Combinations | equipes_hockey.py:55-58 | The k-combinations exist exactly when k does not exceed the pool, and each has k players taken in pool order. |
| TwoTeams.CombinationsComplete | equipes_hockey.py:55-58 | Every way of taking k players in pool order is among the combinations. |
| TwoTeams.Rest | equipes_hockey.py:56-59 | The complement holds exactly the pool players not chosen. |
| TwoTeams.ChosenAndRestPartition | equipes_hockey.py:56-59 | For a pool of distinct players, a combination and its complement together hold the pool exactly once. |
| TwoTeams.FirstBestSplit | equipes_hockey.py:54-67 | The nested search returns the first pair of choices, in loop order, with the strictly smallest gap. |
| TwoTeams.CreateTeamsByPosition | equipes_hockey.py:43-68 | Team 1 is a chosen attacker and defender combination and team 2 its complement. It is the first split of least talent difference, the difference is reported, and team 1 holds min(nb, pool/2) players of each position. |
| TwoTeams.SplitPartitions | equipes_hockey.py:55-61 | With distinct players, the two teams together hold the attacker and defender pools exactly once. |
| Formation.Shortfall | pages/2_Formation_des_equipes.py:35-36 | The missing count is zero exactly when the pool has enough players, and otherwise fills the gap exactly. |
| Formation.Select | pages/2_Formation_des_equipes.py:33-43 | The selection is the first want_fw and want_df players of the assigned pools, with both shortfalls. |
| Formation.SelectionIsSubBag | pages/2_Formation_des_equipes.py:33-43 | The selected forwards and defenders are drawn from the present players, each at most once. |
| Formation.SelectionFillsQuotas | pages/2_Formation_des_equipes.py:33-43 | With enough players present, exactly want_fw forwards and want_df defenders are selected and nothing is missing. |
| Formation.CheckLinesAsWritten | pages/2_Formation_des_equipes.py:51-56 | As written, the check crashes exactly when the forward lines are missing, or are all trios while the defence lines are missing. It proceeds exactly when both are present and correctly sized. |
| Formation.CheckAsWrittenFails | pages/2_Formation_des_equipes.py:51-56 | As written, the "cannot form the lines" stop is never reached: fewer than 12 forwards, or defence pairs that cannot be filled, end in a crash. |
| Formation.CheckLines | pages/2_Formation_des_equipes.py:51-56 | Corrected, the check never crashes, and proceeds exactly when both sets of lines exist with sizes 3 and 2. |
| Formation.CheckStopsOnShortPools | pages/2_Formation_des_equipes.py:51-56 | Corrected, too few forwards or defenders make the page stop with its message rather than fail. |
| Formation.SafeTotal | pages/2_Formation_des_equipes.py:103-105 | The total is absent exactly when some trio does not have three names or some duo does not have two. |
| Formation.UnknownNameScoresZero | pages/2_Formation_des_equipes.py:107-110 | A name missing from the roster contributes nothing to a line score. |
| Formation.UnknownNameAddsNothing | pages/2_Formation_des_equipes.py:107-111 | Adding an unknown name to a line leaves its score unchanged. |
| Formation.UneditedTeamScore | pages/2_Formation_des_equipes.py:69-112 | When the lines are left as built, the edited-lines total equals the team total computed from the lines. |
| Duplicates.FindDuplicates | pages/7_Formation_manuelle.py:41-45 | A name is reported exactly when it occurs at least twice, each reported name once, in order of first occurrence. |
| Duplicates.DistinctIffNoRepeat | pages/7_Formation_manuelle.py:41-45 | A list has no repeated name exactly when no name occurs twice. |
| Duplicates.CheckDuplicates | pages/7_Formation_manuelle.py:41-45 | Over several lists taken together, a name is reported exactly when it occurs at least twice, each reported name once, in order of first occurrence. The report is empty exactly when the concatenation has no repeated name. |
| Duplicates.Gate | pages/7_Formation_manuelle.py:80-85 | The page goes on exactly when no player is selected twice across the eight lines. Otherwise it reports exactly the repeated names, each once, in order of first selection. |
| Text.Split | pages/4_Statistiques.py:29-30 | Splitting on ", " gives at least one part, and no part contains the separator. |
| Text.JoinSplit | pages/4_Statistiques.py:29-30 | Joining the parts of a split gives back the original text. |
| Text.SplitJoin | pages/2_Formation_des_equipes.py:149-155 | Names without ", " that are joined and then split come back unchanged. |
| Stats.Visit | pages/4_Statistiques.py:31-35 | One history row adds its date to exactly the players listed on either side. |
| Stats.PresenceIsDates | pages/4_Statistiques.py:26-35 | The presence map holds, for every name, exactly the dates of the rows the player appears in. |
| Stats.ColoursCountAppearances | pages/4_Statistiques.py:41-48 | A player is counted for BLANCS or NOIRS once per row they appear in, never both, so the two counts add up to the rows they appear in. |
| Stats.GamesPlayedBounds | pages/4_Statistiques.py:26-38 | Games played never exceeds the rows a player appears in, nor the distinct dates, and is positive exactly when the player appears somewhere. |
| Stats.Unique | pages/4_Statistiques.py:20 | The roster names are listed once each, with the same members. |
| Stats.CountColours | pages/4_Statistiques.py:41-48 | The nested loops give each roster name its BLANCS and NOIRS counts. |
| Stats.Statistics | pages/4_Statistiques.py:20-51 | There is one row per roster name and none for any other name. Each row holds that player's counts, in non-increasing order of (games played, BLANCS, NOIRS). |
| Sorting.SortDesc | pages/4_Statistiques.py:51 | The sort is a permutation of its input, in non-increasing key order. |
| Draft.DealPartition | pages/5_Generation_tournoi.py:69-72 | The four seats together hold every dealt player exactly once. |
| Draft.DealSeat | pages/5_Generation_tournoi.py:69-72 | The k-th player in sorted order goes to team k mod 4, at place k / 4. |
| Draft.DealLevel | pages/5_Generation_tournoi.py:69-72 | Each team has as many players of a role as the next team, or one more. |
| Draft.DealTotals | pages/5_Generation_tournoi.py:66-72 | From a best-first order with non-negative talents, each team's total is at least the next team's. |
| Draft.CreateTeams | pages/5_Generation_tournoi.py:62-75 | Four teams whose forwards, and whose defenders, are the role pools dealt in rank order: every player once, seat sizes level, and totals non-increasing when talents are non-negative. |
| Schedule.Combinations | pages/5_Generation_tournoi.py:97 | The six pairings are exactly the pairs of teams in list order, distinct when the names are. |
| Schedule.FirstFit | pages/5_Generation_tournoi.py:103-107 | A team picks the first pending match it plays in, provided it played in neither of the last two scheduled matches. It picks nothing when there is no such match. |
| Schedule.PassKeeps | pages/5_Generation_tournoi.py:102-109 | A pass only moves pending matches to the end of the schedule and keeps the rule that no team plays twice in a row. |
| Schedule.Run | pages/5_Generation_tournoi.py:101-109 | The loop either schedules every pairing while respecting the rest rule, or reaches a state where pairings remain and no team can pick any. |
| Schedule.GenerateMatches | pages/5_Generation_tournoi.py:95-109 | A finished schedule is a rearrangement of the six pairings with the rest rule. A stall leaves pairings pending with no team able to pick. |
| Schedule.CoveredTeamsStall | pages/5_Generation_tournoi.py:101-109 | When the last two scheduled matches involve all four teams and matches remain, the loop stalls. |
| Schedule.UnshuffledOrderStalls | pages/5_Generation_tournoi.py:97-109 | With four distinct teams and the pairings left in generation order, the loop stalls. |
| Schedule.GenerateMatchesCompleting | pages/5_Generation_tournoi.py:95-109 | Corrected, the generator always returns the six distinct pairings, each once. |
| Schedule.CompletingAgreesWhenDone | pages/5_Generation_tournoi.py:101-109 | When the original loop finishes, the corrected loop gives the same schedule. |
| Schedule.GeneratedRoundNeverRanked | pages/5_Generation_tournoi.py:111-115 | Whatever results are entered on the generated rows, the standings stay empty. |
| Schedule.TypedRoundIsRanked | pages/5_Generation_tournoi.py:111-115 | With the type filled in, a finished match makes the standings non-empty. |
| Standings.Outcome | pages/6_Tournoi_en_cours.py:52-72 | One finished match gives a side one game and its goals, a win exactly when it scored more, an overtime loss exactly when it scored less in overtime, a regulation loss exactly when it scored less otherwise, and one point on a tie. |
| Standings.TallyShape | pages/6_Tournoi_en_cours.py:45-72 | The table holds exactly the teams of finished round matches, and every record is consistent. |
| Standings.Teams | pages/6_Tournoi_en_cours.py:49 | Every team of a finished round match is listed once. |
| Standings.TallyBalanced | pages/6_Tournoi_en_cours.py:52-57 | Summed over the teams that played, the goal differences of the tallied table are zero. |
| Standings.GoalsBalance | pages/6_Tournoi_en_cours.py:55-76 | Down the returned standings, the goals-for column and the goals-against column add up to the same total, so the Diff column sums to zero. |
| Standings.ComputeStandings | pages/6_Tournoi_en_cours.py:44-82 | Standings are empty exactly when no round match is finished. Otherwise there is one row per team with its tallied record, ranked 1, 2, 3 down non-increasing (points, goal difference, goals for). |
| Bracket.MatchIndices | pages/6_Tournoi_en_cours.py:88 | The match rows of a phase, exactly and in table order. |
| Bracket.UpdateSemifinals | pages/6_Tournoi_en_cours.py:85-94 | With two semi-finals and four ranked teams, the first semi-final becomes 1st v 4th and the second 2nd v 3rd, and nothing else changes. Otherwise the table is unchanged. |
| Bracket.Winner | pages/6_Tournoi_en_cours.py:103-104 | A match has a winner exactly when it is not tied, namely the side that scored more. |
| Bracket.UpdateFinal | pages/6_Tournoi_en_cours.py:96-108 | When at least two semi-finals exist, all are finished, two are decided and a final exists, the first final takes the two winners and nothing else changes. Otherwise the table is unchanged. |
| Bracket.FinalTakesSemiWinners | pages/6_Tournoi_en_cours.py:96-108 | With exactly two finished and decided semi-finals, the final opposes their two winners, in order. |
| Bracket.TiedSemiKeepsFinal | pages/6_Tournoi_en_cours.py:101-108 | Among exactly two semi-finals, a tied one leaves the table untouched. |
| Bracket.ChampionIsSemiWinner | pages/6_Tournoi_en_cours.py:96-115 | A champion crowned after the final was filled is one of the two semi-final winners. |
| Bracket.ResetClearsTournament | pages/6_Tournoi_en_cours.py:283 | After a reset the standings are empty and no champion is named, and resetting again changes nothing. |

## Left out

- File and network I/O, CSV loading and saving, the GitHub upload, Streamlit widgets, session state and every page's display code. The model starts from the values those produce.
- Randomness. `rng.shuffle`, `sample(frac=1)`, `random.shuffle` and the time-based seed become permutations that the caller supplies and the contracts quantify over.
- pandas tie order. Sorts are modelled as stable descending sorts, and the contracts leave the order of equal keys open.
- `np.var` on floats is replaced by an exact integer spread (16 times the variance), which orders trials the same way. The initial bound `1e9` is scaled to match.
- `combo_teams` weight: `pair_penalty` is a real number and only its product with the integer penalty is modelled. Floating-point rounding is not modelled.
- The pairings ledger is a map from pair key to count. The CSV row order and the empty-ledger special case of the file format are not modelled.
- Schedule.GenerateMatches: the endless `while` loop is modelled as a `Stalls` outcome, returned once a pass makes no progress, rather than as non-termination.
- Standings.Teams lists teams in order of first appearance rather than `sorted(...)`. Every use goes through the ranking sort, which does not depend on that order apart from the order of equal keys, which is left open.
- Stats: the coercion of missing values by `str()` (a missing side reads as the text "nan") and `nunique` skipping missing dates are not modelled. Dates and team lists are plain strings.
- Formation.SafeTotal: `reindex` raising on duplicate roster names is not modelled. A name's talent is taken from its first roster row.
- Formation.Select: quotas are natural numbers, so the `head` of a negative count is not modelled.
- TwoTeams.CreateTeamsByPosition: a negative requested count, which makes `itertools.combinations` raise, is excluded by taking the counts as natural numbers. The warning shown when a pool is too small is display only.
- The team-forming page's call to `combo_teams`, with its own line lists and the fixed weight `pair_penalty=1.5` (pages/2_Formation_des_equipes.py line 59), and the history rows it writes are not modelled beyond the functions above. The model keeps the weight as a parameter.
- The player filtering of the tournament page (present players and their position, before the draft) and the page-6 button gating and editing widgets.

## Findings

| source | as written | input that shows it | evidently intended | confidence | as-written member | corrected member |
|---|---|---|---|---|---|---|
| utils.py:206-213 | The replay penalty sums the pair counts of every line of both teams, and every split uses the same eight lines. | Any ledger: a pair that has played together 5 times adds the same amount to all 36 splits, so the choice is the least-gap split regardless of `pair_penalty`. | The penalty should count the replayed pairs that a split puts together on one team, so that it can steer the choice. | not executed | Combo.PenaltyNeverDecides | Combo.PenaltySteersChoice |
| pages/2_Formation_des_equipes.py:51-56 | The size check iterates `fw_lines` and `df_lines` directly, and `make_lines_balanced` returns `None` when it cannot fill four lines. | 10 present players: fewer than 12 forwards, so `make_lines_balanced` returns `None` and iterating it raises `TypeError`. | Stop with the "Impossible de former" message when a set of lines could not be built. | not executed | Formation.CheckAsWrittenFails | Formation.CheckStopsOnShortPools |
| pages/5_Generation_tournoi.py:101-109 | The `while combinaisons` loop repeats passes even when a pass schedules nothing. | Four distinct teams with the shuffle leaving itertools order: after A-B, A-C, A-D, B-C the remaining B-D and C-D can never be picked, and the loop never ends. | Every shuffle yields a full schedule of the six pairings. | not executed | Schedule.UnshuffledOrderStalls | Schedule.GenerateMatchesCompleting |
| pages/5_Generation_tournoi.py:111-115 | The generated round rows carry no `Type`, and the loader fills a missing `Type` with "". | Any generated round with results entered: `compute_standings` keeps only rows whose `Type` is "Match" (pages/6_Tournoi_en_cours.py line 45), so the standings stay empty. | Generated round matches have type "Match" and are ranked. | not executed | Schedule.GeneratedRoundNeverRanked | Schedule.MatchRowsTyped |
