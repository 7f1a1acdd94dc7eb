# Snake-draft engine, modelled in Dafny

This project models the team-draft engine in `src/utils/DraftLogic.js`. Teams
pick players from a shared pool in snake order, and each team's total score
must land inside a budget `[minScore, maxScore]`. The engine provides:

- the **snake order** of picks (`generateDraftOrder`);
- a **feasibility oracle** (`checkFeasibilityWithRemoval`). Given a sorted
  pool of scores, it asks whether `slots` more picks can land in a window
  once one copy of the candidate's score has left the pool. It checks a
  smallest-sum bound, a largest-sum bound and, for a single slot, a gap
  check;
- the **self check** (`checkFutureFeasibility`): can the picking team still
  finish after taking this candidate?
- the **global check** (`checkGlobalFeasibility`): can every other
  unfinished team still finish?
- the **candidate filter** (`getSmartValidPlayers`), a tiered pipeline. It
  drops players over the cap. On the last slot it keeps players reaching the
  floor. Otherwise it keeps players passing both checks, falls back with a
  warning to players passing only the self check, and otherwise reports a
  hard error;
- the **risk classifier** (`analyzeRisk`), which gives manual picks a level
  from 1 (safe) to 5 (illegal);
- the **automatic pick** (`weightedChoiceSoftmax`), a weighted random choice.

Modules, one per part of the engine:

- `DraftTypes` (draft_types.dfy): players, teams, settings, and the result
  shapes of the filter and the classifier. The error strings and status
  glyphs become enumerations, and the `null` error is `NoError`.
- `ScoreSeqs` (score_seqs.dfy): sums, sortedness, removing one copy of a
  value, choosing distinct positions, and the ascending sort of the pool.
- `DraftOrder` (draft_order.dfy): the snake order. `GenerateDraftOrder`
  builds one array per round and reverses it in place on odd rounds.
- `Feasibility` (feasibility.dfy): the oracle as a method with its three
  loops, proved equal to the branch-by-branch function `Feasible`, plus what
  the scans mean.
- `TeamChecks` (team_checks.dfy): the self check and the global check. The
  global check is a loop with an early exit.
- `CandidateFilter` (candidate_filter.dfy): the filter. A loop builds the
  smart tier, and the result is proved equal to the function
  `SmartValidPlayers`.
- `Risk` (risk.dfy): the classifier, and how it agrees with the filter.
- `WeightedChoice` (weighted_choice.dfy): the automatic pick, with the
  weights and the random draw as inputs.

All data are values, so the engine cannot change `teams` or
`availablePlayers`; in the source neither is mutated either.

Three behaviours follow the code rather than its comments:

- The oracle's length test subtracts one from the pool size even when the
  removed score is absent from the pool.
- With two or more slots the oracle only checks the two bounds. It can say
  yes when no choice of values fits the window; `MultiSlotIsApproximate`
  gives an instance.
- The classifier skips the global check while the team's roster is empty.
  The filter runs it in its smart tier, that is on every slot other than
  the team's last, whatever the roster holds. So before a team's first pick,
  with more than one slot to fill, the classifier can call a candidate safe
  (level 1) that the filter does not offer. `SafeIsOffered` therefore
  requires a roster of at least one player.

## Model

| member | source | states |
|---|---|---|
| DraftOrder.GenerateDraftOrder | src/utils/DraftLogic.js:3-13 | the order built round by round, with odd rounds reversed in place, is exactly the snake order `SnakeOrder(teamsCount, teammatesPerTeam)` |
| DraftOrder.Reverse | src/utils/DraftLogic.js:7-9 | the in-place reversal of a round leaves the array holding the old contents back to front |
| DraftOrder.SnakeOrderLength | src/utils/DraftLogic.js:3-12 | the order has one pick per team per round (`n * rounds` entries, with a negative team count read as none) and is empty when there are no rounds |
| DraftOrder.SnakeOrderAt | src/utils/DraftLogic.js:5-10 | entry `r * n + j` goes to team `j` on even rounds and to team `n - 1 - j` on odd rounds |
| DraftOrder.SnakeOrderCount | src/utils/DraftLogic.js:3-12 | every team index occurs exactly `rounds` times, and no other value occurs, so every team gets the same number of picks |
| DraftOrder.RoundOrderCount | src/utils/DraftLogic.js:6-9 | each round, ascending or reversed, holds every team index exactly once |
| DraftOrder.ReversedPermutes | src/utils/DraftLogic.js:8 | reversing a round keeps its multiset of team indices |
| DraftOrder.SnakeTurn | src/utils/DraftLogic.js:5-10 | the last pick of a round and the first pick of the next go to the same team |
| WeightedChoice.WeightedChoiceSoftmax | src/utils/DraftLogic.js:16-37 | no candidates gives no choice; otherwise the accumulating loop returns the candidate whose share of [0, 1) holds the draw, or the last candidate |
| WeightedChoice.BucketIsShare | src/utils/DraftLogic.js:26-36 | for a draw in [0, 1), the chosen candidate `k` has the draw inside its share `[Prefix(k) / total, Prefix(k + 1) / total)`, so each candidate is drawn with probability weight / total |
| WeightedChoice.BucketUnique | src/utils/DraftLogic.js:29-34 | the shares do not overlap: a candidate whose share holds the draw is the one chosen |
| WeightedChoice.Total | src/utils/DraftLogic.js:24 | positive weights have a positive total, so the divisions in the loop are defined |
| Feasibility.CheckFeasibilityWithRemoval | src/utils/DraftLogic.js:41-87 | the three loops (smallest sum, largest sum, gap scan), each skipping one copy of the removed score, give exactly the verdict `Feasible` |
| Feasibility.NoSlotsLeft | src/utils/DraftLogic.js:42 | with no slot to fill, the verdict is `minNeeded <= 0 <= maxAllowed` for any pool |
| Feasibility.TooFewLeft | src/utils/DraftLogic.js:43 | with at least one slot and fewer than `slots` values besides one removed copy, counted whether or not the pool holds the removed score, the verdict is no |
| Feasibility.AbsentScoreStillCounted | src/utils/DraftLogic.js:43 | the length test counts the removed copy even when it is absent: the pool [5] with 7 removed keeps its 5, which lies in [5, 5], yet the oracle says no for one slot |
| Feasibility.FrontSumIsPrefixSum | src/utils/DraftLogic.js:47-55 | the first scan adds up the `slots` first values of the pool with the first copy of the removed score taken out |
| Feasibility.BackSumIsSuffixSum | src/utils/DraftLogic.js:60-68 | the second scan adds up the `slots` last values of the pool with the last copy of the removed score taken out |
| Feasibility.BackSumSorted | src/utils/DraftLogic.js:60-68 | on a sorted pool the second scan adds up the `slots` largest values of the pool without one copy of the removed score |
| Feasibility.OracleBoundsHold | src/utils/DraftLogic.js:45-69 | a yes with at least one slot means that, once one copy is removed, the `slots` smallest values sum to at most `maxAllowed` and the `slots` largest to at least `minNeeded` |
| Feasibility.OracleComplete | src/utils/DraftLogic.js:41-87 | no false negatives: if some `slots` distinct values of the pool without one copy of the removed score sum into the window, the oracle says yes |
| Feasibility.BoundsPass | src/utils/DraftLogic.js:56-69 | a choice of values summing into the window passes the length test and both sum bounds |
| Feasibility.GapCheckExact | src/utils/DraftLogic.js:71-84 | with one slot the oracle is exact: yes iff some value of the pool without one copy of the removed score lies in the window |
| Feasibility.GapScanFindsWindow | src/utils/DraftLogic.js:77-83 | on a sorted pool, stopping at the first value that reaches `minNeeded` answers whether some value lies in the window |
| Feasibility.GapScanSkipsOneCopy | src/utils/DraftLogic.js:78 | skipping the first copy inside the gap scan is the same as scanning the pool with that copy removed |
| Feasibility.SingleValueFound | src/utils/DraftLogic.js:77-81 | a value in the window, found in the pool without the removed copy, makes the gap scan say yes |
| Feasibility.GapExample | src/utils/DraftLogic.js:72 | the gap case: from 10, 20, 99 with 99 removed, nothing lies in [12, 18], and the oracle says no |
| Feasibility.MultiSlotIsApproximate | src/utils/DraftLogic.js:86 | with two slots the bounds alone decide: the oracle says yes for the window [5, 5] on 0, 0, 10, 10, 99 with 99 removed, though no two of the values sum to 5 |
| ScoreSeqs.SelectionSumBounds | src/utils/DraftLogic.js:45-69 | any `k` distinct values of a sorted pool sum to at least its `k` smallest and at most its `k` largest, which is why the two bounds are necessary |
| ScoreSeqs.RemoveFirstMultiset | src/utils/DraftLogic.js:52 | skipping the first copy met takes exactly one copy of the score out of the multiset of the pool |
| ScoreSeqs.RemoveLastMultiset | src/utils/DraftLogic.js:65 | skipping the last copy takes exactly one copy of the score out of the multiset of the pool |
| ScoreSeqs.RemoveLastIsRemoveFirst | src/utils/DraftLogic.js:52-65 | on a sorted pool, the forward scan and the backward scan remove the same pool, whichever copy they skip |
| ScoreSeqs.RemoveFirstSorted | src/utils/DraftLogic.js:52 | removing one copy keeps the pool sorted |
| DraftTypes.Scores | src/utils/DraftLogic.js:132 | the scores of the available players have one entry per player |
| DraftTypes.ScoresAt | src/utils/DraftLogic.js:132 | entry `i` of the scores is the score of player `i`, so the map keeps the list order |
| DraftTypes.ScoresMember | src/utils/DraftLogic.js:132 | every player's score is among the scores |
| ScoreSeqs.SortAscending | src/utils/DraftLogic.js:132 | the ascending sort of the scores has as many entries as the pool |
| ScoreSeqs.SortAscendingPermutes | src/utils/DraftLogic.js:132 | the ascending sort of the scores keeps their multiset |
| ScoreSeqs.SortAscendingSorted | src/utils/DraftLogic.js:132 | the ascending sort of the scores is in ascending order |
| TeamChecks.CheckFutureFeasibility | src/utils/DraftLogic.js:90-103 | with no slot left after the candidate (or a full roster), the self check is exactly whether the projected score lies in the budget; with slots left it passes only if the pool holds at least that many values besides the candidate's |
| TeamChecks.SelfCheckComplete | src/utils/DraftLogic.js:90-103 | if the team, after taking the candidate, could fill its remaining slots from the rest of the pool within the budget, the self check passes |
| TeamChecks.SelfCheckExactBeforeLastPick | src/utils/DraftLogic.js:99-102 | with one slot left after the candidate, the self check passes iff some remaining value completes the budget |
| TeamChecks.CheckGlobalFeasibility | src/utils/DraftLogic.js:106-122 | the loop with its early exit answers exactly whether every other team with slots left passes the oracle on its own window, against the pool without the candidate's score |
| TeamChecks.GlobalCheckComplete | src/utils/DraftLogic.js:106-122 | if every other unfinished team could still fill its slots within budget from the pool without the candidate, the global check passes |
| TeamChecks.GlobalCheckIgnoresPickerAndFullTeams | src/utils/DraftLogic.js:108-112 | replacing the picking team, or a full team by another full team, never changes the verdict |
| CandidateFilter.GetSmartValidPlayers | src/utils/DraftLogic.js:125-178 | the method, with its loop for the smart tier, returns exactly the tiered result `SmartValidPlayers` |
| CandidateFilter.CollectSmartValid | src/utils/DraftLogic.js:151-162 | the loop keeps, in order, exactly the candidates passing the self check and then the global check |
| CandidateFilter.FilterMembers | src/utils/DraftLogic.js:135 | a player is kept by a filter stage iff it is in the list and passes the stage's test |
| CandidateFilter.FilterIsSubsequence | src/utils/DraftLogic.js:135 | a filter stage keeps an order-preserving subsequence of its input |
| CandidateFilter.ValidWithinCap | src/utils/DraftLogic.js:135 | every candidate offered is an available player whose score fits under the remaining cap |
| CandidateFilter.ValidIsSubsequence | src/utils/DraftLogic.js:135-177 | the candidates offered are an order-preserving subsequence of the available players |
| CandidateFilter.EmptyOnlyWithHardError | src/utils/DraftLogic.js:137-177 | the list is empty iff a hard error is reported; with no message or with the warning it is non-empty |
| CandidateFilter.NoPlayerUnderCapExact | src/utils/DraftLogic.js:137-139 | the first error is given exactly when every available score exceeds the remaining cap |
| CandidateFilter.ErrorsBySlotsLeft | src/utils/DraftLogic.js:142-175 | the final-pick error comes only on the last slot, and the warning and the no-choice error only on any slot other than the last |
| CandidateFilter.LastSlotMembers | src/utils/DraftLogic.js:142-148 | on the last slot, exactly the available players between the remaining floor and cap are offered |
| CandidateFilter.SafeTierMembers | src/utils/DraftLogic.js:150-162 | on any slot other than the last and with no message, exactly the available players under the cap that pass both checks are offered |
| CandidateFilter.WarningTierMembers | src/utils/DraftLogic.js:164-172 | with the warning, exactly the available players under the cap that pass the self check are offered |
| CandidateFilter.FinalPickBelowMinimumJustified | src/utils/DraftLogic.js:143-146 | the final-pick error holds only when every available player under the cap misses the floor |
| CandidateFilter.SelfFeasibleOnlyJustified | src/utils/DraftLogic.js:164-172 | the warning holds only when no available player under the cap passes both checks |
| CandidateFilter.NoFeasibleChoiceJustified | src/utils/DraftLogic.js:171-174 | the no-choice error holds only when no available player under the cap passes the self check |
| CandidateFilter.SafeCandidateAlwaysOffered | src/utils/DraftLogic.js:125-178 | end to end, a candidate under the cap is offered with no message if the picking team and every other team can still finish once it is taken |
| CandidateFilter.ScoreInPool | src/utils/DraftLogic.js:132 | an available player's score is in the sorted pool, as the oracle's length test and completeness assume |
| Risk.HardFailExact | src/utils/DraftLogic.js:190-191 | level 5 is given exactly for a score over the remaining cap, or under the remaining floor on the last slot, and it always comes with the cross |
| Risk.LevelsBelowHardFail | src/utils/DraftLogic.js:193-204 | below level 5: level 1 iff both checks pass, 2 iff only the global one does, 3 iff only the self check does, and 4 iff neither does, with the global check counted as passed while the roster is empty |
| Risk.AnalyzeRisk | src/utils/DraftLogic.js:181-207 | every level is in 1 to 5, the question-mark default at level 99 is never reached, and the glyph follows the level |
| Risk.EmptyRosterLevels | src/utils/DraftLogic.js:195-199 | with an empty roster only levels 1, 2 and 5 occur |
| Risk.HardFailNeverOffered | src/utils/DraftLogic.js:190-191 | a level-5 player is never offered by the candidate filter for the same team and pool |
| Risk.SafeIsOffered | src/utils/DraftLogic.js:193-201 | once the team has a player, a level-1 player from the pool is offered by the filter with no message |

## Left out

- The user interface (`src/components/ManualModal.jsx`, `DataPreviewModal.jsx`, `StatusBar.jsx`). It is React rendering, state and DOM positioning, and its ordering of the modal list by risk and score is presentation only.
- WeightedChoice.WeightedChoiceSoftmax: the weights `Math.exp((score - maxScore) / temperature)` (with the default temperature 1.5) and the draw `Math.random()` are parameters. Arithmetic is on exact reals, not IEEE doubles, so rounding in the running total is not modelled. The weights need only be positive. A `null` candidate list is not modelled; the empty list is.
- The JavaScript defaults `team.roster || []` and `team.score || 0` (src/utils/DraftLogic.js:91, :93). A team here always has a roster and a score.
- The comparator sort at src/utils/DraftLogic.js:132 and :182 is modelled by an insertion sort, `SortAscending`. It is specified by its multiset and its order, which determine the result uniquely.
- Scores are unbounded integers. The source's numbers are doubles, which are exact for integers up to 2^53, so rounding of large sums is not modelled.
- Player names and the text of the error strings and status glyphs become enumeration values.
- Feasibility.OracleComplete, TeamChecks.SelfCheckComplete, TeamChecks.GlobalCheckComplete: they require that the candidate's score occurs in the pool. Every caller passes a candidate from the available players. Without that, the length test at :43 still subtracts one.
- Risk.SafeIsOffered: it requires at least one player on the roster. The classifier skips the global check on an empty roster, while the filter runs it on any slot other than the team's last, so with an empty roster and more than one slot the two can disagree.
- The filter's last-slot tier (src/utils/DraftLogic.js:142-148) keeps every player between the remaining floor and cap without running the global check, so a last pick can leave another team unable to finish. This is the source's behaviour and the model keeps it; with one player per team and an empty roster, neither the filter nor the classifier runs the global check.
- An invalid team index. `getSmartValidPlayers` and `analyzeRisk` read `teams[teamIndex].roster` (src/utils/DraftLogic.js:126-127, :184-185) and throw a TypeError when the index is out of range; `src/components/ManualModal.jsx:13` passes `teams.indexOf(team)`, which is -1 for a team not in the list. The model does not represent that exception: `SmartValidPlayers`, `GetSmartValidPlayers`, `AnalyzeRisk` and the lemmas about them require `0 <= teamIndex < |teams|`.
