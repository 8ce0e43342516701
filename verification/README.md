# A Dafny model of seven cores of the TAG game framework

This project models, as immutable data and pure functions, seven parts of
the Tabletop Games (TAG) framework:

- **Tree reuse of the MCTS player** (`MCTSEAHPlayer`). The search tree is an
  arena: a map from node ids to nodes. Each node holds its `turnOwner`, its
  `decisionPlayer`, its visit count and its child table
  `map<Action, seq<Option<NodeId>>>`. The game history is a sequence of
  `(player, action)` moves. Modelled:
  - `backtrack`, which finds the most recent `(current player, last action)`
    entry and replays forward through `children[action][nextPlayer]`
    (modules `ReuseWalk` and `ReuseRoot`);
  - the graph (MCGS) garbage collection of transposition keys;
  - the multi-tree root update, `newRootNode` with its fatal checks,
    `createRootNode` and `registerUpdatedObservation`.
- **Search parameters** (`MCTSEAHParams`, module `SearchParams`): the
  normalisation done by `_reset`, the MAST check of `instantiate`,
  `constructStrategy`, and the memoised rollout strategy and opponent model.
- **Root game-state bookkeeping** (`RootGameState`):
  - module `RootState`: scores, turn counters, building and token supplies,
    officers, and the Vagabond's relationship ("aid") state machine;
  - module `RootCrafting`: `canCraftCard` and `getDecreeSuits`;
  - module `RootCopy`: the redeterminising copy `_copy(playerId)` for hands
    and supporters, with the shuffles as arbitrary permutations, and the
    copy of the relationship and aid-count maps.
- **Root items** (`Item`, module `Items`): construction defaults, `copy` and
  `equals`. A small store of references models object identity.
- **The RemoveAllWood action** (module `WoodRemoval`): its guard and its
  loop as written, and the evidently intended transfer.
- **Rolling-horizon evolution** (`RHEAEAPlayer`, module `Rhea`):
  - crossover (NONE, uniform, one-point and two-point);
  - tournament and rank selection;
  - the budget test and the evolution loop;
  - the MAST statistics backup;
  - the elitist replacement of one generation.
- **Occurrence summaries** (`TAGOccurrenceStatSummary`, module `Occurrence`):
  reset, the single and bulk adds, merging, copying, `getSummary`, and the
  count-sorted `stringSummary`.

Module `Basics` holds `Option` and `Result`. A Java `null` is `None`, and an
exception is an `Err` value naming the failure.

## Model

| member | source | states |
|---|---|---|
| ReuseWalk.Step | src/main/java/players/mctsEAHeuristic/MCTSEAHPlayer.java:222-227 | One replay step lands only on the node stored at `children[action][slot]`. It is lost exactly when the child table is null, the action has no entry, or the child is null. It is out of range exactly when the slot is outside the child array. |
| ReuseWalk.LastMatch | src/main/java/players/mctsEAHeuristic/MCTSEAHPlayer.java:206-207 | The backward scan finds the most recent entry equal to the expected move. It finds none exactly when no entry matches. |
| ReuseWalk.Steps | src/main/java/players/mctsEAHeuristic/MCTSEAHPlayer.java:212-219 | Normally there is one edge per history entry, slotted by the next entry's actor, or by the current player for the last entry. Under own-moves-only, only the root player's entries are used, always slotted by the root player. |
| ReuseWalk.FollowAppend | src/main/java/players/mctsEAHeuristic/MCTSEAHPlayer.java:222-227 | Following two edge lists in turn is following their concatenation. A walk that stopped stays stopped. |
| ReuseWalk.ReplayFollowsSteps | src/main/java/players/mctsEAHeuristic/MCTSEAHPlayer.java:212-228 | The forward loop as written, with its `continue` and `break`, is the reference walk along `Steps`. |
| ReuseWalk.Backtrack | src/main/java/players/mctsEAHeuristic/MCTSEAHPlayer.java:199-235 | With no matching history entry the starting root itself is returned. Any node landed on exists in the arena. |
| ReuseWalk.BacktrackFromLastMatch | src/main/java/players/mctsEAHeuristic/MCTSEAHPlayer.java:204-229 | Backtracking replays exactly the edges from the most recent matching entry on. Under own-moves-only, children are read by the starting root's decision player. |
| ReuseWalk.ReplayShift | src/main/java/players/mctsEAHeuristic/MCTSEAHPlayer.java:212-228 | The replay from an index reads only the history from that index on. |
| ReuseWalk.BacktrackIgnoresEarlierHistory | src/main/java/players/mctsEAHeuristic/MCTSEAHPlayer.java:206-229 | Once the expected move occurs in a suffix of the history, everything before that suffix is irrelevant: earlier matches are never used. |
| ReuseRoot.CollectGarbage | src/main/java/players/mctsEAHeuristic/MCTSEAHPlayer.java:132-141 | The loop over the recorded keys fails with "fewer visits" exactly when some recorded key lost visits. An absent key counts 0. Otherwise the result is the table without the keys whose visits are unchanged, whatever the order of the keys. |
| ReuseRoot.GraphRoot | src/main/java/players/mctsEAHeuristic/MCTSEAHPlayer.java:129-161 | A null root fails as soon as a key was recorded. A recorded key survives exactly when its visits increased. A relocated root is the table entry of the current state key and comes with the visit snapshot of the pruned table. A missing state key gives no reuse and an empty snapshot. |
| ReuseRoot.MultiTreeRoots | src/main/java/players/mctsEAHeuristic/MCTSEAHPlayer.java:103-125 | Every non-null player root is backtracked on its own, with own moves only. Null roots stay null. An out-of-range child index anywhere is fatal. |
| ReuseRoot.NewRootNode | src/main/java/players/mctsEAHeuristic/MCTSEAHPlayer.java:127-197 | Without tree reuse, or with no previous root, there is no reuse. The graph policies take the graph branch, and MultiTree relocates each player's root, failing when that does. For a single tree, the backtracking walk decides: out of range is fatal, lost gives no reuse (a fresh root), landing on the old root is fatal, landing on a node whose turn owner or decision player is not the current player is the player-mismatch error, and otherwise the search relocates to that node. |
| ReuseRoot.NewRootNodeFollowsSteps | src/main/java/players/mctsEAHeuristic/MCTSEAHPlayer.java:173-196 | For a single tree, the search relocates to a node exactly when the reference walk from the most recent matching history entry lands on a different node owned by and deciding for the current player. It starts afresh exactly when that walk gets lost. |
| ReuseRoot.CreateRootNode | src/main/java/players/mctsEAHeuristic/MCTSEAHPlayer.java:237-246 | A null relocation builds a fresh root: a multi-tree root under MultiTree, otherwise the factory's node class for the policy. Any other relocation becomes the root. Failures of `newRootNode` pass through. |
| ReuseRoot.RegisterUpdatedObservation | src/main/java/players/mctsEAHeuristic/MCTSEAHPlayer.java:96-101 | Without tree reuse the recorded root is dropped. Nothing else changes. |
| ReuseRoot.OpponentReplyReusesGrandchild | src/main/java/players/mctsEAHeuristic/MCTSEAHPlayer.java:174-195 | After our action and the opponent's reply, both of them expanded, a OneTree search relocates to exactly the grandchild they reach. |
| SearchParams.Reset | src/main/java/players/mctsEAHeuristic/MCTSEAHParams.java:137-200 | TREE selection becomes SIMPLE exactly for the UCB, UCB_Tuned and AlphaGo tree policies. Closed_Loop forces state discarding off. `useMAST` holds exactly when MAST is not None. The strategy types and class names, the opponent tree policy, `reuseTree` and whether each policy-parameter object is set are re-read. Both lazily built strategies are dropped. |
| SearchParams.Instantiate | src/main/java/players/mctsEAHeuristic/MCTSEAHParams.java:255-260 | Instantiation fails, only with the MAST error, exactly when MAST data is not collected but is used as the action heuristic or the rollout type. |
| SearchParams.InstantiateAfterReset | src/main/java/players/mctsEAHeuristic/MCTSEAHParams.java:255-258 | After a reset this failure happens exactly when the registered MAST type is None and MAST is used as the action heuristic or the rollout type. |
| SearchParams.ConstructStrategy | src/main/java/players/mctsEAHeuristic/MCTSEAHParams.java:234-248 | RANDOM, MAST and CLASS build a strategy. PARAMS and every other type are errors, each with its own message. |
| SearchParams.GetRolloutStrategy | src/main/java/players/mctsEAHeuristic/MCTSEAHParams.java:223-232 | A held strategy is returned unchanged. Otherwise one new object is built, given the action space and held. Under PARAMS it is the policy parameters' player, and a null parameter object is an error. Any other type is built by `constructStrategy`, which fails only for DEFAULT. |
| SearchParams.GetOpponentModel | src/main/java/players/mctsEAHeuristic/MCTSEAHParams.java:210-221 | A held model is returned unchanged. Under DEFAULT the model is the rollout strategy object, and it fails exactly when that does. Under PARAMS it is the opponent parameters' player, and a null parameter object is an error. Any other type always succeeds with the `constructStrategy` result. |
| SearchParams.RolloutStrategyBuiltOncePerReset | src/main/java/players/mctsEAHeuristic/MCTSEAHParams.java:192-193 | After a reset the first call builds one object and later calls return that same object. The next reset forces a different object. |
| SearchParams.DefaultOpponentIsRolloutStrategy | src/main/java/players/mctsEAHeuristic/MCTSEAHParams.java:214-215 | Under DEFAULT, the opponent model and the rollout strategy are one object, whichever is asked for first. |
| Items.NewItem | src/main/java/games/root_final/components/Item.java:21-35 | A new item is refreshed and undamaged, with the given type and id. |
| Items.Copy | src/main/java/games/root_final/components/Item.java:37-42 | A copy keeps the item type, the component id and both flags. |
| Items.ItemEqualsAt | src/main/java/games/root_final/components/Item.java:44-50 | An object equals itself. Two distinct objects are equal exactly when the superclass comparison holds and the type, both flags and the id agree. |
| Items.CopyAt | src/main/java/games/root_final/components/Item.java:37-42 | A copy is a newly allocated object holding the copied item. No other object changes. |
| Items.CopyIsIndependent | src/main/java/games/root_final/components/Item.java:37-50 | A copy equals its original exactly when the superclass parts compare equal. Changing the copy's flags leaves the original as it was. |
| RootState.AddScore | src/main/java/games/root_final/RootGameState.java:354-358 | Only a player under the Score condition gains the points. Every other player and field is unchanged. |
| RootState.RemoveScore | src/main/java/games/root_final/RootGameState.java:360-366 | Under Score, a positive score loses one point; otherwise nothing changes. A score never goes below zero. |
| RootState.SetScore | src/main/java/games/root_final/RootGameState.java:368-372 | Under Score the score is set; otherwise nothing changes. |
| RootState.ScoresFrozenOutsideScoreCondition | src/main/java/games/root_final/RootGameState.java:354-372 | A player under another victory condition is unaffected by all three score operations. |
| RootState.RemoveScoreUndoesAddOne | src/main/java/games/root_final/RootGameState.java:354-366 | Removing a point after adding one restores the state. |
| RootState.IncreaseActionsPlayed | src/main/java/games/root_final/RootGameState.java:394-396 | The counter grows by one and nothing else changes. |
| RootState.DecreaseActionsPlayed | src/main/java/games/root_final/RootGameState.java:398-402 | The counter drops by one when positive and never goes below zero. |
| RootState.IncreaseSubGamePhase | src/main/java/games/root_final/RootGameState.java:404-408 | The sub-phase grows by one, the played suits are cleared and the actions played reset to 0. |
| RootState.DecreaseUndoesIncrease | src/main/java/games/root_final/RootGameState.java:394-402 | Decreasing after increasing restores the state. |
| RootState.BuildingsByCount | src/main/java/games/root_final/RootGameState.java:816-827 | The per-type counts determine the building supply. |
| RootState.RemoveBuilding | src/main/java/games/root_final/RootGameState.java:507-559 | The call fails exactly when a listed type has no building left. Otherwise only that counter drops by one. Unlisted types change nothing. |
| RootState.AddBuilding | src/main/java/games/root_final/RootGameState.java:597-621 | Only the counter of a listed type grows by one. |
| RootState.RemoveBuildingKeepsSupplyNonNegative | src/main/java/games/root_final/RootGameState.java:507-559 | A successful removal never takes a counter below zero. |
| RootState.AddThenRemoveBuilding | src/main/java/games/root_final/RootGameState.java:507-621 | Adding and then removing a building of the same type restores every counter. |
| RootState.AddToken | src/main/java/games/root_final/RootGameState.java:561-573 | Wood and sympathy tokens grow by one. Adding the keep removes it from play. Other token counts are unchanged. |
| RootState.RemoveToken | src/main/java/games/root_final/RootGameState.java:575-595 | Wood and sympathy drop by one when positive and are never negative. The keep is never removed. |
| RootState.RemoveSympathyTokens | src/main/java/games/root_final/RootGameState.java:792-796 | Sympathy drops by one when positive; nothing else changes. |
| RootState.RemoveSympathyIsRemoveToken | src/main/java/games/root_final/RootGameState.java:792-796 | `removeSympathyTokens` is `removeToken(Sympathy)`. |
| RootState.RemoveTokenUndoesAddToken | src/main/java/games/root_final/RootGameState.java:561-595 | Returning a wood or sympathy token and taking it again restores the state. |
| RootState.AddOfficer | src/main/java/games/root_final/RootGameState.java:757-764 | The call fails exactly when no warrior is left. Otherwise one warrior becomes an officer and their sum is kept. |
| RootState.Aid | src/main/java/games/root_final/RootGameState.java:1266-1297 | A missing or hostile relationship is left alone, and a missing aid count fails. Allied earns 2 points per aid. Below Allied, reaching the level's threshold (1, 2, 3) promotes one level, earns 1 or 2 points and resets the counter; otherwise the counter grows. |
| RootState.AidMovesOneLevelUp | src/main/java/games/root_final/RootGameState.java:1266-1297 | Aid never worsens a relationship and improves it by at most one level. |
| RootState.AidCounts | src/main/java/games/root_final/RootGameState.java:1269-1292 | One aid below Allied either promotes, with points and the counter back at 0, or counts one more. |
| RootState.SixAidsReachAllied | src/main/java/games/root_final/RootGameState.java:1269-1292 | Six aids take a Neutral faction to Allied, with the counter back at 0, for 5 points. |
| RootCrafting.HasItemOfType | src/main/java/games/root_final/RootGameState.java:1067-1071 | The filter finds an item exactly when a craftable item of the card's type exists. |
| RootCrafting.CountAvailable | src/main/java/games/root_final/RootGameState.java:1072-1076 | The counting map holds each suit's occurrences among the available suits. |
| RootCrafting.CountBirds | src/main/java/games/root_final/RootGameState.java:1077-1082 | The count is the number of Bird (any-suit) cost entries. |
| RootCrafting.Consume | src/main/java/games/root_final/RootGameState.java:1083-1091 | Consumption fails exactly when some non-Bird suit is needed more often than it is available. Otherwise the counts left are the available counts minus the non-Bird costs. |
| RootCrafting.LengthIsSuitTotal | src/main/java/games/root_final/RootGameState.java:1092-1095 | Summing a counting map's values gives the length of the counted sequence. |
| RootCrafting.CanCraftCard | src/main/java/games/root_final/RootGameState.java:1066-1097 | A card is craftable exactly when a matching item exists (for item cards), every non-Bird cost is matched one for one, and there are at least as many available suits as cost entries. |
| RootCrafting.DecreeSuitsOf | src/main/java/games/root_final/RootGameState.java:731-738 | The result holds exactly the column's suits that were not played. Each appears once, in order of first occurrence. |
| RootCrafting.DecreeSuits | src/main/java/games/root_final/RootGameState.java:730-739 | An index outside the decree is an error, as `get` throws. Otherwise the result holds exactly the chosen column's suits that were not played, each once, in order of first occurrence. |
| RootCopy.KeptAndHidden | src/main/java/games/root_final/RootGameState.java:306-314 | A hand's cards are those the viewer can see plus those moved to the draw pile. |
| RootCopy.Redraw | src/main/java/games/root_final/RootGameState.java:305-318 | A redrawn hand keeps its owner and size, and every card the viewer sees is still in it; with drawn cards appended, those cards stay at the front in order. Hand plus pile is the same multiset of cards. |
| RootCopy.RedrawStep | src/main/java/games/root_final/RootGameState.java:300-319 | The viewer's own hand is copied unchanged; any other hand is redrawn. Cards are conserved. |
| RootCopy.RedrawHands | src/main/java/games/root_final/RootGameState.java:298-320 | Every hand keeps its owner and size, the viewer's hand is unchanged, and the cards of all hands plus the pile are conserved. |
| RootCopy.RedrawSupporters | src/main/java/games/root_final/RootGameState.java:322-330 | The supporters are redrawn to their old size, conserving supporters plus pile. A null deck fails. |
| RootCopy.RedeterminisedCopy | src/main/java/games/root_final/RootGameState.java:298-335 | With no viewer, everything is copied as is. Otherwise every hand is redetermined and the supporters are redrawn unless the viewer is the Woodland Alliance. The cards on the table are conserved. |
| RootCopy.CopyFactionMap | src/main/java/games/root_final/RootGameState.java:282-288 | The copied relationship map holds the entries of the three non-Vagabond factions, each with its own value. The corrected aid-count copy is the same map copy. |
| RootCopy.CopyAidNumbersAsWritten | src/main/java/games/root_final/RootGameState.java:289-295 | In the copy as written, the Eyrie's aid count is the Marquise's. |
| RootCopy.AidCopyKeepsEyrieOnlyWhenEqual | src/main/java/games/root_final/RootGameState.java:289-295 | The copy as written keeps the Eyrie count exactly when the Marquise and Eyrie counts coincide. |
| RootCopy.AidOnCopyDiverges | src/main/java/games/root_final/RootGameState.java:292 | Aid to an Eyrie at One with one aid counted promotes it, but not in a copy made while the Marquise count is 0. |
| RootCopy.AidIsLocal | src/main/java/games/root_final/RootGameState.java:1266-1297 | Aid to a faction reads and writes only the scores and that faction's two entries. |
| RootCopy.AidOnCorrectedCopyAgrees | src/main/java/games/root_final/RootGameState.java:282-295 | With the corrected copy, aid has the same outcome in the copy as in the original, for every state. |
| WoodRemoval.Drain | src/main/java/games/root_final/actions/RemoveAllWood.java:23-26 | The inner loop as written stops after removing half the tokens, rounded up. |
| WoodRemoval.DrainFromZero | src/main/java/games/root_final/actions/RemoveAllWood.java:23-26 | From a fresh counter, the loop as written leaves half the wood, rounded down. |
| WoodRemoval.Execute | src/main/java/games/root_final/actions/RemoveAllWood.java:18-32 | The action succeeds exactly for the current player playing the Marquise; otherwise nothing changes. Only non-forest clearings with wood are touched, and they keep half their wood, rounded down. Map wood plus supply wood is conserved. |
| WoodRemoval.EmptiedConserves | src/main/java/games/root_final/actions/RemoveAllWood.java:21-28 | The wood left on the board plus the wood moved is the wood there was. |
| WoodRemoval.ExecuteCorrected | src/main/java/games/root_final/actions/RemoveAllWood.java:18-32 | Same guard. Every non-forest clearing ends with no wood, forests are untouched, and wood is conserved. |
| WoodRemoval.EqualsIsSamePlayer | src/main/java/games/root_final/actions/RemoveAllWood.java:35-46 | Two actions are equal exactly when they act for the same player. A copy is its original. |
| WoodRemoval.Equals | src/main/java/games/root_final/actions/RemoveAllWood.java:39-46 | Two RemoveAllWood actions are equal exactly when they are the same action value, that is, when they act for the same player. |
| WoodRemoval.Copy | src/main/java/games/root_final/actions/RemoveAllWood.java:34-37 | The copy equals its original, in both directions. |
| Rhea.OnePoint | src/main/java/players/rheaEAHeuristic/RHEAEAPlayer.java:173-183 | The child has the first parent's length. Its last `min/2` positions are the second parent's tail, aligned at the end; the rest come from the first parent. |
| Rhea.OnePointCrossover | src/main/java/players/rheaEAHeuristic/RHEAEAPlayer.java:173-183 | The loop builds that child and charges one copy call per position. |
| Rhea.TwoPoint | src/main/java/players/rheaEAHeuristic/RHEAEAPlayer.java:185-196 | The first and last `min/3` positions come from the second parent, the middle from the first. |
| Rhea.TwoPointCrossover | src/main/java/players/rheaEAHeuristic/RHEAEAPlayer.java:185-196 | The loop builds that child and charges one copy call per position. |
| Rhea.Uniform | src/main/java/players/rheaEAHeuristic/RHEAEAPlayer.java:160-171 | Below `min`, each position comes from the second parent when its draw is heads; all other positions come from the first. |
| Rhea.UniformCrossover | src/main/java/players/rheaEAHeuristic/RHEAEAPlayer.java:160-171 | The loop builds that child and charges one copy call per position. |
| Rhea.Crossover | src/main/java/players/rheaEAHeuristic/RHEAEAPlayer.java:145-158 | NONE copies the first parent without charging copy calls. The other types give their child. |
| Rhea.CrossoverWithSelf | src/main/java/players/rheaEAHeuristic/RHEAEAPlayer.java:160-196 | Crossing a parent with itself gives that parent back. |
| Rhea.CrossoverOfEqualLengthsIsPointwise | src/main/java/players/rheaEAHeuristic/RHEAEAPlayer.java:160-196 | For parents of equal length, every child position holds one of the parents' genes at that position. |
| Rhea.TournamentSelection | src/main/java/players/rheaEAHeuristic/RHEAEAPlayer.java:217-227 | No samples give null. Otherwise the pick is a sampled individual that no sample beats, and it is the first sample that reaches the maximum. |
| Rhea.CumAndTri | src/main/java/players/rheaEAHeuristic/RHEAEAPlayer.java:231-237 | The rank weights n, n-1, ..., 1 add up to the rank sum. |
| Rhea.RankSelection | src/main/java/players/rheaEAHeuristic/RHEAEAPlayer.java:229-242 | The final `throw` is unreachable: a non-empty population always yields a pick. The pick is the first index whose cumulative weight reaches the draw. |
| Rhea.LastRankNeverPicked | src/main/java/players/rheaEAHeuristic/RHEAEAPlayer.java:236-239 | As written, with two or more individuals, the last rank is never picked. |
| Rhea.RankSelectionCorrected | src/main/java/players/rheaEAHeuristic/RHEAEAPlayer.java:229-242 | With the corrected comparison, rank k is picked exactly for the draws in its own weight range. |
| Rhea.EveryRankPickable | src/main/java/players/rheaEAHeuristic/RHEAEAPlayer.java:236-239 | Under the corrected rule, every rank has a non-empty range of draws, and the ranges do not overlap. |
| Rhea.SpentBudgetStaysSpent | src/main/java/players/rheaEAHeuristic/RHEAEAPlayer.java:119-134 | For every counted budget type, a spent budget stays spent while the counters only grow. |
| Rhea.BudgetLeft | src/main/java/players/rheaEAHeuristic/RHEAEAPlayer.java:119-134 | The test fails exactly for a budget type it has no branch for. What each known type tests is stated through `Rhea.SpentBudgetStaysSpent` and `Rhea.EvolutionLoop`. |
| Rhea.EvolutionLoop | src/main/java/players/rheaEAHeuristic/RHEAEAPlayer.java:103-105 | For the iteration and copy-call budgets, the loop stops with the budget spent, after at most `budget` generations in all. The iteration budget runs exactly that many. |
| Rhea.FirstNull | src/main/java/players/rheaEAHeuristic/RHEAEAPlayer.java:288-291 | The backup stops at the first null action. |
| Rhea.TallyStep | src/main/java/players/rheaEAHeuristic/RHEAEAPlayer.java:292-295 | One backup step adds one visit and `delta` value to that action's entry. |
| Rhea.TallyAllTallies | src/main/java/players/rheaEAHeuristic/RHEAEAPlayer.java:288-296 | Backing up a run of actions gives each action one visit and `delta` per occurrence. |
| Rhea.MASTBackup | src/main/java/players/rheaEAHeuristic/RHEAEAPlayer.java:287-297 | Each action before the first null adds one visit and `delta` value to the player's table. Other players' tables are unchanged. |
| Rhea.RunIteration | src/main/java/players/rheaEAHeuristic/RHEAEAPlayer.java:247-284 | As a multiset, the new population is the unmutated copies of the first `eliteCount` individuals plus the first `populationSize - eliteCount` of the mutated old population and children, in the order the sort ranks them. It holds at most `populationSize` when the elite count is within it. Every member is an old individual or a mutated one. The iteration count grows by exactly one. |
| Occurrence.Reset | src/main/java/evaluation/summarisers/TAGOccurrenceStatSummary.java:24-27 | The element map is empty and the other fields are kept. |
| Occurrence.Add | src/main/java/evaluation/summarisers/TAGOccurrenceStatSummary.java:48-51 | The element's count rises by exactly one and every other count is unchanged. `n` is untouched. |
| Occurrence.AddAllCounts | src/main/java/evaluation/summarisers/TAGOccurrenceStatSummary.java:53-57 | After adding a sequence, each key's count grows by its occurrences in the sequence. |
| Occurrence.AddEach | src/main/java/evaluation/summarisers/TAGOccurrenceStatSummary.java:53-57 | The loop is adding each argument in order. |
| Occurrence.Sum | src/main/java/evaluation/summarisers/TAGOccurrenceStatSummary.java:31-37 | Merged keys are the union of both maps. Shared keys get the sum of their counts; other keys keep theirs. |
| Occurrence.Merge | src/main/java/evaluation/summarisers/TAGOccurrenceStatSummary.java:29-38 | Walking the other summary's entries in any order yields the summed map. |
| Occurrence.MergeCountsBothRuns | src/main/java/evaluation/summarisers/TAGOccurrenceStatSummary.java:29-57 | Merging in the summary of a second run counts as much as adding that run directly. |
| Occurrence.MergeIsSymmetric | src/main/java/evaluation/summarisers/TAGOccurrenceStatSummary.java:29-38 | The merged counts do not depend on which summary is merged into which. |
| Occurrence.Copy | src/main/java/evaluation/summarisers/TAGOccurrenceStatSummary.java:91-101 | A copy has the same name, `n`, type and element counts. |
| Occurrence.CopyOn | src/main/java/evaluation/summarisers/TAGOccurrenceStatSummary.java:91-101 | On a heap of element maps, a copy gets a freshly allocated map holding the same counts. No existing map changes. |
| Occurrence.AddOn | src/main/java/evaluation/summarisers/TAGOccurrenceStatSummary.java:48-51 | Adding through an object changes only the map it refers to, as `add(Object)` does. |
| Occurrence.CopyIsIndependent | src/main/java/evaluation/summarisers/TAGOccurrenceStatSummary.java:91-101 | The copy's map is a different map from the original's. Adding to the copy counts there and leaves the original summary as it was. |
| Occurrence.SharedMapIsNotIndependent | src/main/java/evaluation/summarisers/TAGOccurrenceStatSummary.java:98 | A copy that shared the original's map instead of copying it would not be independent: adding to it changes the original. |
| Occurrence.GetSummary | src/main/java/evaluation/summarisers/TAGOccurrenceStatSummary.java:103-110 | Every key's string form is in the summary, and only those. A key whose string form no later key shares maps to its count. |
| Occurrence.SummaryOfDistinctNames | src/main/java/evaluation/summarisers/TAGOccurrenceStatSummary.java:103-110 | When no two keys print alike, every key's string form maps to its count. |
| Occurrence.Insert | src/main/java/evaluation/summarisers/TAGOccurrenceStatSummary.java:124-129 | The sorted set stays strictly descending by count. A measure whose count is already present is not added. |
| Occurrence.SortedMeasures | src/main/java/evaluation/summarisers/TAGOccurrenceStatSummary.java:72-79 | There is one measure per distinct count, in descending order, each naming the first key with that count. |
| Occurrence.StringSummary | src/main/java/evaluation/summarisers/TAGOccurrenceStatSummary.java:70-85 | The text is the name (null prints "null"), the header, then the measures by descending count. Every count appears, and each measure names the first key in iteration order with its count. |
| Occurrence.Pieces | src/main/java/evaluation/summarisers/TAGOccurrenceStatSummary.java:41 | The pieces between the commas contain no comma, and joining them with commas gives the string back. |
| Occurrence.Split | src/main/java/evaluation/summarisers/TAGOccurrenceStatSummary.java:41 | A string without a comma is its own single piece. Otherwise the result is the comma-separated pieces with only trailing empty pieces cut, so it ends in a non-empty piece. Joining it with the cut empty pieces gives the string back. No piece contains a comma. |
| Occurrence.AddText | src/main/java/evaluation/summarisers/TAGOccurrenceStatSummary.java:40-46 | As written, with the call depth bounded: a call that returns had no piece to add (the string is commas only) and leaves the summary exactly as it was, `n` included. |
| Occurrence.AddPieces | src/main/java/evaluation/summarisers/TAGOccurrenceStatSummary.java:43-45 | The loop over the pieces returns only when every piece yields no piece of its own, and then the summary is unchanged. No pieces return at once. |
| Occurrence.AddTextDiverges | src/main/java/evaluation/summarisers/TAGOccurrenceStatSummary.java:40-46 | As written, adding any string that yields a piece never returns, whatever the depth bound. |
| Occurrence.AddTextOfCommasOnly | src/main/java/evaluation/summarisers/TAGOccurrenceStatSummary.java:40-46 | A string of commas only yields no piece and returns at once. |
| Occurrence.AddTextCorrected | src/main/java/evaluation/summarisers/TAGOccurrenceStatSummary.java:40-46 | As intended: `n` grows by the number of pieces and every piece is counted once. |
| Occurrence.AddTextOfOnePiece | src/main/java/evaluation/summarisers/TAGOccurrenceStatSummary.java:40-46 | A string without a comma is counted exactly as `add(Object)` counts it, plus one for `n`. |

## Left out

- MCTS node internals are not part of this model: `SingleTreeNode`, `MCGSNode`, `MultiTreeNode` and `OMATreeNode`, the search itself, and `rootify`, `instantiate` and the state copies given to relocated roots. A relocation is reported as the node id it lands on.
- The MAST decay of `createRootNode` (`Utils.decay`) and the hand-over of MAST statistics to the strategies are not modelled: the decay function is not part of this model.
- `getFactory` is modelled only as the node class it picks (`ReuseRoot.FactoryKind`).
- Floating point: fitness values are `real`, and the uniform crossover's `nextFloat() >= 0.5` draws are a function parameter.
- Randomness: the tournament's index draws, the rank draw and the shuffles of the copy are parameters. The draws are assumed in range. The tournament precondition excludes the empty population, for which `nextInt(0)` throws.
- Rhea.BudgetLeft: its contract states only that an unknown budget type is an error. What each type tests is stated through `Rhea.SpentBudgetStaysSpent` and `Rhea.EvolutionLoop`. The time budget reads a `remaining` parameter instead of a timer.
- Rhea.RankSelection indexes its input as given: the in-place `population.sort` that `rankSelection` performs first is assumed already done, because `RHEAEAIndividual.compareTo` is not part of this model.
- Rhea.EvolutionLoop covers only the iteration and copy-call budgets, because the other budgets depend on calls made by the forward model.
- Rhea.RunIteration takes the children already bred: parent selection and crossover are modelled on their own. Mutation and sorting are parameters: `RHEAEAIndividual` and its `compareTo` are not part of this model, so "best" means first in the order the given sort produces. The MAST backup of each mutated individual is modelled as `Rhea.MASTBackup`, and the forward-model and copy-call counts charged by mutation are left out.
- The genome is one sequence of genes, each standing for an action together with the game state at that position, so the `actions` and `gameStates` arrays move in step.
- `_getAction`, `shiftLeft`, and `RHEAEAIndividual.mutate` and `rollout` are not part of this model.
- The superclass summary's own parts are not modelled: `TAGStatSummary`'s `reset` and `add` are not part of this model. `n` is carried along unchanged except by `add(String)`.
- `Object.toString` of a key and the hash map's iteration order are parameters of `getSummary` and `stringSummary`.
- `hashCode` of `RemoveAllWood` is not modelled.
- `_equals` and `hashCode` of the Root game state are not modelled.
- The board queries of the Root game state (connectivity, attack, overwork, steal) and `supportersContainClearingType` depend on board and parameter classes that are not part of this model.
- Java's 32-bit `int` arithmetic is not modelled: scores, turn counters, supplies, aid counts, occurrence counts, `n`, `rankSum` and the budget counters are unbounded integers. The properties here hold for the program only while no such value reaches `Integer.MAX_VALUE`.
- RootState.DecreaseUndoesIncrease: at `actionsPlayed == Integer.MAX_VALUE` the program's increase wraps to `Integer.MIN_VALUE` and the decrease then does nothing, so for the program the round trip holds only below that value.
- RootState.RemoveScoreUndoesAddOne: likewise, at a score of `Integer.MAX_VALUE` adding a point wraps and removing one does nothing, so for the program the round trip holds only below that value.
- Logging and printing are not modelled.
- The clearing's `removeToken` is not part of this model. It is taken to remove one wood token when there is one.
- The superclass `Component.equals` used by `Item.equals` is a parameter.
- RootCopy.Redraw: `Deck` and `PartialObservableDeck` are not part of this model, so where `add` puts a drawn card, and with what visibility, is assumed: after the kept cards, seen by nobody. The clause "the cards the viewer sees stay at the front, in order" of `Redraw`, `Redetermined`, `RedrawStep` and `RedrawHands` rests on that assumption. Hand sizes and card conservation do not.
- Decks are sequences of card ids with per-slot visibility. Deck capacity and the other fields of the copy are not modelled.

## Findings

| source | as written | input that shows it | evidently intended | confidence | as-written member | corrected member |
|---|---|---|---|---|---|---|
| src/main/java/games/root_final/actions/RemoveAllWood.java:23-26 | The inner loop compares its counter with `location.getWood()`, re-read after every removal, so it stops halfway. | A non-forest clearing holding `w` wood keeps `w / 2` of them, e.g. 1 of 2. | Every wood token leaves the clearings that are not forests. | not executed; assumes the clearing's `removeToken` takes one token | WoodRemoval.DrainFromZero | WoodRemoval.ExecuteCorrected |
| src/main/java/games/root_final/RootGameState.java:292 | The copy fills the Eyrie's aid count from the Marquise's entry. | Eyrie at relationship One with 1 aid counted and the Marquise at 0: aid promotes the Eyrie in the original but not in the copy. | Each faction's own count is copied. | not executed | RootCopy.AidOnCopyDiverges | RootCopy.AidOnCorrectedCopyAgrees |
| src/main/java/players/rheaEAHeuristic/RHEAEAPlayer.java:238 | Rank selection stops at the first index with `p >= ran`. | A population of 2 has the draws 0, 1 and 2, and every one of them picks index 0: the last rank is never chosen. | `p > ran`, so that rank k is chosen for n - k of the draws. | not executed | Rhea.LastRankNeverPicked | Rhea.RankSelectionCorrected |
| src/main/java/evaluation/summarisers/TAGOccurrenceStatSummary.java:44 | `add(e)` with a `String` piece resolves to `add(String)` itself, so the method recurses without end. | `add("a")` | Each piece is counted as an element, as `add(Object)` does. | not executed | Occurrence.AddTextDiverges | Occurrence.AddTextCorrected |
