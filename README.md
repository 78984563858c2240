# Mancala rules engine and minimax search, in Dafny

This project models the rules engine of a two-player Mancala (Kalah) game and its look-ahead search. The board has fourteen pits in a fixed order:

- `A1..A6` (ordinals 0-5);
- `MANCALA_A` (6);
- `B1..B6` (7-12);
- `MANCALA_B` (13).

Player A owns pits `A1..A6` and store `MANCALA_A`. Player B owns `B1..B6` and `MANCALA_B`.

A move sows every stone of one pit. The stones go one at a time into the following pits, in ordinal order and wrapping around, skipping the opponent's store. After the last stone three rules apply:

- if the last stone lands in the mover's own store, the mover plays again;
- otherwise the turn passes, and a capture may apply: the stone that landed alone is taken, together with the stones of the opposite pit, into the mover's store;
- once one side has no stones, the other side's stones are swept into that side's own store and the game is over.

The search is a depth-bounded minimax without pruning. It scores a position by the store difference, seen from the player who moves at the root.

## Modules

| module | file | models |
|---|---|---|
| `Pits` | pits.dfy | `Pit` is an ordinal 0..13, with the four derived pit sets, `Player` and `getOppositePit`. |
| `Sums` | sums.dfy | Totals of stone counts. |
| `Wrappers` | wrappers.dfy | `Option`. |
| `BoardOps` | board.dfy | List-free board operations on `Board = seq<nat>` with 14 entries. It holds the 13-pit sowing cycle that skips one store, moving and capturing stones, the end-of-game sweep, and setting up. |
| `Rules` | rules.dfy | The game state of src/MancalaGameState.java as a value (`GameValue`), with `sow`, `checkIfGameEnded`, `shouldISaveGameState` and `setupGame` as functions, and their properties. |
| `GameState` | gamestate.dfy | The class of src/MancalaGameState.java: an `array<nat>` of pit counts and the other fields. Every method is proved to compute the corresponding `Rules` function on the object's snapshot. |
| `Search` | search.dfy | The minimax of src/MancalaModel.java as pure mutual recursion over state values (`Child`, `MaxOver`, `MinOver`, `BestMove`), and the class `MancalaModel`, whose `Minimax` loop is proved equal to `BestMove`. |
| `LegacyRules` | legacy_rules.dfy | The older root-level MancalaGameState.java as a value. It has a legality guard, an undo snapshot on every legal sow, and the older capture rule: the turn passes first, and there is no own-side test. |
| `LegacyState` | legacy_state.dfy | The class of the older MancalaGameState.java, proved against `LegacyRules`. |
| `LegacyModel` | legacy_model.dfy | The older MancalaModel.java: fourteen `int` counts that are cleared and set up. |

Stones are counted, not identified. The animation queue of src/MancalaGameState.java is modelled as the sequence of destination pits. The older version's list of created stones and its queue are modelled by their lengths.

### The sowing loop as written

Both versions run the sowing loop while the *origin* pit is non-empty, and fire the last-stone rules when the stone counter reaches zero (src/MancalaGameState.java:301, 318; MancalaGameState.java:265, 282). The origin is the last of the 13 cycle positions counted from itself. With at most 12 stones the sowing never reaches it again, so each stone is offered once.

With 13 or more stones the sowing comes back to the origin. For a pit on the mover's side holding exactly 13, the 13th stone lands alone in the origin, across from a pit that has just received a stone, so the capture takes it out again and each stone is offered once. Otherwise the stones that came back to the origin are sown again after the last-stone rules have fired, and the turn may have changed by then. This holds for the unguarded src `sow` of an opponent's pit holding 13 stones, which fails the own-side capture test. When the last stone lands in the mover's own store, the `return` leaves such stones in the origin.

The model (`SowLoop` in both rule modules) follows this loop exactly. Its termination measure is the pair (counter still positive, `2 * origin count + distance to the origin`). The closed-form lemmas (`SowClosedForm`, `DistributedSpec`, `SowLastStone`) state what a sow does for a legal pit holding at most 12 stones. `SowConserves` and `SowLoopConserves`, with `SowLoopExtends` (`SowLoopCounts` in the older version), hold for every count.

### Sowing without a guard

The src version's `sow` has its legality check commented out (src/MancalaGameState.java:253-255). The model therefore lets it sow any pit, including an empty one or one on the opponent's side.

The only exception is the opponent's store. That pit is not in the sowing iterator, so the search for it runs off the end of the iterator, where Java throws `NoSuchElementException` before anything changes. `Rules.Sow` returns `None` there, and `GameState.MancalaGameState.Sow` returns `ok == false` and changes nothing.

## Model

| member | source | states |
|---|---|---|
| Pits.PitOrder | src/Pit.java:10 | The fourteen pits are A1..A6, MANCALA_A, B1..B6, MANCALA_B at ordinals 0..13, and the small pits are the twelve non-store pits. |
| Pits.MancalasPartition | src/Pit.java:11-12 | The stores and the small pits are disjoint and cover all 14 pits; there are 2 stores and 12 small pits. |
| Pits.SideADisplay | src/Pit.java:13 | Side A is exactly {A1..A6}. |
| Pits.SideBDisplay | src/Pit.java:14 | Side B is exactly {B1..B6}. |
| Pits.SidesPartition | src/Pit.java:12-14 | The two sides are disjoint, have 6 pits each, and together make the small pits; side A is ordinals 0..5 and side B is 7..12. |
| Pits.SideOrderMatches | src/Pit.java:13-14 | Iterating a side visits its 6 pits, in increasing ordinal order. |
| Pits.StoresFace | src/MancalaGameState.java:264-292 | The mover's store faces the opponent's store, which is the pit the sowing iterator leaves out; the two stores differ and neither lies on a side. |
| Pits.Opposite | src/MancalaGameState.java:190-204 | It swaps the two stores, maps small pit k to small pit 12 - k, and maps side A to side B and back. |
| Pits.OppositeInvolution | MancalaGameState.java:161-175 | The opposite of the opposite is the pit itself, and no pit is its own opposite. |
| BoardOps.CycleIndex | src/MancalaGameState.java:292-297 | The iterator over all pits but the skipped store reaches every other pit at exactly one of its 13 positions. |
| BoardOps.CycleIsOrdinalOrder | src/MancalaGameState.java:303-308 | One step of the iterator, restarting after its last element, moves to the next pit in ordinal order that is not the skipped store. |
| BoardOps.PathMembers | src/MancalaGameState.java:301-312 | The n pits after a position in the cycle are exactly the non-skipped pits whose distance ahead is at most n. |
| BoardOps.PathDistinct | src/MancalaGameState.java:301-312 | At most 13 consecutive cycle positions name pairwise different pits. |
| BoardOps.PathFollows | src/MancalaGameState.java:303-308 | Along the path, each pit is followed by the next pit in ordinal order that is not the skipped store. |
| BoardOps.Move | src/MancalaGameState.java:311-312 | Polling a stone from one pit and offering it to another leaves one stone fewer in the first and one more in the second; offering it back to its own pit changes nothing. |
| BoardOps.MoveSpec | src/MancalaGameState.java:311-312 | Moving a stone conserves the total and changes no pit but the two ends. |
| BoardOps.Capture | src/MancalaGameState.java:330-331 | The capture moves the landing stone and the whole opposite pit into the store: the opposite pit ends empty and the store gains 1 plus its count. |
| BoardOps.CaptureFrame | src/MancalaGameState.java:330-331 | A capture changes no pit but the landing pit, its opposite and the store. |
| BoardOps.CaptureSum | src/MancalaGameState.java:330-331 | A capture conserves the total. |
| BoardOps.SowableSpec | src/MancalaGameState.java:225-239 | The sowable pits are exactly the mover's non-empty side pits, never a store or an opponent pit, in increasing order, at most 6. There are none exactly when the mover's side is empty. |
| BoardOps.SweepSpec | src/MancalaGameState.java:398-400 | Sweeping empties the listed pits into the store, which gains their total, and changes no other pit. |
| BoardOps.EndCheckSpec | src/MancalaGameState.java:379-422 | The game ends exactly when a side is empty; otherwise, or when both sides are empty, the board is unchanged; stones are conserved. |
| BoardOps.EndCheckSweeps | src/MancalaGameState.java:397-411 | When only the other side is empty, this side's stones all go to this side's own store, and the other store is untouched. |
| BoardOps.EndCheckIdempotent | src/MancalaGameState.java:379-422 | After an ending check, a second check also ends and changes nothing. |
| BoardOps.PopulateSum | src/MancalaGameState.java:171-182 | Populating with n adds n to every small pit (none for n <= 0), leaves the stores alone, and adds 12 n to the total. |
| Rules.NewGame | src/MancalaGameState.java:23-34 | A new game has every pit empty, A to move, is not over, and has no saved state and an empty queue. |
| Rules.NewGameEmpty | src/MancalaGameState.java:23-34 | A new game holds no stones at all. |
| Rules.ApplyCaptureSpec | src/MancalaGameState.java:325-332 | The capture fires only for a last pit on the mover's side holding exactly one stone across from a non-empty pit. Both pits then end empty and the store gains 1 plus the opposite count; otherwise nothing changes. It conserves stones and never touches the other store. |
| Rules.Sow | src/MancalaGameState.java:264-297 | The sow fails exactly for a pit that none of the 13 positions of the sowing iterator holds. |
| Rules.SowLoopConserves | src/MancalaGameState.java:286-340 | For any stone count and position, the loop conserves stones, never changes the skipped store, and does not shrink the mover's store. |
| Rules.SowLoopExtends | src/MancalaGameState.java:301-316 | For any stone count and position, the loop only appends to the queue: the old queue is a prefix of the new one. |
| Rules.SowLoopSpread | src/MancalaGameState.java:301-336 | When the origin holds n stones and lies more than n cycle positions ahead, the loop puts one stone into each of the next n cycle pits, queues those pits in order, and then applies the last-stone rules to the n-th. |
| Rules.SowConserves | src/MancalaGameState.java:286-340 | A sow conserves the total and never adds a stone to the opponent's store. It does not shrink the mover's store, keeps the game-over flag and the initial count, and extends the queue. |
| Rules.SowEmptyPit | src/MancalaGameState.java:301 | Sowing an empty pit changes nothing. |
| Rules.SownPits | src/MancalaGameState.java:301-315 | A pit with c stones reaches c pits. |
| Rules.SowClosedForm | src/MancalaGameState.java:286-340 | For a side pit with 1..12 stones, the sow equals: distribute one stone to each of the next c cycle pits, queue exactly those pits, then apply the last-stone rules to the c-th pit. |
| Rules.DistributedSpec | src/MancalaGameState.java:289-315 | After the distribution the origin is empty and each of the c distinct following pits has exactly one more stone, with every other pit unchanged. The path never holds the origin or the opponent's store, and it follows the cycle in ordinal order. |
| Rules.SowLastStone | src/MancalaGameState.java:318-334 | For a side pit with 1..12 stones, the queue grows by exactly c entries and the origin ends empty. The turn is kept exactly when the last stone lands in the mover's store, and flips once otherwise. The capture empties both pits and gives the store 1 plus the opposite count; without a capture the board is the distribution. |
| Rules.ExtraTurnExample | src/MancalaGameState.java:322-323 | Four stones in A3 with A to move end in MANCALA_A, and A moves again. |
| Rules.NoCaptureOnOpponentSide | src/MancalaGameState.java:327-329 | A last stone landing alone on the opponent's side across from a non-empty pit captures nothing, and the turn passes. |
| Rules.CheckIfGameEndedSpec | src/MancalaGameState.java:379-422 | The check ends the game exactly when a side is empty. A false result changes nothing. An ending check empties both sides, sets the flag and conserves stones, and when both sides were empty only the flag changes. The turn and the queue are kept. A second call changes nothing. |
| Rules.CheckIfGameEndedSweep | src/MancalaGameState.java:397-411 | When exactly one side is empty, the other side's stones go to that side's own store. |
| Rules.NotEndedHasMove | src/MancalaGameState.java:379-422 | A game for which the check returns false has a sowable pit for the mover. |
| Rules.NextFiniteState | src/MancalaGameState.java:350-370 | The save machine stays in 0..3, leaves state 1 only for 2 or 3, and goes to 0 on every human move not from state 1. |
| Rules.FiniteStateSaves | src/MancalaGameState.java:350-370 | From state 1 it never saves; from state 3 a computer move does not save; otherwise it saves unless it stays in 3. |
| Rules.SetupBoardSpec | src/MancalaGameState.java:430-435 | Setting up with n stones leaves n in every small pit, both stores empty, and 12 n stones in all. |
| GameState.MancalaGameState.constructor | src/MancalaGameState.java:23-34 | The new object holds the new game, with the save machine in state 0. |
| GameState.MancalaGameState.Copy | src/MancalaGameState.java:37-53 | The copy holds the same state in a fresh array, with the save machine reset to 0. |
| GameState.MancalaGameState.OfferStone | src/MancalaGameState.java:99-102 | One more stone in the pit, nothing else changed. |
| GameState.MancalaGameState.PollStone | src/MancalaGameState.java:134-140 | One stone fewer in a non-empty pit; an empty pit yields nothing and stays unchanged. |
| GameState.MancalaGameState.EmptyPit | src/MancalaGameState.java:148-153 | It returns the pit's count and leaves the pit empty. |
| GameState.MancalaGameState.OfferStones | src/MancalaGameState.java:110-113 | The pit gains exactly the offered count. |
| GameState.MancalaGameState.EmptyAllPits | src/MancalaGameState.java:158-164 | Every pit ends empty. |
| GameState.MancalaGameState.PopulatePits | src/MancalaGameState.java:171-182 | Every small pit gains n stones, initStones becomes n, and nothing else changes. |
| GameState.MancalaGameState.SetupGame | src/MancalaGameState.java:430-435 | The board becomes the set-up board, A moves, the game is not over, and initStones is n. |
| GameState.MancalaGameState.ChangePlayer | src/MancalaGameState.java:209-218 | The turn passes to the other player, and nothing else changes. |
| GameState.MancalaGameState.GetSowablePits | src/MancalaGameState.java:225-239 | It returns the mover's non-empty side pits, in order, and changes nothing. |
| GameState.MancalaGameState.Sow | src/MancalaGameState.java:251-278 | It succeeds exactly when `Rules.Sow` does, and the new state is `Rules.Sow` of the old one; on failure nothing changes. |
| GameState.MancalaGameState.SowSubroutine | src/MancalaGameState.java:286-340 | The in-place loop computes exactly `Rules.SowSubroutine` of the old state. |
| GameState.MancalaGameState.MoveStone | src/MancalaGameState.java:311-312 | The pits become `Move` of the old pits. |
| GameState.MancalaGameState.CaptureInto | src/MancalaGameState.java:330-331 | The pits become `Capture` of the old pits. |
| GameState.MancalaGameState.IsSideEmpty | src/MancalaGameState.java:381-395 | The scan with early exit reports exactly whether the side is empty. |
| GameState.MancalaGameState.SweepInto | src/MancalaGameState.java:398-400 | The pits become the sweep of the listed pits into the store. |
| GameState.MancalaGameState.CheckIfGameEnded | src/MancalaGameState.java:379-422 | The result and the new state are exactly `Rules.CheckIfGameEnded` of the old state. |
| GameState.MancalaGameState.ShouldISaveGameState | src/MancalaGameState.java:350-370 | The machine takes its transition. It saves exactly in new state 0 or 1, storing a copy of the current state, and nothing else changes. |
| Search.JavaHalf | src/MancalaModel.java:198-199 | Java's `/ 2` rounds toward zero: it is the floor half for non-negative totals, the ceiling half for non-positive ones, and is within one half of the exact value. |
| Search.SowablesMovable | src/MancalaModel.java:215-216 | Every sowable pit can be moved from a search node. |
| Search.MaxOverIsMax | src/MancalaModel.java:212-221 | The maximizing loop ends with the largest of the initial score and all replies' scores. A winning reply is the first one to reach that score. |
| Search.MinOverIsMin | src/MancalaModel.java:228-237 | The minimizing loop ends with the smallest score, and a winning reply is the first one to reach it. |
| Search.ScoreBounded | src/MancalaModel.java:193-203 | A terminal score is at most the number of stones on the board, in absolute value. |
| Search.ChildBounded | src/MancalaModel.java:187-240 | Every searched move returns a pit and a score bounded in absolute value by the stones on the board. |
| Search.MaxOverBounded | src/MancalaModel.java:210-221 | A maximizing node with a reply returns a pit and a bounded score. |
| Search.MinOverBounded | src/MancalaModel.java:226-237 | A minimizing node with a reply returns a pit and a bounded score. |
| Search.BestMoveExists | src/MancalaModel.java:140-171 | The search returns no pit exactly when the game is over or the mover has no sowable pit. |
| Search.BestMoveIsBest | src/MancalaModel.java:149-169 | The returned pit is a sowable pit of the mover whose score no sowable pit beats, and every earlier pit scores strictly less. |
| Search.MancalaModel.constructor | src/MancalaModel.java:22-31 | The model starts with a new game. |
| Search.MancalaModel.Minimax | src/MancalaModel.java:140-171 | The loop over the sowable pits returns exactly `BestMove` of the live state, and it modifies nothing. |
| LegacyRules.NewGame | MancalaGameState.java:21-31 | A new game has every pit empty, A to move, is not over, and has nothing sowed, saved, created or queued. |
| LegacyRules.NewGameEmpty | MancalaGameState.java:21-31 | A new game holds no stones at all. |
| LegacyRules.ApplyCaptureSpec | MancalaGameState.java:291-296 | The older capture fires for any small last pit, on either side, holding exactly one stone across from a non-empty pit. Both pits then end empty, the store gains 1 plus the opposite count and nothing else changes; otherwise the board is unchanged. It conserves stones and never touches the other store. |
| LegacyRules.SowGuard | MancalaGameState.java:221-222 | Sowing a pit that is not sowable changes nothing at all. |
| LegacyRules.SowSaves | MancalaGameState.java:218-242 | A legal sow records the pit and saves the pre-move state, with the pit recorded, before any pit changes. It conserves stones, never adds to the opponent's store and extends the queue. |
| LegacyRules.SowLoopConserves | MancalaGameState.java:250-302 | For any count, the older loop conserves stones, never changes the skipped store and does not shrink the mover's store. |
| LegacyRules.SowLoopCounts | MancalaGameState.java:265-279 | For any count, the older loop never shortens the animation list, and lengthens it whenever the origin holds a stone. |
| LegacyRules.SowLoopSpread | MancalaGameState.java:265-298 | When the origin holds m stones and lies more than m cycle positions ahead, the older loop puts one stone into each of the next m cycle pits, adds m list entries, and then applies the older last-stone rules to the m-th pit. |
| LegacyRules.SowClosedForm | MancalaGameState.java:250-302 | For a side pit with 1..12 stones the queue grows by c and the origin ends empty. The next c cycle pits gain one stone each, the turn is kept exactly when the last stone lands in the mover's store, and otherwise the older capture applies. |
| LegacyRules.CaptureOnOpponentSide | MancalaGameState.java:286-296 | Three stones in A5 with A to move: the last stone lands alone in B1 across from A6, both go to MANCALA_A, and the turn passes to B. |
| LegacyRules.CheckIfGameEndedSpec | MancalaGameState.java:311-354 | The check ends the game exactly when a side is empty. A false result changes nothing. An ending check empties both sides, sets the flag and conserves stones, and when both sides were empty only the flag changes. The turn, the sowed pit, the saved state and both counts are kept. A second call changes nothing. |
| LegacyRules.CheckIfGameEndedSweep | MancalaGameState.java:329-343 | When exactly one side is empty, the other side's stones go to that side's own store, and the other store is untouched. |
| LegacyRules.PopulatePits | MancalaGameState.java:149-156 | Every small pit gains n stones, the stores are unchanged, and the list of created stones grows by 12 n. |
| LegacyState.MancalaGameState.constructor | MancalaGameState.java:21-31 | The new object holds the older new game. |
| LegacyState.MancalaGameState.Copy | MancalaGameState.java:34-48 | The copy holds the same state in a fresh array. |
| LegacyState.MancalaGameState.OfferStone | MancalaGameState.java:86-89 | One more stone in the pit. |
| LegacyState.MancalaGameState.PollStone | MancalaGameState.java:118-122 | One stone fewer in a non-empty pit. |
| LegacyState.MancalaGameState.EmptyPit | MancalaGameState.java:129-134 | It returns the pit's count and leaves the pit empty. |
| LegacyState.MancalaGameState.OfferStones | MancalaGameState.java:94-97 | The pit gains exactly the offered count. |
| LegacyState.MancalaGameState.EmptyAllPits | MancalaGameState.java:139-142 | Every pit ends empty. |
| LegacyState.MancalaGameState.PopulatePits | MancalaGameState.java:149-156 | The new state is `LegacyRules.PopulatePits` of the old one. |
| LegacyState.MancalaGameState.ChangePlayer | MancalaGameState.java:180-189 | The turn passes to the other player, and nothing else changes. |
| LegacyState.MancalaGameState.GetSowablePits | MancalaGameState.java:196-210 | It returns the mover's non-empty side pits, in order. |
| LegacyState.MancalaGameState.Sow | MancalaGameState.java:218-242 | The new state is exactly `LegacyRules.Sow` of the old one. |
| LegacyState.MancalaGameState.SowSubroutine | MancalaGameState.java:250-302 | The in-place loop computes exactly `LegacyRules.SowSubroutine` of the old state. |
| LegacyState.MancalaGameState.CheckIfGameEnded | MancalaGameState.java:311-354 | The result and the new state are exactly `LegacyRules.CheckIfGameEnded` of the old state. |
| LegacyModel.MancalaModel.constructor | MancalaModel.java:14-18 | A new model has 14 pits, all 0. |
| LegacyModel.MancalaModel.EmptyPits | MancalaModel.java:33-38 | All 14 entries become 0. |
| LegacyModel.MancalaModel.PopulateStones | MancalaModel.java:43-51 | The array becomes `Populated` of the old array. |
| LegacyModel.PopulatedSpec | MancalaModel.java:43-51 | Indices 0..5 and 7..12 become n, indices 6 and 13 are unchanged, and populating twice is the same as populating once. |
| LegacyModel.PopulatedTotal | MancalaModel.java:33-51 | After emptying and populating with n, the sum is 12 n and both stores are 0. |
| LegacyModel.PopulatedAgrees | MancalaModel.java:43-51 | For n >= 0, the integer board after emptying and populating equals the stone-level set-up board. |

## Left out

- Stone identity: the `Stone` objects, the `stoneMap` back-index and `Stone.pit`. Pits hold counts, so which stone moves where, and the aliasing of shared stones between copies in the older version, are not modelled.
- `removeStone`: neither version's sowing calls it.
- The `Tuple` of stone and pit in the animation queue: only the destination pit is kept.
- The older `stoneList` and `stoneSequence`: only their lengths are kept.
- Rendering, input, animation, window assembly, `toString` and the test entry points: they are UI and formatting, not rules.
- The console `PrintWriter` logging, the `gameCounter` diagnostics and the unused `DefaultTreeModel` in src/MancalaModel.java: these are output and statistics, not part of the search result.
- `getOppositePit(null)` returning `null`: a `Pit` here is always one of the fourteen pits.
- Getters and setters; `setPits` of the older MancalaModel.java, which replaces the array, is not modelled (`pits` is a `const` array).
- Search.MancalaModel.GetPreviousState: it has no contract; it returns the saved state of the live state.
- `previousState` copies: the Java copy constructors copy the chain of saved states recursively; here states are values, so a saved state is the value itself.
- Java `int` overflow: counts, `initStones * 12` and scores are unbounded integers. The score bounds (`Search.ChildBounded`, `Search.BestMoveExists` and the folds) require fewer than 2^31 - 1 stones on the board, so that the `Integer.MIN_VALUE`/`MAX_VALUE` sentinels are always beaten.
- Search.ScoreBounded: bounds scores by the stones on the board, not by `initStones * 12`. The two agree when the board holds the stones it was set up with, because sowing and sweeping conserve stones (`Rules.SowConserves`, `Rules.CheckIfGameEndedSpec`).
- The minimax recursion is modelled on values: each explored move sows a value copy, so the depth-first order of in-place updates on the Java copies is not modelled. The live state is the class `GameState.MancalaGameState`, and `Search.MancalaModel.Minimax` has no `modifies` clause.
- Negative search depth: `depth` is a `nat`. With a negative depth the Java recursion never reaches `depth == 0`, and it stops only at an ended game or a large store.
- src `sow` on the opponent's store: Java throws `NoSuchElementException` from the iterator search; the model returns `None` / `ok == false` with no change.
- LegacyState.MancalaGameState.PollStone: `requires` a non-empty pit, because the Java method throws a `NullPointerException` on an empty one; every caller in the older class polls only non-empty pits.
- The closed form of a sow with 13 or more stones, for which the sowing comes back to the origin and, except for a legal pit of exactly 13 whose stone is captured, keeps sowing after the last-stone rules (see "The sowing loop as written"). Conservation, the untouched opponent store and the queue growth are proved for every count; `SowClosedForm`, `DistributedSpec` and `SowLastStone` cover 1..12 stones.
- The composition of one move as `sow` then `checkIfGameEnded` is done by the UI panel. It is not modelled as a separate operation; both halves are.
