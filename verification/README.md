# Sentence-structure workshop: the exercise state machines

This project models the drag-and-drop exercises of an interactive grammar
workshop, written as React components, and proves properties of them in Dafny.
Each exercise keeps some items that are not yet placed and one or more target
zones. A drop is accepted or rejected by a guard and judged against an answer
key. Some exercises later take back a wrong placement on a timer.

- **Foundations** (`foundations.dfy`): concepts are matched to definitions.
  There is one single-slot zone per definition, and the toolbox of concepts
  is ordered by a Fisher–Yates shuffle. A wrong match is cleared 1.5 seconds
  later.
- **Clause types** (`clause_types.dfy`): clauses are sorted into Independent
  and Dependent lists. Each placement is stamped correct or incorrect, and
  nothing is ever taken back.
- **Sentence analysis** (`analysis.dfy`): sentences are sorted into four
  structural categories.
  - Every accepted drop shows the sentence's explanation.
  - A wrong placement is taken back after 3 seconds, and the catalog's copy
    of the sentence returns to the end of the unplaced list.
- **Connections** (`connection.dfy`): one problem at a time, with one slot
  between two clauses.
  - A connector is correct when its id is in the problem's accepted list.
  - A wrong connector is cleared after 3 seconds.
  - Next Problem cycles through the problems.
- **Synthesis** (`synthesis.dfy`): tiles move between a bank and a
  sentence under construction.
  - Check Answer compares the built ids with the reference order.
  - Check is disabled while the sentence is empty.
  - Next Problem appears only after a correct check.

The shared modules are:
- `types.dfy`: the records of `types.ts` and the feedback, status and cue tags.
- `pools.dfy`: the `find`, `filter`-by-id and `map`-to-id idioms as generic functions, with lemmas on conservation and order.
- `problems.dfy`: the cyclic problem index.
- `catalog.dfy`: small excerpts of `constants.tsx` used by the scenario members.

Every component follows the same pattern:
- Its state is a datatype, and every handler is a function on that datatype
  (`Place`, `DropItem`, `DropSentence`, `DropConnector`, `DropOnBuild`, ...).
  The component itself is a class whose fields are the React state variables.
- Each method is proved to perform the matching transition
  (`ensures State() == F(old(State()), ...)`). The sound cues it plays go
  into a ghost log, `sounds`.
- The invariants and properties are lemmas about the transition functions.
- A pending `setTimeout` revert is state: a queue of pending reverts, or a
  count where they are all alike. A separate `RevertFires` method delivers
  one.

## Model

| member | source | states |
|---|---|---|
| Foundations.SwapIndex | components/Module1Foundations.tsx:11 | `Math.floor(r * (i + 1))` for a draw in [0,1) is an index between 0 and i, so every swap stays in bounds |
| Foundations.Shuffle | components/Module1Foundations.tsx:8-15 | the shuffle of a copy returns a permutation of its input: same length, same multiset |
| Foundations.Initialized | components/Module1Foundations.tsx:102-106 | after initialisation every definition has a zone, and every zone holds nothing and shows 'neutral' |
| Foundations.Place | components/Module1Foundations.tsx:112-127 | the drop handler as a transition; its effect is stated by `PlaceOneZone`, `PlaceTakesFromToolbox`, `PlaceProgress`, `PlaceConsistent` and `PlaceKeepsRevertsLive` |
| Foundations.Occupied | components/Module1Foundations.tsx:54-60 | the zone's drop guard; `DropOnZone` states that an occupied zone rejects the drop and changes nothing |
| Foundations.Fire | components/Module1Foundations.tsx:123-126 | the revert callback as a transition; its effect is stated by `FireOneZone`, `FireConsistent`, `FireKeepsRevertsLive` and `FireOnCorrectLosesProgress` |
| Foundations.MatchedConceptIds | components/Module1Foundations.tsx:134 | the matched ids are exactly the ids of the concepts some zone holds |
| Foundations.ConceptsToDisplay | components/Module1Foundations.tsx:134-135 | the toolbox is exactly the shuffled concepts whose id no zone holds, as a subsequence of the shuffle (in shuffled order), with no concept twice when the shuffle has none |
| Foundations.CorrectMatches | components/Module1Foundations.tsx:136 | the progress count never exceeds the number of zones; it is 0 exactly when no zone is 'correct' |
| Foundations.InitializedConsistent | components/Module1Foundations.tsx:102-106 | a fresh board is consistent, shows the whole shuffle as its toolbox and has progress 0 |
| Foundations.PlaceConsistent | components/Module1Foundations.tsx:112-117 | a drop of a displayed concept on an empty zone keeps zones and verdicts consistent and no concept in two zones |
| Foundations.PlaceTakesFromToolbox | components/Module1Foundations.tsx:116-135 | after a drop the toolbox is the previous toolbox with the dropped id filtered out: nothing else leaves and the order is kept |
| Foundations.PlaceOneZone | components/Module1Foundations.tsx:112-117 | a drop stores the concept in its zone only, 'correct' iff the concept's matchId is the zone; other zones unchanged |
| Foundations.PlaceProgress | components/Module1Foundations.tsx:117-136 | a drop on a zone not yet correct raises the progress by one exactly when it is a right match |
| Foundations.CorrectZonesUpdate | components/Module1Foundations.tsx:136 | how one zone's new feedback changes the count of correct zones |
| Foundations.PlaceKeepsRevertsLive | components/Module1Foundations.tsx:119-127 | a right drop schedules no revert and a wrong one schedules its own; every pending revert still belongs to a wrong match |
| Foundations.FireOneZone | components/Module1Foundations.tsx:123-126 | a revert sets only its own zone back to empty and 'neutral' |
| Foundations.FireConsistent | components/Module1Foundations.tsx:123-126 | a firing revert keeps the board consistent and empties its zone |
| Foundations.FireKeepsRevertsLive | components/Module1Foundations.tsx:119-127 | on a live board, the zone a revert clears shows 'incorrect' and progress is unchanged |
| Foundations.FireOnCorrectLosesProgress | components/Module1Foundations.tsx:123-126 | a revert landing on a 'correct' zone lowers the progress by one |
| Foundations.ResetLeavesStaleRevert | components/Module1Foundations.tsx:123-132 | Reset Module with a pending revert leaves the board with a revert whose zone is no longer wrong |
| Foundations.Foundations.constructor | components/Module1Foundations.tsx:96-110 | mounting runs initialisation: fresh board, toolbox a permutation of the concepts |
| Foundations.Foundations.InitializeModule | components/Module1Foundations.tsx:102-132 | initialisation and Reset Module perform `Initialized`, keep pending reverts and shuffle the concepts |
| Foundations.Foundations.HandleDropConcept | components/Module1Foundations.tsx:112-128 | the handler performs `Place` and plays the drop cue and then the verdict cue |
| Foundations.Foundations.DropOnZone | components/Module1Foundations.tsx:54-60 | a drop on an occupied zone is rejected with no change and no sound; otherwise the handler runs |
| Foundations.Foundations.RevertFires | components/Module1Foundations.tsx:123-126 | delivering the earliest revert performs `Fire` |
| Foundations.Foundations.CancelReverts | components/Module1Foundations.tsx:123 | cancelling clears the pending reverts and nothing else |
| Foundations.Foundations.ResetModuleCancellingReverts | components/Module1Foundations.tsx:130-132 | the corrected reset: no revert pending afterwards |
| Foundations.TwoRightDrops | components/Module1Foundations.tsx:112-136 | two right drops on the first two zones take progress 0, 1, 2, and the first zone is then occupied |
| Foundations.ProgressOnCatalog | constants.tsx:47-57 | c1 on d1, then c2 on d1 (rejected), then c2 on d2: progress reads 1, 1, 2 |
| Foundations.ProgressScenario | components/Module1Foundations.tsx:54-136 | the same three drops on the component: 1, 1, 2, and the second drop is rejected |
| Foundations.StaleRevertClearsRight | components/Module1Foundations.tsx:123-132 | wrong concept, reset, right concept: both drops are accepted and the first revert clears the right one |
| Foundations.StaleRevertClearsCorrectMatch | components/Module1Foundations.tsx:112-132 | the same sequence on the component: 'correct' before the timer fires, 'neutral' and empty after |
| Foundations.CatalogFirstZone | constants.tsx:47-56 | the catalog's first zone is d1; c1 belongs there and c2 does not |
| Foundations.CancellingResetKeepsCorrectMatch | components/Module1Foundations.tsx:112-132 | with the cancelling reset the right match stays 'correct' and nothing is pending |
| ClauseTypes.Reset | components/Module2ClauseTypes.tsx:79-112 | the initial and reset state has both category lists |
| ClauseTypes.DropItem | components/Module2ClauseTypes.tsx:86-104 | a drop keeps both category lists present; its effect is stated by `DropTakesItem`, `DropOnlyAppends`, `DropJudged` and `DropConserves` |
| ClauseTypes.Accepts | components/Module2ClauseTypes.tsx:87 | the drop guard; `DropTakesItem` states it passes exactly when the id is unplaced |
| ClauseTypes.Placed | components/Module2ClauseTypes.tsx:114-115 | the flattened placements both counters read; `CountersBounded` states their bounds |
| ClauseTypes.CorrectPlacements | components/Module2ClauseTypes.tsx:114 | `correctPlacements`; bounded by `CountersBounded` and `Pools.CountWhere` |
| ClauseTypes.TotalPlaced | components/Module2ClauseTypes.tsx:115 | `totalPlaced`; `CountersBounded` states it with the unplaced count adds up to the catalog size |
| ClauseTypes.DropTakesItem | components/Module2ClauseTypes.tsx:87-102 | the guard passes iff the id is unplaced; a rejected drop is a no-op; an accepted drop takes exactly that id out of the unplaced list, which keeps its order |
| ClauseTypes.ResetConserved | components/Module2ClauseTypes.tsx:106-112 | reset restores the catalog in order with empty categories; counters 0; conserved and judged |
| ClauseTypes.DropConserves | components/Module2ClauseTypes.tsx:87-102 | a drop keeps unplaced ids plus placed ids equal to the catalog ids |
| ClauseTypes.DropJudged | components/Module2ClauseTypes.tsx:89-90 | each placement is 'correct' iff the item's type is the category it is in |
| ClauseTypes.DropOnlyAppends | components/Module2ClauseTypes.tsx:92-101 | a drop only appends the item at the end of its category; the other list is unchanged; nothing is reverted |
| ClauseTypes.GrownTransitive | components/Module2ClauseTypes.tsx:98-101 | a run of drops never removes a placement |
| ClauseTypes.CountersBounded | components/Module2ClauseTypes.tsx:114-115 | correct <= total <= catalog size, unplaced + placed = catalog size, and no id in two places |
| ClauseTypes.ClauseTypes.constructor | components/Module2ClauseTypes.tsx:79-83 | the initial state is the reset state |
| ClauseTypes.ClauseTypes.HandleDropItem | components/Module2ClauseTypes.tsx:86-104 | the handler performs `DropItem`; cues only when the guard passes |
| ClauseTypes.ClauseTypes.ResetModule | components/Module2ClauseTypes.tsx:106-112 | reset performs `Reset` and plays nothing |
| ClauseTypes.SortingTwo | components/Module2ClauseTypes.tsx:86-115 | a wrong drop stays, marked incorrect; re-dropping it is ignored; a right drop then gives counters 1 of 2 |
| ClauseTypes.SortingScenario | constants.tsx:30-31 | the same steps with the first two catalog clauses |
| Analysis.EmptyPlacements | components/Module2Analysis.tsx:80-85 | all four categories exist and are empty |
| Analysis.Reset | components/Module2Analysis.tsx:118-127 | the reset state has all four categories |
| Analysis.DropSentence | components/Module2Analysis.tsx:89-116 | a drop keeps all four categories present; its effect is stated by `DropExplains` (including that the other unplaced sentences stay, in order), `DropConserves` and `DropKeepsRevertsLive` |
| Analysis.Accepts | components/Module2Analysis.tsx:90 | the drop guard; `DropExplains` states that a drop it rejects changes nothing |
| Analysis.Placed | components/Module2Analysis.tsx:129-130 | the flattened placements both counters read; `PlacedIdsFlat` ties their ids to the category lists |
| Analysis.CorrectPlacements | components/Module2Analysis.tsx:129 | `correctPlacements`; bounded by `CountersBounded` and `Pools.CountWhere` |
| Analysis.TotalPlaced | components/Module2Analysis.tsx:130 | `totalPlaced`; `CountersBounded` and `FireConserves` state how it relates to the catalog and changes on a revert |
| Analysis.CatalogCopy | components/Module2Analysis.tsx:106 | `find` in the catalog yields at most one sentence, the one with that id when it exists |
| Analysis.Fire | components/Module2Analysis.tsx:101-107 | a revert keeps all four categories present; its effect is stated by `FireTakesBack`, `FireReturnsSentence`, `FireConserves` and `FireKeepsRevertsLive` |
| Analysis.ResetConserved | components/Module2Analysis.tsx:118-127 | reset restores the catalog, empties all categories, clears the explanation; counters 0 |
| Analysis.ResetIdempotent | components/Module2Analysis.tsx:118-127 | resetting twice is resetting once |
| Analysis.DropExplains | components/Module2Analysis.tsx:90-115 | an accepted drop shows that sentence's explanation and verdict; it appends to its category only; a revert iff wrong; exactly that sentence leaves the unplaced list, the others stay in their order; a rejected drop changes nothing |
| Analysis.DropConserves | components/Module2Analysis.tsx:110-114 | a drop keeps unplaced ids plus placed ids equal to the catalog ids |
| Analysis.PendingArePlaced | components/Module2Analysis.tsx:101-107 | on a live, conserved board every pending revert names a placed catalog id that is not unplaced |
| Analysis.DropKeepsRevertsLive | components/Module2Analysis.tsx:97-114 | a drop keeps every pending revert pointing at a sentence still in its category |
| Analysis.FireConserves | components/Module2Analysis.tsx:101-107 | a live revert keeps conservation and lowers the placed total by one |
| Analysis.FireReturnsSentence | components/Module2Analysis.tsx:106 | a live revert appends the catalog's copy of its sentence to the end of unplaced; the rest stays in order; the explanation is unchanged |
| Analysis.FireTakesBack | components/Module2Analysis.tsx:102-105 | a revert filters its sentence out of its category, keeping the rest of that list in order, touches no other category and keeps the explanation |
| Analysis.PlacedIdsOnce | components/Module2Analysis.tsx:110-114 | on a conserved board no id is in two places |
| Analysis.FireKeepsRevertsLive | components/Module2Analysis.tsx:101-107 | a revert keeps the remaining reverts live |
| Analysis.CountersBounded | components/Module2Analysis.tsx:129-130 | correct <= total <= catalog size, and unplaced + placed = catalog size |
| Analysis.StaleRevertDuplicates | components/Module2Analysis.tsx:101-127 | wrong drop, reset, revert: the sentence is unplaced twice and the board is no longer conserved |
| Analysis.ResetThenFire | components/Module2Analysis.tsx:106-127 | a revert on a reset board appends to the full catalog and leaves the categories empty |
| Analysis.DuplicateCount | components/Module2Analysis.tsx:106 | the catalog followed by its copy of a sentence holds that id twice |
| Analysis.CancellingResetConserves | components/Module2Analysis.tsx:118-127 | a reset that cancels the timers leaves a conserved board with nothing pending |
| Analysis.Analysis.constructor | components/Module2Analysis.tsx:79-86 | the initial state is the reset state with no timers |
| Analysis.Analysis.HandleDropSentence | components/Module2Analysis.tsx:89-116 | the handler performs `DropSentence`; cues only when the guard passes |
| Analysis.Analysis.RevertFires | components/Module2Analysis.tsx:101-107 | delivering the earliest timer performs `Fire` |
| Analysis.Analysis.ResetModule | components/Module2Analysis.tsx:118-127 | reset performs `Reset` and keeps the pending timers |
| Analysis.Analysis.ResetModuleCancellingReverts | components/Module2Analysis.tsx:118-127 | the corrected reset: the reset state with no timer pending |
| Analysis.NoDuplicatesCatalog | constants.tsx:66-67 | the catalog sentences have distinct ids |
| Analysis.StaleRevertScenario | constants.tsx:66 | the simple sentence dropped on Compound, reset, timer: two copies, one more entry than the catalog has |
| Analysis.CancellingResetScenario | components/Module2Analysis.tsx:118-127 | with the cancelling reset nothing is pending and the unplaced list is the catalog |
| Connection.Fresh | components/Module3Connection.tsx:36-40 | the effect clears the slot, the feedback and the explanation |
| Connection.FreshConsistent | components/Module3Connection.tsx:27-30 | the mount state is consistent with nothing pending |
| Connection.Accepted | components/Module3Connection.tsx:51 | the verdict: `DropVerdict` states correct iff the id is in the accepted list |
| Connection.Occupied | components/Module3Connection.tsx:45 | the slot's guard: `DropVerdict` states a drop on a filled slot changes nothing |
| Connection.DropConnector | components/Module3Connection.tsx:42-65 | the drop handler as a transition; its effect is stated by `DropVerdict` and `DropKeepsInvariant` |
| Connection.Fire | components/Module3Connection.tsx:60-63 | the revert callback as a transition; its effect is stated by `FireClearsOnlyWrong` |
| Connection.Reset | components/Module3Connection.tsx:71-75 | `resetProblem` as a transition; its effect is stated by `ResetClears` |
| Connection.NextProblem | components/Module3Connection.tsx:36-69 | Next Problem and the effect as a transition; stated by `NextCycles`, `NextOnSingleProblem` and `StaleRevertCrossesProblems` |
| Connection.DropVerdict | components/Module3Connection.tsx:42-65 | a drop on a filled slot is a no-op; otherwise it shows the connector and the explanation; correct iff the id is accepted; a timer iff wrong |
| Connection.DropKeepsInvariant | components/Module3Connection.tsx:42-65 | a drop keeps slot and feedback consistent and the timer count live |
| Connection.FireClearsOnlyWrong | components/Module3Connection.tsx:60-63 | on a live state a revert clears a wrong connector, never a right one, and keeps the explanation |
| Connection.ResetClears | components/Module3Connection.tsx:71-75 | reset clears the slot, feedback and explanation, keeps the index and the timers, and is idempotent |
| Connection.NextCycles | components/Module3Connection.tsx:36-69 | with N >= 2, Next maps i to (i+1) mod N, a different problem, and clears the problem state; the timers stay scheduled |
| Connection.ToolboxKept | components/Module3Connection.tsx:130 | the toolbox lists all of the problem's connectors; a drop, a revert or a reset removes none |
| Connection.NextOnSingleProblem | components/Module3Connection.tsx:67-69 | with one problem, Next changes nothing |
| Connection.SecondProblemVerdicts | constants.tsx:126-127 | problem 2 accepts conn2 and conn11 and rejects conn5; all three are in its toolbox |
| Connection.StaleRevertClearsCorrect | components/Module3Connection.tsx:60-75 | wrong, reset, right: the stale timer clears the right connector |
| Connection.CancellingResetKeepsLive | components/Module3Connection.tsx:71-75 | a reset that cancels the timers keeps the state live |
| Connection.StaleRevertCrossesProblems | components/Module3Connection.tsx:36-69 | wrong, Next, right on the next problem: the stale timer clears the right connector |
| Connection.CancellingNextKeepsLive | components/Module3Connection.tsx:36-40 | a Next that cancels the timers when the problem changes keeps the state live, on the same problem as Next |
| Connection.Connection.constructor | components/Module3Connection.tsx:27-30 | mount: first problem, fresh |
| Connection.Connection.HandleDrop | components/Module3Connection.tsx:42-65 | the handler performs `DropConnector`; cues only when the slot is empty |
| Connection.Connection.RevertFires | components/Module3Connection.tsx:60-63 | a timer performs `Fire` |
| Connection.Connection.GoToNextProblem | components/Module3Connection.tsx:36-69 | Next and the effect perform `NextProblem`, and the index stays in range |
| Connection.Connection.GoToNextProblemCancellingReverts | components/Module3Connection.tsx:36-69 | the corrected Next: performs `NextProblemCancellingReverts`, nothing pending after a change of problem |
| Connection.Connection.ResetProblem | components/Module3Connection.tsx:71-75 | reset performs `Reset`; timers stay |
| Connection.Connection.ResetProblemCancellingReverts | components/Module3Connection.tsx:71-75 | the corrected reset: nothing pending |
| Connection.StaleRevertScenario | constants.tsx:121-127 | on problem 2: '; however,', reset, ', but', timer: correct before, neutral and empty after |
| Connection.CancellingResetScenario | constants.tsx:121-127 | with the cancelling reset ', but' stays correct |
| Connection.StaleRevertAcrossNextScenario | constants.tsx:116-127 | ', but' on problem 1 (wrong), Next, ', but' on problem 2 (right), timer: correct before, neutral and empty after |
| Connection.CancellingNextScenario | constants.tsx:116-127 | with the cancelling Next ', but' stays correct on problem 2 |
| Synthesis.Fresh | components/Module4Synthesis.tsx:44-49 | a problem starts with all its tiles in the bank in catalog order, an empty sentence, neutral feedback and no explanation |
| Synthesis.DropOnBuild | components/Module4Synthesis.tsx:56-67 | the drop on the sentence as a transition; stated by `MovesGatedBySource`, `DropOnBuildArranged` and `TakeFirst` |
| Synthesis.DropOnBank | components/Module4Synthesis.tsx:69-80 | the drop on the bank as a transition; stated by `MovesGatedBySource` and `DropOnBankArranged` |
| Synthesis.IsCorrect | components/Module4Synthesis.tsx:83-84 | the verdict; `CheckIsExact`, `EmptyNeverCorrect` and `BuildThree` state when it holds |
| Synthesis.Checked | components/Module4Synthesis.tsx:82-88 | Check Answer as a transition; stated by `CheckIsExact` |
| Synthesis.Reset | components/Module4Synthesis.tsx:90-95 | `resetProblem` as a transition; stated by `ResetIdempotent` |
| Synthesis.NextProblem | components/Module4Synthesis.tsx:44-99 | Next Problem and the effect as a transition; stated by `NextReinitialises` and `NextOnSingleProblem` |
| Synthesis.FreshArranged | components/Module4Synthesis.tsx:33-39 | the fresh state keeps the invariant; Check is disabled and Next is not offered |
| Synthesis.MovesGatedBySource | components/Module4Synthesis.tsx:56-80 | a drop on the sentence acts only for a bank tile, a drop on the bank only for a built tile; each appends the tile |
| Synthesis.DropOnBuildArranged | components/Module4Synthesis.tsx:56-67 | bank + built stays a permutation of the tiles; exactly the tile leaves the bank; order is kept; the verdict is cleared |
| Synthesis.DropOnBankArranged | components/Module4Synthesis.tsx:69-80 | the mirror image: exactly the tile leaves the sentence; the built order is kept |
| Synthesis.CheckIsExact | components/Module4Synthesis.tsx:82-146 | correct iff the built ids equal the correct order exactly; the explanation is shown; the tiles are unchanged; Next offered iff correct |
| Synthesis.EmptyNeverCorrect | components/Module4Synthesis.tsx:145 | an empty sentence is never correct, which is the case the disabled button prevents |
| Synthesis.ResetIdempotent | components/Module4Synthesis.tsx:90-95 | reset keeps the problem, puts all its tiles back in the bank in catalog order, empties the sentence, clears the verdict, and is idempotent |
| Synthesis.NextReinitialises | components/Module4Synthesis.tsx:44-99 | with N >= 2, Next is (i+1) mod N, a different problem, and reinitialises it |
| Synthesis.NextOnSingleProblem | components/Module4Synthesis.tsx:97-99 | with one problem the index and the object stay the same, no effect runs, nothing changes |
| Synthesis.TakeFirst | components/Module4Synthesis.tsx:62-63 | dragging the first bank tile takes exactly it |
| Synthesis.BuildThree | components/Module4Synthesis.tsx:56-88 | three distinct tiles built in order empty the bank and are judged correct; the first two swapped are judged incorrect |
| Synthesis.FirstProblemAnswer | constants.tsx:268-273 | [s1t1,s1t2,s1t3] is correct and [s1t2,s1t1,s1t3] is not |
| Synthesis.CatalogWellFormed | constants.tsx:268-272 | the tile ids of the first problem are distinct |
| Synthesis.Synthesis.constructor | components/Module4Synthesis.tsx:33-39 | mount: first problem, fresh |
| Synthesis.Synthesis.OnDropOnBuild | components/Module4Synthesis.tsx:56-67 | the handler performs `DropOnBuild`; the drop cue only for a bank tile |
| Synthesis.Synthesis.OnDropOnBank | components/Module4Synthesis.tsx:69-80 | the handler performs `DropOnBank`; the drop cue only for a built tile |
| Synthesis.Synthesis.CheckAnswer | components/Module4Synthesis.tsx:82-88 | the handler performs `Checked` and plays the verdict cue |
| Synthesis.Synthesis.PressCheckAnswer | components/Module4Synthesis.tsx:145 | a press runs the check iff the sentence is non-empty, else changes nothing |
| Synthesis.Synthesis.ResetProblem | components/Module4Synthesis.tsx:90-95 | the handler performs `Reset` |
| Synthesis.Synthesis.GoToNextProblem | components/Module4Synthesis.tsx:44-99 | Next and the effect perform `NextProblem`, and the index stays in range |
| Synthesis.Synthesis.PressNextProblem | components/Module4Synthesis.tsx:146 | the button acts iff the feedback is correct |
| Synthesis.FirstProblemScenario | constants.tsx:264-273 | on the component: Check disabled at first; T1, T2, T3 dragged in order; correct, bank empty, Next offered |
| Pools.CountWhere | components/Module2Analysis.tsx:129 | `filter(...).length` is at most the length, and equal to it iff every element passes; the correct-placement counters of both categorisation exercises |
| Pools.Keys | components/Module4Synthesis.tsx:83 | `map(t => t.id)`: same length, element-wise ids |
| Pools.Find | components/Module2ClauseTypes.tsx:87 | `find` by id succeeds iff the id is among the keys |
| Pools.Without | components/Module2ClauseTypes.tsx:102 | `filter` by id keeps exactly the elements whose id is not removed |
| Pools.WithoutTwice | components/Module1Foundations.tsx:134-135 | filtering by one set of ids and then another is filtering by both |
| Pools.WithoutKeepsOrder | components/Module1Foundations.tsx:135 | `filter` keeps its survivors in their order (a subsequence) and repeats none when the input repeats none |
| Pools.WithoutSplit | components/Module4Synthesis.tsx:63 | filtering out a key held by a single element removes exactly it and keeps the rest in order |
| Pools.RemoveAt | components/Module4Synthesis.tsx:63-76 | with distinct keys, filtering out the key at i gives the sequence without position i |
| Pools.DistinctPart | components/Module4Synthesis.tsx:36-37 | part of a permutation of distinct-keyed tiles has distinct keys |
| Pools.TakeKey | components/Module2Analysis.tsx:110-114 | moving one key from a pool to the placed ones keeps the total equal to the catalog |
| Pools.ReturnKey | components/Module2Analysis.tsx:104 | filtering out a key held once loses exactly that key |
| Pools.MoveElement | components/Module4Synthesis.tsx:62-76 | moving an element between two lists keeps their union a permutation of the catalog |
| Pools.Conservation | components/Module2ClauseTypes.tsx:114-115 | two parts of a distinct catalog have sizes summing to it and share no key |
| Problems.NextIndex | components/Module3Connection.tsx:68 | `(i + 1) % n` stays below n and wraps from n-1 to 0 |
| Problems.AdvanceVisitsEvery | components/Module4Synthesis.tsx:98 | from the first problem, j presses of Next reach problem j |
| Problems.AdvanceWraps | components/Module4Synthesis.tsx:98 | n presses of Next return to the first problem |

## Left out

- Drag transport: `dataTransfer.setData`/`getData` and `JSON.parse` are not modelled. The dropped item, and in the synthesis exercise its source label, are typed arguments. A malformed payload would throw in the original.
- The drag cue: `onDragStart` plays a 'drag' sound. The cue log covers only the cues the drop, check and revert handlers play.
- Audio: `hooks/useSound.ts` (DOM audio, mute gate, promise handling) is not part of this model. Cues are a ghost log of cue kinds.
- Timers: the 1.5 s and 3 s delays are not modelled.
  - A pending revert is delivered by an explicit `RevertFires` call.
  - Reverts fire in scheduling order, because within one component they share one delay.
  - In the connector exercise all reverts are alike, so they are a count.
- Randomness: `Math.random` is a sequence of draws in [0,1) passed to `Shuffle`.
- Foundations.SwapIndex: `Math.random() * (i + 1)` is an IEEE double product in the original and an exact product of reals here. The bound 0 <= j <= i is proved for the exact product only; rounding of the double product is not modelled.
- Floating point: `progressPercentage` is left out. The integer counts it divides are modelled.
- React specifics: rendering, hover state (`isOver`) and styling are left out. Each handler runs atomically. Effect timing and batching are not modelled.
  - The `[currentProblem]` and `[problemIndex]` effects run inside the Next Problem method, only when the problem changes.
  - The mount-time effect leaves the initial state as it is, so the constructors do not repeat it.
- The zone's guard is modelled at the call site (`DropOnZone`). A drag comes only from a concept the toolbox shows; that condition is a requirement of `PlaceConsistent`, not of the handler.
- Synthesis drops: the handler trusts the payload's source label, as the original does. The invariant lemmas therefore require the tile to be in the list it comes from, which holds for every tile the page renders.
- Analysis.CatalogCopy: the original's non-null assertion on `find` would put `undefined` into the list for an id missing from the catalog. The model appends nothing. Pending reverts always name catalog ids (`PendingArePlaced`).
- `JSON.stringify(a) === JSON.stringify(b)` on two lists of id strings is modelled as sequence equality, which it is for strings.
- Catalog: `catalog.dfy` holds small excerpts of `constants.tsx`:
  - the first two clauses, sentences and connection problems;
  - the concepts and definitions;
  - the first synthesis problem only.
  With one synthesis problem, Next Problem on the catalog changes nothing (`Synthesis.NextOnSingleProblem`). The cyclic behaviour is proved for any number of problems.
- The UI shell (`App.tsx`, `IntroductionModal.tsx`) and the phrases-versus-clauses component are not part of this model.

## Findings

| source | as written | input that shows it | evidently intended | confidence | as-written member | corrected member |
|---|---|---|---|---|---|---|
| components/Module1Foundations.tsx:123-132 | Reset Module does not cancel the 1.5 s revert of a wrong match | c2 on d1 (wrong), Reset Module, c1 on d1 (right), the timer fires: d1 is emptied and 'neutral' | a reset cancels pending reverts, so a right match made afterwards stays | not executed | Foundations.StaleRevertClearsCorrectMatch | Foundations.CancellingResetKeepsCorrectMatch |
| components/Module2Analysis.tsx:101-127 | Reset Module does not cancel the 3 s revert, which appends the catalog's copy of the sentence to the already-full unplaced list | the simple sentence on Compound, Reset Module, the timer fires: the sentence is unplaced twice, one more entry than the catalog | a reset cancels pending reverts, so the unplaced and placed sentences remain the catalog | not executed | Analysis.StaleRevertScenario | Analysis.CancellingResetScenario |
| components/Module3Connection.tsx:60-75 | Reset does not cancel the 3 s revert, which clears whatever the slot holds | problem 2: '; however,' (wrong), Reset, ', but' (right), the timer fires: the slot is empty and 'neutral' | a reset cancels the pending revert, so the right connector stays | not executed | Connection.StaleRevertScenario | Connection.CancellingResetScenario |
| components/Module3Connection.tsx:36-69 | Next Problem does not cancel the 3 s revert either; the `[problemIndex]` effect has no cleanup | problem 1: ', but' (wrong), Next Problem, ', but' on problem 2 (right), the timer fires: the slot is empty and 'neutral' | a change of problem cancels the pending revert, so the right connector on the new problem stays | not executed | Connection.StaleRevertAcrossNextScenario | Connection.CancellingNextScenario |
