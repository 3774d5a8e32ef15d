# Bowling frames and throw states

A Dafny model of the frame/state machine of a ten-pin bowling scorer. The model covers:

- `Pins`: the pins felled by one throw, valid from 0 to 10.
- The per-frame throw states: `Ready`, `FirstBowl`, `Strike`, `Spare`, `Miss` and `Gutter`.
- `FinalFrameStates`: the tenth frame's composite state, holding a regular state and at most one bonus state.
- `NormalFrame`: a mutable frame slot for frames 1 to 10. It holds a state and a link to the next frame.

Modules, leaves first:

- `Outcomes`: error tags and the `Result`/`Option` wrappers. Every exception the domain throws becomes an `Err` value. A refused call changes nothing.
- `Scores`: a score as a pair (total, throws still owed).
- `Pinfall`: the `Pins` value and its predicates (`Pins.java`).
- `States`: the throw states and their transitions (`FirstBowl.java`, `Spare.java`). It also holds a `Replay` of a sequence of throws and the bound on how many throws a frame accepts.
- `FinalFrames`: the tenth-frame composite, modelled as a value over a list of states whose type bounds its length by 2 (`FinalFrameStates.java`).
- `Frames`: the class `NormalFrame` with mutable `state` and `nextFrame`, and a stub class `FinalFrame` (`NormalFrame.java`). A `Frame` is a tag over references to the two classes, so frames compare by identity, as the Java classes do (they override no `equals`).

The model follows the code as written, not the standard rules of bowling:

- The second throw of a frame is checked only against 0..10. It becomes a `Spare` when it alone is 10 and a `Miss` otherwise (`States.SecondThrowIgnoresFirst`). So 5 then 5 closes a frame as a `Miss`. The test at src/test/java/bowling/domain/frame/NormalFrameTest.java:79-91 expects a `Spare` there, so that test and the code disagree. The model follows the code.
- A tenth frame opened with a strike or a spare takes exactly one more throw, on a fresh rack, and is then finished. A tenth frame therefore takes at most three throws (`FinalFrames.FinalFrameTakesAtMostThreeThrows`). One opened with a strike takes exactly two (`FinalFrames.StrikeOpensOneBonusThrow`). Because of the second-throw rule above, a tenth frame of 5 then 5 closes as a `Miss` with no bonus throw, and a third throw is refused (`FinalFrames.FiveFiveClosesWithoutBonus`).
- The finishing cascade of the tenth frame checks `Ready` first. A list `[Ready, X]` with `X` not `Ready` therefore has a bonus but is not finished. A list `[Strike, Ready]` is not finished either, and its next throw is refused because a third state would exceed the size limit. Neither list is reachable from `Of()`.
- With a single state, `getCalculateScore` passes the score through that same state twice, because the first and last state coincide (`FinalFrames.CalculateScoreSingleStateTwice`).

Types the core refers to but that are not part of this model get only the behaviour the visible code and tests show:

- `Ready.bowl(n)`: 10 gives `Strike`, 0..9 gives `FirstBowl`, and any other count is refused by the pin-range check.
- `Strike`, `Miss` and `Gutter` are finished and refuse every throw. Nothing visible builds a `Gutter`, and its contents are unknown, so it carries none.
- `Score(total)` owes nothing. `addScore` adds totals and decrements the owed count. A score can take more throws while the owed count is positive. This matches MissTest, where `Miss(1,2)` on (10,1) gives 11 and on (10,2) gives 13 (`States.MissCalculateScore`).
- `FinalFrame` is only constructed, in the state `FinalFrames.Of()`.
- Each state's `getPins`, `getCurrentScore` and `getCalculateScore` are not shown. The final-frame functions that call them take them as function parameters.

## Model

| member | source | states |
|---|---|---|
| `Pinfall.NewPins` | src/main/java/bowling/domain/Pins.java:15-28 | construction succeeds exactly for counts 0..10 and keeps the count; otherwise it fails with the range error |
| `Pinfall.From` | src/main/java/bowling/domain/Pins.java:20-22 | the default pins hold 0, are a gutter and are not a strike |
| `Pinfall.Bowl` | src/main/java/bowling/domain/Pins.java:30-32 | the next throw holds exactly the given count whatever the receiver holds; it fails for the same out-of-range counts |
| `Pinfall.TotalDownPin` | src/main/java/bowling/domain/Pins.java:59-63 | the sum of both counts, refused exactly when it exceeds 10 |
| `Pinfall.SumScore` | src/main/java/bowling/domain/Pins.java:39-41 | a score whose total is the felled pins and which owes no throw |
| `Pinfall.SumScoreOnto` | src/main/java/bowling/domain/Pins.java:34-37 | adds the felled pins to a score and counts one owed throw as supplied |
| `Pinfall.NewPinsRoundTrip` | src/main/java/bowling/domain/Pins.java:55-57 | `DownPin` gives back the count a value was built from: constructing from it, or bowling it, gives the same value |
| `Pinfall.PinsEqualByCount` | src/main/java/bowling/domain/Pins.java:65-71 | two values are equal exactly when their counts are |
| `Pinfall.GutterIsFrom` | src/main/java/bowling/domain/Pins.java:43-45 | `IsGutter` holds exactly for the default no-pin value, and never together with `IsFinish` |
| `Pinfall.FinishLeavesNoPins` | src/main/java/bowling/domain/Pins.java:47-49 | `IsFinish` holds exactly when not one more pin fits beside the throw; then only a gutter fits, and it is a finish together with a gutter |
| `Pinfall.FinishWithMeansTotalTen` | src/main/java/bowling/domain/Pins.java:51-53 | `IsFinishWith` holds exactly when the checked total of the two throws is 10, in either order |
| `States.BowlReady` | src/test/java/bowling/domain/frame/NormalFrameTest.java:66-77 | a first throw of 10 is a strike, 0..9 opens the frame with that count, anything else is refused |
| `States.NewSpare` | src/main/java/bowling/domain/frame/state/Spare.java:11-21 | a spare is refused exactly when its first throw is 10; otherwise both throws are stored unchanged and unchecked against each other |
| `States.BowlAfterFirst` | src/main/java/bowling/domain/frame/state/FirstBowl.java:13-21 | the second throw is accepted for 0..10 unless both throws are 10; it gives a spare exactly when it is 10, a miss otherwise, and keeps the first throw |
| `States.BowlState` | src/main/java/bowling/domain/frame/state/Spare.java:23-26 | every finished state refuses a throw; Ready and FirstBowl follow their transitions |
| `States.FinishedIffRefusesAll` | src/main/java/bowling/domain/frame/state/FirstBowl.java:23-26 | `IsFinish` of a state holds exactly when the state refuses every throw |
| `States.BowlStateAcceptsIff` | src/main/java/bowling/domain/frame/state/FirstBowl.java:13-26 | exactly which state and count pairs are accepted, and that an accepted throw always changes the state |
| `States.ReachableAcceptsIff` | src/main/java/bowling/domain/frame/state/Spare.java:28-31 | a state reachable from Ready is finished exactly when it has no throw left, and until then it accepts every count 0..10 |
| `States.BowlStatePreservesReachable` | src/main/java/bowling/domain/frame/state/FirstBowl.java:14-20 | an accepted throw keeps the state reachable and uses up a remaining throw |
| `States.ReplayBound` | src/main/java/bowling/domain/frame/state/FirstBowl.java:13-26 | from a reachable state no longer sequence of throws is accepted than it has throws left, and using them all finishes the frame |
| `States.FrameTakesAtMostTwoThrows` | src/main/java/bowling/domain/frame/state/FirstBowl.java:23-26 | a frame accepts at most two throws and is finished after two |
| `States.SecondThrowIgnoresFirst` | src/main/java/bowling/domain/frame/state/FirstBowl.java:15-20 | any first count below 10 followed by any count 0..10 closes the frame, as a spare only when the second count is 10 |
| `States.MissCalculateScore` | src/test/java/bowling/domain/frame/state/MissTest.java:36-64 | a score owing one throw gains the first count; one owing two gains both counts; either way it ends settled |
| `FinalFrames.Make` | src/main/java/bowling/domain/frame/state/FinalFrameStates.java:18-33 | construction fails exactly for more than two states and otherwise keeps the list |
| `FinalFrames.Of` | src/main/java/bowling/domain/frame/state/FinalFrameStates.java:23-27 | a fresh tenth frame holds exactly `[Ready]`, is unfinished, reachable and has three throws left |
| `FinalFrames.AddState` | src/main/java/bowling/domain/frame/state/FinalFrameStates.java:35-39 | appends one state, refused exactly when two are already held |
| `FinalFrames.IsFinishCharacterized` | src/main/java/bowling/domain/frame/state/FinalFrameStates.java:112-139 | the cascade `IsFinish` holds exactly when the first state is not Ready and either a bonus state is held or the last state is a miss or gutter; a strike, spare or first throw without a bonus is unfinished |
| `FinalFrames.HaveBonusMeansTwoStates` | src/main/java/bowling/domain/frame/state/FinalFrameStates.java:77-82 | in a reachable tenth frame `IsHaveBonus` holds exactly when two states are held, and then the frame is finished with no throw left |
| `FinalFrames.StrikeOrSpareOpensBonus` | src/main/java/bowling/domain/frame/state/FinalFrameStates.java:48-55 | in a reachable tenth frame `IsNormalTurnStrikeOrSpare` holds exactly when the bonus throw is still owed or already taken |
| `FinalFrames.ThrowAbleBonusMeansOneThrowLeft` | src/main/java/bowling/domain/frame/state/FinalFrameStates.java:41-46 | in a reachable tenth frame `IsThrowAbleBonus` holds exactly when one throw is left |
| `FinalFrames.FirstBowlMeansTwoThrowsLeft` | src/main/java/bowling/domain/frame/state/FinalFrameStates.java:57-67 | in a reachable tenth frame `IsNormalTurnFirstBowl` holds exactly when two throws are left |
| `FinalFrames.MissOrGutterClosesWithoutBonus` | src/main/java/bowling/domain/frame/state/FinalFrameStates.java:69-75 | in a reachable tenth frame `IsNormalTurnMissOrGutter` holds exactly when the frame is finished without a bonus state |
| `FinalFrames.Bowl` | src/main/java/bowling/domain/frame/state/FinalFrameStates.java:95-110 | a finished frame refuses with the can't-throw error; after a strike or spare any 0..10 is appended as a bonus state, which finishes the frame, and a refusal there is the size error for a valid count and the range error otherwise; otherwise the single state is replaced by its own transition, and a refusal there carries that transition's own error |
| `FinalFrames.Replay` | src/main/java/bowling/domain/frame/state/FinalFrameStates.java:95-110 | a sequence of accepted throws never empties the list (the type already bounds it by two states) |
| `FinalFrames.ReachableAcceptsIff` | src/main/java/bowling/domain/frame/state/FinalFrameStates.java:112-139 | a reachable tenth frame is finished exactly when no throw is left, and until then it accepts every count 0..10 |
| `FinalFrames.BowlPreservesReachable` | src/main/java/bowling/domain/frame/state/FinalFrameStates.java:101-109 | an accepted throw keeps the tenth frame reachable and uses up a remaining throw |
| `FinalFrames.ReplayBound` | src/main/java/bowling/domain/frame/state/FinalFrameStates.java:96-139 | no longer sequence of throws is accepted than the frame has throws left, and using them all finishes it |
| `FinalFrames.FinalFrameTakesAtMostThreeThrows` | src/main/java/bowling/domain/frame/state/FinalFrameStates.java:13-14 | a tenth frame accepts at most three throws and is finished after three |
| `FinalFrames.StrikeOpensOneBonusThrow` | src/main/java/bowling/domain/frame/state/FinalFrameStates.java:101-120 | a tenth frame opened with a strike accepts any one further count 0..10 as a bonus state and is then finished |
| `FinalFrames.FiveFiveClosesWithoutBonus` | src/main/java/bowling/domain/frame/state/FinalFrameStates.java:107-109 | a tenth frame of 5 then 5 closes as a single miss, is finished, and refuses any third throw with the can't-throw error |
| `FinalFrames.FirstPins` | src/main/java/bowling/domain/frame/state/FinalFrameStates.java:84-86 | the pins are those the regular state reports |
| `FinalFrames.LastPins` | src/main/java/bowling/domain/frame/state/FinalFrameStates.java:88-93 | absent without a bonus state, including for an empty list; otherwise the bonus state's pins, or that state's own failure |
| `FinalFrames.GetPins` | src/main/java/bowling/domain/frame/state/FinalFrameStates.java:164-167 | the composite never reports pins of its own |
| `FinalFrames.CurrentScore` | src/main/java/bowling/domain/frame/state/FinalFrameStates.java:141-151 | the regular state's total, plus the bonus state's total when a bonus is held, owing exactly zero throws; fails exactly when a consulted state's score fails |
| `FinalFrames.CalculateScore` | src/main/java/bowling/domain/frame/state/FinalFrameStates.java:153-162 | the incoming score passes through the first state, and through the last state only if it can still take a throw; failures propagate |
| `FinalFrames.CalculateScoreSingleStateTwice` | src/main/java/bowling/domain/frame/state/FinalFrameStates.java:155-158 | with one state, a score still waiting after that state is passed through the same state again |
| `Frames.Step` | src/main/java/bowling/domain/frame/NormalFrame.java:56-64 | a throw into a finished frame fails with the can't-throw error; otherwise the result, success or refusal, is the state's own transition |
| `Frames.StepAcceptsIff` | src/main/java/bowling/domain/frame/NormalFrame.java:47-64 | a frame in a reachable state accepts a throw exactly while unfinished and the count is 0..10, and stays reachable |
| `Frames.FinalFrame.constructor` | src/main/java/bowling/domain/frame/NormalFrame.java:38-40 | a new final frame starts in the fresh tenth-frame state |
| `Frames.FinishedFrameRefusesEveryThrow` | src/main/java/bowling/domain/frame/NormalFrame.java:47-54 | `NormalFrame.IsFinish` (the state's `IsFinish`) holds exactly when every throw into the frame is refused with the can't-throw error |
| `Frames.NormalFrame.Default` | src/main/java/bowling/domain/frame/NormalFrame.java:16-18 | the default frame is number 1, Ready, with no next frame |
| `Frames.NormalFrame.constructor` | src/main/java/bowling/domain/frame/NormalFrame.java:24-29 | stores the number, link and state unchanged |
| `Frames.NewNormalFrame` | src/main/java/bowling/domain/frame/NormalFrame.java:20-35 | construction succeeds exactly for frame numbers 1..10, giving a fresh frame with the given fields; otherwise it fails with the frame-number error |
| `Frames.NormalFrame.CreateNext` | src/main/java/bowling/domain/frame/NormalFrame.java:37-45 | frame 9 links and returns a fresh final frame, frames 1..8 link and return a fresh frame n+1 in Ready, frame 10 fails and keeps its link; neither finishing nor an existing link is checked, and the state is kept |
| `Frames.NormalFrame.Bowl` | src/main/java/bowling/domain/frame/NormalFrame.java:56-64 | a finished frame refuses; otherwise the state becomes the transition's result and the frame itself is returned; any refusal leaves the state unchanged; the link is never touched |
| `Frames.CreateNextNineTimes` | src/test/java/bowling/domain/frame/NormalFrameTest.java:38-51 | nine successive `CreateNext` calls from the default frame end at a final frame |
| `Frames.BowlOnFreshFrames` | src/test/java/bowling/domain/frame/NormalFrameTest.java:93-131 | on fresh frames, 10 gives a strike, 5 leaves the frame unfinished, and 1 then 1 gives a miss |

## Left out

- Scoring across a chain of frames (`findLast`, a frame's own `getCurrentScore` with look-ahead): these are not in the modelled `NormalFrame.java`. Only the final frame's score passing is modelled.
- The sources of `Ready`, `Strike`, `Miss`, `Gutter`, `Score`, `Frame` and `FinalFrame` are not part of this model. They get only the behaviour listed above.
- Each state's own `getPins`, `getCurrentScore` and `getCalculateScore` are not shown. The final-frame functions take them as parameters and state their results relative to them.
- `NormalFrame.getNext` and `getState` are plain getters. They are modelled as reads of the fields `nextFrame` and `state`.
- The `State` a `NormalFrame` holds ranges over the regular states only. A `FinalFrameStates` passed to the three-argument constructor is not modelled.
- A final-frame list that is empty: the constructor accepts it. `isHaveBonus`, `getLastPins`, `addState` and `getPins` handle it and are modelled for it. The queries that read the first or last state fail with the collection's own no-element exception: `isFinish`, `bowl`, `getCurrentScore`, `getCalculateScore`, `getFirstPins`, and the helper predicates that call `getFirst` or `getLast`. Those queries require a non-empty list here instead.
- Exception message texts, `equals`/`hashCode` boilerplate and `toString`: errors are tags and pins compare structurally.
- The unrelated question/answer package (`qna`), which is persistence code with no scoring logic.
