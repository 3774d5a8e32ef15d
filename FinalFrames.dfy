/** The tenth frame's composite state (FinalFrameStates.java): the regular first state of the
    frame and, after a strike or a spare, one bonus state. */
module FinalFrames {
  import opened Outcomes
  import opened Scores
  import opened Pinfall
  import States

  /** At most two states: the regular turn and the bonus turn. */
  const FinalStateSize := 2

  /** A list of states no longer than the size limit; no final-frame value can hold more. */
  type StateList = s: seq<States.State> | |s| <= FinalStateSize

  datatype FinalFrameStates = FinalFrameStates(states: StateList)

  /** The validating constructor: a list of more than two states is refused. */
  function Make(states: seq<States.State>): (r: Result<FinalFrameStates>)
    ensures r.Ok? <==> |states| <= FinalStateSize
    ensures r.Ok? ==> r.value.states == states
    ensures r.Err? ==> r.error == FinalStateSizeExceeded
  {
    if |states| > FinalStateSize then Err(FinalStateSizeExceeded) else Ok(FinalFrameStates(states))
  }

  /** A fresh tenth frame. */
  function Of(): (f: FinalFrameStates)
    ensures f.states == [States.Ready]
    ensures !IsFinish(f) && Reachable(f) && Remaining(f) == 3
  {
    Make([States.Ready]).value
  }

  /** A copy with `s` appended; refused once the frame already holds two states. */
  function AddState(f: FinalFrameStates, s: States.State): (r: Result<FinalFrameStates>)
    ensures r.Ok? <==> |f.states| < FinalStateSize
    ensures r.Ok? ==> r.value.states == f.states + [s]
    ensures r.Err? ==> r.error == FinalStateSizeExceeded
  {
    Make(f.states + [s])
  }

  function First(f: FinalFrameStates): States.State
    requires |f.states| >= 1
  {
    f.states[0]
  }

  function Last(f: FinalFrameStates): States.State
    requires |f.states| >= 1
  {
    f.states[|f.states| - 1]
  }

  predicate IsNormalTurnStrikeOrSpare(f: FinalFrameStates)
    requires |f.states| >= 1
  {
    First(f).Strike? || First(f).Spare?
  }

  /** The frame holds its bonus state. */
  predicate IsHaveBonus(f: FinalFrameStates) {
    |f.states| == FinalStateSize && !Last(f).Ready?
  }

  predicate IsThrowAbleBonus(f: FinalFrameStates)
    requires |f.states| >= 1
  {
    IsNormalTurnStrikeOrSpare(f) && !IsHaveBonus(f)
  }

  predicate IsNormalTurnFirstBowl(f: FinalFrameStates)
    requires |f.states| >= 1
  {
    !IsHaveBonus(f) && First(f).FirstBowl?
  }

  predicate IsNormalTurnMissOrGutter(f: FinalFrameStates)
    requires |f.states| >= 1
  {
    Last(f).Miss? || Last(f).Gutter?
  }

  /** Whether the tenth frame takes no further throw; the checks run in this order. */
  predicate IsFinish(f: FinalFrameStates)
    requires |f.states| >= 1
  {
    if First(f).Ready? then false
    else if IsHaveBonus(f) then true
    else if IsThrowAbleBonus(f) then false
    else if IsNormalTurnFirstBowl(f) then false
    else if IsNormalTurnMissOrGutter(f) then true
    else if |f.states| == FinalStateSize then false
    else true
  }

  /** The whole cascade in one statement: finished exactly when the first state is not Ready and
      either the bonus state is present or the last state closed the frame without a bonus. */
  lemma IsFinishCharacterized(f: FinalFrameStates)
    requires |f.states| >= 1
    ensures IsFinish(f) <==> !First(f).Ready? && (IsHaveBonus(f) || Last(f).Miss? || Last(f).Gutter?)
    ensures !First(f).Ready? && IsHaveBonus(f) ==> IsFinish(f)
    ensures !IsHaveBonus(f) && (IsNormalTurnStrikeOrSpare(f) || First(f).FirstBowl?) ==> !IsFinish(f)
  {
  }

  /** In a reachable tenth frame the bonus state is present exactly when the list holds two states. */
  lemma HaveBonusMeansTwoStates(f: FinalFrameStates)
    requires Reachable(f)
    ensures IsHaveBonus(f) <==> |f.states| == FinalStateSize
    ensures IsHaveBonus(f) ==> IsFinish(f) && Remaining(f) == 0
  {
  }

  /** In a reachable tenth frame the regular turn ended in a strike or a spare exactly when the
      bonus throw is still owed or already taken. */
  lemma StrikeOrSpareOpensBonus(f: FinalFrameStates)
    requires Reachable(f)
    ensures IsNormalTurnStrikeOrSpare(f) <==> Remaining(f) == 1 || IsHaveBonus(f)
  {
  }

  /** In a reachable tenth frame a bonus throw can be taken exactly when one throw is left. */
  lemma ThrowAbleBonusMeansOneThrowLeft(f: FinalFrameStates)
    requires Reachable(f)
    ensures IsThrowAbleBonus(f) <==> Remaining(f) == 1
  {
  }

  /** In a reachable tenth frame the regular turn is half done exactly when two throws are left. */
  lemma FirstBowlMeansTwoThrowsLeft(f: FinalFrameStates)
    requires Reachable(f)
    ensures IsNormalTurnFirstBowl(f) <==> Remaining(f) == 2
  {
  }

  /** In a reachable tenth frame the last state is a miss or gutter exactly when the frame
      finished without a bonus. */
  lemma MissOrGutterClosesWithoutBonus(f: FinalFrameStates)
    requires Reachable(f)
    ensures IsNormalTurnMissOrGutter(f) <==> IsFinish(f) && !IsHaveBonus(f)
  {
  }

  /** One throw into the tenth frame. After a strike or a spare the throw is a bonus throw on a
      fresh rack and is appended; otherwise it replaces the single regular state. */
  function Bowl(f: FinalFrameStates, n: int): (r: Result<FinalFrameStates>)
    requires |f.states| >= 1
    ensures IsFinish(f) ==> r == Err(CantThrowBall)
    ensures r.Ok? ==> |r.value.states| >= 1
    ensures !IsFinish(f) && IsNormalTurnStrikeOrSpare(f) ==>
      && (r.Ok? <==> MinPin <= n <= MaxPin && |f.states| < FinalStateSize)
      && (r.Ok? ==> r.value.states == f.states + [States.BowlReady(n).value] && IsHaveBonus(r.value))
    ensures !IsFinish(f) && IsNormalTurnStrikeOrSpare(f) && r.Err? ==>
      r.error == (if MinPin <= n <= MaxPin then FinalStateSizeExceeded else PinsOutOfRange)
    ensures !IsFinish(f) && !IsNormalTurnStrikeOrSpare(f) ==>
      && (r.Ok? <==> States.BowlState(First(f), n).Ok?)
      && (r.Ok? ==> r.value.states == [States.BowlState(First(f), n).value])
    ensures !IsFinish(f) && !IsNormalTurnStrikeOrSpare(f) && r.Err? ==>
      r.error == States.BowlState(First(f), n).error
  {
    if IsFinish(f) then Err(CantThrowBall)
    else if IsNormalTurnStrikeOrSpare(f) then
      match States.BowlReady(n)
      case Err(e) => Err(e)
      case Ok(third) => AddState(f, third)
    else
      match States.BowlState(First(f), n)
      case Err(e) => Err(e)
      case Ok(next) => Make([next])
  }

  /** Throws feeding the tenth frame one after another; the first refusal ends the sequence. */
  function Replay(f: FinalFrameStates, throws: seq<int>): (r: Result<FinalFrameStates>)
    requires |f.states| >= 1
    ensures r.Ok? ==> |r.value.states| >= 1
    decreases |throws|
  {
    if throws == [] then Ok(f)
    else
      match Bowl(f, throws[0])
      case Err(e) => Err(e)
      case Ok(next) => Replay(next, throws[1..])
  }

  /** The lists a tenth frame can reach from `Of()`: one reachable regular state, or a strike or
      spare followed by the state of one fresh-rack throw. */
  predicate Reachable(f: FinalFrameStates) {
    || (|f.states| == 1 && States.Reachable(f.states[0]))
    || (&& |f.states| == 2
        && States.Reachable(f.states[0]) && (f.states[0].Strike? || f.states[0].Spare?)
        && States.Reachable(f.states[1]) && (f.states[1].Strike? || f.states[1].FirstBowl?))
  }

  /** How many more throws a reachable tenth frame can take at most. */
  function Remaining(f: FinalFrameStates): nat {
    if |f.states| != 1 then 0
    else
      match f.states[0]
      case Ready => 3
      case FirstBowl(_) => 2
      case Strike => 1
      case Spare(_, _) => 1
      case _ => 0
  }

  /** A reachable tenth frame is finished exactly when no throw is left, and until then it
      accepts every count in 0..10. */
  lemma ReachableAcceptsIff(f: FinalFrameStates, n: int)
    requires Reachable(f)
    ensures IsFinish(f) <==> Remaining(f) == 0
    ensures Bowl(f, n).Ok? <==> !IsFinish(f) && MinPin <= n <= MaxPin
  {
  }

  /** Every accepted throw keeps the frame reachable and uses up one of its remaining throws. */
  lemma BowlPreservesReachable(f: FinalFrameStates, n: int)
    requires Reachable(f) && Bowl(f, n).Ok?
    ensures Reachable(Bowl(f, n).value)
    ensures Remaining(Bowl(f, n).value) < Remaining(f)
  {
  }

  /** No sequence of throws longer than the remaining count is accepted, and one that uses
      them all finishes the frame. */
  lemma {:induction false} ReplayBound(f: FinalFrameStates, throws: seq<int>)
    requires Reachable(f) && Replay(f, throws).Ok?
    ensures |throws| <= Remaining(f)
    ensures Reachable(Replay(f, throws).value)
    ensures |throws| == Remaining(f) ==> IsFinish(Replay(f, throws).value)
    decreases |throws|
  {
    if throws != [] {
      BowlPreservesReachable(f, throws[0]);
      ReplayBound(Bowl(f, throws[0]).value, throws[1..]);
    } else {
      ReachableAcceptsIff(f, 0);
    }
  }

  /** The tenth frame takes at most three throws, and after three it is finished. */
  lemma FinalFrameTakesAtMostThreeThrows(throws: seq<int>)
    requires Replay(Of(), throws).Ok?
    ensures |throws| <= 3
    ensures |throws| == 3 ==> IsFinish(Replay(Of(), throws).value)
  {
    ReplayBound(Of(), throws);
  }

  /** A tenth frame opened with a strike is finished after one more throw, whatever its count. */
  lemma StrikeOpensOneBonusThrow(n: int)
    requires MinPin <= n <= MaxPin
    ensures Replay(Of(), [MaxPin, n]).Ok?
    ensures Replay(Of(), [MaxPin, n]).value.states == [States.Strike, States.BowlReady(n).value]
    ensures IsFinish(Replay(Of(), [MaxPin, n]).value)
  {
    var afterStrike := FinalFrameStates([States.Strike]);
    assert Bowl(Of(), MaxPin) == Ok(afterStrike);
    assert [MaxPin, n][1..] == [n];
    assert Replay(Of(), [MaxPin, n]) == Replay(afterStrike, [n]);
    assert [n][1..] == [];
  }

  /** A tenth frame of five then five closes as a miss, as in a normal frame, so it opens no
      bonus throw: a third throw is refused. */
  lemma FiveFiveClosesWithoutBonus(n: int)
    ensures Replay(Of(), [5, 5]) == Ok(FinalFrameStates([States.Miss(Pins(5), Pins(5))]))
    ensures IsFinish(Replay(Of(), [5, 5]).value)
    ensures Replay(Of(), [5, 5, n]) == Err(CantThrowBall)
  {
    var afterFirst := FinalFrameStates([States.FirstBowl(Pins(5))]);
    var closed := FinalFrameStates([States.Miss(Pins(5), Pins(5))]);
    assert Bowl(Of(), 5) == Ok(afterFirst);
    assert Bowl(afterFirst, 5) == Ok(closed);
    assert [5, 5][1..] == [5] && [5][1..] == [];
    assert [5, 5, n][1..] == [5, n] && [5, n][1..] == [n];
    assert Replay(Of(), [5, 5]) == Replay(afterFirst, [5]) == Replay(closed, []);
    assert Replay(Of(), [5, 5, n]) == Replay(afterFirst, [5, n]) == Replay(closed, [n]);
  }

  /** The pins of the regular state, as that state reports them. */
  function FirstPins(f: FinalFrameStates, pinsOf: States.State -> Result<Pins>): (r: Result<Pins>)
    requires |f.states| >= 1
    ensures r == pinsOf(f.states[0])
  {
    pinsOf(First(f))
  }

  /** The pins of the bonus state; absent while there is no bonus state. */
  function LastPins(f: FinalFrameStates, pinsOf: States.State -> Result<Pins>): (r: Result<Option<Pins>>)
    ensures !IsHaveBonus(f) ==> r == Ok(None)
    ensures IsHaveBonus(f) && pinsOf(f.states[1]).Err? ==> r == Err(pinsOf(f.states[1]).error)
    ensures IsHaveBonus(f) ==> (r.Ok? <==> pinsOf(f.states[1]).Ok?)
    ensures IsHaveBonus(f) && r.Ok? ==> r == Ok(Some(pinsOf(f.states[1]).value))
  {
    if IsHaveBonus(f) then
      match pinsOf(Last(f))
      case Err(e) => Err(e)
      case Ok(p) => Ok(Some(p))
    else Ok(None)
  }

  /** The frame as a whole never reports pins of its own. */
  function GetPins(f: FinalFrameStates): (r: Result<Pins>)
    ensures r.Err?
  {
    Err(Rejected)
  }

  /** The frame's own score: the regular state's score plus the bonus state's, owing nothing. */
  function CurrentScore(f: FinalFrameStates, scoreOf: States.State -> Result<Score>): (r: Result<Score>)
    requires |f.states| >= 1
    ensures r.Ok? <==> scoreOf(f.states[0]).Ok? && (IsHaveBonus(f) ==> scoreOf(f.states[1]).Ok?)
    ensures r.Ok? ==> r.value.left == 0
    ensures r.Ok? && !IsHaveBonus(f) ==> r.value.total == scoreOf(f.states[0]).value.total
    ensures r.Ok? && IsHaveBonus(f) ==>
      r.value.total == scoreOf(f.states[0]).value.total + scoreOf(f.states[1]).value.total
  {
    match scoreOf(First(f))
    case Err(e) => Err(e)
    case Ok(firstStateScore) =>
      if IsHaveBonus(f) then
        match scoreOf(Last(f))
        case Err(e) => Err(e)
        case Ok(secondStateScore) => Ok(Settled(firstStateScore.total + secondStateScore.total))
      else Ok(Settled(firstStateScore.total))
  }

  /** An earlier frame's score after it takes what this frame's throws owe it: it passes through
      the regular state, then through the last state only while it still waits for a throw. */
  function CalculateScore(f: FinalFrameStates, before: Score,
                          calculate: (States.State, Score) -> Result<Score>): (r: Result<Score>)
    requires |f.states| >= 1
    ensures calculate(f.states[0], before).Err? ==> r == calculate(f.states[0], before)
    ensures calculate(f.states[0], before).Ok? && !calculate(f.states[0], before).value.CanAddNextScore()
      ==> r == calculate(f.states[0], before)
    ensures calculate(f.states[0], before).Ok? && calculate(f.states[0], before).value.CanAddNextScore()
      ==> r == calculate(f.states[|f.states| - 1], calculate(f.states[0], before).value)
  {
    match calculate(First(f), before)
    case Err(e) => Err(e)
    case Ok(afterFirst) =>
      if afterFirst.CanAddNextScore() then calculate(Last(f), afterFirst) else Ok(afterFirst)
  }

  /** With a single state, the first and the last state are the same, so a score that still
      waits after that state is passed through the very same state a second time. */
  lemma CalculateScoreSingleStateTwice(s: States.State, before: Score,
                                       calculate: (States.State, Score) -> Result<Score>)
    requires calculate(s, before).Ok? && calculate(s, before).value.CanAddNextScore()
    ensures CalculateScore(FinalFrameStates([s]), before, calculate) == calculate(s, calculate(s, before).value)
  {
  }
}
