/** The frame slots of a game (NormalFrame.java): frames 1 to 9 each hold a throw state and a
    link to the frame after them; the tenth frame is a final frame. */
module Frames {
  import opened Outcomes
  import opened Pinfall
  import States
  import FinalFrames

  const MinFrameNumber := 1
  const MaxFrameNumber := 10

  type FrameNumber = n: int | MinFrameNumber <= n <= MaxFrameNumber witness MinFrameNumber

  /** Either kind of frame a link can point to. */
  datatype Frame = Normal(normal: NormalFrame) | Final(finalFrame: FinalFrame)

  /** The tenth frame, holding the composite final-frame state. */
  class FinalFrame {
    var states: FinalFrames.FinalFrameStates

    constructor ()
      ensures states == FinalFrames.Of()
    {
      states := FinalFrames.Of();
    }
  }

  /** What one throw does to the state of a normal frame: refused once the frame is finished,
      otherwise the state's own transition. */
  function Step(state: States.State, n: int): (r: Result<States.State>)
    ensures States.IsFinish(state) ==> r == Err(CantThrowBall)
    ensures !States.IsFinish(state) ==> r == States.BowlState(state, n)
    ensures r.Ok? <==> States.BowlState(state, n).Ok?
    ensures r.Ok? ==> r == States.BowlState(state, n)
  {
    if States.IsFinish(state) then Err(CantThrowBall) else States.BowlState(state, n)
  }

  /** A frame in a state reachable from Ready accepts a throw exactly while it is unfinished
      and the count is in 0..10; the refusal of a finished frame comes before any count check. */
  lemma StepAcceptsIff(state: States.State, n: int)
    requires States.Reachable(state)
    ensures Step(state, n).Ok? <==> !States.IsFinish(state) && MinPin <= n <= MaxPin
    ensures Step(state, n).Ok? ==> States.Reachable(Step(state, n).value)
  {
  }

  /** A frame is finished exactly when every throw into it is refused with the can't-throw error. */
  lemma FinishedFrameRefusesEveryThrow(state: States.State)
    ensures States.IsFinish(state) <==> forall n :: Step(state, n) == Err(CantThrowBall)
  {
    if !States.IsFinish(state) {
      assert Step(state, MinPin).Ok?;
    }
  }

  class NormalFrame {
    const number: FrameNumber
    var nextFrame: Option<Frame>
    var state: States.State

    /** The first frame of a game. */
    constructor Default()
      ensures number == MinFrameNumber && nextFrame == None && state == States.Ready
    {
      number := MinFrameNumber;
      nextFrame := None;
      state := States.Ready;
    }

    /** A frame whose number has already been checked. */
    constructor (number: FrameNumber, nextFrame: Option<Frame>, state: States.State)
      ensures this.number == number && this.nextFrame == nextFrame && this.state == state
    {
      this.number := number;
      this.nextFrame := nextFrame;
      this.state := state;
    }

    predicate IsFinish()
      reads this
    {
      States.IsFinish(state)
    }

    /** Links a new frame after this one and returns it: the final frame after frame 9, frame
        n + 1 otherwise. Neither finishing nor an earlier link is checked; after frame 10 the
        number 11 is refused and nothing changes. */
    method CreateNext() returns (r: Result<Frame>)
      modifies this
      ensures state == old(state)
      ensures number == MaxFrameNumber - 1 ==>
        r.Ok? && r.value.Final? && fresh(r.value.finalFrame) && r.value.finalFrame.states == FinalFrames.Of()
      ensures number < MaxFrameNumber - 1 ==>
        && r.Ok? && r.value.Normal? && fresh(r.value.normal)
        && r.value.normal.number == number + 1
        && r.value.normal.nextFrame == None && r.value.normal.state == States.Ready
      ensures number == MaxFrameNumber ==> r == Err(FrameNumberOutOfRange)
      ensures nextFrame == if r.Ok? then Some(r.value) else old(nextFrame)
    {
      if number == MaxFrameNumber - 1 {
        var last := new FinalFrame();
        nextFrame := Some(Final(last));
        return Ok(Final(last));
      }
      var created := NewNormalFrame(number + 1, None, States.Ready);
      match created
      case Err(e) =>
        r := Err(e);
      case Ok(frame) =>
        nextFrame := Some(Normal(frame));
        r := Ok(Normal(frame));
    }

    /** One throw into this frame. On success the state moves on and the frame itself is
        returned; on any refusal nothing changes. The link is never touched. */
    method Bowl(pinCount: int) returns (r: Result<Frame>)
      modifies this
      ensures nextFrame == old(nextFrame)
      ensures r.Ok? <==> Step(old(state), pinCount).Ok?
      ensures r.Ok? ==> r == Ok(Normal(this)) && state == Step(old(state), pinCount).value
      ensures r.Err? ==> r.error == Step(old(state), pinCount).error && state == old(state)
      ensures old(IsFinish()) ==> r == Err(CantThrowBall)
    {
      if IsFinish() {
        return Err(CantThrowBall);
      }
      match States.BowlState(state, pinCount)
      case Err(e) =>
        r := Err(e);
      case Ok(next) =>
        state := next;
        r := Ok(Normal(this));
    }
  }

  /** The validating constructor: only frame numbers 1..10 are accepted. */
  method NewNormalFrame(number: int, nextFrame: Option<Frame>, state: States.State)
    returns (r: Result<NormalFrame>)
    ensures r.Ok? <==> MinFrameNumber <= number <= MaxFrameNumber
    ensures r.Err? ==> r.error == FrameNumberOutOfRange
    ensures r.Ok? ==> fresh(r.value)
    ensures r.Ok? ==> r.value.number == number && r.value.nextFrame == nextFrame && r.value.state == state
  {
    if number < MinFrameNumber || number > MaxFrameNumber {
      return Err(FrameNumberOutOfRange);
    }
    var frame := new NormalFrame(number, nextFrame, state);
    r := Ok(frame);
  }

  /** Nine links created one after another from the first frame end at the final frame. */
  method CreateNextNineTimes() returns (last: Frame)
    ensures last.Final?
  {
    var first := new NormalFrame.Default();
    var frame := Normal(first);
    var i := 0;
    while i < MaxFrameNumber - 1
      invariant 0 <= i <= MaxFrameNumber - 1
      invariant i < MaxFrameNumber - 1 ==> frame.Normal? && frame.normal.number == i + 1
      invariant frame.Normal? ==> fresh(frame.normal)
      invariant i == MaxFrameNumber - 1 ==> frame.Final?
    {
      var created := frame.normal.CreateNext();
      frame := created.value;
      i := i + 1;
    }
    last := frame;
  }

  /** Throws on fresh frames: ten pins make a finished strike, five leave the frame open, and
      one then one close it as a miss. */
  method BowlOnFreshFrames() returns (strike: States.State, open: bool, miss: States.State)
    ensures strike == States.Strike
    ensures !open
    ensures miss.Miss?
  {
    var frame := new NormalFrame.Default();
    var r := frame.Bowl(10);
    assert frame.IsFinish();
    strike := frame.state;

    frame := new NormalFrame.Default();
    r := frame.Bowl(5);
    open := frame.IsFinish();

    frame := new NormalFrame.Default();
    r := frame.Bowl(1);
    r := frame.Bowl(1);
    miss := frame.state;
  }
}
