/** The throw states of one frame and the transition each throw makes
    (FirstBowl.java, Spare.java, and the Ready, Strike, Miss and Gutter states they use). */
module States {
  import opened Outcomes
  import opened Scores
  import opened Pinfall

  datatype State =
    | Ready                              // no throw yet
    | FirstBowl(first: Pins)             // one throw, the frame still open
    | Strike                             // ten pins on the first throw
    | Spare(first: Pins, second: Pins)   // built only through NewSpare
    | Miss(first: Pins, second: Pins)    // two throws, the frame closed
    | Gutter                             // closed; no visible code builds it

  /** Whether a state takes no further throw. */
  predicate IsFinish(s: State) {
    match s
    case Ready => false
    case FirstBowl(_) => false
    case Strike => true
    case Spare(_, _) => true
    case Miss(_, _) => true
    case Gutter => true
  }

  /** The first throw of a frame: ten pins make a strike, fewer leave the frame open. */
  function BowlReady(n: int): (r: Result<State>)
    ensures r.Ok? <==> MinPin <= n <= MaxPin
    ensures r.Ok? ==> (r.value.Strike? <==> n == MaxPin)
    ensures r.Ok? ==> (r.value.FirstBowl? <==> n < MaxPin)
    ensures r.Ok? && r.value.FirstBowl? ==> r.value.first.count == n
    ensures r.Ok? ==> r.value.Strike? || r.value.FirstBowl?
    ensures r.Err? ==> r.error == PinsOutOfRange
  {
    match NewPins(n)
    case Err(e) => Err(e)
    case Ok(p) => if Pinfall.IsFinish(p) then Ok(Strike) else Ok(FirstBowl(p))
  }

  /** The validating constructor of a spare: a first throw of ten pins cannot open a spare,
      and the second throw is stored as given, never compared with the first. */
  function NewSpare(first: Pins, second: Pins): (r: Result<State>)
    ensures r.Ok? <==> first.count != MaxPin
    ensures r.Ok? ==> r.value.Spare? && r.value.first == first && r.value.second == second
    ensures r.Err? ==> r.error == Rejected
  {
    if Pinfall.IsFinish(first) then Err(Rejected) else Ok(Spare(first, second))
  }

  /** The second throw after `first`: checked against 0..10 only, a spare when it alone
      is ten, a miss otherwise; the first throw is carried over unchanged. */
  function BowlAfterFirst(first: Pins, n: int): (r: Result<State>)
    ensures r.Ok? <==> MinPin <= n <= MaxPin && !(n == MaxPin && first.count == MaxPin)
    ensures r.Ok? ==> (r.value.Spare? || r.value.Miss?) && r.value.first == first
    ensures r.Ok? ==> r.value.second.count == n
    ensures r.Ok? ==> (r.value.Spare? <==> n == MaxPin)
    ensures r.Err? ==> r.error == (if MinPin <= n <= MaxPin then Rejected else PinsOutOfRange)
  {
    match Pinfall.Bowl(first, n)
    case Err(e) => Err(e)
    case Ok(second) => if Pinfall.IsFinish(second) then NewSpare(first, second) else Ok(Miss(first, second))
  }

  /** One throw into a frame in state `s`; every finished state refuses it. */
  function BowlState(s: State, n: int): (r: Result<State>)
    ensures IsFinish(s) ==> r == Err(Rejected)
    ensures s.Ready? ==> r == BowlReady(n)
    ensures s.FirstBowl? ==> r == BowlAfterFirst(s.first, n)
  {
    match s
    case Ready => BowlReady(n)
    case FirstBowl(first) => BowlAfterFirst(first, n)
    case Strike => Err(Rejected)
    case Spare(_, _) => Err(Rejected)
    case Miss(_, _) => Err(Rejected)
    case Gutter => Err(Rejected)
  }

  /** Exactly which throws a state accepts. */
  lemma BowlStateAcceptsIff(s: State, n: int)
    ensures BowlState(s, n).Ok? <==>
      !IsFinish(s) && MinPin <= n <= MaxPin && !(s.FirstBowl? && s.first.count == MaxPin && n == MaxPin)
    ensures BowlState(s, n).Ok? ==> BowlState(s, n).value != s
  {
  }

  /** A state is finished exactly when it refuses every throw. */
  lemma FinishedIffRefusesAll(s: State)
    ensures IsFinish(s) <==> forall n :: BowlState(s, n).Err?
  {
    if !IsFinish(s) {
      assert BowlState(s, MinPin).Ok?;
    }
  }

  /** Throws feeding a frame one after another; the first refusal ends the sequence. */
  function Replay(s: State, throws: seq<int>): Result<State>
    decreases |throws|
  {
    if throws == [] then Ok(s)
    else
      match BowlState(s, throws[0])
      case Err(e) => Err(e)
      case Ok(next) => Replay(next, throws[1..])
  }

  /** The states a frame can reach from Ready. */
  predicate Reachable(s: State) {
    match s
    case Ready => true
    case FirstBowl(first) => first.count < MaxPin
    case Strike => true
    case Spare(first, second) => first.count < MaxPin && second.count == MaxPin
    case Miss(first, second) => first.count < MaxPin && second.count < MaxPin
    case Gutter => false
  }

  /** How many more throws a reachable state can take at most. */
  function Remaining(s: State): nat {
    match s
    case Ready => 2
    case FirstBowl(_) => 1
    case _ => 0
  }

  /** A reachable state is finished exactly when it has no throw left, and then it accepts
      every count in 0..10 until it is finished. */
  lemma ReachableAcceptsIff(s: State, n: int)
    requires Reachable(s)
    ensures IsFinish(s) <==> Remaining(s) == 0
    ensures BowlState(s, n).Ok? <==> !IsFinish(s) && MinPin <= n <= MaxPin
  {
  }

  /** Every accepted throw keeps the state reachable and uses up one of its remaining throws. */
  lemma BowlStatePreservesReachable(s: State, n: int)
    requires Reachable(s) && BowlState(s, n).Ok?
    ensures Reachable(BowlState(s, n).value)
    ensures Remaining(BowlState(s, n).value) < Remaining(s)
  {
  }

  /** From a reachable state, no sequence of throws longer than its remaining count is accepted,
      and one that uses them all finishes the frame. */
  lemma {:induction false} ReplayBound(s: State, throws: seq<int>)
    requires Reachable(s) && Replay(s, throws).Ok?
    ensures |throws| <= Remaining(s)
    ensures Reachable(Replay(s, throws).value)
    ensures |throws| == Remaining(s) ==> IsFinish(Replay(s, throws).value)
    decreases |throws|
  {
    if throws != [] {
      BowlStatePreservesReachable(s, throws[0]);
      var next := BowlState(s, throws[0]).value;
      ReplayBound(next, throws[1..]);
    } else {
      ReachableAcceptsIff(s, 0);
    }
  }

  /** A frame takes at most two throws, and after two it is finished. */
  lemma FrameTakesAtMostTwoThrows(throws: seq<int>)
    requires Replay(Ready, throws).Ok?
    ensures |throws| <= 2
    ensures |throws| == 2 ==> IsFinish(Replay(Ready, throws).value)
  {
    ReplayBound(Ready, throws);
  }

  /** As written, the second throw is never checked against the first: any first count below ten
      followed by any count in 0..10 closes the frame, as a spare only when the second count is ten. */
  lemma SecondThrowIgnoresFirst(a: int, b: int)
    requires MinPin <= a < MaxPin && MinPin <= b <= MaxPin
    ensures Replay(Ready, [a, b]) ==
      Ok(if b == MaxPin then Spare(Pins(a), Pins(b)) else Miss(Pins(a), Pins(b)))
  {
    var afterFirst := FirstBowl(Pins(a));
    assert BowlState(Ready, a) == Ok(afterFirst);
    assert [a, b][1..] == [b];
    assert Replay(Ready, [a, b]) == Replay(afterFirst, [b]);
    assert [b][1..] == [];
  }

  /** How a closed two-throw frame feeds the score of an earlier strike or spare: its first throw
      is added, and its second only while the earlier score still waits for a throw. */
  function MissCalculateScore(first: Pins, second: Pins, before: Score): (r: Score)
    ensures before.left == 1 ==> r == Settled(before.total + first.count)
    ensures before.left == 2 ==> r == Settled(before.total + first.count + second.count)
  {
    var afterFirst := SumScoreOnto(first, before);
    if afterFirst.CanAddNextScore() then SumScoreOnto(second, afterFirst) else afterFirst
  }
}
