/** The pins knocked down by one throw (Pins.java). */
module Pinfall {
  import opened Outcomes
  import opened Scores

  const MinPin := 0
  const MaxPin := 10

  type PinCount = n: int | MinPin <= n <= MaxPin

  /** A validated pin count; a `Pins` value outside 0..10 cannot exist. */
  datatype Pins = Pins(count: PinCount)

  /** The validating constructor: any count outside 0..10 is refused. */
  function NewPins(n: int): (r: Result<Pins>)
    ensures r.Ok? <==> MinPin <= n <= MaxPin
    ensures r.Ok? ==> r.value.count == n
    ensures r.Err? ==> r.error == PinsOutOfRange
  {
    if n < MinPin || n > MaxPin then Err(PinsOutOfRange) else Ok(Pins(n))
  }

  /** No pins down. */
  function From(): (p: Pins)
    ensures p.count == MinPin
    ensures IsGutter(p) && !IsFinish(p)
  {
    Pins(MinPin)
  }

  /** The next throw: a fresh count that owes nothing to the receiver's own count. */
  function Bowl(p: Pins, n: int): (r: Result<Pins>)
    ensures r.Ok? <==> MinPin <= n <= MaxPin
    ensures r.Ok? ==> r.value.count == n
    ensures r.Err? ==> r.error == PinsOutOfRange
  {
    NewPins(n)
  }

  predicate IsGutter(p: Pins) {
    p.count == MinPin
  }

  /** All ten pins down on this throw alone. */
  predicate IsFinish(p: Pins) {
    p.count == MaxPin
  }

  /** All ten pins down on this throw together with `other`. */
  predicate IsFinishWith(p: Pins, other: Pins) {
    p.count + other.count == MaxPin
  }

  function DownPin(p: Pins): int {
    p.count
  }

  /** The pins of two throws together, refused when they exceed the rack. */
  function TotalDownPin(p: Pins, other: Pins): (r: Result<int>)
    ensures r.Ok? <==> p.count + other.count <= MaxPin
    ensures r.Ok? ==> r.value == DownPin(p) + DownPin(other) && MinPin <= r.value <= MaxPin
    ensures r.Err? ==> r.error == PinsOutOfRange
  {
    var totalDown := p.count + other.count;
    match NewPins(totalDown)
    case Err(e) => Err(e)
    case Ok(_) => Ok(totalDown)
  }

  /** This throw as a score of its own, owing nothing. */
  function SumScore(p: Pins): (r: Score)
    ensures r.total == DownPin(p) && !r.CanAddNextScore()
  {
    Settled(p.count)
  }

  /** This throw supplied as one of the throws `current` is waiting for. */
  function SumScoreOnto(p: Pins, current: Score): (r: Score)
    ensures r.total == current.total + DownPin(p)
    ensures r.left == current.left - 1
  {
    current.AddScore(SumScore(p))
  }

  /** Constructing from a value's own count gives that value back. */
  lemma NewPinsRoundTrip(p: Pins)
    ensures NewPins(DownPin(p)) == Ok(p)
    ensures Bowl(From(), DownPin(p)) == Ok(p)
  {
  }

  /** Pins compare by their count alone. */
  lemma PinsEqualByCount(p: Pins, q: Pins)
    ensures p == q <==> DownPin(p) == DownPin(q)
  {
  }

  /** A gutter is exactly the default no-pin value, and never a strike. */
  lemma GutterIsFrom(p: Pins)
    ensures IsGutter(p) <==> p == From()
    ensures !(IsGutter(p) && IsFinish(p))
  {
  }

  /** A throw finishes the rack on its own exactly when not even one more pin fits beside it,
      which is a finish together with a gutter. */
  lemma FinishLeavesNoPins(p: Pins, q: Pins)
    ensures IsFinish(p) <==> TotalDownPin(p, Pins(1)).Err?
    ensures IsFinish(p) ==> (TotalDownPin(p, q).Ok? <==> IsGutter(q))
    ensures IsFinish(p) <==> IsFinishWith(p, From())
  {
  }

  /** Spare detection agrees with the checked sum: two throws finish the rack exactly when
      their checked total is ten, in either order. */
  lemma FinishWithMeansTotalTen(p: Pins, q: Pins)
    ensures IsFinishWith(p, q) <==> TotalDownPin(p, q) == Ok(MaxPin)
    ensures IsFinishWith(p, q) <==> IsFinishWith(q, p)
  {
  }
}
