/** The running score of a frame: the pins counted so far and how many further
    throws must still be added before the score is final. */
module Scores {

  datatype Score = Score(total: int, left: int) {

    /** True while this score still waits for the pins of a later throw. */
    predicate CanAddNextScore() {
      left > 0
    }

    /** Adds the pins of one later throw and counts that throw as supplied. */
    function AddScore(other: Score): Score {
      Score(total + other.total, left - 1)
    }
  }

  /** A score that waits for no further throw. */
  function Settled(total: int): Score {
    Score(total, 0)
  }
}
