/** The rounded Elo update (EloRatingCalculator). */
module Elo {

  const K_FACTOR: real := 25.0

  /** The expected score of the better or worse rated side as a function of the rating difference. */
  ghost predicate Logistic(expected: int -> real) {
    forall d :: 0.0 < expected(d) < 1.0 && expected(d) + expected(-d) == 1.0
  }

  /** `std::lround`: to the nearest integer, halves away from zero. */
  function Round(x: real): int {
    if x >= 0.0 then (x + 0.5).Floor else -((-x + 0.5).Floor)
  }

  datatype Update = Update(winnerNew: int, loserNew: int)

  /** `expected(d)` is the expectation of a player rated `d` above the opponent. */
  function Rate(winner: int, loser: int, expected: int -> real): Update {
    var expectedWinner, expectedLoser := expected(winner - loser), expected(loser - winner);
    Update(Round(winner as real + K_FACTOR * (1.0 - expectedWinner)),
           Round(loser as real + K_FACTOR * (0.0 - expectedLoser)))
  }

  /** The unrounded gain of the winner, and the loss of the loser. */
  ghost function Gain(winner: int, loser: int, expected: int -> real): real {
    K_FACTOR * (1.0 - expected(winner - loser))
  }

  lemma GainIsLoss(winner: int, loser: int, expected: int -> real)
    requires Logistic(expected)
    ensures Gain(winner, loser, expected) == K_FACTOR * expected(loser - winner)
    ensures 0.0 < Gain(winner, loser, expected) < 25.0
  {
  }

  lemma RoundShift(n: int, g: real)
    ensures n as real + g >= 0.0 ==> Round(n as real + g) == n + (g + 0.5).Floor
    ensures n as real + g < 0.0 ==> Round(n as real + g) == n - (0.5 - g).Floor
  {
  }

  ghost predicate HalfInteger(g: real) {
    (g + 0.5).Floor as real == g + 0.5
  }

  lemma FloorPair(g: real)
    ensures (g + 0.5).Floor + (0.5 - g).Floor == (if HalfInteger(g) then 1 else 0)
  {
  }

  /** `std::lround` picks the nearest integer and, of two equally near, the one farther from zero. */
  lemma RoundIsNearest(x: real)
    ensures x - 0.5 <= Round(x) as real <= x + 0.5
    ensures Round(x) as real == x - 0.5 ==> x < 0.0
    ensures Round(x) as real == x + 0.5 ==> x >= 0.0
  {
  }

  /** Each new rating is within half a point of the old one plus the gain, or minus the loss. */
  lemma RateIsNearest(winner: int, loser: int, expected: int -> real)
    ensures var u := Rate(winner, loser, expected);
      && winner as real + 25.0 * (1.0 - expected(winner - loser)) - 0.5 <= u.winnerNew as real
      && u.winnerNew as real <= winner as real + 25.0 * (1.0 - expected(winner - loser)) + 0.5
      && loser as real - 25.0 * expected(loser - winner) - 0.5 <= u.loserNew as real
      && u.loserNew as real <= loser as real - 25.0 * expected(loser - winner) + 0.5
  {
    RoundIsNearest(winner as real + K_FACTOR * (1.0 - expected(winner - loser)));
    RoundIsNearest(loser as real + K_FACTOR * (0.0 - expected(loser - winner)));
  }

  /** The winner rises by 0 to 25, the loser falls by 0 to 25. */
  lemma Movement(winner: int, loser: int, expected: int -> real)
    requires Logistic(expected)
    ensures var u := Rate(winner, loser, expected);
      0 <= u.winnerNew - winner <= 25 && 0 <= loser - u.loserNew <= 25
  {
  }

  /**
   * What rounding does to the sum of the two ratings, exactly: it moves only when the gain is a half-integer, by +1
   * when both unrounded results are non-negative, by -1 when both are negative, and not at all otherwise.
   */
  lemma SumMoves(winner: int, loser: int, expected: int -> real)
    requires Logistic(expected)
    ensures var u, g := Rate(winner, loser, expected), Gain(winner, loser, expected);
      u.winnerNew + u.loserNew - (winner + loser) ==
      if !HalfInteger(g) then 0
      else if winner as real + g >= 0.0 && loser as real - g >= 0.0 then 1
      else if winner as real + g < 0.0 && loser as real - g < 0.0 then -1
      else 0
  {
    var g := Gain(winner, loser, expected);
    GainIsLoss(winner, loser, expected);
    RoundShift(winner, g);
    RoundShift(loser, -g);
    FloorPair(g);
    assert loser as real + K_FACTOR * (0.0 - expected(loser - winner)) == loser as real + (-g);
    assert -g + 0.5 == 0.5 - g && 0.5 - (-g) == g + 0.5;
  }

  /** A player recorded as beating himself ends on the loser's result: 12 or 13 points down. */
  lemma SelfMatch(rating: int, expected: int -> real)
    requires Logistic(expected)
    ensures Rate(rating, rating, expected).loserNew - rating == (if rating >= 13 then -12 else -13)
  {
  }
}
