/**
 * Scoring and speed policy of TetraMaster: points per lock and the gravity
 * period for a level.
 */
module Scoring {

  /** Points for clearing `lines` rows in one lock at `level`: 40, 100, 300 or 1200 times level + 1. */
  function GetScore(lines: int, level: int): (points: int)
    ensures level >= 0 ==> points >= 0
    ensures level >= 0 ==> (points == 0 <==> lines <= 0)
  {
    if lines == 1 then 40 * (level + 1)
    else if lines == 2 then 100 * (level + 1)
    else if lines == 3 then 300 * (level + 1)
    else if lines >= 4 then 1200 * (level + 1)
    else 0
  }

  /**
   * The level-0 column of the score table. It serves only to factor GetScore
   * into a table entry times level + 1 (ScoreScales), on which ScoreMonotone
   * rests.
   */
  function LinePoints(lines: int): int
  {
    if lines <= 0 then 0 else if lines == 1 then 40 else if lines == 2 then 100 else if lines == 3 then 300 else 1200
  }

  /** Every score is the level-0 table entry times level + 1. */
  lemma ScoreScales(lines: int, level: int)
    ensures GetScore(lines, level) == LinePoints(lines) * (level + 1)
  {
  }

  /** Clearing more lines, or clearing at a higher level, never scores less. */
  lemma {:induction false} ScoreMonotone(lines1: int, lines2: int, level1: int, level2: int)
    requires lines1 <= lines2 && 0 <= level1 <= level2
    ensures GetScore(lines1, level1) <= GetScore(lines2, level2)
  {
    ScoreScales(lines1, level1);
    ScoreScales(lines2, level2);
    var p1, p2 := LinePoints(lines1), LinePoints(lines2);
    assert 0 <= p1 <= p2;
    assert p1 * (level1 + 1) <= p2 * (level1 + 1);
    assert p2 * (level1 + 1) <= p2 * (level2 + 1);
  }

  /** Gravity period in milliseconds at a level: 900 less 75 per level, but never below 120. */
  function GetInterval(lvl: int): (ms: int)
    ensures ms >= 120
    ensures lvl >= 0 ==> ms <= 900
  {
    if 900 - lvl * 75 >= 120 then 900 - lvl * 75 else 120
  }

  /** A higher level never has a longer period; from level 11 on the period stays at 120. */
  lemma IntervalNonIncreasing(lvl1: int, lvl2: int)
    requires lvl1 <= lvl2
    ensures GetInterval(lvl2) <= GetInterval(lvl1)
    ensures lvl1 >= 11 ==> GetInterval(lvl1) == 120
    ensures 0 <= lvl1 <= 10 ==> GetInterval(lvl1) == 900 - 75 * lvl1
  {
  }
}
