/** The display and play modes of the game (main.py:28-38) and the rule that
    picks the play mode from the level number. */
module Modes {

  datatype Display = MainMenu | Play | InGameMenu | Dead

  datatype PlayMode = Terrain | Space

  /** Python's `int()` on a float: truncation toward zero. */
  function Trunc(level: real): int {
    if level >= 0.0 then level.Floor else -((-level).Floor)
  }

  /** A level is integral when it has no fractional part. */
  predicate Integral(level: real) {
    level.Floor as real == level
  }

  /** A level with no fractional part is a terrain level; any other is a space level. */
  function PlayModeOf(level: real): (m: PlayMode)
    ensures m == Terrain <==> Integral(level)
  {
    if Trunc(level) as real == level then Terrain else Space
  }

  /** A whole-numbered level is a terrain level. */
  lemma WholeLevel(k: int)
    ensures PlayModeOf(k as real) == Terrain
  {
    assert (k as real).Floor == k;
  }

  /** A level halfway between two whole numbers is a space level. */
  lemma HalfwayLevel(k: int)
    ensures PlayModeOf(k as real + 0.5) == Space
  {
    assert (k as real + 0.5).Floor == k;
  }

  /** Advancing a terrain level by one half leads to a space level and vice versa:
      starting at 1.5, the play mode alternates with every advance. */
  lemma LevelsAlternate(n: nat)
    ensures PlayModeOf(1.5 + (n as real) * 0.5) == (if n % 2 == 0 then Space else Terrain)
  {
    var k := n / 2;
    if n % 2 == 0 {
      assert n == 2 * k;
      assert 1.5 + (n as real) * 0.5 == (k + 1) as real + 0.5;
      HalfwayLevel(k + 1);
    } else {
      assert n == 2 * k + 1;
      assert 1.5 + (n as real) * 0.5 == (k + 2) as real;
      WholeLevel(k + 2);
    }
  }

  /** Half a level on from the n-th level after 1.5. */
  lemma NextLevelMode(n: nat)
    ensures PlayModeOf(1.5 + (n as real) * 0.5 + 0.5) == (if n % 2 == 0 then Terrain else Space)
  {
    var k := n / 2;
    if n % 2 == 0 {
      assert n == 2 * k;
      assert 1.5 + (n as real) * 0.5 + 0.5 == (k + 2) as real;
      WholeLevel(k + 2);
    } else {
      assert n == 2 * k + 1;
      assert 1.5 + (n as real) * 0.5 + 0.5 == (k + 2) as real + 0.5;
      HalfwayLevel(k + 2);
    }
  }
}
