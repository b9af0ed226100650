/** The level progression: which levels are unlocked after a win. The value
    is what the component keeps in its `highestLevel` state and persists under
    the `puzzleHighestLevel` key. */
module Progress {

  /** The highest unlocked level after winning level `current` (App.jsx lines
      93-97): one past `current` when `current` had reached the highest
      unlocked level, otherwise unchanged. Equivalently, the larger of
      `highest` and `current + 1`: it never decreases and never unlocks more
      than the level after the one just won. */
  function NextHighest(current: int, highest: int): (r: int)
    ensures highest <= r && current < r
    ensures r == highest || r == current + 1
  {
    if current >= highest then current + 1 else highest
  }

  /** Winning the same level again unlocks nothing more. */
  lemma ReplayUnlocksNothing(current: int, highest: int)
    ensures NextHighest(current, NextHighest(current, highest)) == NextHighest(current, highest)
  {
  }

  /** Winning levels in any order keeps the highest level monotone: a second
      win never undoes the first. */
  lemma WinsAccumulate(a: int, b: int, highest: int)
    ensures NextHighest(a, highest) <= NextHighest(b, NextHighest(a, highest))
    ensures a < NextHighest(b, NextHighest(a, highest))
  {
  }
}
