/** The board as a value: the tiles of one level, the swap that every move and
    every shuffle step performs, the Fisher-Yates pass of `initLevel`, the win
    predicate, and the fact that every dealt board can be solved by swaps. */
module Tiles {

  /** One piece of the picture. `correctPos` is the board slot whose part of the
      image the tile shows and doubles as its id; `currentPos` is the slot it
      occupies now. */
  datatype Tile = Tile(correctPos: int, currentPos: int)

  /** A tile that sits in its own slot; such a tile can no longer be clicked. */
  predicate IsLocked(t: Tile)
  {
    t.currentPos == t.correctPos
  }

  /** 0, 1, ..., n - 1 */
  function Range(n: nat): (r: seq<int>)
    ensures |r| == n
    ensures forall i :: 0 <= i < n ==> r[i] == i
  {
    seq(n, i => i)
  }

  /** The slots the tiles occupy, in tile order. */
  function Positions(ts: seq<Tile>): (r: seq<int>)
    ensures |r| == |ts|
    ensures forall i :: 0 <= i < |ts| ==> r[i] == ts[i].currentPos
  {
    seq(|ts|, i requires 0 <= i < |ts| => ts[i].currentPos)
  }

  /** The tile at index i is the one whose picture belongs in slot i: tiles are
      created in that order and no operation reorders them. */
  predicate IdsInOrder(ts: seq<Tile>)
  {
    forall i :: 0 <= i < |ts| ==> ts[i].correctPos == i
  }

  /** The occupied slots are 0 .. |ts| - 1, each exactly once. */
  ghost predicate SlotsArePermutation(ts: seq<Tile>)
  {
    multiset(Positions(ts)) == multiset(Range(|ts|))
  }

  /** The board invariant of a level. */
  ghost predicate WellFormed(ts: seq<Tile>)
  {
    IdsInOrder(ts) && SlotsArePermutation(ts)
  }

  /** The win condition: every tile is in its own slot (App.jsx line 87). A
      solved board of tiles in id order is the board as first generated. */
  predicate Solved(ts: seq<Tile>)
    ensures Solved(ts) && IdsInOrder(ts) ==> ts == Ordered(|ts|)
  {
    forall i :: 0 <= i < |ts| ==> IsLocked(ts[i])
  }

  /** The board that the generating loop builds before shuffling. */
  function Ordered(n: nat): (r: seq<Tile>)
    ensures |r| == n
    ensures forall i :: 0 <= i < n ==> r[i] == Tile(i, i)
  {
    seq(n, i => Tile(i, i))
  }

  lemma OrderedIsWellFormedAndSolved(n: nat)
    ensures WellFormed(Ordered(n)) && Solved(Ordered(n))
  {
    assert Positions(Ordered(n)) == Range(n);
  }

  /** Exchange the slots of the tiles at indices i and j, keeping each tile's id. */
  function SwapPos(ts: seq<Tile>, i: int, j: int): (r: seq<Tile>)
    requires 0 <= i < |ts| && 0 <= j < |ts|
    ensures |r| == |ts|
    ensures r[i].currentPos == ts[j].currentPos && r[j].currentPos == ts[i].currentPos
    ensures forall k :: 0 <= k < |ts| ==> r[k].correctPos == ts[k].correctPos
    ensures forall k :: 0 <= k < |ts| && k != i && k != j ==> r[k] == ts[k]
  {
    var a, b := ts[i], ts[j];
    ts[i := a.(currentPos := b.currentPos)][j := b.(currentPos := a.currentPos)]
  }

  lemma SwapKeepsMultiset(p: seq<int>, i: int, j: int)
    requires 0 <= i < |p| && 0 <= j < |p|
    ensures multiset(p[i := p[j]][j := p[i]]) == multiset(p)
  {
  }

  /** A swap permutes the occupied slots and keeps every id. */
  lemma {:induction false} SwapPermutes(ts: seq<Tile>, i: int, j: int)
    requires 0 <= i < |ts| && 0 <= j < |ts|
    ensures multiset(Positions(SwapPos(ts, i, j))) == multiset(Positions(ts))
    ensures IdsInOrder(ts) ==> IdsInOrder(SwapPos(ts, i, j))
  {
    var p := Positions(ts);
    assert Positions(SwapPos(ts, i, j)) == p[i := p[j]][j := p[i]];
    SwapKeepsMultiset(p, i, j);
  }

  lemma SwapKeepsWellFormed(ts: seq<Tile>, i: int, j: int)
    requires 0 <= i < |ts| && 0 <= j < |ts|
    requires WellFormed(ts)
    ensures WellFormed(SwapPos(ts, i, j))
  {
    SwapPermutes(ts, i, j);
  }

  /** The random indices of one Fisher-Yates pass: draws[i] is the index that
      `Math.floor(Math.random() * (i + 1))` picks when the loop is at i, so it
      lies in [0, i]. draws[0] is never used. */
  predicate ValidDraws(draws: seq<int>)
  {
    forall i :: 0 <= i < |draws| ==> 0 <= draws[i] <= i
  }

  /** The shuffle loop run from index i down to index 1. It moves tiles
      between slots only: every tile keeps its place in the sequence and its
      id. */
  function ShuffleDown(ts: seq<Tile>, draws: seq<int>, i: int): (r: seq<Tile>)
    requires i < |ts| == |draws| && ValidDraws(draws)
    ensures |r| == |ts|
    ensures forall k :: 0 <= k < |ts| ==> r[k].correctPos == ts[k].correctPos
    decreases i
  {
    if i <= 0 then ts else ShuffleDown(SwapPos(ts, i, draws[i]), draws, i - 1)
  }

  /** The whole shuffle loop: from the last index down to 1. */
  function Shuffle(ts: seq<Tile>, draws: seq<int>): (r: seq<Tile>)
    requires |ts| == |draws| && ValidDraws(draws)
    ensures |r| == |ts|
    ensures forall k :: 0 <= k < |ts| ==> r[k].correctPos == ts[k].correctPos
  {
    ShuffleDown(ts, draws, |ts| - 1)
  }

  /** Whatever indices are drawn, shuffling keeps the tile order and ids and
      only permutes the occupied slots. */
  lemma {:induction false} ShuffleDownPermutes(ts: seq<Tile>, draws: seq<int>, i: int)
    requires i < |ts| == |draws| && ValidDraws(draws)
    ensures |ShuffleDown(ts, draws, i)| == |ts|
    ensures multiset(Positions(ShuffleDown(ts, draws, i))) == multiset(Positions(ts))
    ensures IdsInOrder(ts) ==> IdsInOrder(ShuffleDown(ts, draws, i))
    decreases i
  {
    if i > 0 {
      SwapPermutes(ts, i, draws[i]);
      ShuffleDownPermutes(SwapPos(ts, i, draws[i]), draws, i - 1);
    }
  }

  /** The board that `initLevel` deals for n tiles: n tiles, tile i has id i,
      and the occupied slots are a permutation of 0 .. n - 1, for every
      sequence of draws. */
  lemma DealtBoardIsWellFormed(n: nat, draws: seq<int>)
    requires |draws| == n && ValidDraws(draws)
    ensures |Shuffle(Ordered(n), draws)| == n
    ensures forall i :: 0 <= i < n ==> Shuffle(Ordered(n), draws)[i].correctPos == i
    ensures WellFormed(Shuffle(Ordered(n), draws))
  {
    OrderedIsWellFormedAndSolved(n);
    ShuffleDownPermutes(Ordered(n), draws, n - 1);
  }

  // Consequences of the permutation invariant

  lemma InMultisetOfRange(n: nat, v: int)
    requires v in multiset(Range(n))
    ensures 0 <= v < n
  {
    var r := Range(n);
    assert v in r;
  }

  /** Every tile occupies a slot of the board. */
  lemma PositionInRange(ts: seq<Tile>, k: int)
    requires SlotsArePermutation(ts) && 0 <= k < |ts|
    ensures 0 <= ts[k].currentPos < |ts|
  {
    var p := Positions(ts);
    assert p[k] in multiset(p);
    InMultisetOfRange(|ts|, p[k]);
  }

  /** Every slot of the board is occupied by some tile. */
  lemma SlotOccupied(ts: seq<Tile>, s: int)
    requires SlotsArePermutation(ts) && 0 <= s < |ts|
    ensures exists k :: 0 <= k < |ts| && ts[k].currentPos == s
  {
    var p := Positions(ts);
    assert Range(|ts|)[s] == s;
    assert s in multiset(Range(|ts|));
    assert s in p;
    var k :| 0 <= k < |p| && p[k] == s;
  }

  lemma {:induction false} RangeHasNoDuplicates(n: nat, v: int)
    ensures multiset(Range(n))[v] <= 1
  {
    if n > 0 {
      assert Range(n) == Range(n - 1) + [n - 1];
      RangeHasNoDuplicates(n - 1, v);
      if v in multiset(Range(n - 1)) {
        InMultisetOfRange(n - 1, v);
      }
    }
  }

  /** No two tiles occupy the same slot. */
  lemma PositionsDistinct(ts: seq<Tile>, i: int, j: int)
    requires SlotsArePermutation(ts) && 0 <= i < |ts| && 0 <= j < |ts| && i != j
    ensures ts[i].currentPos != ts[j].currentPos
  {
    if ts[i].currentPos == ts[j].currentPos {
      var p := Positions(ts);
      var lo, hi := if i < j then i else j, if i < j then j else i;
      assert p == p[..hi] + p[hi..];
      assert p[lo] in p[..hi];
      assert p[hi] in p[hi..];
      assert multiset(p)[p[hi]] == multiset(p[..hi])[p[hi]] + multiset(p[hi..])[p[hi]];
      RangeHasNoDuplicates(|ts|, p[hi]);
    }
  }

  // Solvability

  /** The number of tiles not yet in their own slot. */
  function UnlockedCount(ts: seq<Tile>): (c: nat)
    ensures c <= |ts|
    ensures c == 0 <==> Solved(ts)
  {
    if ts == [] then 0
    else UnlockedCount(ts[..|ts| - 1]) + (if IsLocked(ts[|ts| - 1]) then 0 else 1)
  }

  /** A board that keeps every locked tile locked and locks one more tile has
      fewer unlocked tiles. */
  lemma {:induction false} FewerUnlocked(ts: seq<Tile>, us: seq<Tile>, w: int)
    requires |us| == |ts|
    requires forall k :: 0 <= k < |ts| && IsLocked(ts[k]) ==> IsLocked(us[k])
    ensures UnlockedCount(us) <= UnlockedCount(ts)
    ensures 0 <= w < |ts| && !IsLocked(ts[w]) && IsLocked(us[w]) ==> UnlockedCount(us) < UnlockedCount(ts)
  {
    if ts != [] {
      var n := |ts|;
      FewerUnlocked(ts[..n - 1], us[..n - 1], w);
    }
  }

  /** If tile i is not locked, the tile k occupying slot i is another unlocked
      tile, and swapping the two locks tile i and unlocks no tile. */
  lemma LockingSwap(ts: seq<Tile>, i: int, k: int)
    requires WellFormed(ts) && 0 <= i < |ts| && !IsLocked(ts[i])
    requires 0 <= k < |ts| && ts[k].currentPos == i
    ensures k != i && !IsLocked(ts[k])
    ensures IsLocked(SwapPos(ts, i, k)[i])
    ensures UnlockedCount(SwapPos(ts, i, k)) < UnlockedCount(ts)
  {
    FewerUnlocked(ts, SwapPos(ts, i, k), i);
  }

  /** A sequence of swaps that the game accepts, each between two distinct
      unlocked tiles: the pair (a, b) is a click on tile a followed by a
      click on tile b. */
  ghost predicate Playable(ts: seq<Tile>, plan: seq<(int, int)>)
    decreases |plan|
  {
    plan == [] ||
    (var (a, b) := plan[0];
     0 <= a < |ts| && 0 <= b < |ts| && a != b &&
     !IsLocked(ts[a]) && !IsLocked(ts[b]) &&
     Playable(SwapPos(ts, a, b), plan[1..]))
  }

  /** The board after playing a plan. */
  ghost function Play(ts: seq<Tile>, plan: seq<(int, int)>): seq<Tile>
    requires Playable(ts, plan)
    decreases |plan|
  {
    if plan == [] then ts
    else Play(SwapPos(ts, plan[0].0, plan[0].1), plan[1..])
  }

  /** The tile occupying slot s. */
  ghost function Occupant(ts: seq<Tile>, s: int): (k: int)
    requires SlotsArePermutation(ts) && 0 <= s < |ts|
    ensures 0 <= k < |ts| && ts[k].currentPos == s
  {
    SlotOccupied(ts, s);
    var k :| 0 <= k < |ts| && ts[k].currentPos == s;
    k
  }

  /** The first tile not in its own slot on an unsolved board. */
  function FirstUnlocked(ts: seq<Tile>): (i: int)
    requires !Solved(ts)
    ensures 0 <= i < |ts| && !IsLocked(ts[i])
    ensures forall j :: 0 <= j < i ==> IsLocked(ts[j])
  {
    if !IsLocked(ts[0]) then 0 else 1 + FirstUnlocked(ts[1..])
  }

  /** Playing a first swap and then a plan is playing the longer plan. */
  lemma PlayFirst(ts: seq<Tile>, a: int, b: int, rest: seq<(int, int)>)
    requires 0 <= a < |ts| && 0 <= b < |ts| && a != b
    requires !IsLocked(ts[a]) && !IsLocked(ts[b])
    requires Playable(SwapPos(ts, a, b), rest)
    ensures Playable(ts, [(a, b)] + rest)
    ensures Play(ts, [(a, b)] + rest) == Play(SwapPos(ts, a, b), rest)
  {
  }

  /** Every well-formed board can be solved by a playable sequence of at most
      one swap per unlocked tile, and playing it keeps the board well formed. */
  ghost function SolvingPlan(ts: seq<Tile>): (plan: seq<(int, int)>)
    requires WellFormed(ts)
    ensures Playable(ts, plan)
    ensures Solved(Play(ts, plan))
    ensures WellFormed(Play(ts, plan))
    ensures |plan| <= UnlockedCount(ts)
    decreases UnlockedCount(ts)
  {
    if Solved(ts) then []
    else
      var i := FirstUnlocked(ts);
      var k := Occupant(ts, i);
      var us := SwapPos(ts, i, k);
      LockingSwap(ts, i, k);
      SwapKeepsWellFormed(ts, i, k);
      var rest := SolvingPlan(us);
      PlayFirst(ts, i, k, rest);
      [(i, k)] + rest
  }
}
