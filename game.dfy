/** The puzzle state machine of the `App` component: the state it keeps with
    `useState` and `useRef` becomes the fields of `Puzzle`, and each handler
    becomes a method that runs as one atomic update. */
module Game {
  import opened Tiles
  import opened Progress

  datatype Option<T> = None | Some(value: T)

  /** `tiles.find(t => t.correctPos === id)`: the index of the first tile with
      that id, or -1 where JavaScript returns `undefined`. */
  method FindTile(a: array<Tile>, id: int) returns (r: int)
    ensures -1 <= r < a.Length
    ensures r == -1 <==> forall i :: 0 <= i < a.Length ==> a[i].correctPos != id
    ensures 0 <= r ==> a[r].correctPos == id && forall i :: 0 <= i < r ==> a[i].correctPos != id
  {
    r := 0;
    while r < a.Length
      invariant 0 <= r <= a.Length
      invariant forall i :: 0 <= i < r ==> a[i].correctPos != id
    {
      if a[r].correctPos == id {
        return;
      }
      r := r + 1;
    }
    r := -1;
  }

  /** Exchange the `currentPos` fields of the tiles in slots i and j through a
      temporary, as the shuffle (App.jsx lines 64-66) and a move (lines
      124-126) both do. */
  method SwapCurrentPos(a: array<Tile>, i: int, j: int)
    requires 0 <= i < a.Length && 0 <= j < a.Length
    modifies a
    ensures a[..] == SwapPos(old(a[..]), i, j)
  {
    var tempPos := a[i].currentPos;
    a[i] := a[i].(currentPos := a[j].currentPos);
    a[j] := a[j].(currentPos := tempPos);
  }

  /** The deal of `initLevel` (App.jsx lines 51-68): tiles 0 to n-1 each in
      its own slot, then the Fisher-Yates shuffle from the last slot down to
      slot 1, exchanging slot i with slot `draws[i]`, the draw
      `Math.floor(Math.random() * (i + 1))` makes at that step. */
  method Deal(draws: seq<int>) returns (a: array<Tile>)
    requires ValidDraws(draws)
    ensures fresh(a) && a[..] == Shuffle(Ordered(|draws|), draws)
  {
    var n := |draws|;
    a := new Tile[n];
    for i := 0 to n
      invariant forall k :: 0 <= k < i ==> a[k] == Tile(k, k)
    {
      a[i] := Tile(i, i);
    }
    assert a[..] == Ordered(n);

    var i := n - 1;
    while i > 0
      invariant i < n
      invariant ShuffleDown(a[..], draws, i) == Shuffle(Ordered(n), draws)
    {
      SwapCurrentPos(a, i, draws[i]);
      i := i - 1;
    }
  }

  class Puzzle {
    var currentLevel: int
    var highestLevel: int
    /** `SIZE`: the board has `size * size` slots. */
    var size: int
    var tiles: array<Tile>
    var moves: nat
    var seconds: nat
    var isPlaying: bool
    var isWon: bool
    /** `selectedTileIndex`: the id (`correctPos`) of the selected tile, or -1. */
    var selected: int
    /** `timerRef.current` holds an interval. */
    var timerSet: bool
    /** Intervals registered with `setInterval` and not yet cleared. */
    var liveIntervals: nat

    /** The timer reference and the running intervals agree: at most one
        interval runs, and it is the one the reference holds. */
    ghost predicate TimerOk()
      reads this
    {
      liveIntervals == if timerSet then 1 else 0
    }

    ghost predicate Valid()
      reads this, tiles
    {
      TimerOk() &&
      size == currentLevel + 2 &&
      tiles.Length == size * size &&
      WellFormed(tiles[..]) &&
      (selected != -1 ==>
         0 <= selected < tiles.Length && !IsLocked(tiles[selected]) && isPlaying && !isWon) &&
      (isWon ==> Solved(tiles[..]) && currentLevel < highestLevel) &&
      (timerSet <==> isPlaying && !isWon)
    }

    /** A click on tile `id` that `handleTileClick` ignores: the level is won,
        there is no such tile, or the tile is already in its own slot. */
    ghost predicate Ignores(id: int)
      reads this, tiles
    {
      isWon || !(0 <= id < tiles.Length) || IsLocked(tiles[id])
    }

    /** Mounting the component (App.jsx lines 6-16 and 27-35): the initial
        state, the highest level read from storage when one was saved, then
        level 1. `saved` is the parsed stored value, or None when nothing was
        stored. */
    constructor (saved: Option<int>, draws: seq<int>)
      requires |draws| == 9 && ValidDraws(draws)
      ensures Valid() && fresh(tiles)
      ensures highestLevel == if saved.Some? then saved.value else 1
      ensures currentLevel == 1 && size == 3 && tiles[..] == Shuffle(Ordered(9), draws)
      ensures moves == 0 && seconds == 0 && !isPlaying && !isWon && selected == -1
    {
      currentLevel, highestLevel, size := 1, 1, 3;
      tiles := new Tile[0];
      moves, seconds := 0, 0;
      isPlaying, isWon := false, false;
      selected := -1;
      timerSet, liveIntervals := false, 0;
      new;
      if saved.Some? {
        highestLevel := saved.value;
      }
      InitLevel(1, draws);
    }

    /** `initLevel` (App.jsx lines 37-70): stop the timer, reset the counters
        and flags, deal `(level + 2)²` tiles in order and shuffle them with
        the given draws. Every tile keeps its id, and the occupied slots are a
        permutation of the board's slots whatever the draws (Valid). */
    method InitLevel(level: int, draws: seq<int>)
      requires TimerOk()
      requires |draws| == (level + 2) * (level + 2) && ValidDraws(draws)
      modifies this
      ensures Valid() && fresh(tiles)
      ensures currentLevel == level && size == level + 2 && highestLevel == old(highestLevel)
      ensures tiles.Length == size * size && tiles[..] == Shuffle(Ordered(size * size), draws)
      ensures moves == 0 && seconds == 0 && !isPlaying && !isWon && selected == -1
      ensures !timerSet && liveIntervals == 0
    {
      StopTimer();
      var newSize := 2 + level;
      currentLevel := level;
      size := newSize;
      moves, seconds := 0, 0;
      isPlaying, isWon := false, false;
      selected := -1;

      tiles := Deal(draws);
      DealtBoardIsWellFormed(|draws|, draws);
    }

    /** `startTimer` (App.jsx lines 72-77): mark the game as playing and
        register a new interval. It does not clear an interval already held. */
    method StartTimer()
      modifies this`isPlaying, this`timerSet, this`liveIntervals
      ensures isPlaying && timerSet && liveIntervals == old(liveIntervals) + 1
    {
      isPlaying := true;
      liveIntervals := liveIntervals + 1;
      timerSet := true;
    }

    /** `stopTimer` (App.jsx lines 79-84, also run on unmount at line 34):
        clear the interval the reference holds, if any. `isPlaying` is left
        as it is. */
    method StopTimer()
      requires TimerOk()
      modifies this`timerSet, this`liveIntervals
      ensures !timerSet && liveIntervals == 0
    {
      if timerSet {
        liveIntervals := liveIntervals - 1;
        timerSet := false;
      }
    }

    /** One second passes: every live interval runs `s => s + 1` once
        (App.jsx line 75). The clock advances by exactly one while the game
        is being played and not won, and not at all otherwise. */
    method Tick()
      requires Valid()
      modifies this`seconds
      ensures Valid()
      ensures seconds == old(seconds) + if isPlaying && !isWon then 1 else 0
    {
      seconds := seconds + liveIntervals;
    }

    /** `checkWin` (App.jsx lines 86-99), run right after a move: when every
        tile is in its own slot the level is won, the timer stops and the
        highest level advances as `NextHighest` says; otherwise nothing
        changes. */
    method CheckWin()
      requires Valid() && selected == -1
      modifies this`isWon, this`timerSet, this`liveIntervals, this`highestLevel
      ensures Valid()
      ensures isWon == (old(isWon) || Solved(tiles[..]))
      ensures Solved(tiles[..]) ==>
                !timerSet && highestLevel == NextHighest(currentLevel, old(highestLevel))
      ensures !Solved(tiles[..]) ==>
                timerSet == old(timerSet) && liveIntervals == old(liveIntervals) &&
                highestLevel == old(highestLevel)
    {
      var won := Solved(tiles[..]);
      if won {
        isWon := true;
        StopTimer();
        if currentLevel >= highestLevel {
          var newHighest := currentLevel + 1;
          highestLevel := newHighest;
        }
      }
    }

    /** `handleTileClick` (App.jsx lines 101-133) for a click on tile `id`.
        Ignored clicks change nothing. Otherwise the clock starts if it has
        not, and then: with no selection the tile becomes selected; a click
        on the selected tile deselects it; a click on a second tile exchanges
        the two tiles' slots, counts one move, clears the selection and
        checks for a win. */
    method HandleTileClick(id: int)
      requires Valid()
      modifies this, tiles
      ensures Valid() && tiles == old(tiles)
      ensures currentLevel == old(currentLevel) && size == old(size) && seconds == old(seconds)
      ensures highestLevel >= old(highestLevel)
      ensures old(Ignores(id)) ==> unchanged(this) && tiles[..] == old(tiles[..])
      ensures old(!Ignores(id) && selected == -1) ==>
                selected == id && isPlaying && timerSet && !isWon && liveIntervals == 1 &&
                tiles[..] == old(tiles[..]) && moves == old(moves) &&
                highestLevel == old(highestLevel)
      ensures old(!Ignores(id) && selected == id) ==>
                selected == -1 && isPlaying && timerSet && !isWon &&
                liveIntervals == old(liveIntervals) &&
                tiles[..] == old(tiles[..]) && moves == old(moves) &&
                highestLevel == old(highestLevel)
      ensures old(!Ignores(id) && selected != -1 && selected != id) ==>
                tiles[..] == SwapPos(old(tiles[..]), old(selected), id) &&
                moves == old(moves) + 1 && selected == -1 && isPlaying &&
                isWon == Solved(tiles[..]) && timerSet == !isWon &&
                highestLevel == if isWon then NextHighest(currentLevel, old(highestLevel))
                                else old(highestLevel)
    {
      if isWon {
        return;
      }
      var target := FindTile(tiles, id);
      if target < 0 {
        // `targetTile` is undefined: reading its field throws before any
        // state is touched
        return;
      }
      if IsLocked(tiles[target]) {
        return;
      }
      if !isPlaying {
        StartTimer();
      }
      if selected == -1 {
        selected := id;
      } else {
        if selected == id {
          selected := -1;
          return;
        }
        SwapWithSelected(id);
      }
    }

    /** The second click of a move (App.jsx lines 119-131): the selected tile
        and tile `id` exchange their slots, the move is counted, the selection
        is cleared and the win is checked. */
    method SwapWithSelected(id: int)
      requires Valid() && !isWon && isPlaying
      requires 0 <= id < tiles.Length && !IsLocked(tiles[id])
      requires selected != -1 && selected != id
      modifies this, tiles
      ensures Valid() && tiles == old(tiles)
      ensures currentLevel == old(currentLevel) && size == old(size) && seconds == old(seconds)
      ensures tiles[..] == SwapPos(old(tiles[..]), old(selected), id)
      ensures moves == old(moves) + 1 && selected == -1 && isPlaying
      ensures isWon == Solved(tiles[..]) && timerSet == !isWon
      ensures highestLevel == if isWon then NextHighest(currentLevel, old(highestLevel))
                              else old(highestLevel)
    {
      var tile1 := FindTile(tiles, selected);
      var tile2 := FindTile(tiles, id);
      SwapCurrentPos(tiles, tile1, tile2);
      SwapKeepsWellFormed(old(tiles[..]), old(selected), id);
      selected := -1;
      moves := moves + 1;
      CheckWin();
    }

    /** The "Restart Level" and "Replay" buttons (App.jsx lines 206 and 271):
        deal the current level afresh. */
    method Restart(draws: seq<int>)
      requires Valid()
      requires |draws| == size * size && ValidDraws(draws)
      modifies this
      ensures Valid() && fresh(tiles)
      ensures currentLevel == old(currentLevel) && size == old(size)
      ensures highestLevel == old(highestLevel)
      ensures tiles[..] == Shuffle(Ordered(size * size), draws)
      ensures moves == 0 && seconds == 0 && !isPlaying && !isWon && selected == -1
    {
      InitLevel(currentLevel, draws);
    }

    /** The "Next Level" button of the win dialog (App.jsx line 272), shown
        only once the level is won. The next level is always unlocked. */
    method NextLevel(draws: seq<int>)
      requires Valid() && isWon
      requires |draws| == (currentLevel + 3) * (currentLevel + 3) && ValidDraws(draws)
      modifies this
      ensures Valid() && fresh(tiles)
      ensures currentLevel == old(currentLevel) + 1 && currentLevel <= highestLevel
      ensures highestLevel == old(highestLevel)
      ensures tiles[..] == Shuffle(Ordered(size * size), draws)
      ensures moves == 0 && seconds == 0 && !isPlaying && !isWon && selected == -1
    {
      InitLevel(currentLevel + 1, draws);
    }

    /** A button of the level grid (App.jsx lines 219-226): levels 1 to 30,
        of which only those up to the highest unlocked level start a game. */
    method SelectLevel(level: int, draws: seq<int>)
      requires Valid() && 1 <= level <= 30
      requires |draws| == (level + 2) * (level + 2) && ValidDraws(draws)
      modifies this
      ensures Valid()
      ensures level > old(highestLevel) ==> unchanged(this)
      ensures level <= old(highestLevel) ==>
                currentLevel == level && currentLevel <= highestLevel &&
                highestLevel == old(highestLevel) && fresh(tiles) &&
                tiles[..] == Shuffle(Ordered(size * size), draws) &&
                moves == 0 && seconds == 0 && !isPlaying && !isWon && selected == -1
    {
      if level <= highestLevel {
        InitLevel(level, draws);
      }
    }
  }
}
