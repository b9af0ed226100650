# Swap puzzle: a verified model of the game logic

SwapPuzzle is a React picture puzzle. A level of number `L` shows a
`(L + 2) × (L + 2)` grid of tiles cut from one image. The tiles are dealt in a
random arrangement. The player clicks one unlocked tile and then another, and
the two tiles exchange their slots. A tile in its own slot is locked and can
no longer be clicked. When every tile is in its own slot the level is won, the
clock stops, and the next level is unlocked.

This project models the game logic of the component in
`puzzle-react/src/App.jsx` and proves its properties in Dafny:

- `Tiles` (`tiles.dfy`) treats the board as a value. It holds the tile record,
  the swap that both a move and a shuffle step perform, and the Fisher-Yates
  pass of `initLevel` as a function of the random draws. It also holds the
  win predicate and the board invariant: tile `i` is the tile with id `i`, and
  the occupied slots are a permutation of `0 .. n-1`. Finally it proves that
  every such board can be solved by legal moves.
- `TimeFormat` (`time_format.dfy`) models `formatTime`. It is built from
  models of `Number.prototype.toString` and `String.prototype.padStart`, and
  the text is proved to read back as the number of seconds.
- `Layout` (`layout.dfy`) models the row and column of a slot, as the board
  computes them when it draws the tiles.
- `Progress` (`progress.dfy`) models the unlocking rule applied on a win.
- `Game` (`game.dfy`) models the component's state as the class `Puzzle`:
  - the `useState` values and `timerRef` become its fields, and the tiles an
    `array<Tile>`;
  - the handlers become methods, each running as one atomic update;
  - `Puzzle.Valid` is the invariant that every handler keeps.

Randomness is a parameter. `Math.floor(Math.random() * (i + 1))` at step `i`
of the shuffle becomes `draws[i]`, any index in `[0, i]`. Every property of a
dealt board is therefore proved for every possible outcome of the random
draws.

The timer is modelled by two fields. `timerSet` records that `timerRef.current`
holds an interval. `liveIntervals` counts intervals registered with
`setInterval` and not yet cleared. `Tick` is one elapsed second, in which
every live interval adds one to `seconds`. The invariant
`liveIntervals == (timerSet ? 1 : 0)` shows that there is never a second tick
stream.

Some details of the code that the model keeps, although a cleaner design might differ:

- `initLevel` accepts any level number, including zero or negative ones. The
  unlock check exists only in the level menu.
- `stopTimer` does not reset `isPlaying`, so after a win `isPlaying` stays
  true. The clock is stopped because the interval is cleared; the flag plays
  no part. The invariant is `timerSet <==> isPlaying && !isWon`.
- A click on an id that no tile has makes `tiles.find` return `undefined`, and
  reading its `currentPos` throws before any state changes. The model treats
  such a click as one that changes nothing.
- `initLevel` does not check whether the shuffle happened to produce a solved
  board. `Valid` therefore requires `isWon ==> Solved`, but not the converse.

## Model

| member | source | states |
|---|---|---|
| Tiles.IsLocked | puzzle-react/src/App.jsx:105 | a tile is locked when its current slot is its own slot, the test that makes a click return early at line 105 and the `isLocked` flag at line 167 |
| Tiles.Solved | puzzle-react/src/App.jsx:87 | the win condition, every tile locked; a solved board whose tiles are in id order is exactly the freshly generated board |
| Tiles.Ordered | puzzle-react/src/App.jsx:53-59 | the board the push loop builds: `n` tiles, tile `i` is `{correctPos: i, currentPos: i}` |
| Tiles.SwapPos | puzzle-react/src/App.jsx:64-66 | exchanges the `currentPos` of exactly two tiles and leaves every other field and every other tile as it was |
| Tiles.SwapPermutes | puzzle-react/src/App.jsx:124-126 | a swap keeps the multiset of occupied slots and the tile order |
| Tiles.SwapKeepsWellFormed | puzzle-react/src/App.jsx:120-130 | a move keeps the board invariant (ids in order, slots a permutation of `0..n-1`) |
| Tiles.ShuffleDown | puzzle-react/src/App.jsx:62-67 | the shuffle loop from slot `i` down to slot 1, exchanging slot `k` with the draw `draws[k]` in `[0, k]`; it keeps the length and every tile's id |
| Tiles.Shuffle | puzzle-react/src/App.jsx:62-67 | the whole shuffle loop, from the last slot down; it keeps the length and every tile's id |
| Tiles.ShuffleDownPermutes | puzzle-react/src/App.jsx:62-67 | for every choice of draws in `[0, i]`, the shuffle from slot `i` down keeps the length, the multiset of occupied slots and the tile ids |
| Tiles.OrderedIsWellFormedAndSolved | puzzle-react/src/App.jsx:53-59 | the freshly generated board (tile `i` in slot `i`) is well formed and solved |
| Tiles.DealtBoardIsWellFormed | puzzle-react/src/App.jsx:53-67 | a dealt board of `n` tiles has `n` tiles, tile `i` has id `i`, and its slots are a permutation of `0..n-1`, whatever the draws |
| Tiles.PositionInRange | puzzle-react/src/App.jsx:62-67 | on a well-formed board every tile occupies a slot in `0..n-1` |
| Tiles.SlotOccupied | puzzle-react/src/App.jsx:62-67 | on a well-formed board every slot holds some tile |
| Tiles.PositionsDistinct | puzzle-react/src/App.jsx:62-67 | on a well-formed board no two tiles share a slot |
| Tiles.UnlockedCount | puzzle-react/src/App.jsx:87 | the number of tiles outside their own slot is at most `n`, and is zero exactly when the board is solved |
| Tiles.FewerUnlocked | puzzle-react/src/App.jsx:105 | a change that keeps locked tiles locked does not raise the unlocked count, and it lowers the count when it locks another tile |
| Tiles.LockingSwap | puzzle-react/src/App.jsx:119-126 | swapping an unlocked tile with the tile in its own slot is a legal move (both unlocked and distinct), locks the first tile and lowers the unlocked count |
| Tiles.FirstUnlocked | puzzle-react/src/App.jsx:87 | on an unsolved board, the first tile that is not in its own slot |
| Tiles.PlayFirst | puzzle-react/src/App.jsx:101-133 | a legal move followed by a legal plan is a legal plan, and its result is the result of the rest on the swapped board |
| Tiles.SolvingPlan | puzzle-react/src/App.jsx:101-133 | every well-formed board, and so every dealt board, is solved by a sequence of legal moves no longer than its number of unlocked tiles |
| TimeFormat.Decimal | puzzle-react/src/App.jsx:136-137 | `toString` of a natural number: a non-empty string of digits without a leading zero that reads back as the number, at most two digits below 100 |
| TimeFormat.PadStart | puzzle-react/src/App.jsx:136-137 | `padStart`: the string grows to the width by copies of the pad character in front, and the original is its suffix |
| TimeFormat.PadZerosKeepsValue | puzzle-react/src/App.jsx:136-137 | padding a digit string with zeros keeps it a digit string of the same value |
| TimeFormat.TwoDigits | puzzle-react/src/App.jsx:136-137 | one field of the display is at least two digits, exactly two below 100, and reads back as the number |
| TimeFormat.ReadBack | puzzle-react/src/App.jsx:138 | joining two fields with `:` puts the colon third from the end, and the parts on each side read back as the two numbers |
| TimeFormat.FormatTimeRoundTrip | puzzle-react/src/App.jsx:135-139 | the display is digits, a colon, then two digits below 60; the minutes times 60 plus the seconds give the total back; it is exactly `mm:ss` below 6000 seconds |
| TimeFormat.FormatTime | puzzle-react/src/App.jsx:135-139 | `formatTime`: the whole minutes and the remaining seconds, each as `toString` padded to two digits, joined by `:`; its properties are `FormatTimeRoundTrip` |
| Layout.Cell | puzzle-react/src/App.jsx:162-165 | row and column of a slot: the column is below the size, `row * size + col == pos`, and a slot of the board lies on one of its rows |
| Layout.CellInjective | puzzle-react/src/App.jsx:162-165 | different slots have different row and column pairs |
| Layout.BoardCellsDistinct | puzzle-react/src/App.jsx:161-165 | on a well-formed board every tile is drawn inside the grid, and no two tiles are drawn in the same cell |
| Progress.NextHighest | puzzle-react/src/App.jsx:93-97 | after a win the highest level never decreases, passes the level just won, and is either unchanged or one past that level |
| Progress.ReplayUnlocksNothing | puzzle-react/src/App.jsx:93-97 | winning the same level a second time unlocks nothing more |
| Progress.WinsAccumulate | puzzle-react/src/App.jsx:93-97 | after two wins in a row the highest level is at least what the first win left and still passes the first level won: a later win never undoes an earlier one |
| Game.FindTile | puzzle-react/src/App.jsx:104 | `find` by id: the index of the first tile with that id, or -1 exactly when no tile has it |
| Game.SwapCurrentPos | puzzle-react/src/App.jsx:124-126 | the in-place exchange of two tiles' slots through a temporary leaves the array equal to `SwapPos` of its old contents |
| Game.Deal | puzzle-react/src/App.jsx:52-68 | the generate-then-shuffle loops produce a fresh array equal to `Shuffle(Ordered(n), draws)` |
| Game.Puzzle.constructor | puzzle-react/src/App.jsx:6-35 | mounting takes the saved highest level if one was stored and starts level 1 on a valid 3×3 board with all counters cleared |
| Game.Puzzle.InitLevel | puzzle-react/src/App.jsx:37-70 | stops the timer, sets the level and `size == level + 2`, resets moves, seconds, flags and selection, and deals `size²` shuffled tiles; the result is `Valid` for every draw |
| Game.Puzzle.StartTimer | puzzle-react/src/App.jsx:72-77 | marks the game as playing and registers one more interval |
| Game.Puzzle.StopTimer | puzzle-react/src/App.jsx:79-84 | clears the held interval if any; afterwards no interval runs |
| Game.Puzzle.Tick | puzzle-react/src/App.jsx:74-75 | one second adds one to `seconds` while the game is played and not won, and nothing otherwise, so a won level's time is frozen |
| Game.Puzzle.CheckWin | puzzle-react/src/App.jsx:86-99 | the level is won exactly when every tile is in its own slot; then the timer stops and the highest level follows `NextHighest`, otherwise nothing changes |
| Game.Puzzle.Ignores | puzzle-react/src/App.jsx:102-105 | the clicks `handleTileClick` returns from early: the level is won, no tile has the id, or the tile is already in its own slot |
| Game.Puzzle.HandleTileClick | puzzle-react/src/App.jsx:101-133 | keeps `Valid`; ignored clicks (won, locked or unknown tile) change nothing; a first click selects and starts the clock; clicking the selection again deselects and changes nothing else; a second tile swaps the two slots, counts exactly one move, clears the selection and checks the win; the highest level never decreases |
| Game.Puzzle.SwapWithSelected | puzzle-react/src/App.jsx:119-131 | the second click of a move: the two tiles exchange slots, exactly one move is counted, the selection is cleared, the level is won exactly when the board is solved, and the timer runs exactly when it is not won |
| Game.Puzzle.Restart | puzzle-react/src/App.jsx:206 | "Restart Level" deals the current level afresh and keeps the highest level |
| Game.Puzzle.NextLevel | puzzle-react/src/App.jsx:272 | "Next Level" on the win dialog starts the next level, which is always unlocked |
| Game.Puzzle.SelectLevel | puzzle-react/src/App.jsx:219-226 | a level button starts that level only when it is unlocked, and changes nothing otherwise |

## Left out

- Rendering (`puzzle-react/src/App.jsx` lines 141-278): the navbar, the modals, the level grid, the settings switch and each tile's style object. This is presentation, and the style strings use floating-point `toFixed`.
- The UI flags `showLevels`, `showSettings` and `showGridLines`, and `imageUrl`, the picsum address computed from the level. None of them affects the game.
- `localStorage`: the read at mount and the write on a new highest level. The stored value enters the constructor as an optional integer. The `parseInt` of text that is not a number, which would give `NaN`, is not modelled.
- Real time: `setInterval` and `clearInterval` become the `timerSet` and `liveIntervals` fields, and the passing of one second becomes an explicit `Tick` call.
- `Math.random`: each draw is a parameter in `[0, i]`. The model says nothing about whether the shuffle is uniform.
- React scheduling: each handler is one atomic update that sees the state left by the previous one. Stale closures and batched updates are not modelled, for example two clicks handled before a re-render that both see `isPlaying == false`.
- Aliasing: `[...tiles]` copies only the array, so the move mutates tile objects that the previous state still shares. The model updates the tile array in place, which has the same observable effect. Separate tile objects with shared identities are not modelled.
- Layout.Cell: only defined for a non-negative slot and a positive size. These are the only values a board built by `initLevel` with a level of at least -1 produces.
- The unmount cleanup at line 34 is the same `stopTimer` as `Game.Puzzle.StopTimer`. It has no member of its own.
- The text after the end of the module (lines 282-284) is not code.
