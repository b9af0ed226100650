/** Where the board draws a tile (App.jsx lines 162-165): the row and column
    of its current slot give its place on the board, those of its own slot
    give the part of the picture it shows. */
module Layout {
  import opened Tiles

  /** Row `Math.floor(pos / SIZE)` and column `pos % SIZE` of a slot. For a
      non-negative slot and a positive size JavaScript's floor division and
      remainder agree with Dafny's `/` and `%`. The pair is the unique row and
      column with `row * size + col == pos` and `col < size`, and a slot of the
      board lies on one of its `size` rows. */
  function Cell(pos: int, size: int): (rc: (int, int))
    requires 0 <= pos && 0 < size
    ensures 0 <= rc.0 && 0 <= rc.1 < size
    ensures rc.0 * size + rc.1 == pos
    ensures pos < size * size ==> rc.0 < size
  {
    (pos / size, pos % size)
  }

  /** Different slots lie in different cells. */
  lemma CellInjective(p: int, q: int, size: int)
    requires 0 <= p && 0 <= q && 0 < size
    requires Cell(p, size) == Cell(q, size)
    ensures p == q
  {
  }

  /** On a well-formed board of `size * size` tiles every tile is drawn in a
      cell of the grid, and no two tiles are drawn in the same cell. */
  lemma BoardCellsDistinct(ts: seq<Tile>, size: int)
    requires WellFormed(ts) && 0 < size && |ts| == size * size
    ensures forall i :: 0 <= i < |ts| ==>
              0 <= ts[i].currentPos &&
              0 <= Cell(ts[i].currentPos, size).0 < size && 0 <= Cell(ts[i].currentPos, size).1 < size
    ensures forall i, j :: 0 <= i < |ts| && 0 <= j < |ts| && i != j ==>
              0 <= ts[i].currentPos && 0 <= ts[j].currentPos &&
              Cell(ts[i].currentPos, size) != Cell(ts[j].currentPos, size)
  {
    forall i | 0 <= i < |ts|
      ensures 0 <= ts[i].currentPos < |ts|
    {
      PositionInRange(ts, i);
    }
    forall i, j | 0 <= i < |ts| && 0 <= j < |ts| && i != j
      ensures Cell(ts[i].currentPos, size) != Cell(ts[j].currentPos, size)
    {
      PositionsDistinct(ts, i, j);
      if Cell(ts[i].currentPos, size) == Cell(ts[j].currentPos, size) {
        CellInjective(ts[i].currentPos, ts[j].currentPos, size);
      }
    }
  }
}
