/**
 * Board geometry of the game: a 10 x 11 grid whose cells are numbered
 * row-major from 0, a fixed set of river cells, and the two players.
 */
module Board {
  const Width: int := 10
  const Height: int := 11
  /** Number of cells on the board (CELLS). */
  const Cells: int := Width * Height

  /** RIVER_CELLS: the water cells in the middle of the board. */
  const RiverCells: seq<int> := [43, 46, 53, 56, 63, 66]

  predicate IsRiver(c: int) {
    c in RiverCells
  }

  predicate OnBoard(c: int) {
    0 <= c < Cells
  }

  /** The river lies in rows 4 to 6, between the two home zones of rows 0 to 3 and rows 7 to 10. */
  lemma RiverBetweenHomeZones(c: int)
    requires IsRiver(c)
    ensures OnBoard(c) && 40 <= c < 70
  {
  }

  /** The two players; the game numbers them 1 and 2 and keys their armies "p1" and "p2". */
  datatype Player = P1 | P2
}
