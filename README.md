# Setup-phase engine of a Stratego-style board game, in Dafny

This project models the setup phase of the browser game in `script.js`.
That phase covers the piece catalog, the layout generator `createInitialPieceLayout`,
the piece table `pieces` with its lookup `getPieceAt`, and the click and
Ready handlers during setup:
`selectPiece`, `handleSetupMove`, `handleReady` and `onCellClick`.
It then proves what those handlers promise.

Modules, in dependency order:

- `Wrappers`: the `Option` datatype.
- `Board`: the 10 x 11 board, the river cells and the two players.
- `Catalog`: the eleven kinds (`mar` ... `prap`), `PIECE_TOTALS`, `ALL_P1_PIECES`, and the
  block of shuffled cells each kind receives.
- `PieceTable`: an army is a map from kind to the cells of its pieces, in slot order.
  - `-1` marks a destroyed piece.
  - `PieceAt` is `getPieceAt`: player 1's army before player 2's, kinds in catalog order
    (the insertion order that `for ... in` follows), and `indexOf` within one kind.
  - `LiveCount` is the score table's filter on line 289.
  - `Store` is one assignment `pieces[pKey][type][arrayIndex] = v`.
- `Layout`: `CreateInitialPieceLayout` is a method with the source's nested loops and running
  `pieceIndex`. It is proved equal to a closed-form layout `LayoutFrom(Shuffled(p, shuffle))`.
  The random-comparator sort is the parameter `shuffle`, an arbitrary permutation of 0..39.
  The generated layout is proved to have:
  - exact per-kind counts;
  - distinct cells;
  - cells inside the home zone and off the river;
  - the whole home zone covered.

  The two players' layouts are proved disjoint.
- `Setup`: the game state (`gameState`, `currentPlayer`, `selectedPiece`, `playersReady`,
  `pieces`) as a value, with each handler as a step function.
  - Lemmas cover every branch of a setup click.
  - The invariants: phase and player agree, the table keeps its shape and its board cells, and
    no two live pieces share a cell.
  - Runs of the game as written keep the first two. Runs with the corrected Ready button
    (`ReadyClearingSelection`) also keep the third; the game as written does not (see Findings).
- `Engine`: class `Game`, whose fields are the game's globals. Its methods `SelectPiece`,
  `HandleSetupMove`, `HandleReady` and `OnCellClick` update the fields in place. Each is proved
  to produce exactly the `Setup` step from the old state. `HandleReady` is also proved to keep
  `Valid()`, and so are `HandleSetupMove` and `OnCellClick` for a click on a board cell.

Three facts about the source that the model keeps as they are:

- The source does not check the home zone or the river on a placement or a swap (`script.js:203-220`).
- The source never arms a Bomb or the Flag, in any phase (`script.js:184-190`).
- The source does not tie the Ready button to a player: it advances whichever setup phase is current (`script.js:235-249`).

## Model

| member | source | states |
|---|---|---|
| Catalog.PosEntry | script.js:28-49 | PIECE_TOTALS (`Total`) and ALL_P1_PIECES (`AllPieces`) agree: entry Pos(k) names kind k with its PIECE_TOTALS count, and no other entry names k |
| Catalog.CatalogOrder | script.js:44-49 | ALL_P1_PIECES lists the kinds in the order `Kinds` gives, each entry at its own kind's position |
| Board.RiverBetweenHomeZones | script.js:19 | every cell of RIVER_CELLS is on the board and lies in rows 4 to 6, cells 40 to 69 |
| Layout.HomeZoneLegal | script.js:52 | the 40 cells from StartIdx(p), 0 for player 1 and 70 for player 2, lie on the board and off the river, and the two zones do not meet |
| Catalog.CatalogSumsToArmySize | script.js:44-49 | the catalog counts add up to the army size of 40 |
| Catalog.OffsetValues | script.js:44-49 | the running totals of the catalog counts, entry by entry |
| Catalog.StartIsOffset | script.js:57-67 | the block kind k receives starts after the counts of every kind before it and ends where the next kind's starts |
| Catalog.BlocksDisjoint | script.js:59-67 | two different kinds receive disjoint blocks of the shuffled cells |
| Catalog.KindAt | script.js:59-67 | every shuffled position 0..39 lies in the block of some kind |
| Catalog.OffsetMonotone | script.js:57-64 | the running `pieceIndex` never decreases from one entry to the next |
| Layout.HomeCells | script.js:53 | the initial index list holds startIdx + i at position i, 40 entries |
| Layout.Permute | script.js:54 | the sorted list holds at position m the element the permutation names |
| Layout.Shuffled | script.js:52-54 | the shuffled list of player p holds StartIdx(p) + shuffle[m] at position m |
| Layout.CreateInitialPieceLayout | script.js:51-69 | the nested loops produce exactly the closed-form layout, and that layout satisfies everything the generator promises |
| Layout.DealtSlot | script.js:59-67 | the closed form `LayoutFrom` of the deal gives slot i of kind k the cell at shuffled position Start(k) + i |
| Layout.DealtShape | script.js:59-67 | the closed form `LayoutFrom` gives every kind exactly its catalog count of cells |
| Layout.DealtRoom | script.js:62 | the `pieceIndex < 40` guard never fails, because every block fits in the 40 cells |
| Layout.DealtNext | script.js:60-66 | dealing one catalog entry's block extends the layout built so far by that kind |
| Layout.DealtExtend | script.js:59-67 | the layout for entries 0..j with entry j's block added is the layout for entries 0..j+1 |
| Layout.DealtAll | script.js:59-68 | the layout after all eleven entries is the full closed-form layout |
| Layout.GeneratedInHomeZone | script.js:52-53 | every generated cell lies in [startIdx, startIdx + 40) and is not a river cell |
| Layout.GeneratedPairDistinct | script.js:53-67 | two different slots of a generated layout hold different cells |
| Layout.ShuffledDistinct | script.js:53-54 | different positions of the shuffled index list hold different cells |
| Layout.GeneratedDistinct | script.js:53-67 | no two slots of a generated layout share a cell |
| Layout.GeneratedCoversHomeZone | script.js:53-67 | every home cell of the player is used by the generated layout |
| Layout.Generated | script.js:51-69 | a generated layout has the exact per-kind counts, stays in the home zone off the river, has distinct cells, and covers the zone |
| Layout.LayoutsDisjoint | script.js:71-74 | the layouts of player 1 and player 2 share no cell |
| PieceTable.Pieces.With | script.js:198 | replacing the army under one player's key leaves the other army as it was |
| PieceTable.IndexOf | script.js:174 | the result is -1 exactly when the value is absent, and otherwise its first position |
| PieceTable.FindIn | script.js:172-179 | the search over kinds returns the first kind in catalog order holding the cell, with the slot that holds it, or nothing when no kind holds it |
| PieceTable.PieceAt | script.js:169-182 | a result names a slot that holds the cell, with its first index; nothing is returned exactly when no slot of either army holds the cell; player 1 is searched first; the earliest kind wins |
| PieceTable.PieceAtSlot | script.js:169-182 | when live pieces have distinct cells, the lookup of a live slot's cell returns exactly that slot |
| PieceTable.OccupiedBySlot | script.js:169-182 | a cell is occupied exactly when some slot of the table holds it |
| PieceTable.LiveCount | script.js:289 | the count is the number of slots not marked -1 (count plus the number of -1 entries is the length), so it equals the length exactly when nothing is destroyed and is 0 exactly when every slot is destroyed |
| PieceTable.FullStrength | script.js:286-290 | on a table of catalog shape whose slots are all board cells, every kind counts its full total |
| PieceTable.Store | script.js:207 | the assignment changes exactly the one slot, keeps every key and array length, and leaves the table as it is for a slot it does not have |
| Setup.ArmSelection | script.js:184-190 | a selection is made exactly when the kind is neither Bomb nor Flag, and it records the given player, kind, cell and slot |
| Setup.SetupMove | script.js:197-228 | a setup click changes neither the phase, the player to act nor the readiness flags, and never the other player's army |
| Setup.Ready | script.js:235-251 | the Ready button leaves the table and the selection alone and never moves the phase backward |
| Setup.ReadyClearingSelection | script.js:235-251 | the corrected Ready button gives the same phase, player to act and readiness flags as Ready and leaves the table alone; it leaves nothing armed when a setup phase ends, and changes nothing in PLAYING |
| Setup.Click | script.js:257-268 | a click changes neither the phase, the player to act nor the readiness flags, and in PLAYING changes nothing at all |
| Setup.ReclickDisarms | script.js:200-201 | a click on the armed cell only clears the selection |
| Setup.MoveToEmptyCell | script.js:203-209 | a click on an empty cell moves the armed piece there; every other slot of both armies is unchanged; the selection is cleared |
| Setup.MoveArmedWrites | script.js:204-208 | the write of the move branch (`MoveArmed`) leaves a Bomb or the Flag where it is, gives any other armed slot the target cell, and keeps every other slot of both armies |
| Setup.SwapWritesTwoSlots | script.js:211-220 | the writes of the swap branch (`SwapArmed`) touch only the armed slot and the clicked slot, even for a selection left over from the other player: the armed slot takes the target, the clicked slot the cell recorded in the selection, and the selection is cleared |
| Setup.SwapWritesExchange | script.js:217-218 | the two writes of a swap trade the cells of the two slots and touch no other slot |
| Setup.ExchangeKeepsOccupied | script.js:211-220 | trading the cells of two slots leaves the same cells occupied |
| Setup.ExchangeKeepsDistinct | script.js:211-220 | trading the cells of two slots keeps live pieces on distinct cells |
| Setup.SwapWithOwnPiece | script.js:211-220 | a click on an own piece with another armed exchanges their two slots, leaves every other slot and the set of occupied cells unchanged, and clears the selection |
| Setup.OpponentPieceIgnored | script.js:200-225 | a click on an opponent's piece with a piece armed changes nothing |
| Setup.IdleClickIgnored | script.js:200-225 | with nothing armed, a click on an empty cell or an opponent's piece changes nothing |
| Setup.IdleOrIgnored | script.js:200-225 | a click that matches none of the four branches changes nothing |
| Setup.ArmOwnPiece | script.js:222-225 | with nothing armed, a click on an own piece arms exactly that piece, unless it is a Bomb or the Flag, and leaves the table alone |
| Setup.NeverArmsImmovable | script.js:184-225 | a setup click never leaves a Bomb or the Flag armed |
| Setup.StoreKeepsTableOk | script.js:207 | writing a board cell into a slot keeps the catalog shape and keeps every slot on the board |
| Setup.StoreFreeCellKeepsDistinct | script.js:203-209 | moving a piece onto an unoccupied cell keeps live pieces on distinct cells |
| Setup.SetupMoveKeepsConsistent | script.js:197-228 | a setup click on a board cell keeps the table's shape, keeps it on the board, and keeps the selection in range |
| Setup.SetupMoveKeepsInv | script.js:197-228 | a setup click by the player to act keeps every branch free of double occupancy, as long as the armed piece is that player's own and current |
| Setup.ReadyKeepsConsistent | script.js:235-251 | the Ready button keeps the phase, the player to act and the readiness flags in agreement |
| Setup.ReadyClearingKeepsInv | script.js:235-251 | the corrected Ready button keeps the full invariant |
| Setup.ReadyTransitions | script.js:235-249 | SETUP_P1 becomes SETUP_P2 with player 2 to act and player 1 ready; SETUP_P2 becomes PLAYING with player 1 to act and player 2 ready; PLAYING is unchanged |
| Setup.ClickDispatch | script.js:261-264 | a click is a setup move by player 1 in SETUP_P1 and by player 2 in SETUP_P2 when that player is to act, and nothing otherwise |
| Setup.ClickKeepsConsistent | script.js:257-268 | a click on a board cell keeps the state consistent |
| Setup.ClickKeepsInv | script.js:257-268 | a click on a board cell keeps the invariant of the corrected game |
| Setup.InitialLayouts | script.js:71-74 | in the start state `Initial`, each player's army is a layout with every property the generator promises |
| Setup.InitialInv | script.js:13-17 | the start state `Initial` has the phase SETUP_P1 with player 1 to act, nothing armed, nobody ready, and two generated layouts with no shared cell |
| Setup.RunKeepsConsistent | script.js:235-268 | in the game as written, every run of clicks and Ready presses keeps the phase SETUP_P1/SETUP_P2/PLAYING tied to player 1/2/1, the catalog shape and the board cells |
| Setup.FixedRunKeepsInv | script.js:235-268 | in the corrected game, every run keeps live pieces on distinct cells as well |
| Setup.RunPhaseMonotone | script.js:235-249 | the phase never moves backward over any run |
| Setup.FullStrengthThroughout | script.js:289 | setup never destroys a piece: every kind shows its full count in the score table |
| Setup.StaleArmed | script.js:235-251 | after player 1 arms the Marshal and presses Ready, the Marshal is still armed in player 2's setup |
| Setup.StaleSelectionDoubleOccupies | script.js:211-251 | in the game as written, arming the Marshal, pressing Ready and clicking player 2's General writes player 1's Marshal cell into player 2's General slot, so two live pieces share one cell, and moves player 2's Marshal onto the General's old cell |
| Setup.InitialShowsStaleSelection | script.js:71-74 | the generated start state is a state from which that run can be played |
| Setup.FixedGameNeverDoubleOccupies | script.js:235-268 | in the corrected game, no run from the generated start ever puts two live pieces on one cell |
| Engine.Game.constructor | script.js:71-74 | the initial globals equal the start state and satisfy the invariant |
| Engine.Game.SelectPiece | script.js:184-190 | the selection becomes the piece, or nothing for a Bomb or the Flag; nothing else changes |
| Engine.Game.HandleSetupMove | script.js:197-228 | the in-place updates produce exactly the setup step from the old state and keep the state consistent |
| Engine.Game.HandleReady | script.js:235-251 | the in-place updates produce exactly the Ready step and keep the state consistent |
| Engine.Game.OnCellClick | script.js:257-268 | the click handler performs exactly the click step and keeps the state consistent |

## Left out

- Rendering and the DOM are not modelled, because they have no game logic:
  - board construction (`script.js:81-93`), `createPieceElement` and `draw`;
  - the DOM half of `updateScoreTables`, the button text and disabling, the colour classes, and `console.log`.
- PIECE_NAMES and ICON_MAP are not modelled; they only label and draw pieces.
- The shuffle is not modelled as randomness. `Math.random` and the comparator sort are replaced by the `shuffle` input, which can be any permutation of 0..39. Nothing is claimed about how likely each permutation is, and a random-comparator sort is not uniform.
- Event-listener wiring and reading `dataset.index` are not modelled. A click is given as its cell number, and the run lemmas take clicks on board cells.
- Moves, combat and synchronisation in PLAYING are not modelled. The source only logs a message there (`script.js:266`), so nothing is invented for that phase. There is no GameOver phase in the source either.
- Player numbers 1 and 2 are the datatype `Player`, and the keys "p1" and "p2" are the two fields of `Pieces`.
- PieceTable.Store: writing to a slot the table does not have leaves the table unchanged. JavaScript would lengthen the array or throw on a missing kind. Under the invariants this cannot happen, because every armed or looked-up slot exists.
- Setup.SetupMoveKeepsInv: requires the armed piece to belong to the player to act, with its cell current. This holds in the corrected game but not in the game as written; see Findings.

## Findings

| source | as written | input that shows it | evidently intended | confidence | as-written member | corrected member |
|---|---|---|---|---|---|---|
| script.js:235-251 | `handleReady` ends a setup phase without clearing `selectedPiece`, so a piece armed by player 1 stays armed into player 2's setup, where the swap branch (`script.js:211-220`) writes its cell into player 2's table | player 1 clicks their Marshal, presses Ready, then player 2 clicks their own General: player 2's General now stands on player 1's Marshal cell, so two live pieces share one cell; player 2's Marshal moves onto the General's old cell, and the Marshal's old cell is left empty | ending a setup phase leaves nothing armed, so no click can write another player's cell | not executed | Setup.StaleSelectionDoubleOccupies | Setup.FixedRunKeepsInv |
