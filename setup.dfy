/**
 * The setup-phase state machine as functions on the game state: arming a
 * piece, a click on a cell during setup, the Ready button and the click
 * dispatch. The class Engine.Game performs these same steps in place.
 */
module Setup {
  import opened Wrappers
  import opened Board
  import opened Catalog
  import opened PieceTable
  import opened Layout

  /** gameState: SETUP_P1, SETUP_P2 or PLAYING. */
  datatype Phase = SetupP1 | SetupP2 | Playing

  /** The position of a phase in the order SETUP_P1, SETUP_P2, PLAYING. */
  function Rank(ph: Phase): nat {
    match ph
    case SetupP1 => 0
    case SetupP2 => 1
    case Playing => 2
  }

  /** The game's globals: gameState, currentPlayer, selectedPiece, playersReady.p1/p2 and pieces. */
  datatype State = State(
    phase: Phase,
    current: Player,
    selection: Option<PieceRef>,
    p1Ready: bool,
    p2Ready: bool,
    pieces: Pieces)

  /** The state once the page has loaded: both armies generated, player 1 setting up, nothing armed. */
  function Initial(shuffle1: seq<int>, shuffle2: seq<int>): State
    requires IsPermutation(shuffle1, ArmySize) && IsPermutation(shuffle2, ArmySize)
  {
    State(SetupP1, P1, None, false, false,
      Pieces(LayoutFrom(Shuffled(P1, shuffle1)), LayoutFrom(Shuffled(P2, shuffle2))))
  }

  /** selectPiece: the selection left by arming the given piece; Bomb and Flag leave none. */
  function ArmSelection(player: Player, kind: Kind, index: int, arrayIndex: nat): (r: Option<PieceRef>)
    ensures r.Some? <==> Movable(kind)
    ensures r.Some? ==> r.value == PieceRef(player, kind, index, arrayIndex)
  {
    if kind == Bmb || kind == Prap then None
    else Some(PieceRef(player, kind, index, arrayIndex))
  }

  /** The write of the move branch: the armed slot of `player` gets `target`, unless the armed kind is a Bomb or the Flag. */
  function MoveArmed(ps: Pieces, player: Player, sel: PieceRef, target: int): Pieces {
    if sel.kind != Bmb && sel.kind != Prap then Store(ps, Slot(player, sel.kind, sel.arrayIndex), target)
    else ps
  }

  /** The two writes of the swap branch: the clicked slot gets the armed cell, then the armed slot gets `target`. */
  function SwapArmed(ps: Pieces, player: Player, sel: PieceRef, t: PieceRef, target: int): Pieces {
    Store(Store(ps, Slot(player, t.kind, t.arrayIndex), sel.index), Slot(player, sel.kind, sel.arrayIndex), target)
  }

  /**
   * handleSetupMove: player `player` clicks cell `target`. With a piece armed,
   * a click on the armed cell disarms it, a click on an empty cell moves the
   * armed piece there, and a click on one of the player's own pieces swaps the
   * two. With nothing armed, a click on an own piece arms it. Writes go to the
   * army of `player` only, and only the table and the selection can change.
   */
  function SetupMove(s: State, target: int, player: Player): (r: State)
    ensures r.phase == s.phase && r.current == s.current
    ensures r.p1Ready == s.p1Ready && r.p2Ready == s.p2Ready
    ensures forall q :: q != player ==> r.pieces.Of(q) == s.pieces.Of(q)
  {
    var targetPiece := PieceAt(s.pieces, target);
    if s.selection.Some? && s.selection.value.index == target then
      s.(selection := None)
    else if s.selection.Some? && targetPiece.None? then
      s.(pieces := MoveArmed(s.pieces, player, s.selection.value, target), selection := None)
    else if s.selection.Some? && targetPiece.Some? && targetPiece.value.player == player then
      s.(pieces := SwapArmed(s.pieces, player, s.selection.value, targetPiece.value, target), selection := None)
    else if targetPiece.Some? && targetPiece.value.player == player then
      var info := PieceAt(s.pieces, target).value;
      s.(selection := ArmSelection(player, info.kind, info.index, info.arrayIndex))
    else
      s
  }

  /** handleReady: the Ready button. */
  function Ready(s: State): (r: State)
    ensures r.pieces == s.pieces && r.selection == s.selection
    ensures Rank(r.phase) >= Rank(s.phase)
  {
    if s.phase == SetupP1 then s.(p1Ready := true, phase := SetupP2, current := P2)
    else if s.phase == SetupP2 then s.(p2Ready := true, phase := Playing, current := P1)
    else s
  }

  /** The Ready button as evidently intended: as Ready, but a piece armed during one player's setup does not stay armed. */
  function ReadyClearingSelection(s: State): (r: State)
    ensures r.pieces == s.pieces && r.phase == Ready(s).phase && r.current == Ready(s).current
    ensures r.p1Ready == Ready(s).p1Ready && r.p2Ready == Ready(s).p2Ready
    ensures s.phase != Playing ==> r.selection.None?
    ensures s.phase == Playing ==> r == s
  {
    if s.phase == Playing then s else Ready(s).(selection := None)
  }

  /** onCellClick: a click is handled as a setup move only by the player whose setup phase it is. */
  function Click(s: State, index: int): (r: State)
    ensures r.phase == s.phase && r.current == s.current
    ensures r.p1Ready == s.p1Ready && r.p2Ready == s.p2Ready
    ensures s.phase == Playing ==> r == s
  {
    if s.phase == SetupP1 && s.current == P1 then SetupMove(s, index, P1)
    else if s.phase == SetupP2 && s.current == P2 then SetupMove(s, index, P2)
    else s
  }

  // ---------------------------------------------------------------------
  // Invariants
  // ---------------------------------------------------------------------

  /** The phase fixes who is to act and who has pressed Ready. */
  ghost predicate PhaseConsistent(s: State) {
    match s.phase
    case SetupP1 => s.current == P1 && !s.p1Ready && !s.p2Ready
    case SetupP2 => s.current == P2 && s.p1Ready && !s.p2Ready
    case Playing => s.current == P1 && s.p1Ready && s.p2Ready
  }

  /** A selection names a board cell and a slot index its kind has. */
  ghost predicate SelectionInRange(s: State) {
    s.selection.Some? ==> OnBoard(s.selection.value.index) && s.selection.value.arrayIndex < Total(s.selection.value.kind)
  }

  /** Both armies have their catalog shape and every slot holds a board cell. */
  ghost predicate TableOk(ps: Pieces) {
    Shaped(ps.p1) && Shaped(ps.p2) && AllOnBoard(ps)
  }

  /** What every reachable state satisfies, in the game as written. */
  ghost predicate Consistent(s: State) {
    PhaseConsistent(s) && TableOk(s.pieces) && SelectionInRange(s)
  }

  /** The armed piece belongs to the player to act, is movable, and its slot holds the armed cell. */
  ghost predicate SelectionFresh(s: State) {
    s.selection.Some? ==>
      var sel := s.selection.value;
      && sel.player == s.current
      && Movable(sel.kind)
      && ValidSlot(s.pieces, SlotOf(sel))
      && CellOf(s.pieces, SlotOf(sel)) == sel.index
  }

  /** What every reachable state satisfies once the Ready button clears the selection. */
  ghost predicate Inv(s: State) {
    Consistent(s) && DistinctLive(s.pieces) && SelectionFresh(s)
  }

  // ---------------------------------------------------------------------
  // The branches of a setup click
  // ---------------------------------------------------------------------

  /** A click on the armed cell only disarms. */
  lemma ReclickDisarms(s: State, target: int, player: Player)
    requires s.selection.Some? && s.selection.value.index == target
    ensures SetupMove(s, target, player) == s.(selection := None)
  {
  }

  /**
   * A click on an empty cell with a piece armed moves that piece there: the
   * armed slot of `player` now holds `target`, every other slot of both armies
   * holds what it held, and the selection is cleared. Nothing checks the home
   * zone or the river.
   */
  lemma MoveToEmptyCell(s: State, target: int, player: Player)
    requires s.selection.Some? && s.selection.value.index != target
    requires Movable(s.selection.value.kind)
    requires !Occupied(s.pieces, target)
    requires ValidSlot(s.pieces, Slot(player, s.selection.value.kind, s.selection.value.arrayIndex))
    ensures var r := SetupMove(s, target, player);
      var moved := Slot(player, s.selection.value.kind, s.selection.value.arrayIndex);
      && r.selection.None?
      && (forall sl :: ValidSlot(r.pieces, sl) <==> ValidSlot(s.pieces, sl))
      && CellOf(r.pieces, moved) == target
      && (forall sl :: ValidSlot(s.pieces, sl) && sl != moved ==> CellOf(r.pieces, sl) == CellOf(s.pieces, sl))
  {
    assert SetupMove(s, target, player).pieces == MoveArmed(s.pieces, player, s.selection.value, target);
  }

  /**
   * The write of the move branch changes at most the armed slot: a Bomb or the
   * Flag stays where it is, any other armed piece takes `target`, and every
   * other slot of both armies keeps its cell.
   */
  lemma MoveArmedWrites(ps: Pieces, player: Player, sel: PieceRef, target: int)
    ensures var r := MoveArmed(ps, player, sel, target);
      var armed := Slot(player, sel.kind, sel.arrayIndex);
      && (forall sl :: ValidSlot(r, sl) <==> ValidSlot(ps, sl))
      && (!Movable(sel.kind) ==> r == ps)
      && (Movable(sel.kind) && ValidSlot(ps, armed) ==> CellOf(r, armed) == target)
      && (forall sl :: ValidSlot(ps, sl) && sl != armed ==> CellOf(r, sl) == CellOf(ps, sl))
  {
  }

  /**
   * The swap branch writes two slots of `player`'s army and no other, whatever
   * the selection holds: the clicked slot gets the armed cell recorded in the
   * selection, then the armed slot gets `target`.
   */
  lemma SwapWritesTwoSlots(s: State, target: int, player: Player)
    requires s.selection.Some? && s.selection.value.index != target
    requires PieceAt(s.pieces, target).Some? && PieceAt(s.pieces, target).value.player == player
    ensures var r := SetupMove(s, target, player);
      var armed := Slot(player, s.selection.value.kind, s.selection.value.arrayIndex);
      var hit := SlotOf(PieceAt(s.pieces, target).value);
      && r.selection.None?
      && (forall sl :: ValidSlot(r.pieces, sl) <==> ValidSlot(s.pieces, sl))
      && (ValidSlot(s.pieces, armed) ==> CellOf(r.pieces, armed) == target)
      && ValidSlot(s.pieces, hit)
      && (hit != armed ==> CellOf(r.pieces, hit) == s.selection.value.index)
      && (forall sl :: ValidSlot(s.pieces, sl) && sl != armed && sl != hit ==> CellOf(r.pieces, sl) == CellOf(s.pieces, sl))
  {
    var sel, t := s.selection.value, PieceAt(s.pieces, target).value;
    assert SetupMove(s, target, player).pieces == SwapArmed(s.pieces, player, sel, t, target);
  }

  /** The slot `x` when slots `a` and `b` trade places. */
  function Exchange(x: Slot, a: Slot, b: Slot): Slot {
    if x == a then b else if x == b then a else x
  }

  /** The two writes of a swap trade the cells of the two slots and touch no other slot. */
  lemma SwapWritesExchange(ps: Pieces, armed: Slot, hit: Slot, target: int)
    requires ValidSlot(ps, armed) && ValidSlot(ps, hit)
    requires CellOf(ps, hit) == target && CellOf(ps, armed) != target
    ensures var r := Store(Store(ps, hit, CellOf(ps, armed)), armed, target);
      && (forall sl :: ValidSlot(r, sl) <==> ValidSlot(ps, sl))
      && (forall sl :: ValidSlot(ps, sl) ==> CellOf(r, sl) == CellOf(ps, Exchange(sl, armed, hit)))
  {
    var r1 := Store(ps, hit, CellOf(ps, armed));
    var r := Store(r1, armed, target);
    forall sl | ValidSlot(ps, sl) ensures CellOf(r, sl) == CellOf(ps, Exchange(sl, armed, hit)) {
      if sl != armed {
        assert CellOf(r, sl) == CellOf(r1, sl);
      }
    }
  }

  /** Trading the cells of two slots leaves the same cells occupied. */
  lemma ExchangeKeepsOccupied(ps: Pieces, r: Pieces, x: Slot, y: Slot, c: int)
    requires ValidSlot(ps, x) && ValidSlot(ps, y)
    requires forall sl :: ValidSlot(r, sl) <==> ValidSlot(ps, sl)
    requires forall sl :: ValidSlot(ps, sl) ==> CellOf(r, sl) == CellOf(ps, Exchange(sl, x, y))
    ensures Occupied(r, c) <==> Occupied(ps, c)
  {
    OccupiedBySlot(r, c);
    OccupiedBySlot(ps, c);
    if exists sl :: ValidSlot(ps, sl) && CellOf(ps, sl) == c {
      var sl :| ValidSlot(ps, sl) && CellOf(ps, sl) == c;
      assert CellOf(r, Exchange(sl, x, y)) == c;
    }
    if exists sl :: ValidSlot(r, sl) && CellOf(r, sl) == c {
      var sl :| ValidSlot(r, sl) && CellOf(r, sl) == c;
      assert CellOf(ps, Exchange(sl, x, y)) == c;
    }
  }

  /** Trading the cells of two slots keeps live pieces on distinct cells. */
  lemma ExchangeKeepsDistinct(ps: Pieces, r: Pieces, x: Slot, y: Slot)
    requires DistinctLive(ps) && ValidSlot(ps, x) && ValidSlot(ps, y)
    requires forall sl :: ValidSlot(r, sl) <==> ValidSlot(ps, sl)
    requires forall sl :: ValidSlot(ps, sl) ==> CellOf(r, sl) == CellOf(ps, Exchange(sl, x, y))
    ensures DistinctLive(r)
  {
    forall a, b | ValidSlot(r, a) && ValidSlot(r, b) && a != b && CellOf(r, a) != Destroyed
      ensures CellOf(r, a) != CellOf(r, b)
    {
      assert Exchange(a, x, y) != Exchange(b, x, y);
    }
  }

  /**
   * A click on one of the player's own pieces with another of them armed
   * swaps the two: each slot now holds the other's cell, every other slot of
   * both armies holds what it held, the set of occupied cells is the same,
   * and the selection is cleared.
   */
  lemma SwapWithOwnPiece(s: State, target: int, player: Player)
    requires s.selection.Some? && s.selection.value.index != target
    requires PieceAt(s.pieces, target).Some? && PieceAt(s.pieces, target).value.player == player
    requires ValidSlot(s.pieces, Slot(player, s.selection.value.kind, s.selection.value.arrayIndex))
    requires CellOf(s.pieces, Slot(player, s.selection.value.kind, s.selection.value.arrayIndex)) == s.selection.value.index
    ensures var r := SetupMove(s, target, player);
      var armed := Slot(player, s.selection.value.kind, s.selection.value.arrayIndex);
      var hit := SlotOf(PieceAt(s.pieces, target).value);
      && r.selection.None?
      && (forall sl :: ValidSlot(r.pieces, sl) <==> ValidSlot(s.pieces, sl))
      && (forall sl :: ValidSlot(s.pieces, sl) ==> CellOf(r.pieces, sl) == CellOf(s.pieces, Exchange(sl, armed, hit)))
      && (forall c :: Occupied(r.pieces, c) <==> Occupied(s.pieces, c))
  {
    var sel := s.selection.value;
    var t := PieceAt(s.pieces, target).value;
    var armed, hit := Slot(player, sel.kind, sel.arrayIndex), SlotOf(t);
    var r := SetupMove(s, target, player);
    assert r.pieces == SwapArmed(s.pieces, player, sel, t, target);
    assert ValidSlot(s.pieces, hit) && CellOf(s.pieces, hit) == target;
    SwapWritesExchange(s.pieces, armed, hit, target);
    forall c ensures Occupied(r.pieces, c) <==> Occupied(s.pieces, c) {
      ExchangeKeepsOccupied(s.pieces, r.pieces, armed, hit, c);
    }
  }

  /** A click on an opponent's piece with a piece armed matches no branch: nothing changes. */
  lemma OpponentPieceIgnored(s: State, target: int, player: Player)
    requires s.selection.Some? && s.selection.value.index != target
    requires PieceAt(s.pieces, target).Some? && PieceAt(s.pieces, target).value.player != player
    ensures SetupMove(s, target, player) == s
  {
  }

  /** With nothing armed, a click on an empty cell or on an opponent's piece changes nothing. */
  lemma IdleClickIgnored(s: State, target: int, player: Player)
    requires s.selection.None?
    requires PieceAt(s.pieces, target).None? || PieceAt(s.pieces, target).value.player != player
    ensures SetupMove(s, target, player) == s
  {
  }

  /** With nothing armed, a click on an own piece arms it, unless it is a Bomb or the Flag; the table is untouched. */
  lemma ArmOwnPiece(s: State, target: int, player: Player)
    requires s.selection.None?
    requires PieceAt(s.pieces, target).Some? && PieceAt(s.pieces, target).value.player == player
    ensures var r := SetupMove(s, target, player);
      var t := PieceAt(s.pieces, target).value;
      && r.pieces == s.pieces
      && (r.selection.Some? <==> Movable(t.kind))
      && (r.selection.Some? ==> r.selection.value == PieceRef(player, t.kind, target, t.arrayIndex))
      && (r.selection.Some? ==> ValidSlot(s.pieces, SlotOf(r.selection.value)) && CellOf(s.pieces, SlotOf(r.selection.value)) == target)
  {
  }

  /** A setup click never arms a Bomb or the Flag. */
  lemma NeverArmsImmovable(s: State, target: int, player: Player)
    requires s.selection.None? || Movable(s.selection.value.kind)
    ensures var r := SetupMove(s, target, player);
      r.selection.Some? ==> Movable(r.selection.value.kind)
  {
  }

  // ---------------------------------------------------------------------
  // Invariant preservation
  // ---------------------------------------------------------------------

  /** Writing a board cell into one slot keeps the table's shape and keeps it on the board. */
  lemma StoreKeepsTableOk(ps: Pieces, sl: Slot, v: int)
    requires TableOk(ps) && OnBoard(v)
    ensures TableOk(Store(ps, sl, v))
  {
    var r := Store(ps, sl, v);
    assert Shaped(ps.Of(P1)) && Shaped(ps.Of(P2));
    assert Shaped(r.Of(P1)) && Shaped(r.Of(P2));
    forall x | ValidSlot(r, x) ensures OnBoard(CellOf(r, x)) {
      assert ValidSlot(ps, x);
    }
  }

  /** Storing a cell no piece holds into one slot keeps live pieces on distinct cells. */
  lemma StoreFreeCellKeepsDistinct(ps: Pieces, sl: Slot, target: int)
    requires DistinctLive(ps) && ValidSlot(ps, sl) && !Occupied(ps, target)
    ensures DistinctLive(Store(ps, sl, target))
  {
    var r := Store(ps, sl, target);
    OccupiedBySlot(ps, target);
    forall a, b | ValidSlot(r, a) && ValidSlot(r, b) && a != b && CellOf(r, a) != Destroyed
      ensures CellOf(r, a) != CellOf(r, b)
    {
      if a == sl {
        assert CellOf(r, b) == CellOf(ps, b);
      } else if b == sl {
        assert CellOf(r, a) == CellOf(ps, a);
      } else {
        assert CellOf(r, a) == CellOf(ps, a) && CellOf(r, b) == CellOf(ps, b);
      }
    }
  }

  /** A setup click on a board cell keeps the state consistent. */
  lemma SetupMoveKeepsConsistent(s: State, target: int, player: Player)
    requires Consistent(s) && OnBoard(target)
    ensures Consistent(SetupMove(s, target, player))
  {
    var t := PieceAt(s.pieces, target);
    if s.selection.Some? && s.selection.value.index == target {
    } else if s.selection.Some? && t.None? {
      var sel := s.selection.value;
      StoreKeepsTableOk(s.pieces, Slot(player, sel.kind, sel.arrayIndex), target);
      assert SetupMove(s, target, player).pieces == MoveArmed(s.pieces, player, sel, target);
    } else if s.selection.Some? && t.Some? && t.value.player == player {
      var sel := s.selection.value;
      var ps1 := Store(s.pieces, Slot(player, t.value.kind, t.value.arrayIndex), sel.index);
      StoreKeepsTableOk(s.pieces, Slot(player, t.value.kind, t.value.arrayIndex), sel.index);
      StoreKeepsTableOk(ps1, Slot(player, sel.kind, sel.arrayIndex), target);
      assert SetupMove(s, target, player).pieces == SwapArmed(s.pieces, player, sel, t.value, target);
    } else if t.Some? && t.value.player == player {
      assert Shaped(s.pieces.Of(player));
      ArmOwnPiece(s, target, player);
    } else {
      IdleOrIgnored(s, target, player);
    }
  }

  /** The clicks that match no branch of a setup move. */
  lemma IdleOrIgnored(s: State, target: int, player: Player)
    requires !(s.selection.Some? && s.selection.value.index == target)
    requires !(s.selection.Some? && PieceAt(s.pieces, target).None?)
    requires !(PieceAt(s.pieces, target).Some? && PieceAt(s.pieces, target).value.player == player)
    ensures SetupMove(s, target, player) == s
  {
  }

  /** A setup click by the player to act keeps the invariant of the corrected game. */
  lemma SetupMoveKeepsInv(s: State, target: int, player: Player)
    requires Inv(s) && OnBoard(target) && player == s.current
    ensures Inv(SetupMove(s, target, player))
  {
    SetupMoveKeepsConsistent(s, target, player);
    var t := PieceAt(s.pieces, target);
    if s.selection.Some? && s.selection.value.index == target {
      ReclickDisarms(s, target, player);
    } else if s.selection.Some? && t.None? {
      var sel := s.selection.value;
      StoreFreeCellKeepsDistinct(s.pieces, Slot(player, sel.kind, sel.arrayIndex), target);
      assert SetupMove(s, target, player).pieces == MoveArmed(s.pieces, player, sel, target);
    } else if s.selection.Some? && t.Some? && t.value.player == player {
      SwapWithOwnPiece(s, target, player);
      var sel := s.selection.value;
      ExchangeKeepsDistinct(s.pieces, SetupMove(s, target, player).pieces, Slot(player, sel.kind, sel.arrayIndex), SlotOf(t.value));
    } else if t.Some? && t.value.player == player {
      ArmOwnPiece(s, target, player);
    } else {
      IdleOrIgnored(s, target, player);
    }
  }

  /** The Ready button keeps the state consistent. */
  lemma ReadyKeepsConsistent(s: State)
    requires Consistent(s)
    ensures Consistent(Ready(s))
  {
  }

  /** The corrected Ready button keeps the invariant. */
  lemma ReadyClearingKeepsInv(s: State)
    requires Inv(s)
    ensures Inv(ReadyClearingSelection(s))
  {
  }

  /**
   * The Ready button: SETUP_P1 becomes SETUP_P2 with player 2 to act and
   * player 1 ready; SETUP_P2 becomes PLAYING with player 1 to act and player 2
   * ready; in PLAYING nothing changes.
   */
  lemma ReadyTransitions(s: State)
    ensures s.phase == SetupP1 ==> Ready(s) == s.(phase := SetupP2, current := P2, p1Ready := true)
    ensures s.phase == SetupP2 ==> Ready(s) == s.(phase := Playing, current := P1, p2Ready := true)
    ensures s.phase == Playing ==> Ready(s) == s
  {
  }

  /** A click is a setup move of the player whose setup it is, and nothing otherwise. */
  lemma ClickDispatch(s: State, index: int)
    ensures s.phase == SetupP1 && s.current == P1 ==> Click(s, index) == SetupMove(s, index, P1)
    ensures s.phase == SetupP2 && s.current == P2 ==> Click(s, index) == SetupMove(s, index, P2)
    ensures !(s.phase == SetupP1 && s.current == P1) && !(s.phase == SetupP2 && s.current == P2) ==> Click(s, index) == s
  {
  }

  /** A click on a board cell keeps the state consistent. */
  lemma ClickKeepsConsistent(s: State, index: int)
    requires Consistent(s) && OnBoard(index)
    ensures Consistent(Click(s, index))
  {
    if s.phase == SetupP1 && s.current == P1 {
      SetupMoveKeepsConsistent(s, index, P1);
    } else if s.phase == SetupP2 && s.current == P2 {
      SetupMoveKeepsConsistent(s, index, P2);
    }
  }

  /** A click on a board cell keeps the invariant of the corrected game. */
  lemma ClickKeepsInv(s: State, index: int)
    requires Inv(s) && OnBoard(index)
    ensures Inv(Click(s, index))
  {
    if s.phase == SetupP1 && s.current == P1 {
      SetupMoveKeepsInv(s, index, P1);
    } else if s.phase == SetupP2 && s.current == P2 {
      SetupMoveKeepsInv(s, index, P2);
    }
  }

  // ---------------------------------------------------------------------
  // Runs of events
  // ---------------------------------------------------------------------

  /** What the user can do: click a cell, or press Ready. */
  datatype Event = CellClicked(cell: int) | ReadyPressed

  /** Clicks land on board cells (the board has no other cells to click). */
  ghost predicate OnBoardEvents(es: seq<Event>) {
    forall i :: 0 <= i < |es| && es[i].CellClicked? ==> OnBoard(es[i].cell)
  }

  function Step(s: State, e: Event): State {
    match e
    case CellClicked(c) => Click(s, c)
    case ReadyPressed => Ready(s)
  }

  /** A step of the corrected game. */
  function StepFixed(s: State, e: Event): State {
    match e
    case CellClicked(c) => Click(s, c)
    case ReadyPressed => ReadyClearingSelection(s)
  }

  function Run(s: State, es: seq<Event>): State
    decreases |es|
  {
    if es == [] then s else Run(Step(s, es[0]), es[1..])
  }

  function RunFixed(s: State, es: seq<Event>): State
    decreases |es|
  {
    if es == [] then s else RunFixed(StepFixed(s, es[0]), es[1..])
  }

  /** The generated starting state satisfies the invariant. */
  lemma InitialInv(shuffle1: seq<int>, shuffle2: seq<int>)
    requires IsPermutation(shuffle1, ArmySize) && IsPermutation(shuffle2, ArmySize)
    ensures Inv(Initial(shuffle1, shuffle2))
  {
    var s := Initial(shuffle1, shuffle2);
    Generated(P1, shuffle1);
    Generated(P2, shuffle2);
    forall sl | ValidSlot(s.pieces, sl) ensures OnBoard(CellOf(s.pieces, sl)) {
    }
    forall a, b | ValidSlot(s.pieces, a) && ValidSlot(s.pieces, b) && a != b && CellOf(s.pieces, a) != Destroyed
      ensures CellOf(s.pieces, a) != CellOf(s.pieces, b)
    {
    }
  }

  /** The generated starting state holds, for each player, a layout with every property the generator promises. */
  lemma InitialLayouts(shuffle1: seq<int>, shuffle2: seq<int>)
    requires IsPermutation(shuffle1, ArmySize) && IsPermutation(shuffle2, ArmySize)
    ensures IsGeneratedLayout(P1, Initial(shuffle1, shuffle2).pieces.Of(P1))
    ensures IsGeneratedLayout(P2, Initial(shuffle1, shuffle2).pieces.Of(P2))
  {
    Generated(P1, shuffle1);
    Generated(P2, shuffle2);
  }

  /** In the game as written, every run from a consistent state over board clicks stays consistent. */
  lemma {:induction false} RunKeepsConsistent(s: State, es: seq<Event>)
    requires Consistent(s) && OnBoardEvents(es)
    ensures Consistent(Run(s, es))
    decreases |es|
  {
    if es != [] {
      match es[0] {
        case CellClicked(c) => ClickKeepsConsistent(s, c);
        case ReadyPressed => ReadyKeepsConsistent(s);
      }
      assert OnBoardEvents(es[1..]);
      RunKeepsConsistent(Step(s, es[0]), es[1..]);
    }
  }

  /** In the corrected game, every run from a state satisfying the invariant keeps it. */
  lemma {:induction false} FixedRunKeepsInv(s: State, es: seq<Event>)
    requires Inv(s) && OnBoardEvents(es)
    ensures Inv(RunFixed(s, es))
    decreases |es|
  {
    if es != [] {
      match es[0] {
        case CellClicked(c) => ClickKeepsInv(s, c);
        case ReadyPressed => ReadyClearingKeepsInv(s);
      }
      assert OnBoardEvents(es[1..]);
      FixedRunKeepsInv(StepFixed(s, es[0]), es[1..]);
    }
  }

  /** The phase never moves backward. */
  lemma {:induction false} RunPhaseMonotone(s: State, es: seq<Event>)
    ensures Rank(Run(s, es).phase) >= Rank(s.phase)
    decreases |es|
  {
    if es != [] {
      RunPhaseMonotone(Step(s, es[0]), es[1..]);
    }
  }

  /** In every consistent state each kind is at full strength on the score table: setup destroys nothing. */
  lemma FullStrengthThroughout(s: State, p: Player, k: Kind)
    requires Consistent(s)
    ensures LiveCount(s.pieces.Of(p)[k]) == Total(k)
  {
    FullStrength(s.pieces, p, k);
  }

  // ---------------------------------------------------------------------
  // The selection that survives the Ready button
  // ---------------------------------------------------------------------

  /**
   * In the game as written, from any consistent setup start with nothing
   * armed: player 1 arms the Marshal, presses Ready, and player 2 clicks their
   * own General. The swap branch writes player 1's Marshal cell into player
   * 2's General slot, so two live pieces share a cell, and moves player 2's
   * Marshal onto the General's old cell.
   */
  lemma StaleSelectionDoubleOccupies(s: State)
    requires Inv(s) && s.phase == SetupP1 && s.selection.None?
    ensures var marshal := CellOf(s.pieces, Slot(P1, Mar, 0));
      var general := CellOf(s.pieces, Slot(P2, Gen, 0));
      var r := Run(s, [CellClicked(marshal), ReadyPressed, CellClicked(general)]);
      && ValidSlot(r.pieces, Slot(P1, Mar, 0)) && ValidSlot(r.pieces, Slot(P2, Gen, 0)) && ValidSlot(r.pieces, Slot(P2, Mar, 0))
      && CellOf(r.pieces, Slot(P1, Mar, 0)) == marshal
      && CellOf(r.pieces, Slot(P2, Gen, 0)) == marshal
      && CellOf(r.pieces, Slot(P2, Mar, 0)) == general
      && !DistinctLive(r.pieces)
  {
    assert Shaped(s.pieces.Of(P1)) && Shaped(s.pieces.Of(P2));
    var mSlot, gSlot := Slot(P1, Mar, 0), Slot(P2, Gen, 0);
    var marshal, general := CellOf(s.pieces, mSlot), CellOf(s.pieces, gSlot);
    var s2 := StaleArmed(s);
    PieceAtSlot(s.pieces, gSlot);
    var s3 := Click(s2, general);
    assert s3 == SetupMove(s2, general, P2);
    assert s3.pieces == SwapArmed(s.pieces, P2, PieceRef(P1, Mar, marshal, 0), PieceRef(P2, Gen, general, 0), general);
    var es := [CellClicked(marshal), ReadyPressed, CellClicked(general)];
    assert Run(s, es) == Run(Click(s, marshal), es[1..]);
    assert Run(Click(s, marshal), es[1..]) == Run(s2, es[2..]);
    assert Run(s2, es[2..]) == s3;
    assert CellOf(s3.pieces, gSlot) == marshal;
    assert CellOf(s3.pieces, mSlot) == marshal;
    assert CellOf(s3.pieces, Slot(P2, Mar, 0)) == general;
  }

  /** The first two events of that run: player 1's Marshal is still armed when player 2's setup starts. */
  lemma StaleArmed(s: State) returns (s2: State)
    requires Inv(s) && s.phase == SetupP1 && s.selection.None?
    ensures ValidSlot(s.pieces, Slot(P1, Mar, 0))
    ensures s2 == Ready(Click(s, CellOf(s.pieces, Slot(P1, Mar, 0))))
    ensures s2 == s.(phase := SetupP2, current := P2, p1Ready := true,
      selection := Some(PieceRef(P1, Mar, CellOf(s.pieces, Slot(P1, Mar, 0)), 0)))
  {
    assert Shaped(s.pieces.Of(P1));
    var mSlot := Slot(P1, Mar, 0);
    var marshal := CellOf(s.pieces, mSlot);
    PieceAtSlot(s.pieces, mSlot);
    ArmOwnPiece(s, marshal, P1);
    s2 := Ready(Click(s, marshal));
  }

  /** The generated starting state is such a start. */
  lemma InitialShowsStaleSelection(shuffle1: seq<int>, shuffle2: seq<int>)
    requires IsPermutation(shuffle1, ArmySize) && IsPermutation(shuffle2, ArmySize)
    ensures var s := Initial(shuffle1, shuffle2);
      Inv(s) && s.phase == SetupP1 && s.selection.None?
  {
    InitialInv(shuffle1, shuffle2);
  }

  /** In the corrected game, no run from the generated start ever puts two live pieces on one cell. */
  lemma FixedGameNeverDoubleOccupies(shuffle1: seq<int>, shuffle2: seq<int>, es: seq<Event>)
    requires IsPermutation(shuffle1, ArmySize) && IsPermutation(shuffle2, ArmySize)
    requires OnBoardEvents(es)
    ensures DistinctLive(RunFixed(Initial(shuffle1, shuffle2), es).pieces)
  {
    InitialInv(shuffle1, shuffle2);
    FixedRunKeepsInv(Initial(shuffle1, shuffle2), es);
  }
}
