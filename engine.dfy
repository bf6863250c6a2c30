/**
 * The game's global state as an object whose handlers update it in place:
 * selectPiece, handleSetupMove, handleReady and onCellClick. Each handler
 * is proved to perform exactly the step of the Setup state machine.
 */
module Engine {
  import opened Wrappers
  import opened Board
  import opened Catalog
  import opened PieceTable
  import opened Layout
  import opened Setup

  class Game {
    var currentPlayer: Player
    var gameState: Phase
    var selectedPiece: Option<PieceRef>
    /** playersReady.p1 and playersReady.p2 */
    var p1Ready: bool
    var p2Ready: bool
    var pieces: Pieces

    /** The global state as a value. */
    function Snapshot(): State
      reads this
    {
      State(gameState, currentPlayer, selectedPiece, p1Ready, p2Ready, pieces)
    }

    ghost predicate Valid()
      reads this
    {
      Consistent(Snapshot())
    }

    /** Page load: both armies are generated, player 1 sets up first, nothing is armed. */
    constructor (shuffle1: seq<int>, shuffle2: seq<int>)
      requires IsPermutation(shuffle1, ArmySize) && IsPermutation(shuffle2, ArmySize)
      ensures Snapshot() == Initial(shuffle1, shuffle2)
      ensures Valid() && Inv(Snapshot())
    {
      var layout1 := CreateInitialPieceLayout(P1, shuffle1);
      var layout2 := CreateInitialPieceLayout(P2, shuffle2);
      currentPlayer := P1;
      gameState := SetupP1;
      selectedPiece := None;
      p1Ready, p2Ready := false, false;
      pieces := Pieces(layout1, layout2);
      InitialInv(shuffle1, shuffle2);
    }

    /** selectPiece: arm the piece, or disarm when it is a Bomb or the Flag. */
    method SelectPiece(player: Player, kind: Kind, index: int, arrayIndex: nat)
      modifies this
      ensures selectedPiece == ArmSelection(player, kind, index, arrayIndex)
      ensures selectedPiece.Some? <==> Movable(kind)
      ensures Snapshot() == old(Snapshot()).(selection := selectedPiece)
    {
      if kind == Bmb || kind == Prap {
        selectedPiece := None;
        return;
      }
      selectedPiece := Some(PieceRef(player, kind, index, arrayIndex));
    }

    /** handleSetupMove, with `targetPiece` the lookup of `targetIndex` that the click handler passes in. */
    method HandleSetupMove(targetIndex: int, targetPiece: Option<PieceRef>, playerID: Player)
      requires targetPiece == PieceAt(pieces, targetIndex)
      modifies this
      ensures Snapshot() == SetupMove(old(Snapshot()), targetIndex, playerID)
      ensures old(Valid()) && OnBoard(targetIndex) ==> Valid()
    {
      ghost var s := Snapshot();
      if selectedPiece.Some? && selectedPiece.value.index == targetIndex {
        selectedPiece := None;
      } else if selectedPiece.Some? && targetPiece.None? {
        if selectedPiece.value.kind != Bmb && selectedPiece.value.kind != Prap {
          var kind := selectedPiece.value.kind;
          var arrayIndex := selectedPiece.value.arrayIndex;
          pieces := Store(pieces, Slot(playerID, kind, arrayIndex), targetIndex);
        }
        selectedPiece := None;
      } else if selectedPiece.Some? && targetPiece.Some? && targetPiece.value.player == playerID {
        var targetKind := targetPiece.value.kind;
        var targetArrayIndex := targetPiece.value.arrayIndex;
        var selectedKind := selectedPiece.value.kind;
        var selectedArrayIndex := selectedPiece.value.arrayIndex;
        pieces := Store(pieces, Slot(playerID, targetKind, targetArrayIndex), selectedPiece.value.index);
        pieces := Store(pieces, Slot(playerID, selectedKind, selectedArrayIndex), targetIndex);
        selectedPiece := None;
      } else if targetPiece.Some? && targetPiece.value.player == playerID {
        var info := PieceAt(pieces, targetIndex).value;
        SelectPiece(playerID, info.kind, info.index, info.arrayIndex);
      }
      if Consistent(s) && OnBoard(targetIndex) {
        SetupMoveKeepsConsistent(s, targetIndex, playerID);
      }
    }

    /** handleReady: the Ready button. */
    method HandleReady()
      modifies this
      ensures Snapshot() == Ready(old(Snapshot()))
      ensures old(Valid()) ==> Valid()
    {
      if gameState == SetupP1 {
        p1Ready := true;
        gameState := SetupP2;
        currentPlayer := P2;
      } else if gameState == SetupP2 {
        p2Ready := true;
        gameState := Playing;
        currentPlayer := P1;
      }
    }

    /** onCellClick: a click on cell `index` of the board. */
    method OnCellClick(index: int)
      modifies this
      ensures Snapshot() == Click(old(Snapshot()), index)
      ensures old(Valid()) && OnBoard(index) ==> Valid()
    {
      var targetPiece := PieceAt(pieces, index);
      if gameState == SetupP1 && currentPlayer == P1 {
        HandleSetupMove(index, targetPiece, P1);
      } else if gameState == SetupP2 && currentPlayer == P2 {
        HandleSetupMove(index, targetPiece, P2);
      }
    }
  }
}
