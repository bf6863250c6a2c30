/**
 * The piece table `pieces`: for each player and each kind, the array of
 * cells its pieces stand on, with -1 for a destroyed piece; the lookup
 * getPieceAt over it; and the per-kind live count of the score table.
 */
module PieceTable {
  import opened Wrappers
  import opened Board
  import opened Catalog

  /** The sentinel cell value of a destroyed piece. */
  const Destroyed: int := -1

  /** One player's army: for each kind, the cells of its pieces in slot order. */
  type Army = map<Kind, seq<int>>

  /** Both armies, under the keys p1 and p2. */
  datatype Pieces = Pieces(p1: Army, p2: Army) {
    function Of(p: Player): Army {
      if p == P1 then p1 else p2
    }

    /** The table with player `p`'s army replaced by `a`. */
    function With(p: Player, a: Army): (r: Pieces)
      ensures r.Of(p) == a
      ensures forall q :: q != p ==> r.Of(q) == Of(q)
    {
      if p == P1 then this.(p1 := a) else this.(p2 := a)
    }
  }

  /** The record getPieceAt returns, which is also what a selection holds. */
  datatype PieceRef = PieceRef(player: Player, kind: Kind, index: int, arrayIndex: nat)

  /** Every kind is present with exactly as many slots as the catalog gives it. */
  ghost predicate Shaped(a: Army) {
    forall k: Kind :: k in a && |a[k]| == Total(k)
  }

  /** Some piece of army `a` stands on cell `c`. */
  ghost predicate InArmy(a: Army, c: int) {
    exists k :: k in a && c in a[k]
  }

  /** Some piece of either army stands on cell `c`. */
  ghost predicate Occupied(ps: Pieces, c: int) {
    InArmy(ps.p1, c) || InArmy(ps.p2, c)
  }

  /** `r` names a slot of army `a` that holds `r.index`, and no earlier slot of that kind does. */
  ghost predicate Points(a: Army, r: PieceRef) {
    && r.kind in a
    && r.arrayIndex < |a[r.kind]|
    && a[r.kind][r.arrayIndex] == r.index
    && r.index !in a[r.kind][..r.arrayIndex]
  }

  /** Array.prototype.indexOf: the first position of `x` in `s`, or -1. */
  function IndexOf(s: seq<int>, x: int): (r: int)
    ensures -1 <= r < |s|
    ensures r == -1 <==> x !in s
    ensures r != -1 ==> s[r] == x && x !in s[..r]
  {
    if s == [] then -1
    else if s[0] == x then 0
    else
      var t := IndexOf(s[1..], x);
      if t == -1 then -1
      else
        assert s[..t + 1] == [s[0]] + s[1..][..t];
        t + 1
  }

  /** The search of getPieceAt through army `a` of player `p`, over the kinds from catalog position `j` on. */
  function FindIn(a: Army, p: Player, j: nat, x: int): (r: Option<PieceRef>)
    requires j <= |Kinds|
    ensures r.Some? ==> r.value.player == p && r.value.index == x && j <= Pos(r.value.kind) && Points(a, r.value)
    ensures r.Some? ==> forall k :: k in a && x in a[k] && j <= Pos(k) ==> Pos(r.value.kind) <= Pos(k)
    ensures r.None? <==> forall k :: k in a && j <= Pos(k) ==> x !in a[k]
    decreases |Kinds| - j
  {
    if j == |Kinds| then None
    else
      var k := Kinds[j];
      PosOnly(j);
      if k in a && IndexOf(a[k], x) != -1 then Some(PieceRef(p, k, x, IndexOf(a[k], x)))
      else FindIn(a, p, j + 1, x)
  }

  /**
   * getPieceAt: the first piece found on cell `x`, searching player 1's army
   * before player 2's, kinds in catalog order, and slots from the front.
   */
  function PieceAt(ps: Pieces, x: int): (r: Option<PieceRef>)
    ensures r.Some? ==> r.value.index == x && Points(ps.Of(r.value.player), r.value)
    ensures r.None? <==> !Occupied(ps, x)
    ensures InArmy(ps.p1, x) ==> r.Some? && r.value.player == P1
    ensures r.Some? ==> forall k :: k in ps.Of(r.value.player) && x in ps.Of(r.value.player)[k] ==> Pos(r.value.kind) <= Pos(k)
  {
    var r1 := FindIn(ps.p1, P1, 0, x);
    if r1.Some? then r1 else FindIn(ps.p2, P2, 0, x)
  }

  /** The score table's live count of one kind: the slots not marked destroyed. */
  function LiveCount(s: seq<int>): (n: nat)
    ensures n <= |s|
    ensures n == |s| <==> Destroyed !in s
    ensures n == 0 <==> forall i :: 0 <= i < |s| ==> s[i] == Destroyed
    ensures n + multiset(s)[Destroyed] == |s|
  {
    if s == [] then 0
    else
      assert s == [s[0]] + s[1..];
      (if s[0] != Destroyed then 1 else 0) + LiveCount(s[1..])
  }

  /** A slot of the table: the `i`-th piece of kind `kind` of `player`. */
  datatype Slot = Slot(player: Player, kind: Kind, i: nat)

  predicate ValidSlot(ps: Pieces, sl: Slot) {
    sl.kind in ps.Of(sl.player) && sl.i < |ps.Of(sl.player)[sl.kind]|
  }

  /** The cell value a slot holds. */
  function CellOf(ps: Pieces, sl: Slot): int
    requires ValidSlot(ps, sl)
  {
    ps.Of(sl.player)[sl.kind][sl.i]
  }

  /** The slot a lookup result names. */
  function SlotOf(r: PieceRef): Slot {
    Slot(r.player, r.kind, r.arrayIndex)
  }

  /** No two live pieces, of either army, share a cell. */
  ghost predicate DistinctLive(ps: Pieces) {
    forall a, b :: ValidSlot(ps, a) && ValidSlot(ps, b) && a != b && CellOf(ps, a) != Destroyed ==> CellOf(ps, a) != CellOf(ps, b)
  }

  /** Every slot of either army holds a cell of the board (so none is destroyed). */
  ghost predicate AllOnBoard(ps: Pieces) {
    forall sl :: ValidSlot(ps, sl) ==> OnBoard(CellOf(ps, sl))
  }

  /**
   * `pieces[pKey][type][arrayIndex] = v`: exactly the one slot changes, and
   * the shape of the table does not. A slot the table does not have leaves
   * the table as it is.
   */
  function Store(ps: Pieces, sl: Slot, v: int): (r: Pieces)
    ensures forall p :: r.Of(p).Keys == ps.Of(p).Keys
    ensures forall p, k :: k in ps.Of(p) ==> |r.Of(p)[k]| == |ps.Of(p)[k]|
    ensures forall s :: ValidSlot(r, s) <==> ValidSlot(ps, s)
    ensures ValidSlot(ps, sl) ==> CellOf(r, sl) == v
    ensures forall s :: ValidSlot(ps, s) && s != sl ==> CellOf(r, s) == CellOf(ps, s)
    ensures !ValidSlot(ps, sl) ==> r == ps
  {
    if ValidSlot(ps, sl) then
      var a := ps.Of(sl.player);
      ps.With(sl.player, a[sl.kind := a[sl.kind][sl.i := v]])
    else ps
  }

  /** A cell is occupied exactly when some slot of the table holds it. */
  lemma OccupiedBySlot(ps: Pieces, c: int)
    ensures Occupied(ps, c) <==> exists sl :: ValidSlot(ps, sl) && CellOf(ps, sl) == c
  {
    if Occupied(ps, c) {
      var p := if InArmy(ps.p1, c) then P1 else P2;
      var k :| k in ps.Of(p) && c in ps.Of(p)[k];
      var i :| 0 <= i < |ps.Of(p)[k]| && ps.Of(p)[k][i] == c;
      assert ValidSlot(ps, Slot(p, k, i)) && CellOf(ps, Slot(p, k, i)) == c;
    }
    if exists sl :: ValidSlot(ps, sl) && CellOf(ps, sl) == c {
      var sl :| ValidSlot(ps, sl) && CellOf(ps, sl) == c;
      assert c in ps.Of(sl.player)[sl.kind];
    }
  }

  /** On a table where live pieces have distinct cells, getPieceAt on a live slot's cell finds exactly that slot. */
  lemma PieceAtSlot(ps: Pieces, sl: Slot)
    requires DistinctLive(ps) && ValidSlot(ps, sl) && CellOf(ps, sl) != Destroyed
    ensures PieceAt(ps, CellOf(ps, sl)) == Some(PieceRef(sl.player, sl.kind, CellOf(ps, sl), sl.i))
  {
    var c := CellOf(ps, sl);
    assert c in ps.Of(sl.player)[sl.kind];
    assert InArmy(ps.Of(sl.player), c);
    var r := PieceAt(ps, c).value;
    assert ValidSlot(ps, SlotOf(r)) && CellOf(ps, SlotOf(r)) == c;
  }

  /** Every live slot of a shaped army counts: on a board-only table each kind is at full strength. */
  lemma FullStrength(ps: Pieces, p: Player, k: Kind)
    requires Shaped(ps.Of(p)) && AllOnBoard(ps)
    ensures LiveCount(ps.Of(p)[k]) == Total(k)
  {
    if Destroyed in ps.Of(p)[k] {
      var i :| 0 <= i < |ps.Of(p)[k]| && ps.Of(p)[k][i] == Destroyed;
      assert ValidSlot(ps, Slot(p, k, i));
    }
  }
}
