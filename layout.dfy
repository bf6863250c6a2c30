/**
 * The army layout generator createInitialPieceLayout: the 40 home cells of
 * a player, in shuffled order, handed out to the kinds in catalog order.
 */
module Layout {
  import opened Board
  import opened Catalog
  import opened PieceTable

  /** The first home cell of a player: 0 for player 1, 70 for player 2. */
  function StartIdx(p: Player): int {
    if p == P1 then 0 else 70
  }

  /** The home zone of a player: the ArmySize cells from StartIdx(p) on. */
  predicate InHomeZone(p: Player, c: int) {
    StartIdx(p) <= c < StartIdx(p) + ArmySize
  }

  /** A home zone lies on the board and off the river, and the two zones do not meet. */
  lemma HomeZoneLegal(p: Player, c: int)
    requires InHomeZone(p, c)
    ensures OnBoard(c) && !IsRiver(c)
    ensures !InHomeZone(if p == P1 then P2 else P1, c)
  {
    if IsRiver(c) {
      RiverBetweenHomeZones(c);
    }
  }

  /** `s` puts 0 .. n-1 in some order: every value once. */
  ghost predicate IsPermutation(s: seq<int>, n: nat) {
    && |s| == n
    && (forall i :: 0 <= i < n ==> 0 <= s[i] < n)
    && (forall i, j :: 0 <= i < j < n ==> s[i] != s[j])
    && (forall v :: 0 <= v < n ==> v in s)
  }

  /** Array.from({ length: 40 }, (_, i) => startIdx + i): the home cells in increasing order. */
  function HomeCells(startIdx: int): (cells: seq<int>)
    ensures |cells| == ArmySize
    ensures forall m :: 0 <= m < ArmySize ==> cells[m] == startIdx + m
  {
    seq(ArmySize, m => startIdx + m)
  }

  /**
   * The reordering the random-comparator sort performs on `s`: position `m`
   * receives element `shuffle[m]`.
   */
  function Permute(s: seq<int>, shuffle: seq<int>): (r: seq<int>)
    requires forall m :: 0 <= m < |shuffle| ==> 0 <= shuffle[m] < |s|
    ensures |r| == |shuffle|
    ensures forall m :: 0 <= m < |shuffle| ==> r[m] == s[shuffle[m]]
  {
    seq(|shuffle|, m requires 0 <= m < |shuffle| => s[shuffle[m]])
  }

  /** initialIndices once shuffled: the home cells of `p` in the order `shuffle` gives. */
  function Shuffled(p: Player, shuffle: seq<int>): (cells: seq<int>)
    requires IsPermutation(shuffle, ArmySize)
    ensures |cells| == ArmySize
    ensures forall m :: 0 <= m < ArmySize ==> cells[m] == StartIdx(p) + shuffle[m]
  {
    Permute(HomeCells(StartIdx(p)), shuffle)
  }

  /** Everything the generator promises of a layout `a` for player `p`. */
  ghost predicate IsGeneratedLayout(p: Player, a: Army) {
    && Shaped(a)
    && (forall k, i :: k in a && 0 <= i < |a[k]| ==> InHomeZone(p, a[k][i]) && !IsRiver(a[k][i]))
    && DistinctCells(a)
    && (forall c :: InHomeZone(p, c) ==> InArmy(a, c))
  }

  /** The layout dealt from a list of cells: each kind takes its own block, blocks in catalog order. */
  function LayoutFrom(cells: seq<int>): Army
    requires |cells| == ArmySize
  {
    map k | k in Kinds :: cells[Start(k) .. Start(k) + Total(k)]
  }

  /** The closed form deals slot `i` of kind `k` the cell at position Start(k) + i of the list. */
  lemma DealtSlot(cells: seq<int>, k: Kind, i: nat)
    requires |cells| == ArmySize && i < Total(k)
    ensures k in LayoutFrom(cells) && |LayoutFrom(cells)[k]| == Total(k)
    ensures LayoutFrom(cells)[k][i] == cells[Start(k) + i]
  {
    PosEntry(k);
  }

  /** No two slots of a generated layout get the same cell. */
  ghost predicate DistinctCells(a: Army) {
    forall k1, i1, k2, i2 ::
      k1 in a && k2 in a && 0 <= i1 < |a[k1]| && 0 <= i2 < |a[k2]| && (k1, i1) != (k2, i2) ==> a[k1][i1] != a[k2][i2]
  }

  /** The closed form gives every kind exactly its catalog count of cells. */
  lemma DealtShape(cells: seq<int>)
    requires |cells| == ArmySize
    ensures Shaped(LayoutFrom(cells))
  {
    forall k: Kind ensures k in LayoutFrom(cells) && |LayoutFrom(cells)[k]| == Total(k) {
      DealtSlot(cells, k, 0);
    }
  }

  /** Every cell of a generated layout is in the player's home zone and off the river. */
  lemma GeneratedInHomeZone(p: Player, shuffle: seq<int>)
    requires IsPermutation(shuffle, ArmySize)
    ensures var a := LayoutFrom(Shuffled(p, shuffle));
      forall k, i :: k in a && 0 <= i < |a[k]| ==> InHomeZone(p, a[k][i]) && !IsRiver(a[k][i])
  {
    var cells := Shuffled(p, shuffle);
    var a := LayoutFrom(cells);
    forall k, i | k in a && 0 <= i < |a[k]| ensures InHomeZone(p, a[k][i]) && !IsRiver(a[k][i]) {
      DealtSlot(cells, k, i);
    }
  }

  /** Two different slots of a generated layout get different cells. */
  lemma GeneratedPairDistinct(p: Player, shuffle: seq<int>, k1: Kind, i1: nat, k2: Kind, i2: nat)
    requires IsPermutation(shuffle, ArmySize)
    requires i1 < Total(k1) && i2 < Total(k2) && (k1, i1) != (k2, i2)
    ensures LayoutFrom(Shuffled(p, shuffle))[k1][i1] != LayoutFrom(Shuffled(p, shuffle))[k2][i2]
  {
    var cells := Shuffled(p, shuffle);
    DealtSlot(cells, k1, i1);
    DealtSlot(cells, k2, i2);
    if k1 != k2 {
      BlocksDisjoint(k1, k2);
    }
    ShuffledDistinct(p, shuffle, Start(k1) + i1, Start(k2) + i2);
  }

  /** Different positions of the shuffled list hold different cells. */
  lemma ShuffledDistinct(p: Player, shuffle: seq<int>, m1: nat, m2: nat)
    requires IsPermutation(shuffle, ArmySize)
    requires m1 < ArmySize && m2 < ArmySize && m1 != m2
    ensures Shuffled(p, shuffle)[m1] != Shuffled(p, shuffle)[m2]
  {
    if m1 < m2 { assert shuffle[m1] != shuffle[m2]; } else { assert shuffle[m2] != shuffle[m1]; }
  }

  /** No two slots of a generated layout get the same cell. */
  lemma GeneratedDistinct(p: Player, shuffle: seq<int>)
    requires IsPermutation(shuffle, ArmySize)
    ensures DistinctCells(LayoutFrom(Shuffled(p, shuffle)))
  {
    var a := LayoutFrom(Shuffled(p, shuffle));
    DealtShape(Shuffled(p, shuffle));
    forall k1, i1, k2, i2 | k1 in a && k2 in a && 0 <= i1 < |a[k1]| && 0 <= i2 < |a[k2]| && (k1, i1) != (k2, i2)
      ensures a[k1][i1] != a[k2][i2]
    {
      GeneratedPairDistinct(p, shuffle, k1, i1, k2, i2);
    }
  }

  /** Every home cell of the player is used by a generated layout: the 40 slots fill the zone. */
  lemma GeneratedCoversHomeZone(p: Player, shuffle: seq<int>)
    requires IsPermutation(shuffle, ArmySize)
    ensures forall c :: InHomeZone(p, c) ==> InArmy(LayoutFrom(Shuffled(p, shuffle)), c)
  {
    var cells := Shuffled(p, shuffle);
    var a := LayoutFrom(cells);
    forall c | InHomeZone(p, c) ensures InArmy(a, c) {
      var v := c - StartIdx(p);
      assert v in shuffle;
      var m :| 0 <= m < ArmySize && shuffle[m] == v;
      var k := KindAt(m);
      DealtSlot(cells, k, m - Start(k));
      assert a[k][m - Start(k)] == c;
    }
  }

  /** The layout dealt for the first `j` catalog entries only. */
  function DealtUpTo(cells: seq<int>, j: nat): Army
    requires |cells| == ArmySize
  {
    map k | k in Kinds && Pos(k) < j :: cells[Start(k) .. Start(k) + Total(k)]
  }

  /** The block of catalog entry `j` fits in the army. */
  lemma DealtRoom(j: nat)
    requires j < |AllPieces|
    ensures Offset(j) + AllPieces[j].count <= ArmySize
  {
    EntryAt(j);
    StartIsOffset(AllPieces[j].kind);
  }

  /** Dealing the block of catalog entry `j` extends the layout dealt up to `j`. */
  lemma DealtNext(cells: seq<int>, j: nat, dealt: seq<int>)
    requires |cells| == ArmySize && j < |AllPieces| && Offset(j) + AllPieces[j].count <= ArmySize
    requires |dealt| == AllPieces[j].count
    requires forall t :: 0 <= t < |dealt| ==> dealt[t] == cells[Offset(j) + t]
    ensures DealtUpTo(cells, j)[AllPieces[j].kind := dealt] == DealtUpTo(cells, j + 1)
  {
    assert dealt == cells[Offset(j) .. Offset(j) + AllPieces[j].count];
    DealtExtend(cells, j);
  }

  lemma DealtExtend(cells: seq<int>, j: nat)
    requires |cells| == ArmySize && j < |AllPieces| && Offset(j) + AllPieces[j].count <= ArmySize
    ensures DealtUpTo(cells, j)[AllPieces[j].kind := cells[Offset(j) .. Offset(j) + AllPieces[j].count]] == DealtUpTo(cells, j + 1)
  {
    EntryAt(j);
    var kind := AllPieces[j].kind;
    StartIsOffset(kind);
    PosOnly(j);
    var lhs := DealtUpTo(cells, j)[kind := cells[Offset(j) .. Offset(j) + AllPieces[j].count]];
    var rhs := DealtUpTo(cells, j + 1);
    forall k ensures k in lhs <==> k in rhs {
      PosEntry(k);
    }
    assert lhs.Keys == rhs.Keys;
    forall k | k in lhs ensures lhs[k] == rhs[k] {
      if k != kind {
        assert Pos(k) != j;
      }
    }
  }

  /** Dealt for every catalog entry, the layout is complete. */
  lemma DealtAll(cells: seq<int>)
    requires |cells| == ArmySize
    ensures DealtUpTo(cells, |AllPieces|) == LayoutFrom(cells)
  {
  }

  /** A generated layout has every property the generator promises. */
  lemma Generated(p: Player, shuffle: seq<int>)
    requires IsPermutation(shuffle, ArmySize)
    ensures IsGeneratedLayout(p, LayoutFrom(Shuffled(p, shuffle)))
  {
    DealtShape(Shuffled(p, shuffle));
    GeneratedInHomeZone(p, shuffle);
    GeneratedDistinct(p, shuffle);
    GeneratedCoversHomeZone(p, shuffle);
  }

  /** The two players' generated layouts share no cell. */
  lemma LayoutsDisjoint(shuffle1: seq<int>, shuffle2: seq<int>, c: int)
    requires IsPermutation(shuffle1, ArmySize) && IsPermutation(shuffle2, ArmySize)
    ensures !(InArmy(LayoutFrom(Shuffled(P1, shuffle1)), c) && InArmy(LayoutFrom(Shuffled(P2, shuffle2)), c))
  {
    GeneratedInHomeZone(P1, shuffle1);
    GeneratedInHomeZone(P2, shuffle2);
  }

  /**
   * createInitialPieceLayout. The home cells are listed in order, put in the
   * order `shuffle` gives (the random-comparator sort of the game), and dealt
   * to the kinds in catalog order.
   */
  method CreateInitialPieceLayout(player: Player, shuffle: seq<int>) returns (layout: Army)
    requires IsPermutation(shuffle, ArmySize)
    ensures layout == LayoutFrom(Shuffled(player, shuffle))
    ensures IsGeneratedLayout(player, layout)
  {
    var startIdx := if player == P1 then 0 else 70;
    var initialIndices := HomeCells(startIdx);
    initialIndices := Permute(initialIndices, shuffle);
    CatalogSumsToArmySize();

    layout := map[];
    var pieceIndex := 0;
    for j := 0 to |AllPieces|
      invariant pieceIndex == Offset(j)
      invariant layout == DealtUpTo(initialIndices, j)
    {
      var pieceData := AllPieces[j];
      DealtRoom(j);
      // layout[type] = [] and the pushes onto that same array, built here before it is stored
      var dealt: seq<int> := [];
      for i := 0 to pieceData.count
        invariant pieceIndex == Offset(j) + i
        invariant |dealt| == i && forall t :: 0 <= t < i ==> dealt[t] == initialIndices[Offset(j) + t]
      {
        if pieceIndex < ArmySize {
          dealt := dealt + [initialIndices[pieceIndex]];
          pieceIndex := pieceIndex + 1;
        }
      }
      DealtNext(initialIndices, j, dealt);
      layout := layout[pieceData.kind := dealt];
    }
    DealtAll(initialIndices);
    Generated(player, shuffle);
  }
}
