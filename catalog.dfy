/**
 * The piece catalog: the eleven kinds of piece, how many of each an army
 * holds (PIECE_TOTALS) and the order in which the layout generator hands
 * out cells to them (ALL_P1_PIECES).
 */
module Catalog {
  /** Piece kinds, named after the game's keys mar, gen, spy, cap, kad, kaprl, str, min_p, pru, bmb, prap. */
  datatype Kind = Mar | Gen | Spy | Cap | Kad | Kaprl | Str | MinP | Pru | Bmb | Prap

  /** Number of pieces in one army, and of cells in one home zone. */
  const ArmySize: nat := 40

  /** PIECE_TOTALS: the number of pieces of kind `k` in one army. */
  function Total(k: Kind): nat {
    match k
    case Mar => 1
    case Gen => 1
    case Spy => 1
    case Cap => 2
    case Kad => 3
    case Kaprl => 4
    case Str => 5
    case MinP => 6
    case Pru => 8
    case Bmb => 8
    case Prap => 1
  }

  /** One entry `{ type, count }` of ALL_P1_PIECES. */
  datatype Entry = Entry(kind: Kind, count: nat)

  /** ALL_P1_PIECES: the kinds in the order the layout generator fills them. */
  const AllPieces: seq<Entry> := [
    Entry(Mar, 1), Entry(Gen, 1), Entry(Spy, 1), Entry(Cap, 2), Entry(Kad, 3),
    Entry(Kaprl, 4), Entry(Str, 5), Entry(MinP, 6), Entry(Pru, 8), Entry(Bmb, 8),
    Entry(Prap, 1)
  ]

  /** The kinds of ALL_P1_PIECES in order: also the order in which an army's keys are enumerated. */
  const Kinds: seq<Kind> := [Mar, Gen, Spy, Cap, Kad, Kaprl, Str, MinP, Pru, Bmb, Prap]

  /** Bomb and Flag can never be armed. */
  predicate Movable(k: Kind) {
    k != Bmb && k != Prap
  }

  /** The position of kind `k` in the catalog order. */
  function Pos(k: Kind): (j: nat)
    ensures j < |AllPieces|
  {
    match k
    case Mar => 0
    case Gen => 1
    case Spy => 2
    case Cap => 3
    case Kad => 4
    case Kaprl => 5
    case Str => 6
    case MinP => 7
    case Pru => 8
    case Bmb => 9
    case Prap => 10
  }

  /** Kind `k` is listed at its position, with its PIECE_TOTALS count: the two tables agree. */
  lemma PosEntry(k: Kind)
    ensures AllPieces[Pos(k)] == Entry(k, Total(k)) && Kinds[Pos(k)] == k
    ensures forall j :: 0 <= j < |AllPieces| && AllPieces[j].kind == k ==> j == Pos(k)
  {
    CatalogOrder();
  }

  /** Every catalog entry sits at the position of its own kind, so no kind is listed twice. */
  lemma CatalogOrder()
    ensures |Kinds| == |AllPieces|
    ensures forall j :: 0 <= j < |AllPieces| ==> Kinds[j] == AllPieces[j].kind && Pos(AllPieces[j].kind) == j
  {
  }

  /** The `j`-th catalog entry is the one at its own kind's position, with that kind's total. */
  lemma EntryAt(j: nat)
    requires j < |AllPieces|
    ensures Pos(AllPieces[j].kind) == j && AllPieces[j].count == Total(AllPieces[j].kind)
    ensures Kinds[j] == AllPieces[j].kind
  {
    CatalogOrder();
  }

  /** Only the kind listed at position `j` has position `j`. */
  lemma PosOnly(j: nat)
    requires j < |Kinds|
    ensures Pos(Kinds[j]) == j
    ensures forall k :: Pos(k) == j ==> k == Kinds[j]
  {
  }

  /** Number of cells handed out before the `j`-th catalog entry. */
  function Offset(j: nat): nat
    requires j <= |AllPieces|
  {
    if j == 0 then 0 else Offset(j - 1) + AllPieces[j - 1].count
  }

  lemma {:induction false} OffsetMonotone(i: nat, j: nat)
    requires i <= j <= |AllPieces|
    ensures Offset(i) <= Offset(j)
  {
    if i < j {
      OffsetMonotone(i, j - 1);
    }
  }

  /** The running totals of the catalog counts. */
  lemma OffsetValues()
    ensures Offset(0) == 0 && Offset(1) == 1 && Offset(2) == 2 && Offset(3) == 3
    ensures Offset(4) == 5 && Offset(5) == 8 && Offset(6) == 12 && Offset(7) == 17
    ensures Offset(8) == 23 && Offset(9) == 31 && Offset(10) == 39 && Offset(11) == 40
  {
    assert Offset(1) == 1 && Offset(2) == 2 && Offset(3) == 3;
    assert Offset(4) == 5 && Offset(5) == 8 && Offset(6) == 12;
    assert Offset(7) == 17 && Offset(8) == 23 && Offset(9) == 31;
  }

  /** The catalog counts add up to the army size. */
  lemma CatalogSumsToArmySize()
    ensures Offset(|AllPieces|) == ArmySize
  {
    OffsetValues();
  }

  /** The first of the consecutive shuffled cells that kind `k` receives. */
  function Start(k: Kind): (r: nat)
    ensures r + Total(k) <= ArmySize
  {
    match k
    case Mar => 0
    case Gen => 1
    case Spy => 2
    case Cap => 3
    case Kad => 5
    case Kaprl => 8
    case Str => 12
    case MinP => 17
    case Pru => 23
    case Bmb => 31
    case Prap => 39
  }

  /** Kind `k`'s block starts after the counts of all kinds before it, and ends where the next begins. */
  lemma StartIsOffset(k: Kind)
    ensures Start(k) == Offset(Pos(k)) && Start(k) + Total(k) == Offset(Pos(k) + 1)
  {
    OffsetValues();
  }

  /** Different kinds receive disjoint blocks of the shuffled cells. */
  lemma BlocksDisjoint(k1: Kind, k2: Kind)
    requires k1 != k2
    ensures Start(k1) + Total(k1) <= Start(k2) || Start(k2) + Total(k2) <= Start(k1)
  {
    PosEntry(k1);
    PosEntry(k2);
    StartIsOffset(k1);
    StartIsOffset(k2);
    if Pos(k1) < Pos(k2) {
      OffsetMonotone(Pos(k1) + 1, Pos(k2));
    } else {
      OffsetMonotone(Pos(k2) + 1, Pos(k1));
    }
  }

  /** The position among catalog entries `j..` whose block holds shuffled position `m`. */
  function BlockFrom(m: nat, j: nat): (b: nat)
    requires j <= |AllPieces| && Offset(j) <= m < ArmySize
    ensures j <= b < |AllPieces| && Offset(b) <= m < Offset(b + 1)
    decreases |AllPieces| - j
  {
    CatalogSumsToArmySize();
    if m < Offset(j + 1) then j else BlockFrom(m, j + 1)
  }

  /** The kind whose block of shuffled cells holds position `m`: every position belongs to one. */
  function KindAt(m: nat): (k: Kind)
    requires m < ArmySize
    ensures Start(k) <= m < Start(k) + Total(k)
  {
    var b := BlockFrom(m, 0);
    EntryAt(b);
    StartIsOffset(AllPieces[b].kind);
    AllPieces[b].kind
  }
}
