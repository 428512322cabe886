/**
 * The 27 groups of nine cells that must hold distinct digits: 9 rows,
 * 9 columns and the 9 boxes of 3x3 cells. A cell is a (row, column) pair,
 * both counted from 1, and a group is the ordered list of its nine cells
 * in the order the encoder enumerates them.
 */
module Groups {
  import opened Numbering

  type Cell = (int, int)

  /** The row and column anchors of the boxes' top-left cells. */
  const Anchors: seq<int> := [1, 4, 7]

  predicate CellInRange(p: Cell) {
    InRange(p.0) && InRange(p.1)
  }

  /** Row i: cells (i, 1) .. (i, 9). */
  function RowGroup(i: int): seq<Cell> {
    seq(9, k => (i, k + 1))
  }

  /** Column i: cells (1, i) .. (9, i). */
  function ColGroup(i: int): seq<Cell> {
    seq(9, k => (k + 1, i))
  }

  /** The k-th cell of the box anchored at (i, j), read column by column. */
  function BoxCell(i: int, j: int, k: int): Cell {
    (i + k % 3, j + k / 3)
  }

  function BoxGroup(i: int, j: int): seq<Cell> {
    seq(9, k => BoxCell(i, j, k))
  }

  /** The anchor of the box band that index x (1..9) falls into: 1, 4 or 7. */
  function BandAnchor(x: int): int {
    if x <= 3 then 1 else if x <= 6 then 4 else 7
  }

  /** Two cells share a row, a column or a box. */
  predicate SameGroup(p: Cell, q: Cell) {
    p.0 == q.0 || p.1 == q.1 || (BandAnchor(p.0) == BandAnchor(q.0) && BandAnchor(p.1) == BandAnchor(q.1))
  }

  /** Nine in-range cells, pairwise distinct, all in one row, column or box. */
  ghost predicate GoodGroup(cells: seq<Cell>) {
    && |cells| == 9
    && (forall a :: 0 <= a < 9 ==> CellInRange(cells[a]))
    && (forall a, b :: 0 <= a < b < 9 ==> cells[a] != cells[b] && SameGroup(cells[a], cells[b]))
  }

  lemma RowGroupGood(i: int)
    requires InRange(i)
    ensures GoodGroup(RowGroup(i))
  {
  }

  lemma ColGroupGood(i: int)
    requires InRange(i)
    ensures GoodGroup(ColGroup(i))
  {
  }

  /** A box cell stays inside the box's bands. */
  lemma BoxCellBand(i: int, j: int, k: int)
    requires i in Anchors && j in Anchors && 0 <= k < 9
    ensures CellInRange(BoxCell(i, j, k))
    ensures BandAnchor(BoxCell(i, j, k).0) == i && BandAnchor(BoxCell(i, j, k).1) == j
  {
  }

  lemma BoxGroupGood(i: int, j: int)
    requires i in Anchors && j in Anchors
    ensures GoodGroup(BoxGroup(i, j))
  {
    var g := BoxGroup(i, j);
    forall a | 0 <= a < 9 ensures CellInRange(g[a]) {
      BoxCellBand(i, j, a);
    }
    forall a, b | 0 <= a < b < 9 ensures g[a] != g[b] && SameGroup(g[a], g[b]) {
      BoxCellBand(i, j, a);
      BoxCellBand(i, j, b);
      BoxCellIndex(i, j, a);
      BoxCellIndex(i, j, b);
    }
  }

  /** The position of a box cell determines its index within the box. */
  lemma BoxCellIndex(i: int, j: int, k: int)
    requires 0 <= k < 9
    ensures k == (BoxCell(i, j, k).0 - i) + 3 * (BoxCell(i, j, k).1 - j)
  {
  }

  /** Every in-range cell lies in the box anchored at its bands ... */
  lemma BoxCovers(r: int, c: int)
    requires InRange(r) && InRange(c)
    ensures BandAnchor(r) in Anchors && BandAnchor(c) in Anchors
    ensures 0 <= (r - BandAnchor(r)) + 3 * (c - BandAnchor(c)) < 9
    ensures BoxGroup(BandAnchor(r), BandAnchor(c))[(r - BandAnchor(r)) + 3 * (c - BandAnchor(c))] == (r, c)
  {
    BandOf(r);
    BandOf(c);
    var i, j := BandAnchor(r), BandAnchor(c);
    var k := (r - i) + 3 * (c - j);
    Triple(c - j);
    DivMod3(k, c - j, r - i);
    assert BoxGroup(i, j)[k] == BoxCell(i, j, k) == (i + (r - i), j + (c - j));
  }

  lemma Triple(y: int)
    ensures 3 * y == y + y + y
  {
  }

  /** ... and in no other box, at no other index: the boxes partition the grid. */
  lemma BoxUnique(i: int, j: int, k: int, r: int, c: int)
    requires i in Anchors && j in Anchors && 0 <= k < 9
    requires BoxGroup(i, j)[k] == (r, c)
    ensures i == BandAnchor(r) && j == BandAnchor(c)
    ensures k == (r - BandAnchor(r)) + 3 * (c - BandAnchor(c))
  {
    BoxCellBand(i, j, k);
    BoxCellIndex(i, j, k);
  }

  /** Index x (1..9) lies in the band of its anchor, at offset 0, 1 or 2. */
  lemma BandOf(x: int)
    requires InRange(x)
    ensures BandAnchor(x) in Anchors && 0 <= x - BandAnchor(x) < 3
  {
  }

  lemma DivMod3(x: int, q: int, r: int)
    requires 0 <= r < 3 && x == 3 * q + r
    ensures x / 3 == q && x % 3 == r
  {
  }
}
