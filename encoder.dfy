/**
 * The puzzle-independent clause template (`sudoku_clauses` and its nested
 * helper `valid`). The clauses are built by appending to a list inside
 * nested loops; the functions below describe the list after each prefix
 * of those loops, in the same order, so that every loop invariant is
 * "the list so far equals the function at the loop counters".
 */
module Encoder {
  import opened Numbering
  import opened Cnf
  import opened Groups

  /** "Cell (i, j) holds at least one digit". */
  function AtLeastOne(i: int, j: int): Clause {
    seq(9, k => V(i, j, k + 1))
  }

  /** "Not both (i, j) holds d and (i2, j2) holds d2". */
  function NegPair(i: int, j: int, d: int, i2: int, j2: int, d2: int): Clause {
    [-V(i, j, d), -V(i2, j2, d2)]
  }

  // ---------------------------------------------------------------- cells

  /** Clauses [-v(i,j,d), -v(i,j,dp)] for dp = d+1 .. e-1. */
  function InnerPairs(i: int, j: int, d: int, e: int): seq<Clause> {
    seq(if e <= d + 1 then 0 else e - d - 1, k => NegPair(i, j, d, i, j, d + 1 + k))
  }

  /** The "not two digits" clauses of cell (i, j) for first digits 1 .. n-1. */
  function OuterPairs(i: int, j: int, n: int): seq<Clause>
  {
    if n <= 1 then [] else OuterPairs(i, j, n - 1) + InnerPairs(i, j, n - 1, 10)
  }

  /** The 37 clauses of one cell: one "at least one", 36 "not two". */
  function CellClauses(i: int, j: int): seq<Clause> {
    [AtLeastOne(i, j)] + OuterPairs(i, j, 10)
  }

  /** Cells (i, 1) .. (i, n). */
  function CellRow(i: int, n: int): seq<Clause> {
    if n <= 0 then [] else CellRow(i, n - 1) + CellClauses(i, n)
  }

  /** Rows 1 .. n of cells. */
  function CellRows(n: int): seq<Clause> {
    if n <= 0 then [] else CellRows(n - 1) + CellRow(n, 9)
  }

  // ---------------------------------------------------------------- valid

  /** For digits 1 .. n: not both x and y hold that digit. */
  function DigitClauses(x: Cell, y: Cell, n: nat): seq<Clause> {
    seq(n, k => NegPair(x.0, x.1, k + 1, y.0, y.1, k + 1))
  }

  /** The clauses `valid` emits for the a-th cell against cells 0 .. n-1. */
  function ValidInner(cells: seq<Cell>, a: int, n: int): seq<Clause>
    requires 0 <= a < |cells| && n <= |cells|
  {
    if n <= 0 then [] else ValidInner(cells, a, n - 1) + PairBlock(cells, a, n - 1)
  }

  /** The clauses `valid` emits for the index pair (a, b): none unless a < b. */
  function PairBlock(cells: seq<Cell>, a: int, b: int): seq<Clause>
    requires 0 <= a < |cells| && 0 <= b < |cells|
  {
    if a < b then DigitClauses(cells[a], cells[b], 9) else []
  }

  /** The clauses `valid` emits for first cells 0 .. n-1. */
  function ValidOuter(cells: seq<Cell>, n: int): seq<Clause>
    requires n <= |cells|
  {
    if n <= 0 then [] else ValidOuter(cells, n - 1) + ValidInner(cells, n - 1, |cells|)
  }

  /** Everything `valid(cells)` appends. */
  function ValidClauses(cells: seq<Cell>): seq<Clause> {
    ValidOuter(cells, |cells|)
  }

  // ---------------------------------------------------------------- groups

  /** Rows and columns 1 .. n, row i before column i. */
  function LineClauses(n: int): seq<Clause>
  {
    if n <= 0 then [] else LineClauses(n - 1) + ValidClauses(RowGroup(n)) + ValidClauses(ColGroup(n))
  }

  /** Boxes anchored at (i, Anchors[0]) .. (i, Anchors[n-1]). */
  function BoxRow(i: int, n: int): seq<Clause>
    requires n <= 3
  {
    if n <= 0 then [] else BoxRow(i, n - 1) + ValidClauses(BoxGroup(i, Anchors[n - 1]))
  }

  /** Box rows anchored at Anchors[0] .. Anchors[n-1]. */
  function BoxRows(n: int): seq<Clause>
    requires n <= 3
  {
    if n <= 0 then [] else BoxRows(n - 1) + BoxRow(Anchors[n - 1], 3)
  }

  /** The number of rows, of columns and of digits. */
  const Size := 9

  /** The whole template, phase by phase, in the order `sudoku_clauses` produces it. */
  function Phases(): seq<Clause> {
    CellRows(Size) + LineClauses(Size) + BoxRows(|Anchors|)
  }

  // ---------------------------------------------------------------- layout

  /** Clause r (0 .. 36) of cell (i, j). */
  function CellClauseOf(i: int, j: int, r: int): Clause
    requires 0 <= r < 37
  {
    CellClausesSize(i, j);
    CellClauses(i, j)[r]
  }

  /** Clause r (0 .. 323) that `valid` emits for a group of nine cells. */
  function GroupClauseOf(cells: seq<Cell>, r: int): Clause
    requires |cells| == 9 && 0 <= r < 324
  {
    ValidSize(cells);
    ValidClauses(cells)[r]
  }

  /** Clause k of the cell phase: 333 clauses per row, 37 per cell. */
  function CellClauseAt(k: int): Clause
    requires 0 <= k < 2997
  {
    CellClauseOf(k / 333 + 1, k % 333 / 37 + 1, k % 333 % 37)
  }

  /** Clause k of the line phase: 648 clauses per index i, row i before column i. */
  function LineClauseAt(k: int): Clause
    requires 0 <= k < 5832
  {
    if k % 648 < 324 then GroupClauseOf(RowGroup(k / 648 + 1), k % 648)
    else GroupClauseOf(ColGroup(k / 648 + 1), k % 648 - 324)
  }

  /** The a-th box anchor, counted from 1: Anchors[a - 1] for a = 1, 2, 3. */
  function Anchor(a: int): int {
    3 * a - 2
  }

  lemma AnchorAt(a: int)
    requires 1 <= a <= 3
    ensures Anchors[a - 1] == Anchor(a)
  {
  }

  /** Box (a, b), counted from 1: the box anchored at (Anchors[a - 1], Anchors[b - 1]). */
  function BoxAt(a: int, b: int): seq<Cell> {
    BoxGroup(Anchor(a), Anchor(b))
  }

  /** Clause k of the box phase: 972 clauses per row anchor, 324 per box. */
  function BoxClauseAt(k: int): Clause
    requires 0 <= k < 2916
  {
    GroupClauseOf(BoxAt(k / 972 + 1, k % 972 / 324 + 1), k % 972 % 324)
  }

  // ---------------------------------------------------------------- methods

  /**
   * `valid(cells)`: append, for every index pair a < b and digit d, the
   * clause "cells a and b do not both hold d" to res. The enclosing list
   * the source mutates is passed in and returned. The two inner loops are
   * the methods ValidRow and ValidPair.
   */
  method Valid(res: seq<Clause>, cells: seq<Cell>) returns (out: seq<Clause>)
    ensures out == res + ValidClauses(cells)
  {
    out := res;
    for a := 0 to |cells|
      invariant out == res + ValidOuter(cells, a)
    {
      out := ValidRow(out, cells, a);
      AppendAssoc(res, ValidOuter(cells, a), ValidInner(cells, a, |cells|));
    }
  }

  /** The loop over the second cell of `valid`, for first cell a. */
  method ValidRow(res: seq<Clause>, cells: seq<Cell>, a: int) returns (out: seq<Clause>)
    requires 0 <= a < |cells|
    ensures out == res + ValidInner(cells, a, |cells|)
  {
    out := res;
    for b := 0 to |cells|
      invariant out == res + ValidInner(cells, a, b)
    {
      if a < b {
        out := ValidPair(out, cells[a], cells[b]);
      }
      AppendAssoc(res, ValidInner(cells, a, b), PairBlock(cells, a, b));
    }
  }

  /** The loop over the digits of `valid`, for cells x and y. */
  method ValidPair(res: seq<Clause>, x: Cell, y: Cell) returns (out: seq<Clause>)
    ensures out == res + DigitClauses(x, y, 9)
  {
    out := res;
    for d := 1 to 10
      invariant out == res + DigitClauses(x, y, d - 1)
    {
      out := out + [NegPair(x.0, x.1, d, y.0, y.1, d)];
      assert DigitClauses(x, y, d) == DigitClauses(x, y, d - 1) + [NegPair(x.0, x.1, d, y.0, y.1, d)];
    }
  }

  /** The loops over all cells (i, j) in row-major order. */
  method AppendCells(res: seq<Clause>) returns (out: seq<Clause>)
    ensures out == res + CellRows(Size)
  {
    out := res;
    for i := 1 to 10
      invariant out == res + CellRows(i - 1)
    {
      out := AppendCellRow(out, i);
      AppendAssoc(res, CellRows(i - 1), CellRow(i, 9));
    }
  }

  /** The loop over the cells (i, 1) .. (i, 9) of one row. */
  method AppendCellRow(res: seq<Clause>, i: int) returns (out: seq<Clause>)
    ensures out == res + CellRow(i, 9)
  {
    out := res;
    for j := 1 to 10
      invariant out == res + CellRow(i, j - 1)
    {
      out := AppendCell(out, i, j);
      AppendAssoc(res, CellRow(i, j - 1), CellClauses(i, j));
    }
  }

  /** The loop adding row i and column i for i = 1 .. 9. */
  method AppendLines(res: seq<Clause>) returns (out: seq<Clause>)
    ensures out == res + LineClauses(Size)
  {
    out := res;
    for i := 1 to 10
      invariant out == res + LineClauses(i - 1)
    {
      out := Valid(out, RowGroup(i));
      out := Valid(out, ColGroup(i));
      AppendAssoc(res, LineClauses(i - 1), ValidClauses(RowGroup(i)));
      AppendAssoc(res, LineClauses(i - 1) + ValidClauses(RowGroup(i)), ValidClauses(ColGroup(i)));
    }
  }

  /** The loops over the box anchors 1, 4, 7 for rows and columns. */
  method AppendBoxes(res: seq<Clause>) returns (out: seq<Clause>)
    ensures out == res + BoxRows(|Anchors|)
  {
    out := res;
    for a := 0 to |Anchors|
      invariant out == res + BoxRows(a)
    {
      out := AppendBoxRow(out, Anchors[a]);
      AppendAssoc(res, BoxRows(a), BoxRow(Anchors[a], 3));
    }
  }

  /** The loop over the column anchors, for the boxes whose top row is i. */
  method AppendBoxRow(res: seq<Clause>, i: int) returns (out: seq<Clause>)
    ensures out == res + BoxRow(i, |Anchors|)
  {
    out := res;
    for b := 0 to |Anchors|
      invariant out == res + BoxRow(i, b)
    {
      out := Valid(out, BoxGroup(i, Anchors[b]));
      AppendAssoc(res, BoxRow(i, b), ValidClauses(BoxGroup(i, Anchors[b])));
    }
  }

  /** The body of the cell loop of `sudoku_clauses`, for cell (i, j). */
  method AppendCell(res: seq<Clause>, i: int, j: int) returns (out: seq<Clause>)
    ensures out == res + CellClauses(i, j)
  {
    out := res + [AtLeastOne(i, j)];
    for d := 1 to 10
      invariant out == res + [AtLeastOne(i, j)] + OuterPairs(i, j, d)
    {
      out := AppendPairs(out, i, j, d);
    }
  }

  /** The loop over the second digit dp = d+1 .. 9, for cell (i, j) and first digit d. */
  method AppendPairs(res: seq<Clause>, i: int, j: int, d: int) returns (out: seq<Clause>)
    requires d < 10
    ensures out == res + InnerPairs(i, j, d, 10)
  {
    out := res;
    for dp := d + 1 to 10
      invariant out == res + InnerPairs(i, j, d, dp)
    {
      out := out + [NegPair(i, j, d, i, j, dp)];
      assert InnerPairs(i, j, d, dp + 1) == InnerPairs(i, j, d, dp) + [NegPair(i, j, d, i, j, dp)];
    }
  }

  // ---------------------------------------------------------------- sizes

  /** Number of pairs d < dp with d < n and dp <= 9. */
  function PairCount(n: int): int {
    if n <= 1 then 0 else PairCount(n - 1) + (10 - n)
  }

  lemma {:induction false} OuterPairsSize(i: int, j: int, n: int)
    requires n <= 10
    ensures |OuterPairs(i, j, n)| == PairCount(n)
  {
    if n > 1 {
      OuterPairsSize(i, j, n - 1);
    }
  }

  /** Every cell contributes 1 + 36 clauses. */
  lemma CellClausesSize(i: int, j: int)
    ensures |CellClauses(i, j)| == 37
  {
    OuterPairsSize(i, j, 10);
  }

  lemma {:induction false} CellRowSize(i: int, n: int)
    requires 0 <= n
    ensures |CellRow(i, n)| == 37 * n
  {
    if n > 0 {
      CellRowSize(i, n - 1);
      CellClausesSize(i, n);
    }
  }

  lemma {:induction false} CellRowsSize(n: int)
    requires 0 <= n
    ensures |CellRows(n)| == 333 * n
  {
    if n > 0 {
      CellRowsSize(n - 1);
      CellRowSize(n, 9);
    }
  }

  lemma {:induction false} ValidInnerSize(cells: seq<Cell>, a: int, n: int)
    requires 0 <= a < |cells| && 0 <= n <= |cells|
    ensures |ValidInner(cells, a, n)| == if n <= a then 0 else 9 * (n - 1 - a)
  {
    if n > 0 {
      ValidInnerSize(cells, a, n - 1);
      assert ValidInner(cells, a, n) == ValidInner(cells, a, n - 1) + PairBlock(cells, a, n - 1);
    }
  }

  /** Number of index pairs a < b with a < n and b < m. */
  function Triangle(m: int, n: int): int {
    if n <= 0 then 0 else Triangle(m, n - 1) + (m - n)
  }

  lemma {:induction false} ValidOuterSize(cells: seq<Cell>, n: int)
    requires 0 <= n <= |cells|
    ensures |ValidOuter(cells, n)| == 9 * Triangle(|cells|, n)
  {
    if n > 0 {
      ValidOuterSize(cells, n - 1);
      ValidInnerSize(cells, n - 1, |cells|);
      assert ValidOuter(cells, n) == ValidOuter(cells, n - 1) + ValidInner(cells, n - 1, |cells|);
    }
  }

  /** `valid` on nine cells appends 36 * 9 = 324 clauses. */
  lemma ValidSize(cells: seq<Cell>)
    requires |cells| == 9
    ensures |ValidClauses(cells)| == 324
  {
    ValidOuterSize(cells, 9);
    assert Triangle(9, 9) == 36;
  }

  lemma {:induction false} LineClausesSize(n: int)
    requires 0 <= n
    ensures |LineClauses(n)| == 648 * n
  {
    if n > 0 {
      LineClausesSize(n - 1);
      ValidSize(RowGroup(n));
      ValidSize(ColGroup(n));
    }
  }

  lemma {:induction false} BoxRowSize(i: int, n: int)
    requires 0 <= n <= 3
    ensures |BoxRow(i, n)| == 324 * n
  {
    if n > 0 {
      BoxRowSize(i, n - 1);
      ValidSize(BoxGroup(i, Anchors[n - 1]));
    }
  }

  lemma {:induction false} BoxRowsSize(n: int)
    requires 0 <= n <= 3
    ensures |BoxRows(n)| == 972 * n
  {
    if n > 0 {
      BoxRowsSize(n - 1);
      BoxRowSize(Anchors[n - 1], 3);
    }
  }

  // ---------------------------------------------------------------- layout lemmas

  /** Parts f(1), f(2), .., f(n), one after another. */
  function Concat(f: int -> seq<Clause>, n: int): seq<Clause> {
    if n <= 0 then [] else Concat(f, n - 1) + f(n)
  }

  /** Parts 1 .. n of f all have w clauses. */
  ghost predicate PartsOfWidth(f: int -> seq<Clause>, w: int, n: int) {
    forall q :: 1 <= q <= n ==> |f(q)| == w
  }

  lemma {:induction false} ConcatSize(f: int -> seq<Clause>, w: int, n: int)
    requires 0 <= n && PartsOfWidth(f, w, n)
    ensures |Concat(f, n)| == w * n
  {
    if n > 0 {
      ConcatSize(f, w, n - 1);
      MulStep(w, n);
    }
  }

  /** When every part has w clauses, clause r of part q sits at w * (q - 1) + r. */
  lemma {:induction false} ConcatIndex(f: int -> seq<Clause>, w: int, n: int, q: int, r: int)
    requires 1 <= q <= n && 0 <= r < w && PartsOfWidth(f, w, n)
    ensures 0 <= w * (q - 1) + r < |Concat(f, n)| && Concat(f, n)[w * (q - 1) + r] == f(q)[r]
  {
    ConcatSize(f, w, n);
    ConcatSize(f, w, n - 1);
    Below(w, q - 1, r, n);
    if q < n {
      Below(w, q - 1, r, n - 1);
      ConcatIndex(f, w, n - 1, q, r);
    }
  }

  /** Parts f(1), g(1), f(2), g(2), .., f(n), g(n), one after another. */
  function Concat2(f: int -> seq<Clause>, g: int -> seq<Clause>, n: int): seq<Clause> {
    if n <= 0 then [] else Concat2(f, g, n - 1) + f(n) + g(n)
  }

  lemma {:induction false} Concat2Size(f: int -> seq<Clause>, g: int -> seq<Clause>, w: int, d: int, n: int)
    requires 0 <= n && d == w + w && PartsOfWidth(f, w, n) && PartsOfWidth(g, w, n)
    ensures |Concat2(f, g, n)| == d * n
  {
    if n > 0 {
      Concat2Size(f, g, w, d, n - 1);
      MulStep(d, n);
    }
  }

  /** When every part has w clauses, clause r of f(q) sits at d * (q - 1) + r, with d == 2 * w. */
  lemma {:induction false} Concat2First(f: int -> seq<Clause>, g: int -> seq<Clause>, w: int, d: int, n: int, q: int, r: int)
    requires 1 <= q <= n && 0 <= r < w && d == w + w && PartsOfWidth(f, w, n) && PartsOfWidth(g, w, n)
    ensures 0 <= d * (q - 1) + r < |Concat2(f, g, n)| && Concat2(f, g, n)[d * (q - 1) + r] == f(q)[r]
  {
    Concat2Size(f, g, w, d, n);
    Concat2Size(f, g, w, d, n - 1);
    Below(d, q - 1, r, n);
    if q < n {
      Below(d, q - 1, r, n - 1);
      Concat2First(f, g, w, d, n - 1, q, r);
    }
  }

  /** ... and clause r of g(q) sits w further. */
  lemma {:induction false} Concat2Second(f: int -> seq<Clause>, g: int -> seq<Clause>, w: int, d: int, n: int, q: int, r: int)
    requires 1 <= q <= n && 0 <= r < w && d == w + w && PartsOfWidth(f, w, n) && PartsOfWidth(g, w, n)
    ensures 0 <= d * (q - 1) + w + r < |Concat2(f, g, n)| && Concat2(f, g, n)[d * (q - 1) + w + r] == g(q)[r]
  {
    Concat2Size(f, g, w, d, n);
    Concat2Size(f, g, w, d, n - 1);
    Below(d, q - 1, w + r, n);
    if q < n {
      Below(d, q - 1, w + r, n - 1);
      Concat2Second(f, g, w, d, n - 1, q, r);
    }
  }

  /** The cells of row i as parts: part j is cell (i, j). */
  function CellsOfRow(i: int): int -> seq<Clause> {
    j => CellClauses(i, j)
  }

  /** The rows of cells as parts: part i is row i. */
  function RowOfCells(i: int): seq<Clause> {
    CellRow(i, 9)
  }

  /** The rows as parts: part i is row i. */
  function RowsPart(i: int): seq<Clause> {
    ValidClauses(RowGroup(i))
  }

  /** The columns as parts: part i is column i. */
  function ColsPart(i: int): seq<Clause> {
    ValidClauses(ColGroup(i))
  }

  /** The boxes of box row a as parts: part b is box (a, b). */
  function BoxesOfRow(a: int): int -> seq<Clause> {
    b => ValidClauses(BoxAt(a, b))
  }

  /** The box rows as parts: part a is the box row at row anchor Anchors[a - 1]. */
  function RowOfBoxes(a: int): seq<Clause> {
    BoxRow(Anchor(a), 3)
  }

  lemma {:induction false} CellRowParts(i: int, n: int)
    requires 0 <= n
    ensures CellRow(i, n) == Concat(CellsOfRow(i), n)
  {
    if n > 0 {
      CellRowParts(i, n - 1);
      assert CellsOfRow(i)(n) == CellClauses(i, n);
    }
  }

  lemma {:induction false} CellRowsParts(n: int)
    requires 0 <= n
    ensures CellRows(n) == Concat(RowOfCells, n)
  {
    if n > 0 {
      CellRowsParts(n - 1);
    }
  }

  lemma {:induction false} LineParts(n: int)
    requires 0 <= n
    ensures LineClauses(n) == Concat2(RowsPart, ColsPart, n)
  {
    if n > 0 {
      LineParts(n - 1);
    }
  }

  lemma {:induction false} BoxRowParts(a: int, n: int)
    requires 0 <= n <= 3
    ensures BoxRow(Anchor(a), n) == Concat(BoxesOfRow(a), n)
  {
    if n > 0 {
      BoxRowParts(a, n - 1);
      AnchorAt(n);
      assert BoxesOfRow(a)(n) == ValidClauses(BoxGroup(Anchor(a), Anchors[n - 1]));
    }
  }

  lemma {:induction false} BoxRowsParts(n: int)
    requires 0 <= n <= 3
    ensures BoxRows(n) == Concat(RowOfBoxes, n)
  {
    if n > 0 {
      BoxRowsParts(n - 1);
      AnchorAt(n);
    }
  }

  /** Clause r of cell (i, j) sits at 37 * (j - 1) + r of row i. */
  lemma CellInRowAt(i: int, j: int, r: int)
    requires 1 <= j <= 9 && 0 <= r < 37
    ensures 0 <= 37 * (j - 1) + r < |CellRow(i, 9)| && CellRow(i, 9)[37 * (j - 1) + r] == CellClauseOf(i, j, r)
  {
    var f := CellsOfRow(i);
    CellRowParts(i, 9);
    forall q | 1 <= q <= 9
      ensures |f(q)| == 37
    {
      CellClausesSize(i, q);
    }
    assert PartsOfWidth(f, 37, 9);
    ConcatIndex(f, 37, 9, j, r);
  }

  lemma RowsOfCellsWidth(n: int)
    ensures PartsOfWidth(RowOfCells, 333, n)
  {
    forall i | 1 <= i <= n
      ensures |RowOfCells(i)| == 333
    {
      CellRowSize(i, 9);
    }
  }

  /** Clause r of cell (i, j) sits at 333 * (i - 1) + 37 * (j - 1) + r of rows 1 .. n. */
  lemma CellInRowsAt(n: int, i: int, j: int, r: int)
    requires 1 <= i <= n && 1 <= j <= 9 && 0 <= r < 37
    ensures 0 <= 333 * (i - 1) + (37 * (j - 1) + r) < |CellRows(n)|
    ensures CellRows(n)[333 * (i - 1) + (37 * (j - 1) + r)] == CellClauseOf(i, j, r)
  {
    var f: int -> seq<Clause> := RowOfCells;
    CellRowsParts(n);
    RowsOfCellsWidth(n);
    CellOffset(j, r);
    ConcatIndex(f, 333, n, i, 37 * (j - 1) + r);
    CellInRowAt(i, j, r);
    var x := 37 * (j - 1) + r;
    assert f(i) == CellRow(i, 9);
    assert f(i)[x] == CellClauseOf(i, j, r);
    assert Concat(f, n)[333 * (i - 1) + x] == CellClauseOf(i, j, r);
  }

  /** Rows 1 .. n of cells, clause by clause: clause r of cell (i, j) sits at 333 * (i - 1) + 37 * (j - 1) + r. */
  lemma CellRowsAt(n: int)
    requires 0 <= n <= 9
    ensures |CellRows(n)| == 333 * n
    ensures forall i, j, r :: 1 <= i <= n && 1 <= j <= 9 && 0 <= r < 37 ==>
      CellRows(n)[333 * (i - 1) + 37 * (j - 1) + r] == CellClauseOf(i, j, r)
  {
    CellRowsSize(n);
    forall i, j, r | 1 <= i <= n && 1 <= j <= 9 && 0 <= r < 37
      ensures CellRows(n)[333 * (i - 1) + 37 * (j - 1) + r] == CellClauseOf(i, j, r)
    {
      CellInRowsAt(n, i, j, r);
    }
  }

  /** Rows and columns 1 .. n, clause by clause: row i from 648 * (i - 1), column i 324 further. */
  lemma LineClausesAt(n: int)
    requires 0 <= n <= 9
    ensures |LineClauses(n)| == 648 * n
    ensures forall i, r :: 1 <= i <= n && 0 <= r < 324 ==>
      LineClauses(n)[648 * (i - 1) + r] == GroupClauseOf(RowGroup(i), r) &&
      LineClauses(n)[648 * (i - 1) + 324 + r] == GroupClauseOf(ColGroup(i), r)
  {
    var f: int -> seq<Clause> := RowsPart;
    var g: int -> seq<Clause> := ColsPart;
    LineParts(n);
    forall i | 1 <= i <= n
      ensures |f(i)| == 324 && |g(i)| == 324
    {
      ValidSize(RowGroup(i));
      ValidSize(ColGroup(i));
    }
    assert PartsOfWidth(f, 324, n) && PartsOfWidth(g, 324, n);
    Concat2Size(f, g, 324, 648, n);
    forall i, r | 1 <= i <= n && 0 <= r < 324
      ensures LineClauses(n)[648 * (i - 1) + r] == GroupClauseOf(RowGroup(i), r)
      ensures LineClauses(n)[648 * (i - 1) + 324 + r] == GroupClauseOf(ColGroup(i), r)
    {
      Concat2First(f, g, 324, 648, n, i, r);
      Concat2Second(f, g, 324, 648, n, i, r);
    }
  }

  /** Clause r of box (a, b) sits at 324 * (b - 1) + r of box row a. */
  lemma BoxInRowAt(a: int, b: int, r: int)
    requires 1 <= a <= 3 && 1 <= b <= 3 && 0 <= r < 324
    ensures 0 <= 324 * (b - 1) + r < |BoxRow(Anchor(a), 3)| && BoxRow(Anchor(a), 3)[324 * (b - 1) + r] == GroupClauseOf(BoxAt(a, b), r)
  {
    var f := BoxesOfRow(a);
    BoxRowParts(a, 3);
    forall q | 1 <= q <= 3
      ensures |f(q)| == 324
    {
      ValidSize(BoxAt(a, q));
    }
    assert PartsOfWidth(f, 324, 3);
    ConcatIndex(f, 324, 3, b, r);
  }

  lemma RowsOfBoxesWidth(n: int)
    ensures PartsOfWidth(RowOfBoxes, 972, n)
  {
    forall a | 1 <= a <= n
      ensures |RowOfBoxes(a)| == 972
    {
      BoxRowSize(Anchor(a), 3);
    }
  }

  /** Clause r of box (a, b) sits at 972 * (a - 1) + 324 * (b - 1) + r of box rows 1 .. n. */
  lemma BoxInRowsAt(n: int, a: int, b: int, r: int)
    requires 1 <= a <= n <= 3 && 1 <= b <= 3 && 0 <= r < 324
    ensures 0 <= 972 * (a - 1) + (324 * (b - 1) + r) < |BoxRows(n)|
    ensures BoxRows(n)[972 * (a - 1) + (324 * (b - 1) + r)] == GroupClauseOf(BoxAt(a, b), r)
  {
    var f: int -> seq<Clause> := RowOfBoxes;
    BoxRowsParts(n);
    RowsOfBoxesWidth(n);
    BoxOffset(b, r);
    ConcatIndex(f, 972, n, a, 324 * (b - 1) + r);
    BoxInRowAt(a, b, r);
    var x := 324 * (b - 1) + r;
    assert f(a) == BoxRow(Anchor(a), 3);
    assert f(a)[x] == GroupClauseOf(BoxAt(a, b), r);
    assert Concat(f, n)[972 * (a - 1) + x] == GroupClauseOf(BoxAt(a, b), r);
    assert BoxRows(n)[972 * (a - 1) + x] == GroupClauseOf(BoxAt(a, b), r);
  }

  /** Box rows 1 .. n, clause by clause: box (a, b) from 972 * (a - 1) + 324 * (b - 1). */
  lemma BoxRowsAt(n: int)
    requires 0 <= n <= 3
    ensures |BoxRows(n)| == 972 * n
    ensures forall a, b, r :: 1 <= a <= n && 1 <= b <= 3 && 0 <= r < 324 ==>
      BoxRows(n)[972 * (a - 1) + 324 * (b - 1) + r] == GroupClauseOf(BoxAt(a, b), r)
  {
    BoxRowsSize(n);
    forall a, b, r | 1 <= a <= n && 1 <= b <= 3 && 0 <= r < 324
      ensures BoxRows(n)[972 * (a - 1) + 324 * (b - 1) + r] == GroupClauseOf(BoxAt(a, b), r)
    {
      BoxInRowsAt(n, a, b, r);
    }
  }

  /** Slot q of width m, offset r, lies below n slots. */
  lemma {:induction false} Below(m: int, q: int, r: int, n: int)
    requires 0 <= q < n && 0 <= r < m
    ensures 0 <= m * q + r < m * n
  {
    if q < n - 1 {
      Below(m, q, r, n - 1);
    }
    MulStep(m, n);
  }

  lemma MulStep(m: int, n: int)
    ensures m * n == m * (n - 1) + m
  {
  }

  lemma CellOffset(j: int, r: int)
    requires 1 <= j <= 9 && 0 <= r < 37
    ensures 0 <= 37 * (j - 1) + r < 333
  {
    Below(37, j - 1, r, 9);
  }

  lemma BoxOffset(b: int, r: int)
    requires 1 <= b <= 3 && 0 <= r < 324
    ensures 0 <= 324 * (b - 1) + r < 972
  {
    Below(324, b - 1, r, 3);
  }

  /** A cell-phase position is clause r of cell (i, j). */
  lemma CellSplit(k: int) returns (i: int, j: int, r: int)
    requires 0 <= k < 2997
    ensures 1 <= i <= 9 && 1 <= j <= 9 && 0 <= r < 37 && k == 333 * (i - 1) + 37 * (j - 1) + r
    ensures CellClauseAt(k) == CellClauseOf(i, j, r)
  {
    i, j, r := CellDigits(k);
  }

  lemma CellDigits(k: int) returns (i: int, j: int, r: int)
    requires 0 <= k < 2997
    ensures i == k / 333 + 1 && j == k % 333 / 37 + 1 && r == k % 333 % 37
    ensures 1 <= i <= 9 && 1 <= j <= 9 && 0 <= r < 37 && k == 333 * (i - 1) + 37 * (j - 1) + r
  {
    i, j, r := k / 333 + 1, k % 333 / 37 + 1, k % 333 % 37;
  }

  /** A line-phase position is clause r of row i, or of column i when col holds. */
  lemma LineSplit(k: int) returns (i: int, col: bool, r: int)
    requires 0 <= k < 5832
    ensures 1 <= i <= 9 && 0 <= r < 324 && k == 648 * (i - 1) + (if col then 324 else 0) + r
    ensures LineClauseAt(k) == GroupClauseOf(if col then ColGroup(i) else RowGroup(i), r)
  {
    i, col, r := LineDigits(k);
  }

  lemma LineDigits(k: int) returns (i: int, col: bool, r: int)
    requires 0 <= k < 5832
    ensures i == k / 648 + 1 && col == (k % 648 >= 324) && r == (if col then k % 648 - 324 else k % 648)
    ensures 1 <= i <= 9 && 0 <= r < 324 && k == 648 * (i - 1) + (if col then 324 else 0) + r
  {
    i, col := k / 648 + 1, k % 648 >= 324;
    r := if col then k % 648 - 324 else k % 648;
  }

  /** A box-phase position is clause r of box (a, b). */
  lemma BoxSplit(k: int) returns (a: int, b: int, r: int)
    requires 0 <= k < 2916
    ensures 1 <= a <= 3 && 1 <= b <= 3 && 0 <= r < 324 && k == 972 * (a - 1) + 324 * (b - 1) + r
    ensures BoxClauseAt(k) == GroupClauseOf(BoxAt(a, b), r)
  {
    a, b, r := BoxDigits(k);
  }

  lemma BoxDigits(k: int) returns (a: int, b: int, r: int)
    requires 0 <= k < 2916
    ensures a == k / 972 + 1 && b == k % 972 / 324 + 1 && r == k % 972 % 324
    ensures 1 <= a <= 3 && 1 <= b <= 3 && 0 <= r < 324 && k == 972 * (a - 1) + 324 * (b - 1) + r
  {
    a, b, r := k / 972 + 1, k % 972 / 324 + 1, k % 972 % 324;
  }

  /** Clause r of cell (i, j) sits at cell-phase position 333 * (i - 1) + 37 * (j - 1) + r. */
  lemma CellJoin(i: int, j: int, r: int) returns (k: int)
    requires 1 <= i <= 9 && 1 <= j <= 9 && 0 <= r < 37
    ensures 0 <= k < 2997 && CellClauseAt(k) == CellClauseOf(i, j, r)
  {
    CellOffset(j, r);
    Below(333, i - 1, 37 * (j - 1) + r, 9);
    k := 333 * (i - 1) + 37 * (j - 1) + r;
    DivMod333(k, i - 1, 37 * (j - 1) + r);
    DivMod37(37 * (j - 1) + r, j - 1, r);
    assert (k / 333 + 1, k % 333 / 37 + 1, k % 333 % 37) == (i, j, r);
  }

  /** Clause r of row i sits at line-phase position 648 * (i - 1) + r, of column i 324 further. */
  lemma LineJoin(i: int, col: bool, r: int) returns (k: int)
    requires 1 <= i <= 9 && 0 <= r < 324
    ensures 0 <= k < 5832
    ensures LineClauseAt(k) == GroupClauseOf(if col then ColGroup(i) else RowGroup(i), r)
  {
    var off := (if col then 324 else 0) + r;
    Below(648, i - 1, off, 9);
    k := 648 * (i - 1) + off;
    DivMod648(k, i - 1, off);
  }

  /** Clause r of box (a, b) sits at box-phase position 972 * (a - 1) + 324 * (b - 1) + r. */
  lemma BoxJoin(a: int, b: int, r: int) returns (k: int)
    requires 1 <= a <= 3 && 1 <= b <= 3 && 0 <= r < 324
    ensures 0 <= k < 2916 && BoxClauseAt(k) == GroupClauseOf(BoxAt(a, b), r)
  {
    BoxOffset(b, r);
    Below(972, a - 1, 324 * (b - 1) + r, 3);
    k := 972 * (a - 1) + 324 * (b - 1) + r;
    DivMod972(k, a - 1, 324 * (b - 1) + r);
    DivMod324(324 * (b - 1) + r, b - 1, r);
    assert (k / 972 + 1, k % 972 / 324 + 1, k % 972 % 324) == (a, b, r);
  }

  // Quotient and remainder by the phase widths.

  lemma DivMod333(x: int, q: int, r: int)
    requires 0 <= r < 333 && x == 333 * q + r
    ensures x / 333 == q && x % 333 == r
  {
  }

  lemma DivMod37(x: int, q: int, r: int)
    requires 0 <= r < 37 && x == 37 * q + r
    ensures x / 37 == q && x % 37 == r
  {
  }

  lemma DivMod648(x: int, q: int, r: int)
    requires 0 <= r < 648 && x == 648 * q + r
    ensures x / 648 == q && x % 648 == r
  {
  }

  lemma DivMod972(x: int, q: int, r: int)
    requires 0 <= r < 972 && x == 972 * q + r
    ensures x / 972 == q && x % 972 == r
  {
  }

  lemma DivMod324(x: int, q: int, r: int)
    requires 0 <= r < 324 && x == 324 * q + r
    ensures x / 324 == q && x % 324 == r
  {
  }

  /** Concatenation of clause lists is associative. */
  lemma AppendAssoc(a: seq<Clause>, b: seq<Clause>, c: seq<Clause>)
    ensures (a + b) + c == a + (b + c)
  {
  }

  lemma AppendEmpty(a: seq<Clause>)
    ensures [] + a == a
  {
  }
}
