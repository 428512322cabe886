/**
 * The template `sudoku_clauses` returns, as a list indexed by clause
 * number, and the method itself. The indexed form says directly which
 * clause sits at which position; it is kept apart from the loop-order
 * functions of module Encoder so that each module's proofs see only one
 * of the two descriptions.
 */
module Clauses {
  import opened Cnf
  import opened Groups
  import opened Encoder

  /** The cell phase, indexed: clause k is CellClauseAt(k). */
  function CellPhase(): (cells: seq<Clause>)
    ensures |cells| == 2997
  {
    seq(2997, k requires 0 <= k < 2997 => CellClauseAt(k))
  }

  /** The row and column phase, indexed: clause k is LineClauseAt(k). */
  function LinePhase(): (lines: seq<Clause>)
    ensures |lines| == 5832
  {
    seq(5832, k requires 0 <= k < 5832 => LineClauseAt(k))
  }

  /** The box phase, indexed: clause k is BoxClauseAt(k). */
  function BoxPhase(): (boxes: seq<Clause>)
    ensures |boxes| == 2916
  {
    seq(2916, k requires 0 <= k < 2916 => BoxClauseAt(k))
  }

  /**
   * The template as a list indexed by clause number: 2997 cell clauses,
   * 5832 line clauses, 2916 box clauses. `PhasesAreTemplate` proves it
   * equal to `Phases()`, the loops' own order.
   */
  function Template(): (t: seq<Clause>)
    ensures |t| == 11745
  {
    CellPhase() + LinePhase() + BoxPhase()
  }

  /**
   * The loops produce the template clause by clause: 81 * (1 + 36) cell
   * clauses, then 27 * 324 group clauses, 11745 in all.
   */
  lemma PhasesAreTemplate()
    ensures Phases() == Template()
  {
    PhasesIndexed(Size, |Anchors|);
    IndexedTemplate(CellRows(Size), LineClauses(Size), BoxRows(|Anchors|));
  }

  /** A list holding, for rows 1 .. n, clause r of cell (i, j) at 333 * (i - 1) + 37 * (j - 1) + r. */
  ghost predicate IsCellPhase(cells: seq<Clause>, n: int) {
    |cells| == 333 * n &&
    forall i, j, r :: 1 <= i <= n && 1 <= j <= 9 && 0 <= r < 37 ==>
      cells[333 * (i - 1) + 37 * (j - 1) + r] == CellClauseOf(i, j, r)
  }

  /** A list holding, for i = 1 .. n, clause r of row i at 648 * (i - 1) + r and of column i 324 further. */
  ghost predicate IsLinePhase(lines: seq<Clause>, n: int) {
    |lines| == 648 * n &&
    forall i, r :: 1 <= i <= n && 0 <= r < 324 ==>
      lines[648 * (i - 1) + r] == GroupClauseOf(RowGroup(i), r) &&
      lines[648 * (i - 1) + 324 + r] == GroupClauseOf(ColGroup(i), r)
  }

  /** A list holding, for box rows 1 .. n, clause r of box (a, b) at 972 * (a - 1) + 324 * (b - 1) + r. */
  ghost predicate IsBoxPhase(boxes: seq<Clause>, n: int) {
    |boxes| == 972 * n &&
    forall a, b, r :: 1 <= a <= n && 1 <= b <= 3 && 0 <= r < 324 ==>
      boxes[972 * (a - 1) + 324 * (b - 1) + r] == GroupClauseOf(BoxAt(a, b), r)
  }

  /** The loop-order phases for n rows (and m box rows) agree clause by clause with the indexed form. */
  lemma PhasesIndexed(n: int, m: int)
    requires 0 <= n <= 9 && 0 <= m <= 3
    ensures IsCellPhase(CellRows(n), n) && IsLinePhase(LineClauses(n), n) && IsBoxPhase(BoxRows(m), m)
  {
    CellRowsAt(n);
    LineClausesAt(n);
    BoxRowsAt(m);
  }

  lemma CellPhasePosition(cells: seq<Clause>, k: int)
    requires IsCellPhase(cells, Size) && 0 <= k < 2997
    ensures cells[k] == CellClauseAt(k)
  {
    var i, j, r := CellSplit(k);
  }

  lemma LinePhasePosition(lines: seq<Clause>, k: int)
    requires IsLinePhase(lines, Size) && 0 <= k < 5832
    ensures lines[k] == LineClauseAt(k)
  {
    var i, col, r := LineSplit(k);
  }

  lemma BoxPhasePosition(boxes: seq<Clause>, k: int)
    requires IsBoxPhase(boxes, |Anchors|) && 0 <= k < 2916
    ensures boxes[k] == BoxClauseAt(k)
  {
    var a, b, r := BoxSplit(k);
  }

  /** Three lists that agree with the three phases clause by clause make up the template. */
  lemma IndexedTemplate(cells: seq<Clause>, lines: seq<Clause>, boxes: seq<Clause>)
    requires IsCellPhase(cells, Size) && IsLinePhase(lines, Size) && IsBoxPhase(boxes, |Anchors|)
    ensures cells + lines + boxes == Template()
  {
    forall k | 0 <= k < 2997 ensures cells[k] == CellPhase()[k] {
      CellPhasePosition(cells, k);
    }
    forall k | 0 <= k < 5832 ensures lines[k] == LinePhase()[k] {
      LinePhasePosition(lines, k);
    }
    forall k | 0 <= k < 2916 ensures boxes[k] == BoxPhase()[k] {
      BoxPhasePosition(boxes, k);
    }
    assert cells == CellPhase() && lines == LinePhase() && boxes == BoxPhase();
  }

  /**
   * `sudoku_clauses`: the 11745 clauses every Sudoku solution satisfies.
   * Its three phases (cells, rows and columns, boxes) are the methods
   * AppendCells, AppendLines and AppendBoxes.
   */
  method SudokuClauses() returns (res: seq<Clause>)
    ensures res == Template()
    ensures |res| == 81 * (1 + 36) + 27 * 324
  {
    res := AppendCells([]);
    AppendEmpty(CellRows(Size));
    res := AppendLines(res);
    res := AppendBoxes(res);
    PhasesAreTemplate();
  }
}
