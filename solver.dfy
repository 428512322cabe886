/**
 * Solving one puzzle: the clue clauses added to the template, the call to
 * the SAT engine, and the decoding of the engine's model back into the
 * grid, cell by cell; and the uniqueness test that blocks the first model
 * and asks the engine again.
 *
 * The SAT engine is a parameter: any total function from a clause list to
 * a `SolverResult`. What the engine must promise for the answers to be
 * right is stated as hypotheses of the lemmas in module Correctness.
 */
module Solver {
  import opened Numbering
  import opened Cnf
  import opened Encoder
  import opened Clauses

  datatype Option<T> = None | Some(value: T)

  /** A grid read row by row, 0 for an empty cell. */
  type Board = seq<seq<int>>

  predicate IsBoard(g: Board) {
    |g| == 9 && forall r :: 0 <= r < 9 ==> |g[r]| == 9
  }

  /** The values held by a 9x9 array. */
  function Snapshot(grid: array2<int>): (g: Board)
    requires grid.Length0 == 9 && grid.Length1 == 9
    reads grid
    ensures IsBoard(g)
    ensures forall r, c :: 0 <= r < 9 && 0 <= c < 9 ==> g[r][c] == grid[r, c]
  {
    seq(9, r requires 0 <= r < 9 reads grid => seq(9, c requires 0 <= c < 9 reads grid => grid[r, c]))
  }

  // ------------------------------------------------------- clues

  /** The unit clause for the value of cell (i, j), if the cell is not empty. */
  function ClueAt(g: Board, i: int, j: int): seq<Clause>
    requires IsBoard(g) && InRange(i) && InRange(j)
  {
    if g[i - 1][j - 1] != 0 then [[V(i, j, g[i - 1][j - 1])]] else []
  }

  /** The clue clauses of cells (i, 1) .. (i, n). */
  function ClueRow(g: Board, i: int, n: int): seq<Clause>
    requires IsBoard(g) && InRange(i) && 0 <= n <= 9
    decreases g, n
  {
    if n == 0 then [] else ClueRow(g, i, n - 1) + ClueAt(g, i, n)
  }

  /** The clue clauses of rows 1 .. m. */
  function ClueRows(g: Board, m: int): seq<Clause>
    requires IsBoard(g) && 0 <= m <= 9
    decreases g, m
  {
    if m == 0 then [] else ClueRows(g, m - 1) + ClueRow(g, m, 9)
  }

  /** One unit clause per non-empty cell, in row-major order. */
  function Clues(g: Board): seq<Clause>
    requires IsBoard(g)
  {
    ClueRows(g, 9)
  }

  /** The clause list handed to the engine for puzzle g. */
  function Instance(g: Board): seq<Clause>
    requires IsBoard(g)
  {
    Template() + Clues(g)
  }

  lemma InstanceOf(clauses: seq<Clause>, g: Board)
    requires IsBoard(g) && clauses == Template() + Clues(g)
    ensures clauses == Instance(g)
  {
  }

  /** Adds the clue clauses of the grid after the given clauses. */
  method InjectClues(clauses: seq<Clause>, grid: array2<int>) returns (res: seq<Clause>)
    requires grid.Length0 == 9 && grid.Length1 == 9
    ensures res == clauses + Clues(Snapshot(grid))
  {
    ghost var g := Snapshot(grid);
    res := clauses;
    for i := 1 to 10
      invariant res == clauses + ClueRows(g, i - 1)
    {
      ghost var rowStart := res;
      for j := 1 to 10
        invariant res == rowStart + ClueRow(g, i, j - 1)
      {
        var d := grid[i - 1, j - 1];
        if d != 0 {
          res := res + [[V(i, j, d)]];
        }
        AppendAssoc(rowStart, ClueRow(g, i, j - 1), ClueAt(g, i, j));
      }
      AppendAssoc(clauses, ClueRows(g, i - 1), ClueRow(g, i, 9));
    }
  }

  // ------------------------------------------------------- decoding

  /** The first digit d' >= d (up to 9) whose variable for cell (i, j) the model makes true. */
  function FirstDigitFrom(sol: seq<int>, i: int, j: int, d: int): (r: Option<int>)
    decreases sol, 10 - d
    ensures r.Some? ==> d <= r.value <= 9 && V(i, j, r.value) in sol
    ensures r.Some? ==> forall e :: d <= e < r.value ==> V(i, j, e) !in sol
    ensures r.None? ==> forall e :: d <= e <= 9 ==> V(i, j, e) !in sol
  {
    if d > 9 then None
    else if V(i, j, d) in sol then Some(d)
    else FirstDigitFrom(sol, i, j, d + 1)
  }

  /** The digit the model gives cell (i, j): the smallest one whose variable is true. */
  function CellValue(sol: seq<int>, i: int, j: int): Option<int> {
    FirstDigitFrom(sol, i, j, 1)
  }

  /** The digit written into cell (i, j), 0 when the model gives none. */
  function DigitOrZero(sol: seq<int>, i: int, j: int): int {
    match CellValue(sol, i, j)
    case Some(d) => d
    case None => 0
  }

  /** The grid the model describes. */
  function DecodedGrid(sol: seq<int>): (h: Board)
    ensures IsBoard(h)
    ensures forall r, c :: 0 <= r < 9 && 0 <= c < 9 ==> h[r][c] == DigitOrZero(sol, r + 1, c + 1)
  {
    seq(9, r => seq(9, c => DigitOrZero(sol, r + 1, c + 1)))
  }

  /** Looks up the digit of cell (i, j) in the model. */
  method ReadCell(sol: seq<int>, i: int, j: int) returns (r: Option<int>)
    ensures r == CellValue(sol, i, j)
    ensures r.Some? ==> InRange(r.value) && V(i, j, r.value) in sol
    ensures r.Some? ==> forall e :: 1 <= e < r.value ==> V(i, j, e) !in sol
    ensures r.None? ==> forall e :: InRange(e) ==> V(i, j, e) !in sol
  {
    for d := 1 to 10
      invariant CellValue(sol, i, j) == FirstDigitFrom(sol, i, j, d)
    {
      if V(i, j, d) in sol {
        return Some(d);
      }
    }
    return None;
  }

  /** How a call to `solve` ends. */
  datatype Outcome =
    | Solved
    | Unsatisfiable
    | Undecodable(row: int, col: int)

  /** Cell number k (from 0) of the order the write-back visits the cells in: row by row. */
  function RowMajorCell(k: int): (int, int) {
    (k / 9 + 1, k % 9 + 1)
  }

  /** Cell (i, j) is number k = 9 * (i - 1) + (j - 1) of the row-major order. */
  lemma RowMajorAt(i: int, j: int) returns (k: int)
    requires InRange(i) && InRange(j)
    ensures k == 9 * (i - 1) + (j - 1) && 0 <= k < 81 && RowMajorCell(k) == (i, j)
  {
    k := 9 * (i - 1) + (j - 1);
    DivMod9(k, i - 1, j - 1);
  }

  /** The model gives a digit to cell number k of the row-major order. */
  predicate HasDigit(sol: seq<int>, k: int) {
    CellValue(sol, RowMajorCell(k).0, RowMajorCell(k).1).Some?
  }

  /** The first cell, from number k of the row-major order on, that the model gives no digit. */
  function FirstGap(sol: seq<int>, k: int): (r: Option<(int, int)>)
    requires 0 <= k <= 81
    decreases sol, 81 - k
    ensures r.Some? ==> InRange(r.value.0) && InRange(r.value.1) && CellValue(sol, r.value.0, r.value.1).None?
    ensures r.None? ==> forall m :: k <= m < 81 ==> HasDigit(sol, m)
  {
    if k == 81 then None
    else if !HasDigit(sol, k) then Some(RowMajorCell(k))
    else FirstGap(sol, k + 1)
  }

  /** What decoding the model into the grid ends with. */
  function DecodeOutcome(sol: seq<int>): Outcome {
    match FirstGap(sol, 0)
    case None => Solved
    case Some(p) => Undecodable(p.0, p.1)
  }

  /**
   * The number of cells, in row-major order, that decoding writes before it
   * stops: all 81, or those before the first cell without a digit.
   */
  function Written(outcome: Outcome): int {
    match outcome
    case Undecodable(i, j) => 9 * (i - 1) + (j - 1)
    case _ => 81
  }

  /** The model gives a digit to each of the first k cells in row-major order. */
  ghost predicate DecodedBefore(sol: seq<int>, k: int) {
    forall m :: 0 <= m < k ==> HasDigit(sol, m)
  }

  /** With no gap among the first k cells, the scan may as well start at cell k. */
  lemma {:induction false} FirstGapFrom(sol: seq<int>, k: int)
    requires 0 <= k <= 81 && DecodedBefore(sol, k)
    ensures FirstGap(sol, 0) == FirstGap(sol, k)
  {
    if k > 0 {
      assert DecodedBefore(sol, k - 1);
      FirstGapFrom(sol, k - 1);
      FirstGapStep(sol, k - 1);
    }
  }

  /** A scan that starts at a cell with a digit goes on with the next cell. */
  lemma FirstGapStep(sol: seq<int>, k: int)
    requires 0 <= k < 81 && HasDigit(sol, k)
    ensures FirstGap(sol, k) == FirstGap(sol, k + 1)
  {
  }

  /** The first cell without a digit is where decoding stops. */
  lemma StopsAtGap(sol: seq<int>, i: int, j: int)
    requires InRange(i) && InRange(j) && DecodedBefore(sol, 9 * (i - 1) + (j - 1))
    requires CellValue(sol, i, j).None?
    ensures DecodeOutcome(sol) == Undecodable(i, j)
  {
    var k := RowMajorAt(i, j);
    FirstGapFrom(sol, k);
  }

  /** With a digit for every cell, decoding completes. */
  lemma CompletesWithoutGap(sol: seq<int>)
    requires DecodedBefore(sol, 81)
    ensures DecodeOutcome(sol) == Solved
  {
    FirstGapFrom(sol, 81);
  }

  /**
   * Board h is board g after the write-back of `outcome`: cells before the
   * stopping point hold the model's digit, the rest are as they were.
   */
  ghost predicate WroteBack(h: Board, g: Board, sol: seq<int>, outcome: Outcome) {
    && IsBoard(h) && IsBoard(g)
    && forall r, c :: 0 <= r < 9 && 0 <= c < 9 ==>
         h[r][c] == if 9 * r + c < Written(outcome) then DigitOrZero(sol, r + 1, c + 1) else g[r][c]
  }

  /** Writes the model's digits into the grid, cell by cell, until a cell has none. */
  method Decode(grid: array2<int>, sol: seq<int>) returns (outcome: Outcome)
    requires grid.Length0 == 9 && grid.Length1 == 9
    modifies grid
    ensures outcome == DecodeOutcome(sol)
    ensures WroteBack(Snapshot(grid), old(Snapshot(grid)), sol, outcome)
  {
    ghost var g := Snapshot(grid);
    for i := 1 to 10
      invariant DecodedBefore(sol, 9 * (i - 1))
      invariant forall r, c :: 0 <= r < 9 && 0 <= c < 9 ==>
        grid[r, c] == if 9 * r + c < 9 * (i - 1) then DigitOrZero(sol, r + 1, c + 1) else g[r][c]
    {
      var j := DecodeRow(grid, sol, i);
      DecodedInRow(sol, i, j - 1);
      if j <= 9 {
        StopsAtGap(sol, i, j);
        return Undecodable(i, j);
      }
    }
    CompletesWithoutGap(sol);
    outcome := Solved;
  }

  /**
   * The inner loop of the write-back, over the cells of row i: j is the
   * first column without a digit, 10 when the whole row has one.
   */
  method DecodeRow(grid: array2<int>, sol: seq<int>, i: int) returns (j: int)
    requires grid.Length0 == 9 && grid.Length1 == 9 && InRange(i)
    modifies grid
    ensures 1 <= j <= 10
    ensures forall c :: 1 <= c < j ==> CellValue(sol, i, c).Some?
    ensures j <= 9 ==> CellValue(sol, i, j).None?
    ensures forall r, c :: 0 <= r < 9 && 0 <= c < 9 ==>
      grid[r, c] == if r == i - 1 && c < j - 1 then DigitOrZero(sol, r + 1, c + 1) else old(grid[r, c])
  {
    j := 1;
    while j <= 9
      invariant 1 <= j <= 10
      invariant forall c :: 1 <= c < j ==> CellValue(sol, i, c).Some?
      invariant forall r, c :: 0 <= r < 9 && 0 <= c < 9 ==>
        grid[r, c] == if r == i - 1 && c < j - 1 then DigitOrZero(sol, r + 1, c + 1) else old(grid[r, c])
    {
      var d := ReadCell(sol, i, j);
      if d.None? {
        return;
      }
      grid[i - 1, j - 1] := d.value;
      j := j + 1;
    }
  }

  /** Cells (i, 1) .. (i, n) with digits extend the decoded prefix by n cells. */
  lemma DecodedInRow(sol: seq<int>, i: int, n: int)
    requires InRange(i) && 0 <= n <= 9 && DecodedBefore(sol, 9 * (i - 1))
    requires forall c :: 1 <= c <= n ==> CellValue(sol, i, c).Some?
    ensures DecodedBefore(sol, 9 * (i - 1) + n)
  {
    forall m | 9 * (i - 1) <= m < 9 * (i - 1) + n
      ensures HasDigit(sol, m)
    {
      var k := RowMajorAt(i, m - 9 * (i - 1) + 1);
    }
  }

  /**
   * What `solve` leaves behind for the engine's answer r, with g the grid
   * before and h the grid after: no model leaves the grid as it was; a model
   * is written back as far as it gives digits.
   */
  ghost predicate Answered(r: SolverResult, outcome: Outcome, h: Board, g: Board) {
    if r.Unsat? then outcome == Unsatisfiable && h == g
    else outcome == DecodeOutcome(r.model) && WroteBack(h, g, r.model, outcome)
  }

  /** `solve`: template, clues, one engine call, and the write-back into the grid. */
  method Solve(grid: array2<int>, engine: seq<Clause> -> SolverResult) returns (outcome: Outcome)
    requires grid.Length0 == 9 && grid.Length1 == 9
    modifies grid
    ensures Answered(engine(Instance(old(Snapshot(grid)))), outcome, Snapshot(grid), old(Snapshot(grid)))
  {
    var clauses := SudokuClauses();
    clauses := InjectClues(clauses, grid);
    InstanceOf(clauses, Snapshot(grid));
    var r := engine(clauses);
    if r.Unsat? {
      outcome := Unsatisfiable;
    } else {
      outcome := Decode(grid, r.model);
    }
  }

  // ------------------------------------------------------- uniqueness test

  /** The clause that rules out exactly the assignment `sol`: the negation of each of its literals. */
  function Blocking(sol: seq<int>): Clause {
    seq(|sol|, k requires 0 <= k < |sol| => -sol[k])
  }

  /**
   * `is_proper`: solve, append the blocking clause of the model, solve again;
   * proper when the second call finds no model. When the first call finds
   * none there is no model to block (the source fails at that point), and
   * the result is None with the list unchanged.
   */
  method IsProper(clauses: seq<Clause>, engine: seq<Clause> -> SolverResult)
    returns (updated: seq<Clause>, proper: Option<bool>)
    ensures engine(clauses).Unsat? ==> updated == clauses && proper == None
    ensures engine(clauses).Sat? ==>
      && updated == clauses + [Blocking(engine(clauses).model)]
      && proper == Some(engine(updated).Unsat?)
  {
    var first := engine(clauses);
    if first.Unsat? {
      return clauses, None;
    }
    updated := clauses + [Blocking(first.model)];
    var second := engine(updated);
    proper := Some(!second.Sat?);
  }
}
