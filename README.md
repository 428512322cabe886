# Sudoku as SAT: a verified model of the encoder

The program solves 9x9 Sudoku puzzles with a SAT engine (pycosat), using
the encoding of Tjark Weber's "A SAT-based Sudoku solver". Each of the 729
propositional variables stands for "cell (i, j) holds digit d" and is
numbered `v(i, j, d) = 81 * (i - 1) + 9 * (j - 1) + d`. A clause list that
does not depend on the puzzle (`sudoku_clauses`, 11745 clauses) says that
every cell holds at least one digit and never two. It also says that no two
cells of a row, a column or a 3x3 box hold the same digit. `solve` adds one
unit clause per clue, calls the engine, and writes the model back into the
grid cell by cell. `is_proper` solves, adds the clause that rules out the
model just found, and solves again: the puzzle is proper when the second call
finds nothing.

The Dafny modules follow that structure:

- `Numbering`: the variable numbering `V` and its inverse.
- `Cnf`: clauses in the engine's integer form, what an assignment makes
  true, and the engine's answer (`Sat(model)` or `Unsat`).
- `Groups`: rows, columns and boxes as ordered lists of cells, in the
  order the encoder enumerates them.
- `Encoder`: `sudoku_clauses` and its nested `valid`, as methods over
  sequences. There is one method per source loop, and each is proved
  against a function that describes the list after that loop.
- `Clauses`: the template indexed by clause number, and `SudokuClauses`,
  which is proved to return it.
- `TemplateProperties` and `TemplateRules`: what the template contains. It
  has every rule of Sudoku, each clause is one of those rules, and every
  literal lies in 1..729 or -729..-1.
- `Solver`: clue injection, `read_cell`, the write-back into a 9x9 array,
  `solve` and `is_proper`. The SAT engine is a parameter.
- `Correctness`: what a model means. Under the rules a consistent model gives
  each cell exactly one digit. It decodes to a solved grid that keeps
  the clues. Every solution is the decoding of some model, and the blocking
  clause is false under its own model. From these, and assuming the engine
  answers soundly and completely, `solve` answers correctly and
  `is_proper` means "exactly one solution".

The model follows the code where the code departs from what the encoding
is meant to guarantee:

- `read_cell` takes the smallest digit whose variable is true. It does not
  demand a unique one.
- A cell with no true digit makes `read_cell` return None. Writing None into
  the integer array the program uses raises, so the write-back stops there.
  The cells before that point have already been written (`Undecodable` in
  `Solver.Decode`).
- When the engine answers UNSAT, `solve` fails at the first membership test
  `v(i, j, d) in sol`, because `sol` is then a string. This happens before
  anything is written, so it is modelled as the outcome `Unsatisfiable`
  with the grid unchanged.

## Model

| member | source | states |
|---|---|---|
| Numbering.VRange | main.py:25-30 | every in-range (i, j, d) is numbered by a variable in 1..729 |
| Numbering.VInjective | main.py:25-30 | two in-range triples get the same variable exactly when they are equal |
| Numbering.VDecode | main.py:25-30 | row, column and digit can be read back from the variable (left inverse of v) |
| Numbering.VEncode | main.py:25-30 | every variable in 1..729 is v of an in-range triple (v is onto 1..729) |
| Encoder.AppendPairs | main.py:46-48 | the innermost cell loop appends, for first digit d, the clauses "not d and dp" for dp = d+1 .. 9, in order |
| Encoder.AppendCell | main.py:42-48 | the body of the cell loop appends the at-least-one clause of cell (i, j), then its not-two clauses |
| Encoder.AppendCellRow | main.py:42-48 | the loop over j appends the clauses of cells (i, 1) .. (i, 9) |
| Encoder.AppendCells | main.py:41-48 | the cell loops append the clauses of all 81 cells in row-major order |
| Encoder.ValidPair | main.py:57-58 | the digit loop of `valid` appends "not both x and y hold d" for d = 1..9 |
| Encoder.ValidRow | main.py:55-58 | for first cell a, `valid` appends clauses only for later cells b > a |
| Encoder.Valid | main.py:50-58 | `valid(cells)` appends, in loop order, the clauses of every index pair a < b |
| Encoder.AppendLines | main.py:61-63 | for i = 1..9, the clauses of row i and then of column i are appended |
| Encoder.AppendBoxRow | main.py:66-67 | for row anchor i, the boxes at column anchors 1, 4, 7 are appended |
| Encoder.AppendBoxes | main.py:65-67 | the nine boxes are appended, row anchor by row anchor |
| Encoder.CellClausesSize | main.py:42-48 | each cell contributes 1 + 36 clauses |
| Encoder.OuterPairsSize | main.py:46-48 | the not-two loops emit one clause per digit pair d < dp |
| Encoder.ValidOuterSize | main.py:54-58 | `valid` emits 9 clauses per index pair a < b among its first n cells |
| Encoder.ValidSize | main.py:50-58 | `valid` on nine cells emits 324 clauses |
| Encoder.LineClausesSize | main.py:61-63 | rows and columns 1..n give 648 * n clauses |
| Encoder.BoxRowsSize | main.py:65-67 | n box rows give 972 * n clauses |
| Encoder.CellSplit | main.py:41-48 | cell-phase position k is clause r of cell (i, j), where k = 333 (i-1) + 37 (j-1) + r |
| Encoder.LineSplit | main.py:61-63 | line-phase position k is clause r of row i, or of column i 324 positions later |
| Encoder.BoxSplit | main.py:65-67 | box-phase position k is clause r of box (a, b), where k = 972 (a-1) + 324 (b-1) + r |
| Encoder.CellRowsAt | main.py:41-48 | the cell loops put clause r of cell (i, j) at 333 (i-1) + 37 (j-1) + r |
| Encoder.LineClausesAt | main.py:61-63 | the line loop puts clause r of row i at 648 (i-1) + r and of column i 324 further |
| Encoder.BoxRowsAt | main.py:65-67 | the box loops put clause r of box (a, b) at 972 (a-1) + 324 (b-1) + r |
| Clauses.PhasesAreTemplate | main.py:39-67 | the order the loops append in is the indexed template, clause for clause |
| Clauses.SudokuClauses | main.py:33-70 | `sudoku_clauses` returns the 11745-clause template; the length check of line 69 holds |
| Groups.RowGroupGood | main.py:62 | a row list has nine distinct in-range cells, any two in one group |
| Groups.ColGroupGood | main.py:63 | the same for a column list |
| Groups.BoxGroupGood | main.py:65-67 | the same for a box list `(i + k % 3, j + k // 3)` |
| Groups.BoxCellBand | main.py:67 | a box cell stays in the bands of its anchors |
| Groups.BoxCovers | main.py:65-67 | every cell lies in the box anchored at its bands, at index (r - ri) + 3 (c - cj) |
| Groups.BoxUnique | main.py:65-67 | a cell lies in no other box and at no other index: the boxes partition the grid |
| TemplateProperties.ValidShape | main.py:50-58 | everything `valid` emits is "not both cells a and b hold d", with a < b |
| TemplateProperties.ValidHas | main.py:50-58 | `valid` emits "not both cells a and b hold d" for every a < b and digit d |
| TemplateProperties.GroupShape | main.py:60-67 | on a row, column or box, every clause `valid` emits is a Sudoku rule |
| TemplateProperties.CellClausesHas | main.py:42-48 | a cell's clauses include its at-least-one clause and each not-two clause d < dp |
| TemplateProperties.CellPhaseRules | main.py:41-48 | the cell phase holds both kinds of clause for every cell and digit pair |
| TemplateProperties.LinePhaseRules | main.py:61-63 | the line phase holds the same-digit clause of every two cells of a row or column |
| TemplateProperties.BoxPhaseRules | main.py:65-67 | the box phase holds the same-digit clause of every two cells of a box |
| TemplateProperties.BoxPosition | main.py:65-67 | each cell is cell BoxIndex(p) of box (a, b) of its bands |
| TemplateProperties.BoxIndexOrder | main.py:65-67 | within a box, the order of the cell list is column-major cell order |
| TemplateProperties.RuleInRange | main.py:25-30 | every literal of a rule clause is non-zero with magnitude at most 729 |
| TemplateRules.TemplateHasRules | main.py:33-70 | the template holds every rule of Sudoku: at least one digit, at most one, distinct in rows, columns and boxes |
| TemplateRules.TemplateShape | main.py:33-70 | every clause of the template is one of those rules |
| TemplateRules.TemplateLiterals | main.py:33-70 | every literal of the template is non-zero with magnitude at most 729 |
| TemplateRules.CellClauseRule | main.py:42-48 | every clause of the cell phase is a rule |
| TemplateRules.LineClauseRule | main.py:61-63 | every clause of the line phase is a "not both" rule |
| TemplateRules.BoxClauseRule | main.py:65-67 | every clause of the box phase is a "not both" rule |
| Solver.InjectClues | main.py:78-87 | one unit clause [v(i, j, d)] is appended per non-empty cell, in row-major order, after the unchanged prefix |
| Solver.FirstDigitFrom | main.py:104-106 | the first digit from d on whose variable is true, or none when there is none |
| Solver.ReadCell | main.py:102-106 | returns the smallest digit of (i, j) whose variable is in the model, or None when no digit's is |
| Solver.FirstGap | main.py:108-110 | the first cell in row-major order without a digit, or none when every cell has one |
| Solver.DecodeRow | main.py:109-110 | one row is written up to the first cell without a digit; no other cell changes |
| Solver.Decode | main.py:108-110 | the write-back writes every cell in row-major order up to the first cell without a digit; the rest of the grid is unchanged |
| Solver.StopsAtGap | main.py:108-110 | decoding stops exactly at the first cell without a digit |
| Solver.CompletesWithoutGap | main.py:108-110 | with a digit for every cell, decoding completes |
| Solver.Solve | main.py:73-110 | the engine receives template plus clues; UNSAT leaves the grid unchanged, a model is written back |
| Solver.IsProper | main.py:113-119 | the model's blocking clause is appended and the engine asked again; proper when it answers UNSAT |
| Correctness.ExactlyOneDigit | main.py:42-48 | under the rules, a consistent model makes exactly one digit of each cell true, which `read_cell` returns |
| Correctness.NotTwoDigits | main.py:45-48 | a consistent model of the not-two clauses never makes two digits of a cell true |
| Correctness.NotTwice | main.py:50-67 | a consistent model of the group clauses never gives one digit to two cells of a group |
| Correctness.DecodedValid | main.py:102-110 | under the rules, the write-back completes and the decoded grid is a solved Sudoku |
| Correctness.DecodedAt | main.py:102-106 | under the rules, the decoded grid holds d at (i, j) exactly when v(i, j, d) is true |
| Correctness.ClueIn | main.py:86-87 | every non-empty cell has its unit clause among the clues |
| Correctness.CluesShape | main.py:86-87 | every clue clause is the unit clause of a non-empty cell |
| Correctness.CluesPreserved | main.py:77-110 | a model of the rules and the clues decodes to a grid that keeps every clue |
| Correctness.ModelOfHas | main.py:25-30 | the assignment of a grid makes v(i, j, d) true exactly when the grid holds d at (i, j) |
| Correctness.ModelOfConsistent | main.py:25-30 | the assignment of a grid is consistent |
| Correctness.ModelRoundTrip | main.py:102-110 | decoding the assignment of a solved grid gives the grid back |
| Correctness.ModelOfRule | main.py:33-70 | a solved grid makes every Sudoku rule clause true |
| Correctness.ModelOfClue | main.py:86-87 | a solved grid that keeps the clues makes every clue clause true |
| Correctness.SolutionSatisfies | main.py:77-87 | a solution that keeps the clues is a consistent model of rules plus clues |
| Correctness.BlockingHas | main.py:115 | the blocking clause holds exactly the negations of the model's literals |
| Correctness.BlockingFalse | main.py:115 | a consistent model makes its own blocking clause false |
| Correctness.BlockingTrue | main.py:115 | another assignment makes the blocking clause true exactly when it negates a literal of the model |
| Correctness.BlockedDiffers | main.py:113-116 | a model of the rules and of the blocking clause decodes to a different grid |
| Correctness.SameGridUnlessBlocked | main.py:113-116 | a solved grid whose assignment falsifies the blocking clause is the model's grid |
| Correctness.InstanceSound | main.py:77-110 | every consistent model of template plus clues decodes completely to a solution of the puzzle |
| Correctness.InstanceComplete | main.py:77-87 | every solution of the puzzle is the decoding of a consistent model of template plus clues |
| Correctness.SolveCorrect | main.py:73-110 | with a sound and complete engine, `solve` ends Solved exactly when the puzzle is solvable, with a solution that keeps the clues; otherwise UNSAT with the grid unchanged |
| Correctness.BlockedUnique | main.py:113-119 | when instance plus blocking clause have no model, the model's grid is the only solution |
| Correctness.BlockedOther | main.py:113-119 | a model of instance plus blocking clause decodes to a second solution |
| Correctness.ProperMeansUnique | main.py:113-119 | with a sound and complete engine, the second call is UNSAT exactly when the first model's grid is the only solution |

## Left out

- The SAT engine (`pycosat.solve`) is a function parameter from a clause list to `Sat(model)` or `Unsat`. Its algorithm is not modelled. Its soundness and completeness are hypotheses of `Correctness.SolveCorrect` and `Correctness.ProperMeansUnique`. The "UNKNOWN" answer, which pycosat gives only under a propagation limit the program never sets, is not modelled.
- Timing (`time.time`, `solve_time`, `solve_times`), the repeat loop over `single_solve_count`, and the `current_number` argument only measure the engine, so they are left out. `Solver.Solve` makes a single engine call.
- The experiment driver at module level (numpy arrays, random clue removal, standard deviations, `savetxt`, matplotlib plots, `pprint`) and the code commented out inside string literals are left out, because they are I/O and statistics around the core.
- Solver.Solve: a UNSAT answer raises an exception in the source. The model returns the outcome `Unsatisfiable` instead, with the grid unchanged as in the source, since the exception comes before any write.
- Solver.Decode: writing None raises mid-loop in the source. The model returns `Undecodable(i, j)` at that cell, with the cells before it written as in the source.
- Solver.IsProper: when the first engine call answers UNSAT the source raises while building the blocking clause. The model returns None with the clause list unchanged.
- The clause list: the source mutates one Python list in place. The model passes the list in and returns the new one (`seq<Clause>`), so aliasing of that list is not modelled. The grid is a real `array2<int>` updated in place.
- The engine's model is taken as a list of literals whose membership test is `l in sol`, not as a set; the order and duplicates of its literals are not modelled.
