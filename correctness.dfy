/**
 * Why the encoding is right. For any clause list t that contains every
 * rule of Sudoku, a consistent assignment satisfying t gives exactly one
 * digit to each cell and describes a solved grid; one that also satisfies
 * the clue clauses keeps the clues. Conversely every solved grid that keeps
 * the clues gives a satisfying assignment, as long as t contains nothing but
 * rules of Sudoku. The template has both properties, so what `solve` writes
 * back and what `is_proper` answers mean what they claim to, provided the
 * SAT engine's answers are sound and complete.
 */
module Correctness {
  import opened Numbering
  import opened Cnf
  import opened Groups
  import opened Encoder
  import opened TemplateProperties
  import opened TemplateRules
  import opened Clauses
  import opened Solver

  // ------------------------------------------------------- grids

  /** The value board h holds at cell p. */
  function At(h: Board, p: Cell): int
    requires IsBoard(h) && CellInRange(p)
  {
    h[p.0 - 1][p.1 - 1]
  }

  /** A completed grid: a digit in every cell, no digit twice in a row, a column or a box. */
  ghost predicate IsSolvedGrid(h: Board) {
    && IsBoard(h)
    && (forall p :: CellInRange(p) ==> InRange(At(h, p)))
    && (forall p, q :: CellInRange(p) && CellInRange(q) && p != q && SameGroup(p, q) ==> At(h, p) != At(h, q))
  }

  /** A puzzle: every cell empty (0) or a digit. */
  ghost predicate IsPuzzle(g: Board) {
    IsBoard(g) && forall p :: CellInRange(p) ==> 0 <= At(g, p) <= 9
  }

  /** Grid h keeps every clue of puzzle g. */
  ghost predicate Extends(h: Board, g: Board) {
    IsBoard(h) && IsBoard(g) && forall p :: CellInRange(p) && At(g, p) != 0 ==> At(h, p) == At(g, p)
  }

  /** Two 9x9 boards that agree cell by cell are equal. */
  lemma BoardsEqual(a: Board, b: Board)
    requires IsBoard(a) && IsBoard(b)
    requires forall p :: CellInRange(p) ==> At(a, p) == At(b, p)
    ensures a == b
  {
    forall r | 0 <= r < 9 ensures a[r] == b[r] {
      forall c | 0 <= c < 9 ensures a[r][c] == b[r][c] {
        assert At(a, (r + 1, c + 1)) == At(b, (r + 1, c + 1));
      }
    }
  }

  // ------------------------------------------------------- the engine's promises

  /** A sound answer: a model is consistent, satisfies every clause and names only variables 1..729. */
  ghost predicate SoundAnswer(r: SolverResult, cs: seq<Clause>) {
    r.Sat? ==> Consistent(r.model) && Satisfies(r.model, cs) && LiteralsWithin([r.model], 729)
  }

  /** A complete answer: UNSAT only when no consistent assignment satisfies the clauses. */
  ghost predicate CompleteAnswer(r: SolverResult, cs: seq<Clause>) {
    r.Unsat? ==> forall sol :: Consistent(sol) ==> !Satisfies(sol, cs)
  }

  // ------------------------------------------------------- decoding a model

  /** Under the rules, a consistent model makes exactly one digit variable of each cell true. */
  lemma ExactlyOneDigit(t: seq<Clause>, sol: seq<int>, i: int, j: int)
    requires HasSudokuRules(t) && Satisfies(sol, t) && Consistent(sol)
    requires InRange(i) && InRange(j)
    ensures CellValue(sol, i, j).Some?
    ensures forall d :: InRange(d) ==> (V(i, j, d) in sol <==> CellValue(sol, i, j) == Some(d))
  {
    assert AtLeastOne(i, j) in t;
    var l :| l in AtLeastOne(i, j) && l in sol;
    var k :| 0 <= k < 9 && AtLeastOne(i, j)[k] == l;
    assert V(i, j, k + 1) in sol;
    var e := CellValue(sol, i, j).value;
    forall d | InRange(d) && d != e
      ensures V(i, j, d) !in sol
    {
      if d < e {
        NotTwoDigits(t, sol, i, j, d, e);
      } else {
        NotTwoDigits(t, sol, i, j, e, d);
      }
    }
  }

  /** The "not two digits" rule: a consistent model never makes d and e both true in one cell. */
  lemma NotTwoDigits(t: seq<Clause>, sol: seq<int>, i: int, j: int, d: int, e: int)
    requires HasSudokuRules(t) && Satisfies(sol, t) && Consistent(sol)
    requires InRange(i) && InRange(j) && 1 <= d < e <= 9
    ensures V(i, j, d) !in sol || V(i, j, e) !in sol
  {
    assert NegPair(i, j, d, i, j, e) in t;
    PairExcludes(sol, i, j, d, i, j, e);
  }

  /** The group rule: a consistent model never gives digit d to two cells of one group. */
  lemma NotTwice(t: seq<Clause>, sol: seq<int>, p: Cell, q: Cell, d: int)
    requires HasSudokuRules(t) && Satisfies(sol, t) && Consistent(sol)
    requires CellInRange(p) && CellInRange(q) && p != q && SameGroup(p, q) && InRange(d)
    ensures V(p.0, p.1, d) !in sol || V(q.0, q.1, d) !in sol
  {
    if Before(p, q) {
      assert Exclusion(p, q, d) in t;
      PairExcludes(sol, p.0, p.1, d, q.0, q.1, d);
    } else {
      assert Exclusion(q, p, d) in t;
      PairExcludes(sol, q.0, q.1, d, p.0, p.1, d);
    }
  }

  /** A consistent model that satisfies "not both (i, j, d) and (i2, j2, d2)" does not make both true. */
  lemma PairExcludes(sol: seq<int>, i: int, j: int, d: int, i2: int, j2: int, d2: int)
    requires Consistent(sol) && ClauseTrue(sol, NegPair(i, j, d, i2, j2, d2))
    ensures V(i, j, d) !in sol || V(i2, j2, d2) !in sol
  {
    var l :| l in NegPair(i, j, d, i2, j2, d2) && l in sol;
  }

  /** Under the rules, a consistent model gives a digit to all 81 cells and describes a solved grid. */
  lemma DecodedValid(t: seq<Clause>, sol: seq<int>)
    requires HasSudokuRules(t) && Satisfies(sol, t) && Consistent(sol)
    ensures DecodeOutcome(sol) == Solved
    ensures IsSolvedGrid(DecodedGrid(sol))
  {
    DecodedComplete(t, sol);
    forall p | CellInRange(p) ensures InRange(At(DecodedGrid(sol), p)) {
      DecodedDigit(t, sol, p);
    }
    forall p, q | CellInRange(p) && CellInRange(q) && p != q && SameGroup(p, q)
      ensures At(DecodedGrid(sol), p) != At(DecodedGrid(sol), q)
    {
      DecodedDistinct(t, sol, p, q);
    }
  }

  /** Under the rules, decoding a consistent model meets no cell without a digit. */
  lemma DecodedComplete(t: seq<Clause>, sol: seq<int>)
    requires HasSudokuRules(t) && Satisfies(sol, t) && Consistent(sol)
    ensures DecodeOutcome(sol) == Solved
  {
    var gap := FirstGap(sol, 0);
    if gap.Some? {
      ExactlyOneDigit(t, sol, gap.value.0, gap.value.1);
    }
  }

  /** Under the rules, every cell of the decoded grid holds a digit. */
  lemma DecodedDigit(t: seq<Clause>, sol: seq<int>, p: Cell)
    requires HasSudokuRules(t) && Satisfies(sol, t) && Consistent(sol) && CellInRange(p)
    ensures InRange(At(DecodedGrid(sol), p))
  {
    ExactlyOneDigit(t, sol, p.0, p.1);
    assert At(DecodedGrid(sol), p) == DigitOrZero(sol, p.0, p.1);
  }

  /** Two cells of one group never decode to the same digit. */
  lemma DecodedDistinct(t: seq<Clause>, sol: seq<int>, p: Cell, q: Cell)
    requires HasSudokuRules(t) && Satisfies(sol, t) && Consistent(sol)
    requires CellInRange(p) && CellInRange(q) && p != q && SameGroup(p, q)
    ensures At(DecodedGrid(sol), p) != At(DecodedGrid(sol), q)
  {
    ExactlyOneDigit(t, sol, p.0, p.1);
    ExactlyOneDigit(t, sol, q.0, q.1);
    NotTwice(t, sol, p, q, CellValue(sol, p.0, p.1).value);
  }

  // ------------------------------------------------------- clues

  /** Clause c is the unit clause of a non-empty cell of g. */
  ghost predicate IsClueOf(g: Board, c: Clause)
    requires IsBoard(g)
  {
    exists p :: CellInRange(p) && At(g, p) != 0 && c == [V(p.0, p.1, At(g, p))]
  }

  lemma {:induction false} ClueRowHas(g: Board, i: int, n: int, j: int)
    requires IsBoard(g) && InRange(i) && 1 <= j <= n <= 9 && g[i - 1][j - 1] != 0
    ensures [V(i, j, g[i - 1][j - 1])] in ClueRow(g, i, n)
  {
    if j < n {
      ClueRowHas(g, i, n - 1, j);
    }
  }

  lemma {:induction false} ClueRowsHas(g: Board, m: int, i: int, j: int)
    requires IsBoard(g) && 1 <= i <= m <= 9 && InRange(j) && g[i - 1][j - 1] != 0
    ensures [V(i, j, g[i - 1][j - 1])] in ClueRows(g, m)
  {
    if i < m {
      ClueRowsHas(g, m - 1, i, j);
    } else {
      ClueRowHas(g, i, 9, j);
    }
  }

  /** Every non-empty cell has its unit clause among the clues ... */
  lemma ClueIn(g: Board, p: Cell)
    requires IsBoard(g) && CellInRange(p) && At(g, p) != 0
    ensures [V(p.0, p.1, At(g, p))] in Clues(g)
  {
    ClueRowsHas(g, 9, p.0, p.1);
  }

  lemma {:induction false} ClueRowShape(g: Board, i: int, n: int)
    requires IsBoard(g) && InRange(i) && 0 <= n <= 9
    ensures forall c :: c in ClueRow(g, i, n) ==> IsClueOf(g, c)
  {
    if n > 0 {
      ClueRowShape(g, i, n - 1);
      if g[i - 1][n - 1] != 0 {
        assert At(g, (i, n)) == g[i - 1][n - 1];
      }
    }
  }

  lemma {:induction false} ClueRowsShape(g: Board, m: int)
    requires IsBoard(g) && 0 <= m <= 9
    ensures forall c :: c in ClueRows(g, m) ==> IsClueOf(g, c)
  {
    if m > 0 {
      ClueRowsShape(g, m - 1);
      ClueRowShape(g, m, 9);
    }
  }

  /** ... and every clue clause is the unit clause of a non-empty cell. */
  lemma CluesShape(g: Board)
    requires IsBoard(g)
    ensures forall c :: c in Clues(g) ==> IsClueOf(g, c)
  {
    ClueRowsShape(g, 9);
  }

  /** A model of the rules and of the clues of a puzzle decodes to a grid that keeps the clues. */
  lemma CluesPreserved(t: seq<Clause>, g: Board, sol: seq<int>)
    requires HasSudokuRules(t) && IsPuzzle(g) && Consistent(sol)
    requires Satisfies(sol, t) && Satisfies(sol, Clues(g))
    ensures Extends(DecodedGrid(sol), g)
  {
    forall p | CellInRange(p) && At(g, p) != 0
      ensures At(DecodedGrid(sol), p) == At(g, p)
    {
      ClueIn(g, p);
      var c := [V(p.0, p.1, At(g, p))];
      var m :| m in c && m in sol;
      ExactlyOneDigit(t, sol, p.0, p.1);
    }
  }

  // ------------------------------------------------------- the model of a grid

  /** Grid h holds, in the cell variable x stands for, the digit x stands for. */
  predicate Holds(h: Board, x: int)
    requires IsBoard(h) && 1 <= x <= 729
  {
    VBounds(x);
    h[RowOf(x) - 1][ColOf(x) - 1] == DigitOf(x)
  }

  /** Variable (i, j, d) holds in h exactly when h has d at (i, j). */
  lemma HoldsAt(h: Board, i: int, j: int, d: int)
    requires IsBoard(h) && InRange(i) && InRange(j) && InRange(d)
    ensures 1 <= V(i, j, d) <= 729
    ensures Holds(h, V(i, j, d)) <==> h[i - 1][j - 1] == d
  {
    VRange(i, j, d);
    VDecode(i, j, d);
  }

  /** Literal for variable x under grid h: x if it holds in h, -x otherwise. */
  function LiteralOf(h: Board, x: int): int
    requires IsBoard(h) && 1 <= x <= 729
  {
    if Holds(h, x) then x else -x
  }

  /** The assignment that grid h describes, one literal per variable 1..729. */
  function ModelOf(h: Board): (sol: seq<int>)
    requires IsBoard(h)
    ensures |sol| == 729
  {
    seq(729, k requires 0 <= k < 729 => LiteralOf(h, k + 1))
  }

  /** Entry x - 1 of the model of h is the literal of variable x. */
  lemma ModelOfAt(h: Board, x: int)
    requires IsBoard(h) && 1 <= x <= 729
    ensures ModelOf(h)[x - 1] == LiteralOf(h, x)
  {
  }

  /** A value in the model of h is the literal of its own variable. */
  lemma ModelOfIn(h: Board, l: int)
    requires IsBoard(h) && l in ModelOf(h)
    ensures 1 <= Var(l) <= 729 && l == LiteralOf(h, Var(l))
  {
    var k :| 0 <= k < 729 && ModelOf(h)[k] == l;
    ModelOfAt(h, k + 1);
  }

  /** The variable a literal is about. */
  function Var(l: int): (x: int)
    ensures x >= 0 && (x == l || x == -l)
  {
    if l < 0 then -l else l
  }

  /** Variable x is true in the model of h exactly when it holds in h ... */
  lemma ModelOfPos(h: Board, x: int)
    requires IsBoard(h) && 1 <= x <= 729
    ensures x in ModelOf(h) <==> Holds(h, x)
  {
    ModelOfAt(h, x);
    if x in ModelOf(h) {
      ModelOfIn(h, x);
    }
  }

  /** ... and false exactly when it does not. */
  lemma ModelOfNeg(h: Board, x: int)
    requires IsBoard(h) && 1 <= x <= 729
    ensures -x in ModelOf(h) <==> !Holds(h, x)
  {
    ModelOfAt(h, x);
    if -x in ModelOf(h) {
      ModelOfIn(h, -x);
    }
  }

  /** Variable (i, j, d) is true in the model of h exactly when h holds d at (i, j). */
  lemma ModelOfHas(h: Board, i: int, j: int, d: int)
    requires IsBoard(h) && InRange(i) && InRange(j) && InRange(d)
    ensures V(i, j, d) in ModelOf(h) <==> h[i - 1][j - 1] == d
    ensures -V(i, j, d) in ModelOf(h) <==> h[i - 1][j - 1] != d
  {
    HoldsAt(h, i, j, d);
    ModelOfPos(h, V(i, j, d));
    ModelOfNeg(h, V(i, j, d));
  }

  /** The model of a grid never holds a literal and its negation. */
  lemma ModelOfConsistent(h: Board)
    ensures IsBoard(h) ==> Consistent(ModelOf(h))
  {
    if IsBoard(h) {
      forall l | l in ModelOf(h) ensures -l !in ModelOf(h) {
        ModelOfIn(h, l);
        if -l in ModelOf(h) {
          ModelOfIn(h, -l);
        }
      }
    }
  }

  /** Decoding the model of a solved grid gives the grid back. */
  lemma ModelRoundTrip(h: Board)
    requires IsSolvedGrid(h)
    ensures DecodedGrid(ModelOf(h)) == h
  {
    var m := ModelOf(h);
    forall p | CellInRange(p) ensures At(DecodedGrid(m), p) == At(h, p) {
      var e := At(h, p);
      ModelOfHas(h, p.0, p.1, e);
      forall d | 1 <= d < e ensures V(p.0, p.1, d) !in m {
        ModelOfHas(h, p.0, p.1, d);
      }
      FirstDigitAt(m, p.0, p.1, 1, e);
    }
    BoardsEqual(DecodedGrid(m), h);
  }

  /** The first true digit from d on is e when e is true and none between d and e is. */
  lemma {:induction false} FirstDigitAt(sol: seq<int>, i: int, j: int, d: int, e: int)
    requires 1 <= d <= e <= 9 && V(i, j, e) in sol
    requires forall x :: d <= x < e ==> V(i, j, x) !in sol
    ensures FirstDigitFrom(sol, i, j, d) == Some(e)
    decreases e - d
  {
    if d < e {
      FirstDigitAt(sol, i, j, d + 1, e);
    }
  }

  /** A solved grid makes every Sudoku rule true ... */
  lemma ModelOfRule(h: Board, c: Clause)
    requires IsSolvedGrid(h) && IsSudokuClause(c)
    ensures ClauseTrue(ModelOf(h), c)
  {
    if IsCellClause(c) {
      var i, j :| InRange(i) && InRange(j) && c == AtLeastOne(i, j);
      ModelOfCellRule(h, i, j);
    } else {
      var i, j, d, i2, j2, d2 :| Excludes(i, j, d, i2, j2, d2) && c == NegPair(i, j, d, i2, j2, d2);
      ModelOfExclusion(h, i, j, d, i2, j2, d2);
    }
  }

  lemma ModelOfCellRule(h: Board, i: int, j: int)
    requires IsSolvedGrid(h) && InRange(i) && InRange(j)
    ensures ClauseTrue(ModelOf(h), AtLeastOne(i, j))
  {
    var e := At(h, (i, j));
    ModelOfHas(h, i, j, e);
    assert AtLeastOne(i, j)[e - 1] == V(i, j, e);
  }

  lemma ModelOfExclusion(h: Board, i: int, j: int, d: int, i2: int, j2: int, d2: int)
    requires IsSolvedGrid(h) && Excludes(i, j, d, i2, j2, d2)
    ensures ClauseTrue(ModelOf(h), NegPair(i, j, d, i2, j2, d2))
  {
    SolvedExcludes(h, i, j, d, i2, j2, d2);
    ModelOfHas(h, i, j, d);
    ModelOfHas(h, i2, j2, d2);
    NegPairTrue(ModelOf(h), i, j, d, i2, j2, d2);
  }

  /** Two placements an exclusion clause forbids are never both in a solved grid. */
  lemma SolvedExcludes(h: Board, i: int, j: int, d: int, i2: int, j2: int, d2: int)
    requires IsSolvedGrid(h) && Excludes(i, j, d, i2, j2, d2)
    ensures h[i - 1][j - 1] != d || h[i2 - 1][j2 - 1] != d2
  {
    assert At(h, (i, j)) == h[i - 1][j - 1] && At(h, (i2, j2)) == h[i2 - 1][j2 - 1];
  }

  /** A clause of two negations holds once either negation is in the assignment. */
  lemma NegPairTrue(sol: seq<int>, i: int, j: int, d: int, i2: int, j2: int, d2: int)
    requires -V(i, j, d) in sol || -V(i2, j2, d2) in sol
    ensures ClauseTrue(sol, NegPair(i, j, d, i2, j2, d2))
  {
    var c := NegPair(i, j, d, i2, j2, d2);
    if -V(i, j, d) in sol {
      assert c[0] in c && c[0] in sol;
    } else {
      assert c[1] in c && c[1] in sol;
    }
  }

  /** ... and, when it keeps the clues of g, every clue clause. */
  lemma ModelOfClue(h: Board, g: Board, c: Clause)
    requires IsSolvedGrid(h) && Extends(h, g) && IsClueOf(g, c)
    ensures ClauseTrue(ModelOf(h), c)
  {
    var p :| CellInRange(p) && At(g, p) != 0 && c == [V(p.0, p.1, At(g, p))];
    ModelOfHas(h, p.0, p.1, At(h, p));
    assert c[0] in c;
  }

  /** A solved grid that keeps the clues satisfies clauses made of rules and of those clues. */
  lemma SolutionSatisfies(t: seq<Clause>, g: Board, h: Board)
    requires AllRules(t)
    requires IsSolvedGrid(h) && Extends(h, g)
    ensures Consistent(ModelOf(h)) && Satisfies(ModelOf(h), t + Clues(g))
  {
    ModelOfConsistent(h);
    CluesShape(g);
    forall c | c in t + Clues(g) ensures ClauseTrue(ModelOf(h), c) {
      if c in t {
        ModelOfRule(h, c);
      } else {
        ModelOfClue(h, g, c);
      }
    }
  }

  // ------------------------------------------------------- the blocking clause

  /** The blocking clause holds the negation of each literal of the model, and nothing else. */
  lemma BlockingHas(sol: seq<int>, l: int)
    ensures l in Blocking(sol) <==> -l in sol
  {
    if -l in sol {
      var k :| 0 <= k < |sol| && sol[k] == -l;
      assert Blocking(sol)[k] == l;
    }
  }

  /** A consistent model makes its own blocking clause false ... */
  lemma BlockingFalse(sol: seq<int>)
    requires Consistent(sol)
    ensures !ClauseTrue(sol, Blocking(sol))
  {
    forall l | l in Blocking(sol) ensures l !in sol {
      BlockingHas(sol, l);
    }
  }

  /** ... and another assignment makes it true exactly when it negates a literal of the model. */
  lemma BlockingTrue(sol: seq<int>, other: seq<int>)
    ensures ClauseTrue(other, Blocking(sol)) <==> exists x :: x in sol && -x in other
  {
    if x :| x in sol && -x in other {
      BlockingHas(sol, -x);
    }
    if ClauseTrue(other, Blocking(sol)) {
      var l :| l in Blocking(sol) && l in other;
      BlockingHas(sol, l);
      assert -l in sol && -(-l) in other;
    }
  }

  /** Any model of the blocking clause decodes to a different grid. */
  lemma BlockedDiffers(t: seq<Clause>, sol: seq<int>, other: seq<int>)
    requires HasSudokuRules(t) && Consistent(sol) && Satisfies(sol, t) && LiteralsWithin([sol], 729)
    requires Consistent(other) && Satisfies(other, t) && ClauseTrue(other, Blocking(sol))
    ensures DecodedGrid(sol) != DecodedGrid(other)
  {
    BlockingTrue(sol, other);
    var x :| x in sol && -x in other;
    var y := if x > 0 then x else -x;
    VEncode(y);
    var i, j, d := RowOf(y), ColOf(y), DigitOf(y);
    DecodedAt(t, sol, i, j, d);
    DecodedAt(t, other, i, j, d);
  }

  /** Under the rules, the decoded grid holds d at (i, j) exactly when variable (i, j, d) is true. */
  lemma DecodedAt(t: seq<Clause>, sol: seq<int>, i: int, j: int, d: int)
    requires HasSudokuRules(t) && Satisfies(sol, t) && Consistent(sol)
    requires InRange(i) && InRange(j) && InRange(d)
    ensures V(i, j, d) in sol <==> DecodedGrid(sol)[i - 1][j - 1] == d
  {
    ExactlyOneDigit(t, sol, i, j);
  }

  /**
   * If the rules, the clues and the blocking clause of one model have no
   * model, every solved grid that keeps the clues is that model's grid.
   */
  lemma UniqueWhenBlocked(t: seq<Clause>, g: Board, sol: seq<int>, h: Board)
    requires HasSudokuRules(t) && AllRules(t)
    requires IsBoard(g) && Consistent(sol) && Satisfies(sol, t)
    requires forall s :: Consistent(s) ==> !Satisfies(s, t + Clues(g) + [Blocking(sol)])
    requires IsSolvedGrid(h) && Extends(h, g)
    ensures h == DecodedGrid(sol)
  {
    SolutionSatisfies(t, g, h);
    SatisfiesAppend(ModelOf(h), t + Clues(g), [Blocking(sol)]);
    assert !ClauseTrue(ModelOf(h), Blocking(sol));
    SameGridUnlessBlocked(t, sol, h);
  }

  /** A solved grid whose model falsifies the blocking clause of sol is the grid of sol. */
  lemma SameGridUnlessBlocked(t: seq<Clause>, sol: seq<int>, h: Board)
    requires HasSudokuRules(t) && Consistent(sol) && Satisfies(sol, t)
    requires IsSolvedGrid(h) && !ClauseTrue(ModelOf(h), Blocking(sol))
    ensures h == DecodedGrid(sol)
  {
    forall p | CellInRange(p) ensures At(h, p) == At(DecodedGrid(sol), p) {
      SameCellUnlessBlocked(t, sol, h, p);
    }
    BoardsEqual(h, DecodedGrid(sol));
  }

  lemma SameCellUnlessBlocked(t: seq<Clause>, sol: seq<int>, h: Board, p: Cell)
    requires HasSudokuRules(t) && Consistent(sol) && Satisfies(sol, t)
    requires IsSolvedGrid(h) && !ClauseTrue(ModelOf(h), Blocking(sol)) && CellInRange(p)
    ensures At(h, p) == At(DecodedGrid(sol), p)
  {
    ExactlyOneDigit(t, sol, p.0, p.1);
    UnblockedCell(sol, h, p);
  }

  /** A cell the model decodes to d holds d in every grid the blocking clause rules out. */
  lemma UnblockedCell(sol: seq<int>, h: Board, p: Cell)
    requires IsBoard(h) && CellInRange(p) && CellValue(sol, p.0, p.1).Some?
    requires !ClauseTrue(ModelOf(h), Blocking(sol))
    ensures At(h, p) == At(DecodedGrid(sol), p)
  {
    var d := CellValue(sol, p.0, p.1).value;
    var x := V(p.0, p.1, d);
    BlockingHasNegation(sol, x);
    NotInModel(ModelOf(h), Blocking(sol), -x);
    ModelOfHas(h, p.0, p.1, d);
    assert At(DecodedGrid(sol), p) == DigitOrZero(sol, p.0, p.1);
  }

  /** The blocking clause negates every literal of the model. */
  lemma BlockingHasNegation(sol: seq<int>, x: int)
    requires x in sol
    ensures -x in Blocking(sol)
  {
    var k :| 0 <= k < |sol| && sol[k] == x;
    assert Blocking(sol)[k] == -x;
  }

  /** A clause that does not hold has none of its literals in the model. */
  lemma NotInModel(m: seq<int>, c: Clause, l: int)
    requires !ClauseTrue(m, c) && l in c
    ensures l !in m
  {
  }

  // ------------------------------------------------------- the template, `solve` and `is_proper`

  /** Puzzle g has a solution. */
  ghost predicate Solvable(g: Board) {
    exists s :: IsSolvedGrid(s) && Extends(s, g)
  }

  /** Every consistent model of the template and the clues of g describes a solution of g. */
  lemma InstanceSound(g: Board, sol: seq<int>)
    requires IsPuzzle(g) && Consistent(sol) && Satisfies(sol, Instance(g))
    ensures DecodeOutcome(sol) == Solved
    ensures IsSolvedGrid(DecodedGrid(sol)) && Extends(DecodedGrid(sol), g)
  {
    TemplateHasRules();
    SatisfiesAppend(sol, Template(), Clues(g));
    DecodedValid(Template(), sol);
    CluesPreserved(Template(), g, sol);
  }

  /** Every solution of g is described by a consistent model of the template and the clues of g. */
  lemma InstanceComplete(g: Board, h: Board)
    requires IsBoard(g) && IsSolvedGrid(h) && Extends(h, g)
    ensures Consistent(ModelOf(h)) && Satisfies(ModelOf(h), Instance(g))
    ensures DecodedGrid(ModelOf(h)) == h
  {
    TemplateShape();
    SolutionSatisfies(Template(), g, h);
    ModelRoundTrip(h);
  }

  /**
   * With a sound and complete engine, `solve` fills the grid with a
   * solution that keeps the clues exactly when the puzzle has one, and
   * otherwise leaves the grid as it was.
   */
  lemma SolveCorrect(g: Board, r: SolverResult, outcome: Outcome, h: Board)
    requires IsPuzzle(g)
    requires SoundAnswer(r, Instance(g)) && CompleteAnswer(r, Instance(g))
    requires Answered(r, outcome, h, g)
    ensures outcome == Solved <==> Solvable(g)
    ensures outcome == Solved ==> IsSolvedGrid(h) && Extends(h, g)
    ensures outcome != Solved ==> outcome == Unsatisfiable && h == g
  {
    if r.Sat? {
      InstanceSound(g, r.model);
      WrittenIsDecoded(h, g, r.model);
    } else if Solvable(g) {
      var s :| IsSolvedGrid(s) && Extends(s, g);
      InstanceComplete(g, s);
    }
  }

  /** After a complete write-back the grid is the decoded grid. */
  lemma WrittenIsDecoded(h: Board, g: Board, sol: seq<int>)
    requires WroteBack(h, g, sol, Solved)
    ensures h == DecodedGrid(sol)
  {
    forall p | CellInRange(p) ensures At(h, p) == At(DecodedGrid(sol), p) {
    }
    BoardsEqual(h, DecodedGrid(sol));
  }

  /**
   * `is_proper` on the instance of g, with a sound first answer and a sound
   * and complete second one: the second call finds no model exactly when
   * the first model's grid is the only solution of g.
   */
  lemma ProperMeansUnique(g: Board, first: SolverResult, second: SolverResult)
    requires IsPuzzle(g) && first.Sat? && SoundAnswer(first, Instance(g))
    requires SoundAnswer(second, Instance(g) + [Blocking(first.model)])
    requires CompleteAnswer(second, Instance(g) + [Blocking(first.model)])
    ensures IsSolvedGrid(DecodedGrid(first.model)) && Extends(DecodedGrid(first.model), g)
    ensures second.Unsat? <==> forall s :: IsSolvedGrid(s) && Extends(s, g) ==> s == DecodedGrid(first.model)
  {
    var sol := first.model;
    InstanceSound(g, sol);
    if second.Unsat? {
      BlockedUnique(g, sol);
    } else {
      var other := second.model;
      BlockedOther(g, sol, other);
      var s := DecodedGrid(other);
      assert IsSolvedGrid(s) && Extends(s, g) && s != DecodedGrid(sol);
    }
  }

  /** When the instance and the blocking clause of sol have no model, sol's grid is the only solution. */
  lemma BlockedUnique(g: Board, sol: seq<int>)
    requires IsPuzzle(g) && Consistent(sol) && Satisfies(sol, Instance(g))
    requires forall s :: Consistent(s) ==> !Satisfies(s, Instance(g) + [Blocking(sol)])
    ensures forall s :: IsSolvedGrid(s) && Extends(s, g) ==> s == DecodedGrid(sol)
  {
    TemplateHasRules();
    TemplateShape();
    SatisfiesAppend(sol, Template(), Clues(g));
    forall s | IsSolvedGrid(s) && Extends(s, g) ensures s == DecodedGrid(sol) {
      UniqueWhenBlocked(Template(), g, sol, s);
    }
  }

  /** A model of the instance and the blocking clause of sol decodes to a second solution. */
  lemma BlockedOther(g: Board, sol: seq<int>, other: seq<int>)
    requires IsPuzzle(g) && Consistent(sol) && Satisfies(sol, Instance(g)) && LiteralsWithin([sol], 729)
    requires Consistent(other) && Satisfies(other, Instance(g) + [Blocking(sol)])
    ensures IsSolvedGrid(DecodedGrid(other)) && Extends(DecodedGrid(other), g)
    ensures DecodedGrid(other) != DecodedGrid(sol)
  {
    TemplateHasRules();
    SatisfiesAppend(sol, Template(), Clues(g));
    SatisfiesAppend(other, Instance(g), [Blocking(sol)]);
    SatisfiesAppend(other, Template(), Clues(g));
    InstanceSound(g, other);
    assert Blocking(sol) in [Blocking(sol)];
    BlockedDiffers(Template(), sol, other);
  }
}
