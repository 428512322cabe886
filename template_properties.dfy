/**
 * What the clause template says: it contains every Sudoku constraint
 * (membership lemmas, used by the decoder's soundness), and it contains
 * nothing but Sudoku constraints (shape lemmas, used for completeness and
 * for the range of the literals).
 */
module TemplateProperties {
  import opened Numbering
  import opened Cnf
  import opened Groups
  import opened Encoder
  import opened Clauses

  /** (i, j, d) and (i2, j2, d2) cannot both hold in a solved grid. */
  predicate Excludes(i: int, j: int, d: int, i2: int, j2: int, d2: int) {
    && InRange(i) && InRange(j) && InRange(d) && InRange(i2) && InRange(j2) && InRange(d2)
    && ((i == i2 && j == j2 && d != d2)
        || (d == d2 && (i != i2 || j != j2) && SameGroup((i, j), (i2, j2))))
  }

  ghost predicate IsCellClause(c: Clause) {
    exists i, j :: InRange(i) && InRange(j) && c == AtLeastOne(i, j)
  }

  ghost predicate IsExclusionClause(c: Clause) {
    exists i, j, d, i2, j2, d2 :: Excludes(i, j, d, i2, j2, d2) && c == NegPair(i, j, d, i2, j2, d2)
  }

  /** A clause that states one rule of Sudoku. */
  ghost predicate IsSudokuClause(c: Clause) {
    IsCellClause(c) || IsExclusionClause(c)
  }

  /** Every clause of cs states a rule of Sudoku. */
  ghost predicate AllRules(cs: seq<Clause>) {
    forall c :: c in cs ==> IsSudokuClause(c)
  }

  /** Every clause of cs is a "not both" rule. */
  ghost predicate AllExclusions(cs: seq<Clause>) {
    forall c :: c in cs ==> IsExclusionClause(c)
  }

  /** The binary clause `valid` emits for cells a < b of the list and digit d. */
  ghost predicate IsValidPairClause(cells: seq<Cell>, c: Clause) {
    exists a, b, d :: 0 <= a < b < |cells| && InRange(d)
      && c == NegPair(cells[a].0, cells[a].1, d, cells[b].0, cells[b].1, d)
  }

  /** Every clause of cs is one `valid` emits for two cells of the list. */
  ghost predicate AllValidPairs(cells: seq<Cell>, cs: seq<Clause>) {
    forall c :: c in cs ==> IsValidPairClause(cells, c)
  }

  // ------------------------------------------------------- membership: cells

  lemma InnerPairsHas(i: int, j: int, d: int, e: int, dp: int)
    requires d < dp < e
    ensures NegPair(i, j, d, i, j, dp) in InnerPairs(i, j, d, e)
  {
    assert InnerPairs(i, j, d, e)[dp - d - 1] == NegPair(i, j, d, i, j, dp);
  }

  lemma {:induction false} OuterPairsHas(i: int, j: int, n: int, d: int, dp: int)
    requires 1 <= d < n && d < dp <= 9
    ensures NegPair(i, j, d, i, j, dp) in OuterPairs(i, j, n)
  {
    if d == n - 1 {
      InnerPairsHas(i, j, d, 10, dp);
    } else {
      OuterPairsHas(i, j, n - 1, d, dp);
    }
    InAppend(OuterPairs(i, j, n - 1), InnerPairs(i, j, n - 1, 10), NegPair(i, j, d, i, j, dp));
  }

  /** The clauses of one cell: "at least one digit" and "not d and dp". */
  lemma CellClausesHas(i: int, j: int, d: int, dp: int)
    requires 1 <= d < dp <= 9
    ensures AtLeastOne(i, j) in CellClauses(i, j)
    ensures NegPair(i, j, d, i, j, dp) in CellClauses(i, j)
  {
    OuterPairsHas(i, j, 10, d, dp);
  }

  /** A clause of cell (i, j) is a clause of the cell phase. */
  lemma CellPhaseHas(i: int, j: int, c: Clause)
    requires InRange(i) && InRange(j) && c in CellClauses(i, j)
    ensures c in CellPhase()
  {
    CellClausesSize(i, j);
    var r :| 0 <= r < 37 && CellClauses(i, j)[r] == c;
    var k := CellJoin(i, j, r);
    assert CellPhase()[k] == c;
  }

  // ------------------------------------------------------- membership: valid

  lemma {:induction false} ValidInnerHas(cells: seq<Cell>, a: int, n: int, b: int, c: Clause)
    requires 0 <= a < b < n <= |cells| && c in DigitClauses(cells[a], cells[b], 9)
    ensures c in ValidInner(cells, a, n)
  {
    if b < n - 1 {
      ValidInnerHas(cells, a, n - 1, b, c);
    } else {
      assert PairBlock(cells, a, b) == DigitClauses(cells[a], cells[b], 9);
    }
    InAppend(ValidInner(cells, a, n - 1), PairBlock(cells, a, n - 1), c);
  }

  lemma {:induction false} ValidOuterHas(cells: seq<Cell>, n: int, a: int, c: Clause)
    requires 0 <= a < n <= |cells| && c in ValidInner(cells, a, |cells|)
    ensures c in ValidOuter(cells, n)
  {
    if a < n - 1 {
      ValidOuterHas(cells, n - 1, a, c);
    }
    InAppend(ValidOuter(cells, n - 1), ValidInner(cells, n - 1, |cells|), c);
  }

  /** `valid(cells)` forbids digit d in both cells a and b, for every a < b. */
  lemma ValidHas(cells: seq<Cell>, a: int, b: int, d: int)
    requires 0 <= a < b < |cells| && InRange(d)
    ensures NegPair(cells[a].0, cells[a].1, d, cells[b].0, cells[b].1, d) in ValidClauses(cells)
  {
    var c := NegPair(cells[a].0, cells[a].1, d, cells[b].0, cells[b].1, d);
    assert DigitClauses(cells[a], cells[b], 9)[d - 1] == c;
    ValidInnerHas(cells, a, |cells|, b, c);
    ValidOuterHas(cells, |cells|, a, c);
  }

  // ------------------------------------------------------- membership: groups

  /** A clause `valid` emits for row i (or column i, when col holds) is a clause of the line phase. */
  lemma LinePhaseHas(i: int, col: bool, c: Clause)
    requires InRange(i) && c in ValidClauses(if col then ColGroup(i) else RowGroup(i))
    ensures c in LinePhase()
  {
    var g := if col then ColGroup(i) else RowGroup(i);
    RowGroupGood(i);
    ColGroupGood(i);
    ValidSize(g);
    var r :| 0 <= r < 324 && ValidClauses(g)[r] == c;
    var k := LineJoin(i, col, r);
    assert LinePhase()[k] == c;
  }

  /** A clause `valid` emits for box (a, b) is a clause of the box phase. */
  lemma BoxPhaseHas(a: int, b: int, c: Clause)
    requires 1 <= a <= 3 && 1 <= b <= 3 && c in ValidClauses(BoxAt(a, b))
    ensures c in BoxPhase()
  {
    ValidSize(BoxAt(a, b));
    var r :| 0 <= r < 324 && ValidClauses(BoxAt(a, b))[r] == c;
    var k := BoxJoin(a, b, r);
    assert BoxPhase()[k] == c;
  }

  /** The index of an in-range cell within its box. */
  function BoxIndex(p: Cell): int {
    (p.0 - BandAnchor(p.0)) + 3 * (p.1 - BandAnchor(p.1))
  }

  /** The box (a, b), counted from 1, and the index k within it of an in-range cell. */
  lemma BoxPosition(p: Cell) returns (a: int, b: int, k: int)
    requires CellInRange(p)
    ensures 1 <= a <= 3 && 1 <= b <= 3 && 0 <= k < 9
    ensures Anchor(a) == BandAnchor(p.0) && Anchor(b) == BandAnchor(p.1)
    ensures k == BoxIndex(p) && BoxAt(a, b)[k] == p
  {
    a := BandIndex(p.0);
    b := BandIndex(p.1);
    BoxCovers(p.0, p.1);
    k := BoxIndex(p);
    assert BoxAt(a, b) == BoxGroup(BandAnchor(p.0), BandAnchor(p.1));
  }

  /** The band, counted from 1, of an in-range row or column. */
  lemma BandIndex(x: int) returns (a: int)
    requires InRange(x)
    ensures 1 <= a <= 3 && Anchor(a) == BandAnchor(x)
  {
    a := if x <= 3 then 1 else if x <= 6 then 2 else 3;
  }

  /** Inside one box, column-major order is the order of the box index. */
  lemma BoxIndexOrder(p: Cell, q: Cell)
    requires CellInRange(p) && CellInRange(q) && Before(p, q)
    requires BandAnchor(p.0) == BandAnchor(q.0) && BandAnchor(p.1) == BandAnchor(q.1)
    ensures BoxIndex(p) < BoxIndex(q)
  {
    BandOf(p.0);
    BandOf(q.0);
  }

  // ------------------------------------------------------- membership: all rules

  /** Column-major cell order: the order in which `valid` meets the cells of any group. */
  predicate Before(p: Cell, q: Cell) {
    p.1 < q.1 || (p.1 == q.1 && p.0 < q.0)
  }

  /** The clause for "digit d not in both p and q". */
  function Exclusion(p: Cell, q: Cell, d: int): Clause {
    NegPair(p.0, p.1, d, q.0, q.1, d)
  }

  /** The "at least one digit" clause of every cell. */
  ghost predicate AtLeastOneRules(t: seq<Clause>) {
    forall i, j :: InRange(i) && InRange(j) ==> AtLeastOne(i, j) in t
  }

  /** The "not both d and dp" clauses of every cell. */
  ghost predicate AtMostOneRules(t: seq<Clause>) {
    forall i, j, d, dp :: InRange(i) && InRange(j) && 1 <= d < dp <= 9 ==> NegPair(i, j, d, i, j, dp) in t
  }

  /** The same-digit clauses of every two cells of a row or of a column. */
  ghost predicate LineRules(t: seq<Clause>) {
    forall p: Cell, q: Cell, d ::
      CellInRange(p) && CellInRange(q) && Before(p, q) && InRange(d) && (p.0 == q.0 || p.1 == q.1)
      ==> Exclusion(p, q, d) in t
  }

  /** The same-digit clauses of every two cells of a box. */
  ghost predicate BoxRules(t: seq<Clause>) {
    forall p: Cell, q: Cell, d ::
      CellInRange(p) && CellInRange(q) && Before(p, q) && InRange(d)
      && BandAnchor(p.0) == BandAnchor(q.0) && BandAnchor(p.1) == BandAnchor(q.1)
      ==> Exclusion(p, q, d) in t
  }

  /** For every two cells of a row, column or box, in column-major order, and every digit. */
  ghost predicate GroupRules(t: seq<Clause>) {
    forall p: Cell, q: Cell, d ::
      CellInRange(p) && CellInRange(q) && Before(p, q) && SameGroup(p, q) && InRange(d)
      ==> Exclusion(p, q, d) in t
  }

  /** A clause list that states every rule of Sudoku, in the form `sudoku_clauses` writes it. */
  ghost predicate HasSudokuRules(t: seq<Clause>) {
    AtLeastOneRules(t) && AtMostOneRules(t) && GroupRules(t)
  }

  /** The cell phase holds both rules of every cell. */
  lemma CellPhaseRules()
    ensures AtLeastOneRules(CellPhase())
    ensures AtMostOneRules(CellPhase())
  {
    forall i, j | InRange(i) && InRange(j) ensures AtLeastOne(i, j) in CellPhase() {
      CellClausesHas(i, j, 1, 2);
      CellPhaseHas(i, j, AtLeastOne(i, j));
    }
    forall i, j, d, dp | InRange(i) && InRange(j) && 1 <= d < dp <= 9
      ensures NegPair(i, j, d, i, j, dp) in CellPhase()
    {
      CellClausesHas(i, j, d, dp);
      CellPhaseHas(i, j, NegPair(i, j, d, i, j, dp));
    }
  }

  /** The line phase holds the same-digit clause of every two cells of a row or column. */
  lemma LinePhaseRules()
    ensures LineRules(LinePhase())
  {
    forall p: Cell, q: Cell, d |
      CellInRange(p) && CellInRange(q) && Before(p, q) && InRange(d) && (p.0 == q.0 || p.1 == q.1)
      ensures Exclusion(p, q, d) in LinePhase()
    {
      LinePairHas(p, q, d);
    }
  }

  lemma LinePairHas(p: Cell, q: Cell, d: int)
    requires CellInRange(p) && CellInRange(q) && Before(p, q) && InRange(d) && (p.0 == q.0 || p.1 == q.1)
    ensures Exclusion(p, q, d) in LinePhase()
  {
    if p.0 == q.0 {
      var g := RowGroup(p.0);
      assert g[p.1 - 1] == p && g[q.1 - 1] == q;
      ValidHas(g, p.1 - 1, q.1 - 1, d);
      LinePhaseHas(p.0, false, Exclusion(p, q, d));
    } else {
      var g := ColGroup(p.1);
      assert g[p.0 - 1] == p && g[q.0 - 1] == q;
      ValidHas(g, p.0 - 1, q.0 - 1, d);
      LinePhaseHas(p.1, true, Exclusion(p, q, d));
    }
  }

  /** The box phase holds the same-digit clause of every two cells of a box. */
  lemma BoxPhaseRules()
    ensures BoxRules(BoxPhase())
  {
    forall p: Cell, q: Cell, d |
      CellInRange(p) && CellInRange(q) && Before(p, q) && InRange(d)
      && BandAnchor(p.0) == BandAnchor(q.0) && BandAnchor(p.1) == BandAnchor(q.1)
      ensures Exclusion(p, q, d) in BoxPhase()
    {
      BoxPairHas(p, q, d);
    }
  }

  lemma BoxPairHas(p: Cell, q: Cell, d: int)
    requires CellInRange(p) && CellInRange(q) && Before(p, q) && InRange(d)
    requires BandAnchor(p.0) == BandAnchor(q.0) && BandAnchor(p.1) == BandAnchor(q.1)
    ensures Exclusion(p, q, d) in BoxPhase()
  {
    var a, b, kp := BoxPosition(p);
    var a', b', kq := BoxPosition(q);
    assert a' == a && b' == b;
    BoxIndexOrder(p, q);
    ValidHas(BoxAt(a, b), kp, kq, d);
    BoxPhaseHas(a, b, Exclusion(p, q, d));
  }

  /** Rows, columns and boxes together give every same-group clause. */
  lemma GroupRulesOfParts(t: seq<Clause>)
    ensures LineRules(t) && BoxRules(t) ==> GroupRules(t)
  {
    if LineRules(t) && BoxRules(t) {
      forall p: Cell, q: Cell, d | CellInRange(p) && CellInRange(q) && Before(p, q) && SameGroup(p, q) && InRange(d)
        ensures Exclusion(p, q, d) in t
      {
        BandOf(p.0);
      }
    }
  }

  /** The four kinds of rule together are all the rules. */
  lemma RulesOfKinds(t: seq<Clause>)
    ensures AtLeastOneRules(t) && AtMostOneRules(t) && LineRules(t) && BoxRules(t) ==> HasSudokuRules(t)
  {
    GroupRulesOfParts(t);
  }

  // Rules found in one part of a concatenation are rules of the whole.

  lemma AtLeastOneOfPart(a: seq<Clause>, b: seq<Clause>, c: seq<Clause>)
    ensures AtLeastOneRules(a) ==> AtLeastOneRules(a + b + c)
  {
  }

  lemma AtMostOneOfPart(a: seq<Clause>, b: seq<Clause>, c: seq<Clause>)
    ensures AtMostOneRules(a) ==> AtMostOneRules(a + b + c)
  {
  }

  lemma LineRulesOfPart(a: seq<Clause>, b: seq<Clause>, c: seq<Clause>)
    ensures LineRules(b) ==> LineRules(a + b + c)
  {
  }

  lemma BoxRulesOfPart(a: seq<Clause>, b: seq<Clause>, c: seq<Clause>)
    ensures BoxRules(c) ==> BoxRules(a + b + c)
  {
  }

  // ------------------------------------------------------- shape

  lemma InnerPairsShape(i: int, j: int, d: int, e: int)
    requires InRange(i) && InRange(j) && InRange(d) && e <= 10
    ensures AllExclusions(InnerPairs(i, j, d, e))
  {
    forall c | c in InnerPairs(i, j, d, e) ensures IsExclusionClause(c) {
      var k :| 0 <= k < |InnerPairs(i, j, d, e)| && InnerPairs(i, j, d, e)[k] == c;
      assert Excludes(i, j, d, i, j, d + 1 + k);
    }
  }

  lemma {:induction false} OuterPairsShape(i: int, j: int, n: int)
    requires InRange(i) && InRange(j) && n <= 10
    ensures AllExclusions(OuterPairs(i, j, n))
  {
    if n > 1 {
      OuterPairsShape(i, j, n - 1);
      InnerPairsShape(i, j, n - 1, 10);
      ExclusionAppend(OuterPairs(i, j, n - 1), InnerPairs(i, j, n - 1, 10));
    }
  }

  lemma CellClausesShape(i: int, j: int)
    requires InRange(i) && InRange(j)
    ensures AllRules(CellClauses(i, j))
  {
    OuterPairsShape(i, j, 10);
    assert IsCellClause(AtLeastOne(i, j));
    ExclusionsAreRules(OuterPairs(i, j, 10));
    SudokuAppend([AtLeastOne(i, j)], OuterPairs(i, j, 10));
  }

  lemma {:induction false} ValidInnerShape(cells: seq<Cell>, a: int, n: int)
    requires 0 <= a < |cells| && n <= |cells|
    ensures AllValidPairs(cells, ValidInner(cells, a, n))
  {
    if n > 0 {
      ValidInnerShape(cells, a, n - 1);
      forall c | c in PairBlock(cells, a, n - 1) ensures IsValidPairClause(cells, c) {
        var k :| 0 <= k < 9 && DigitClauses(cells[a], cells[n - 1], 9)[k] == c;
        assert InRange(k + 1);
      }
      PairAppend(cells, ValidInner(cells, a, n - 1), PairBlock(cells, a, n - 1));
    }
  }

  lemma {:induction false} ValidOuterShape(cells: seq<Cell>, n: int)
    requires n <= |cells|
    ensures AllValidPairs(cells, ValidOuter(cells, n))
  {
    if n > 0 {
      ValidOuterShape(cells, n - 1);
      ValidInnerShape(cells, n - 1, |cells|);
      PairAppend(cells, ValidOuter(cells, n - 1), ValidInner(cells, n - 1, |cells|));
    }
  }

  /** `valid(cells)` emits only the clauses "not d in both cells a and b" with a < b. */
  lemma ValidShape(cells: seq<Cell>)
    ensures AllValidPairs(cells, ValidClauses(cells))
  {
    ValidOuterShape(cells, |cells|);
  }

  /** On the cells of a row, column or box those are Sudoku rules. */
  lemma GroupShape(cells: seq<Cell>)
    requires GoodGroup(cells)
    ensures AllExclusions(ValidClauses(cells))
  {
    ValidShape(cells);
    forall c | c in ValidClauses(cells) ensures IsExclusionClause(c) {
      var a, b, d :| 0 <= a < b < |cells| && InRange(d)
        && c == NegPair(cells[a].0, cells[a].1, d, cells[b].0, cells[b].1, d);
      assert Excludes(cells[a].0, cells[a].1, d, cells[b].0, cells[b].1, d);
    }
  }

  lemma RulesInRange(cs: seq<Clause>)
    ensures AllRules(cs) ==> LiteralsWithin(cs, 729)
  {
    if AllRules(cs) {
      forall c, l | c in cs && l in c ensures l != 0 && -729 <= l <= 729 {
        RuleInRange(c, l);
      }
    }
  }

  lemma RuleInRange(c: Clause, l: int)
    requires IsSudokuClause(c) && l in c
    ensures l != 0 && -729 <= l <= 729
  {
    if IsCellClause(c) {
      var i, j :| InRange(i) && InRange(j) && c == AtLeastOne(i, j);
      var k :| 0 <= k < 9 && c[k] == l;
      VRange(i, j, k + 1);
    } else {
      var i, j, d, i2, j2, d2 :| Excludes(i, j, d, i2, j2, d2) && c == NegPair(i, j, d, i2, j2, d2);
      VRange(i, j, d);
      VRange(i2, j2, d2);
    }
  }

  // ------------------------------------------------------- concatenation

  lemma InAppend(a: seq<Clause>, b: seq<Clause>, c: Clause)
    ensures c in a ==> c in a + b
    ensures c in b ==> c in a + b
  {
  }

  lemma SudokuAppend(a: seq<Clause>, b: seq<Clause>)
    requires AllRules(a)
    requires AllRules(b)
    ensures AllRules(a + b)
  {
  }

  lemma ExclusionAppend(a: seq<Clause>, b: seq<Clause>)
    requires AllExclusions(a)
    requires AllExclusions(b)
    ensures AllExclusions(a + b)
  {
  }

  lemma ExclusionsAreRules(cs: seq<Clause>)
    ensures AllExclusions(cs) ==> AllRules(cs)
  {
  }

  lemma PairAppend(cells: seq<Cell>, a: seq<Clause>, b: seq<Clause>)
    requires AllValidPairs(cells, a)
    requires AllValidPairs(cells, b)
    ensures AllValidPairs(cells, a + b)
  {
  }
}
