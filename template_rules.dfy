/**
 * The whole clause template, as `sudoku_clauses` returns it: it contains
 * every rule of Sudoku, and only rules of Sudoku, and every literal in it
 * names one of the 729 variables.
 */
module TemplateRules {
  import opened Numbering
  import opened Cnf
  import opened Groups
  import opened Encoder
  import opened Clauses
  import opened TemplateProperties

  /** The template states every rule of Sudoku. */
  lemma TemplateHasRules()
    ensures HasSudokuRules(Template())
  {
    TemplateAtLeastOne();
    TemplateAtMostOne();
    TemplateLines();
    TemplateBoxes();
    RulesOfKinds(Template());
  }

  lemma TemplateAtLeastOne()
    ensures AtLeastOneRules(Template())
  {
    CellPhaseRules();
    AtLeastOneOfPart(CellPhase(), LinePhase(), BoxPhase());
  }

  lemma TemplateAtMostOne()
    ensures AtMostOneRules(Template())
  {
    CellPhaseRules();
    AtMostOneOfPart(CellPhase(), LinePhase(), BoxPhase());
  }

  lemma TemplateLines()
    ensures LineRules(Template())
  {
    LinePhaseRules();
    LineRulesOfPart(CellPhase(), LinePhase(), BoxPhase());
  }

  lemma TemplateBoxes()
    ensures BoxRules(Template())
  {
    BoxPhaseRules();
    BoxRulesOfPart(CellPhase(), LinePhase(), BoxPhase());
  }

  /** Every clause of the template is a Sudoku rule. */
  lemma TemplateShape()
    ensures AllRules(Template())
  {
    CellPhaseShape();
    LinePhaseShape();
    BoxPhaseShape();
    ExclusionsAreRules(LinePhase());
    ExclusionsAreRules(BoxPhase());
    SudokuAppend(CellPhase(), LinePhase());
    SudokuAppend(CellPhase() + LinePhase(), BoxPhase());
  }

  lemma CellPhaseShape()
    ensures AllRules(CellPhase())
  {
    var cells := CellPhase();
    forall k | 0 <= k < |cells| ensures IsSudokuClause(cells[k]) {
      CellClauseRule(k);
    }
    RulesByIndex(cells);
  }

  lemma LinePhaseShape()
    ensures AllExclusions(LinePhase())
  {
    var lines := LinePhase();
    forall k | 0 <= k < |lines| ensures IsExclusionClause(lines[k]) {
      LineClauseRule(k);
    }
    ExclusionsByIndex(lines);
  }

  lemma BoxPhaseShape()
    ensures AllExclusions(BoxPhase())
  {
    var boxes := BoxPhase();
    forall k | 0 <= k < |boxes| ensures IsExclusionClause(boxes[k]) {
      BoxClauseRule(k);
    }
    ExclusionsByIndex(boxes);
  }

  /** A list whose every position holds a rule is a list of rules. */
  lemma RulesByIndex(t: seq<Clause>)
    requires forall k :: 0 <= k < |t| ==> IsSudokuClause(t[k])
    ensures AllRules(t)
  {
    forall c | c in t ensures IsSudokuClause(c) {
      var k :| 0 <= k < |t| && t[k] == c;
    }
  }

  /** A list whose every position holds an exclusion clause is a list of exclusion clauses. */
  lemma ExclusionsByIndex(t: seq<Clause>)
    requires forall k :: 0 <= k < |t| ==> IsExclusionClause(t[k])
    ensures AllExclusions(t)
  {
    forall c | c in t ensures IsExclusionClause(c) {
      var k :| 0 <= k < |t| && t[k] == c;
    }
  }

  lemma CellClauseRule(k: int)
    requires 0 <= k < 2997
    ensures IsSudokuClause(CellClauseAt(k))
  {
    var i, j, r := CellSplit(k);
    CellRuleOf(i, j, r);
  }

  /** Clause r of cell (i, j) is a Sudoku rule. */
  lemma CellRuleOf(i: int, j: int, r: int)
    requires InRange(i) && InRange(j) && 0 <= r < 37
    ensures IsSudokuClause(CellClauseOf(i, j, r))
  {
    CellClausesShape(i, j);
    CellClausesSize(i, j);
    assert CellClauses(i, j)[r] in CellClauses(i, j);
  }

  /** Clause r of valid(cells), for a row, column or box, is a Sudoku rule. */
  lemma GroupClauseRule(cells: seq<Cell>, r: int)
    requires GoodGroup(cells) && |cells| == 9 && 0 <= r < 324
    ensures IsExclusionClause(GroupClauseOf(cells, r))
  {
    GroupShape(cells);
    ValidSize(cells);
    assert ValidClauses(cells)[r] in ValidClauses(cells);
  }

  lemma LineClauseRule(k: int)
    requires 0 <= k < 5832
    ensures IsExclusionClause(LineClauseAt(k))
  {
    var i, col, r := LineSplit(k);
    if col {
      ColGroupGood(i);
      GroupClauseRule(ColGroup(i), r);
    } else {
      RowGroupGood(i);
      GroupClauseRule(RowGroup(i), r);
    }
  }

  lemma BoxClauseRule(k: int)
    requires 0 <= k < 2916
    ensures IsExclusionClause(BoxClauseAt(k))
  {
    var a, b, r := BoxSplit(k);
    AnchorAt(a);
    AnchorAt(b);
    BoxGroupGood(Anchor(a), Anchor(b));
    GroupClauseRule(BoxAt(a, b), r);
  }

  /** Every literal of the template is non-zero with magnitude at most 729. */
  lemma TemplateLiterals()
    ensures LiteralsWithin(Template(), 729)
  {
    TemplateShape();
    RulesInRange(Template());
  }

}
