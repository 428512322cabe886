/**
 * Variable numbering of the Sudoku encoding: the propositional variable
 * "cell (i, j) holds digit d" for i, j, d in 1..9 is the integer
 * 81 * (i - 1) + 9 * (j - 1) + d, so the 729 variables are 1..729.
 */
module Numbering {

  /** A row, column or digit index: the source counts all three from 1 to 9. */
  predicate InRange(x: int) {
    1 <= x <= 9
  }

  /** The variable of cell (i, j) and digit d (the source's `v`). */
  function V(i: int, j: int, d: int): int {
    81 * (i - 1) + 9 * (j - 1) + d
  }

  /** Inverses of V: the row, column and digit a variable in 1..729 stands for. */
  function RowOf(x: int): int {
    (x - 1) / 81 + 1
  }

  function ColOf(x: int): int {
    (x - 1) % 81 / 9 + 1
  }

  function DigitOf(x: int): int {
    (x - 1) % 9 + 1
  }

  /** Every in-range triple is numbered by a variable in 1..729. */
  lemma VRange(i: int, j: int, d: int)
    requires InRange(i) && InRange(j) && InRange(d)
    ensures 1 <= V(i, j, d) <= 729
  {
  }

  /** Decoding a variable gives back the triple it was made from. */
  lemma VDecode(i: int, j: int, d: int)
    requires InRange(i) && InRange(j) && InRange(d)
    ensures RowOf(V(i, j, d)) == i && ColOf(V(i, j, d)) == j && DigitOf(V(i, j, d)) == d
  {
    var x := V(i, j, d) - 1;
    var low := 9 * (j - 1) + (d - 1);
    assert x == 81 * (i - 1) + low && 0 <= low < 81;
    DivMod81(x, i - 1, low);
    assert low == 9 * (j - 1) + (d - 1) && 0 <= d - 1 < 9;
    DivMod9(low, j - 1, d - 1);
    assert x == 9 * (9 * (i - 1) + (j - 1)) + (d - 1);
    DivMod9(x, 9 * (i - 1) + (j - 1), d - 1);
  }

  /** The row, column and digit of a variable in 1..729 are in range. */
  lemma VBounds(x: int)
    requires 1 <= x <= 729
    ensures InRange(RowOf(x)) && InRange(ColOf(x)) && InRange(DigitOf(x))
  {
  }

  /** Every variable in 1..729 is the number of an in-range triple. */
  lemma VEncode(x: int)
    requires 1 <= x <= 729
    ensures InRange(RowOf(x)) && InRange(ColOf(x)) && InRange(DigitOf(x))
    ensures V(RowOf(x), ColOf(x), DigitOf(x)) == x
  {
    var y := x - 1;
    var q, r := y / 81, y % 81;
    assert y == 81 * q + r;
    var q2, r2 := r / 9, r % 9;
    assert r == 9 * q2 + r2;
    assert y == 9 * (9 * q + q2) + r2;
    DivMod9(y, 9 * q + q2, r2);
  }

  /** Distinct in-range triples get distinct variables. */
  lemma VInjective(i: int, j: int, d: int, i2: int, j2: int, d2: int)
    requires InRange(i) && InRange(j) && InRange(d)
    requires InRange(i2) && InRange(j2) && InRange(d2)
    ensures V(i, j, d) == V(i2, j2, d2) <==> i == i2 && j == j2 && d == d2
  {
    VDecode(i, j, d);
    VDecode(i2, j2, d2);
  }

  /** Division by 81 and by 9 is determined by quotient and remainder. */
  lemma DivMod81(x: int, q: int, r: int)
    requires 0 <= r < 81 && x == 81 * q + r
    ensures x / 81 == q && x % 81 == r
  {
  }

  lemma DivMod9(x: int, q: int, r: int)
    requires 0 <= r < 9 && x == 9 * q + r
    ensures x / 9 == q && x % 9 == r
  {
  }
}
