/**
 * Clauses in the integer form the SAT engine takes: a literal is a non-zero
 * integer (x asserts variable x, -x its negation), a clause is the
 * disjunction of its literals, a clause list their conjunction. The
 * engine's answer is either a model, the list of literals it made true,
 * or the marker that no model exists.
 */
module Cnf {

  type Clause = seq<int>

  /** What the SAT engine returns: a list of signed literals, or UNSAT. */
  datatype SolverResult = Sat(model: seq<int>) | Unsat

  /** An assignment never makes a literal and its negation true together. */
  ghost predicate Consistent(sol: seq<int>) {
    forall x :: x in sol ==> -x !in sol
  }

  /** An assignment gives a sign to each of the first n variables. */
  ghost predicate Complete(sol: seq<int>, n: int) {
    forall x :: 1 <= x <= n ==> x in sol || -x in sol
  }

  /** Under assignment sol (read as the set of true literals) clause c holds. */
  ghost predicate ClauseTrue(sol: seq<int>, c: Clause) {
    exists l :: l in c && l in sol
  }

  ghost predicate Satisfies(sol: seq<int>, cs: seq<Clause>) {
    forall c :: c in cs ==> ClauseTrue(sol, c)
  }

  /** Every literal of every clause is a non-zero integer of magnitude at most n. */
  ghost predicate LiteralsWithin(cs: seq<Clause>, n: int) {
    forall c, l :: c in cs && l in c ==> l != 0 && -n <= l <= n
  }

  /** Satisfying a concatenation is satisfying both parts. */
  lemma SatisfiesAppend(sol: seq<int>, a: seq<Clause>, b: seq<Clause>)
    ensures Satisfies(sol, a + b) <==> Satisfies(sol, a) && Satisfies(sol, b)
  {
    if Satisfies(sol, a) && Satisfies(sol, b) {
      forall c | c in a + b ensures ClauseTrue(sol, c) {
        assert c in a || c in b;
      }
    }
  }
}
