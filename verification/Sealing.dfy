/** A way to state a fact without having every proof unfold it. A sealed fact P about x is written
    `forall u: int | Key(u, x) :: P`. Key is always true, so this is P; but the verifier sees P only in a
    proof that mentions a key for x, as in `assert Key(0, x)`. Predicates that hold through many steps of
    a method are sealed, and the small lemmas about them open them. */
module Sealing {
  predicate Key<T>(u: int, x: T) {
    true
  }
}
