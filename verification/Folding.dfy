/** A way to state a fact so that only proofs that ask for it see what it says. */
module Folding {
  /** True of everything. A definition quantifies over all x that equal its argument, with Unfold(x) as
      the trigger, so that it is seen only by proofs that mention Unfold of the argument. */
  ghost predicate Unfold<T>(x: T) {
    true
  }
}
