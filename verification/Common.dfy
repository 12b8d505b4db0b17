/** Small types shared by the models. */
module Common {
  type byte = x: int | 0 <= x < 256

  datatype Option<+T> = None | Some(value: T)

  /** Whether a long predicate holds, as one value.  A function gives the verdict and a
      predicate compares it with `Holds`: the solver then meets the conjuncts of the
      predicate only where the verdict itself is in question. */
  datatype Verdict = Holds | Broken
}
