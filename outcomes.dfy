/** Outcomes of the operations that can fail: each exception the core raises becomes an `Err`. */
module Outcomes {

  datatype Option<+T> = None | Some(value: T)

  /** The failures of the core, one per cause. */
  datatype Error =
    | LeafNotSet                                        // ValueError raised by Leaf.evaluate
    | InputLengthMismatch(expected: int, got: nat)      // ValueError raised by IndividualTree.evaluate
    | ArityMismatch(name: string, arity: nat, got: nat) // AssertionError raised by Operator.__call__
    | EmptyChoice                                       // the generator's choice over an empty list
    | EmptyRange                                        // the generator's integers(low, high) with low >= high
    | MissingGenerator                                  // a draw through an absent generator (rng is None)
    | GeneratorRequired                                 // AssertionError raised by PermMut.__init__

  datatype Result<+T> = Ok(value: T) | Err(error: Error)
}
