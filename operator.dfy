/** symgp/operator.py: a named function tagged with the number of arguments it takes. */
module Operators {
  import opened Outcomes

  /** The numbers that flow through a tree (floating point is modelled by the reals). */
  type Value = real

  /**
   * An operator is immutable once built: its name, its arity and the function it wraps.
   * The function itself is left uninterpreted; it receives the arguments in order.
   */
  datatype Operator = Operator(name: string, arity: nat, apply: seq<Value> -> Value)

  /** Calling an operator: the argument count is asserted first, then the function is applied. */
  function Call(op: Operator, args: seq<Value>): (r: Result<Value>)
    ensures r.Ok? <==> |args| == op.arity
    ensures r.Ok? ==> r.value == op.apply(args)
    ensures r.Err? ==> r.error == ArityMismatch(op.name, op.arity, |args|)
  {
    if |args| == op.arity then Ok(op.apply(args))
    else Err(ArityMismatch(op.name, op.arity, |args|))
  }
}
