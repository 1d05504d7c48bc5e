/**
 * symgp/npf/utils.py: selecting operators of the registry by arity. The registry itself is
 * gathered by reflection over a module in the source; here it is the parameter `all`.
 */
module Registry {
  import opened Operators
  import opened Lists

  predicate IsUnary(op: Operator) { op.arity == 1 }
  predicate IsNary(op: Operator) { op.arity > 1 }
  predicate IsBinary(op: Operator) { op.arity == 2 }

  /** The operators taking exactly one argument, in registry order. */
  function GetUnary(all: seq<Operator>): (r: seq<Operator>)
    ensures forall op :: op in r <==> op in all && op.arity == 1
    ensures IsSubsequence(r, all)
  {
    Filter(all, IsUnary)
  }

  /** The operators taking two or more arguments, in registry order. */
  function GetNary(all: seq<Operator>): (r: seq<Operator>)
    ensures forall op :: op in r <==> op in all && op.arity > 1
    ensures IsSubsequence(r, all)
  {
    Filter(all, IsNary)
  }

  /** The operators taking exactly two arguments, in registry order. */
  function GetBinary(all: seq<Operator>): (r: seq<Operator>)
    ensures forall op :: op in r <==> op in all && op.arity == 2
    ensures IsSubsequence(r, all)
  {
    Filter(all, IsBinary)
  }

  /** The operators taking exactly `n` arguments, in registry order. */
  function GetByArity(all: seq<Operator>, n: int): (r: seq<Operator>)
    ensures forall op :: op in r <==> op in all && op.arity == n
    ensures IsSubsequence(r, all)
  {
    Filter(all, ArityIs(n))
  }

  /** The condition `op.arity == n` of the comprehension in get_by_arity. */
  function ArityIs(n: int): Operator -> bool
  {
    (op: Operator) => op.arity == n
  }

  /** Selecting by arity 1 is selecting the unary operators, element for element. */
  lemma ByArityOneIsUnary(all: seq<Operator>)
    ensures GetByArity(all, 1) == GetUnary(all)
  {
    FilterAgrees(all, ArityIs(1), IsUnary);
  }

  /** Selecting by arity 2 is selecting the binary operators, element for element. */
  lemma ByArityTwoIsBinary(all: seq<Operator>)
    ensures GetByArity(all, 2) == GetBinary(all)
  {
    FilterAgrees(all, ArityIs(2), IsBinary);
  }

  /** The binary operators appear among the n-ary ones, in the same order. */
  lemma BinaryWithinNary(all: seq<Operator>)
    ensures IsSubsequence(GetBinary(all), GetNary(all))
  {
    FilterStronger(all, IsBinary, IsNary);
  }

  /** No operator is both unary and n-ary. */
  lemma UnaryNaryDisjoint(all: seq<Operator>)
    ensures forall op :: op in GetUnary(all) ==> op !in GetNary(all)
    ensures forall op :: op in GetNary(all) ==> op !in GetUnary(all)
  {
  }

  /** The three predicates agree with membership in the matching selection. */
  lemma PredicatesMatchSelections(all: seq<Operator>, op: Operator)
    requires op in all
    ensures IsUnary(op) <==> op in GetUnary(all)
    ensures IsNary(op) <==> op in GetNary(all)
    ensures IsBinary(op) <==> op in GetBinary(all)
  {
  }
}
