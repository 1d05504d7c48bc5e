/**
 * symgp/genetic/mut.py: the mutation operators. Each call deep-copies the individual, edits
 * the copy (a node's operator, a node's child order, or the root) and returns it; the original
 * is never written. `PointMutate`, `PermMutate`, `HoistMutate` and `MixedMutate` say what a call
 * produces from the tree and the generator's stream; the classes below are proved to follow them.
 */
module Mutation {
  import opened Outcomes
  import opened Operators
  import opened Lists
  import opened Registry
  import opened Generator
  import opened Individual
  import opened Positions

  /** PointMut: a non-leaf node (the root included) gets a function-set operator of its own arity. */
  function PointMutate(t: Tree, fset: seq<Operator>, draws: nat -> nat, pos: nat): Drawn<Tree>
  {
    var nodes := Subnodes(t, false, true);
    if |nodes| == 0 then Drawn(Ok(t), pos)
    else
      var p := Site(nodes, draws(pos));
      SubnodesExact(t, false, true, p);
      var ops := GetByArity(fset, At(t, p).op.arity);
      if |ops| == 0 then Drawn(Err(EmptyChoice), pos + 1)
      else Drawn(Ok(Replace(t, p, Node(ops[draws(pos + 1) % |ops|], At(t, p).children))), pos + 2)
  }

  /** The condition of PermMut's node filter: a non-leaf node of arity greater than one. */
  function IsNaryAt(t: Tree): Path -> bool
  {
    (p: Path) => ValidPath(t, p) && At(t, p).Node? && At(t, p).op.arity > 1
  }

  /** PermMut: the children of a non-leaf node of arity > 1 are put in a drawn order. */
  function PermMutate(t: Tree, hasRng: bool, draws: nat -> nat, pos: nat): Drawn<Tree>
  {
    var nary := Filter(Subnodes(t, false, true), IsNaryAt(t));
    if |nary| == 0 then Drawn(Ok(t), pos)
    else if !hasRng then Drawn(Err(MissingGenerator), pos)
    else
      var p := Site(nary, draws(pos));
      assert IsNaryAt(t)(p);
      var n := At(t, p);
      Drawn(Ok(Replace(t, p, Node(n.op, Shuffled(n.children, draws, pos + 1)))),
            pos + 1 + ShuffleDraws(|n.children|))
  }

  /** HoistMut: a non-leaf node other than the root becomes the root. */
  function HoistMutate(t: Tree, draws: nat -> nat, pos: nat): Drawn<Tree>
  {
    var nodes := Subnodes(t, false, false);
    if |nodes| == 0 then Drawn(Ok(t), pos)
    else
      var p := Site(nodes, draws(pos));
      SubnodesExact(t, false, false, p);
      Drawn(Ok(At(t, p)), pos + 1)
  }

  /** MixedMut: one draw picks the point, permutation or hoist mutation, which then runs. */
  function MixedMutate(t: Tree, fset: seq<Operator>, draws: nat -> nat, pos: nat): Drawn<Tree>
  {
    var k := draws(pos) % 3;
    if k == 0 then PointMutate(t, fset, draws, pos + 1)
    else if k == 1 then PermMutate(t, true, draws, pos + 1)
    else HoistMutate(t, draws, pos + 1)
  }

  /** Two operator nodes with the same children have the same paths and, below the top, the same subtrees. */
  lemma SameChildrenBelow(a: Tree, b: Tree, r: Path)
    requires a.Node? && b.Node? && a.children == b.children
    ensures ValidPath(a, r) <==> ValidPath(b, r)
    ensures r != [] && ValidPath(a, r) ==> At(a, r) == At(b, r)
  {
  }

  /**
   * `u` is `t` with only the operator at `p` changed, to a function-set operator of the same
   * arity: same paths, same label everywhere else, same children at `p`.
   */
  ghost predicate OnlyOperatorChanged(t: Tree, u: Tree, p: Path, fset: seq<Operator>)
  {
    && ValidPath(t, p) && ValidPath(u, p) && At(t, p).Node? && At(u, p).Node?
    && At(u, p).op in fset && At(u, p).op.arity == At(t, p).op.arity
    && At(u, p).children == At(t, p).children
    && (forall q :: ValidPath(u, q) <==> ValidPath(t, q))
    && (forall q :: ValidPath(t, q) && q != p ==> LabelOf(At(u, q)) == LabelOf(At(t, q)))
  }

  /**
   * PointMut, all outcomes: no non-leaf node leaves the tree as it was and draws nothing;
   * otherwise the drawn node is a non-leaf node, the call fails exactly when no function-set
   * operator has its arity, and on success only that node's operator changed.
   */
  lemma {:induction false} PointMutateOutcome(t: Tree, fset: seq<Operator>, draws: nat -> nat, pos: nat)
    ensures Subnodes(t, false, true) == [] ==> PointMutate(t, fset, draws, pos) == Drawn(Ok(t), pos)
    ensures Subnodes(t, false, true) != [] ==>
              var p := Site(Subnodes(t, false, true), draws(pos));
              && ValidPath(t, p) && At(t, p).Node?
              && (PointMutate(t, fset, draws, pos).result.Err? <==> GetByArity(fset, At(t, p).op.arity) == [])
              && (PointMutate(t, fset, draws, pos).result.Ok? ==>
                    OnlyOperatorChanged(t, PointMutate(t, fset, draws, pos).result.value, p, fset))
  {
    var nodes := Subnodes(t, false, true);
    if nodes != [] {
      var p := Site(nodes, draws(pos));
      SubnodesExact(t, false, true, p);
      var d := PointMutate(t, fset, draws, pos);
      if d.result.Ok? {
        var ops := GetByArity(fset, At(t, p).op.arity);
        var s := Node(ops[draws(pos + 1) % |ops|], At(t, p).children);
        var u := Replace(t, p, s);
        assert d.result.value == u;
        ReplaceAt(t, p, s, p);
        assert p[|p|..] == [];
        forall q
          ensures ValidPath(u, q) <==> ValidPath(t, q)
          ensures ValidPath(t, q) && q != p ==> LabelOf(At(u, q)) == LabelOf(At(t, q))
        {
          ReplaceAt(t, p, s, q);
          if IsPrefix(p, q) {
            var r := q[|p|..];
            assert q == p + r;
            AtAppend(t, p, r);
            SameChildrenBelow(s, At(t, p), r);
          }
        }
      }
    }
  }

  /** Point mutation keeps a tree well formed, and over a function-set tree it cannot fail. */
  lemma {:induction false} PointMutatePreserves(t: Tree, fset: seq<Operator>, draws: nat -> nat, pos: nat)
    requires WellFormed(t)
    ensures PointMutate(t, fset, draws, pos).result.Ok? ==> WellFormed(PointMutate(t, fset, draws, pos).result.value)
    ensures OpsFrom(t, fset) ==> PointMutate(t, fset, draws, pos).result.Ok?
    ensures OpsFrom(t, fset) ==> OpsFrom(PointMutate(t, fset, draws, pos).result.value, fset)
  {
    var nodes := Subnodes(t, false, true);
    if nodes != [] {
      var p := Site(nodes, draws(pos));
      SubnodesExact(t, false, true, p);
      var n := At(t, p);
      SubtreeEverywhere(t, p, ArityMatches);
      if OpsFrom(t, fset) {
        SubtreeEverywhere(t, p, InFunctionSet(fset));
        assert n.op in GetByArity(fset, n.op.arity);
      }
      var ops := GetByArity(fset, n.op.arity);
      if |ops| > 0 {
        var op' := ops[draws(pos + 1) % |ops|];
        var s := Node(op', n.children);
        assert Everywhere(s, ArityMatches);
        ReplaceEverywhere(t, p, s, ArityMatches);
        if OpsFrom(t, fset) {
          assert Everywhere(s, InFunctionSet(fset));
          ReplaceEverywhere(t, p, s, InFunctionSet(fset));
        }
      }
    }
  }

  /**
   * PermMut, all outcomes: without a node of arity > 1 the tree is returned as it was; without a
   * generator the call fails; otherwise the drawn node has arity > 1, keeps its operator, and its
   * new children are the old ones in another order, while every node off its subtree keeps its
   * label and child count and every path outside its subtree still exists.
   */
  lemma {:induction false} PermMutateOutcome(t: Tree, hasRng: bool, draws: nat -> nat, pos: nat)
    ensures var nary := Filter(Subnodes(t, false, true), IsNaryAt(t));
            nary == [] ==> PermMutate(t, hasRng, draws, pos) == Drawn(Ok(t), pos)
    ensures var nary := Filter(Subnodes(t, false, true), IsNaryAt(t));
            nary != [] && !hasRng ==> PermMutate(t, hasRng, draws, pos) == Drawn(Err(MissingGenerator), pos)
    ensures var nary := Filter(Subnodes(t, false, true), IsNaryAt(t));
            nary != [] && hasRng ==>
              var p := Site(nary, draws(pos));
              var u := PermMutate(t, hasRng, draws, pos).result;
              && ValidPath(t, p) && At(t, p).Node? && At(t, p).op.arity > 1
              && u.Ok? && ValidPath(u.value, p) && At(u.value, p).Node?
              && At(u.value, p).op == At(t, p).op
              && |At(u.value, p).children| == |At(t, p).children|
              && multiset(At(u.value, p).children) == multiset(At(t, p).children)
              && (forall q :: !IsPrefix(p, q) ==> (ValidPath(u.value, q) <==> ValidPath(t, q)))
              && (forall q :: !IsPrefix(p, q) && ValidPath(t, q) ==>
                    LabelOf(At(u.value, q)) == LabelOf(At(t, q)) && |Kids(At(u.value, q))| == |Kids(At(t, q))|)
  {
    var nary := Filter(Subnodes(t, false, true), IsNaryAt(t));
    if nary != [] && hasRng {
      var p := Site(nary, draws(pos));
      assert IsNaryAt(t)(p);
      var n := At(t, p);
      var s := Node(n.op, Shuffled(n.children, draws, pos + 1));
      ReplaceAt(t, p, s, p);
      assert p[|p|..] == [];
      forall q | !IsPrefix(p, q)
        ensures ValidPath(Replace(t, p, s), q) <==> ValidPath(t, q)
        ensures ValidPath(t, q) ==> LabelOf(At(Replace(t, p, s), q)) == LabelOf(At(t, q))
                                    && |Kids(At(Replace(t, p, s), q))| == |Kids(At(t, q))|
      {
        ReplaceAt(t, p, s, q);
      }
    }
  }

  /** Permutation mutation keeps a tree well formed and its operators in the function set. */
  lemma {:induction false} PermMutatePreserves(t: Tree, fset: seq<Operator>, hasRng: bool, draws: nat -> nat, pos: nat)
    requires WellFormed(t)
    ensures PermMutate(t, hasRng, draws, pos).result.Ok? ==> WellFormed(PermMutate(t, hasRng, draws, pos).result.value)
    ensures PermMutate(t, hasRng, draws, pos).result.Ok? && OpsFrom(t, fset) ==>
              OpsFrom(PermMutate(t, hasRng, draws, pos).result.value, fset)
  {
    var nary := Filter(Subnodes(t, false, true), IsNaryAt(t));
    if nary != [] && hasRng {
      var p := Site(nary, draws(pos));
      assert IsNaryAt(t)(p);
      var n := At(t, p);
      var perm := Shuffled(n.children, draws, pos + 1);
      assert PermMutate(t, hasRng, draws, pos).result == Ok(Replace(t, p, Node(n.op, perm)));
      ReplaceByPermuted(t, p, perm, ArityMatches);
      if OpsFrom(t, fset) {
        ReplaceByPermuted(t, p, perm, InFunctionSet(fset));
      }
    }
  }

  /** Reordering the children of one node keeps every node passing a local condition. */
  lemma ReplaceByPermuted(t: Tree, p: Path, perm: seq<Tree>, ok: (Label, nat) -> bool)
    requires ValidPath(t, p) && At(t, p).Node? && Everywhere(t, ok)
    requires |perm| == |At(t, p).children| && multiset(perm) == multiset(At(t, p).children)
    ensures Everywhere(Replace(t, p, Node(At(t, p).op, perm)), ok)
  {
    SubtreeEverywhere(t, p, ok);
    PermutedEverywhere(At(t, p), perm, ok);
    ReplaceEverywhere(t, p, Node(At(t, p).op, perm), ok);
  }

  /** A node whose children are put in another order passes wherever the original did. */
  lemma PermutedEverywhere(n: Tree, perm: seq<Tree>, ok: (Label, nat) -> bool)
    requires n.Node? && Everywhere(n, ok)
    requires |perm| == |n.children| && multiset(perm) == multiset(n.children)
    ensures Everywhere(Node(n.op, perm), ok)
  {
    forall i | 0 <= i < |perm|
      ensures Everywhere(perm[i], ok)
    {
      assert perm[i] in multiset(n.children);
      var j :| 0 <= j < |n.children| && n.children[j] == perm[i];
    }
  }

  /**
   * HoistMut, all outcomes: without a non-root non-leaf node the tree is returned as it was;
   * otherwise the new tree is the subtree at a drawn non-root non-leaf node, so it is strictly
   * smaller and strictly lower than the tree it came from.
   */
  lemma {:induction false} HoistMutateOutcome(t: Tree, draws: nat -> nat, pos: nat)
    ensures HoistMutate(t, draws, pos).result.Ok?
    ensures Subnodes(t, false, false) == [] ==> HoistMutate(t, draws, pos) == Drawn(Ok(t), pos)
    ensures Subnodes(t, false, false) != [] ==>
              var p := Site(Subnodes(t, false, false), draws(pos));
              var u := HoistMutate(t, draws, pos).result.value;
              && ValidPath(t, p) && p != [] && At(t, p).Node? && u == At(t, p)
              && Size(u) < Size(t) && Height(u) < Height(t)
    ensures Height(HoistMutate(t, draws, pos).result.value) <= Height(t)
    ensures Size(HoistMutate(t, draws, pos).result.value) <= Size(t)
  {
    var nodes := Subnodes(t, false, false);
    if nodes != [] {
      var p := Site(nodes, draws(pos));
      SubnodesExact(t, false, false, p);
      SubtreeBounds(t, p);
    }
  }

  /** Hoisting keeps a tree well formed and its operators in the function set. */
  lemma {:induction false} HoistMutatePreserves(t: Tree, fset: seq<Operator>, draws: nat -> nat, pos: nat)
    requires WellFormed(t)
    ensures WellFormed(HoistMutate(t, draws, pos).result.value)
    ensures OpsFrom(t, fset) ==> OpsFrom(HoistMutate(t, draws, pos).result.value, fset)
  {
    var nodes := Subnodes(t, false, false);
    if nodes != [] {
      var p := Site(nodes, draws(pos));
      SubnodesExact(t, false, false, p);
      SubtreeEverywhere(t, p, ArityMatches);
      if OpsFrom(t, fset) {
        SubtreeEverywhere(t, p, InFunctionSet(fset));
      }
    }
  }

  /**
   * Mixed mutation of a well-formed tree whose operators come from the function set never
   * fails, and its result is again well formed with operators from the function set.
   */
  lemma {:induction false} MixedMutatePreserves(t: Tree, fset: seq<Operator>, draws: nat -> nat, pos: nat)
    requires WellFormed(t) && OpsFrom(t, fset)
    ensures MixedMutate(t, fset, draws, pos).result.Ok?
    ensures WellFormed(MixedMutate(t, fset, draws, pos).result.value)
    ensures OpsFrom(MixedMutate(t, fset, draws, pos).result.value, fset)
  {
    var k := draws(pos) % 3;
    if k == 0 {
      PointMutatePreserves(t, fset, draws, pos + 1);
    } else if k == 1 {
      PermMutatePreserves(t, fset, true, draws, pos + 1);
      PermMutateOutcome(t, true, draws, pos + 1);
    } else {
      HoistMutatePreserves(t, fset, draws, pos + 1);
      HoistMutateOutcome(t, draws, pos + 1);
    }
  }

  /**
   * A call that returned `r` on the copy of `source` produced what the specification `d` says:
   * the same failure, or a new individual whose root is the specified tree and whose input
   * leaves are those of the source.
   */
  ghost predicate Yields(r: Result<IndividualTree>, d: Result<Tree>, source: IndividualTree)
    reads if r.Ok? then {r.value} else {}
  {
    && r.Ok? == d.Ok?
    && (r.Err? ==> r.error == d.error)
    && (r.Ok? ==> r.value.root == d.value && r.value.inputLeaves == source.inputLeaves && r.value.Valid())
  }

  class PointMut {
    const name: string
    const rng: Rng
    const fset: seq<Operator>

    constructor (rng: Rng, fset: seq<Operator>)
      ensures name == "Point Mutation Operator" && this.rng == rng && this.fset == fset
    {
      name := "Point Mutation Operator";
      this.rng := rng;
      this.fset := fset;
    }

    method Apply(it: IndividualTree) returns (r: Result<IndividualTree>)
      requires it.Valid()
      modifies rng
      ensures r.Ok? ==> fresh(r.value)
      ensures var d := PointMutate(it.root, fset, rng.stream, old(rng.pos));
              Yields(r, d.result, it) && rng.pos == d.next
    {
      var ret := it.DeepCopy();
      var nodes := Subnodes(ret.root, false, true);
      if |nodes| != 0 {
        var k := rng.Choice(|nodes|);
        var p := nodes[k.value];
        SubnodesExact(ret.root, false, true, p);
        var ops := GetByArity(fset, At(ret.root, p).op.arity);
        var o := rng.Choice(|ops|);
        if o.Err? {
          return Err(o.error);
        }
        ret.root := Replace(ret.root, p, Node(ops[o.value], At(ret.root, p).children));
      }
      r := Ok(ret);
    }
  }

  class PermMut {
    const name: string
    const rng: Rng?

    constructor (rng: Rng?)
      ensures name == "Permutation Mutation Operator" && this.rng == rng
    {
      name := "Permutation Mutation Operator";
      this.rng := rng;
    }

    /** __init__: asking for random permutations without a generator fails the assertion. */
    static method Create(random: bool := false, rng: Rng? := null) returns (r: Result<PermMut>)
      ensures random && rng == null ==> r == Err(GeneratorRequired)
      ensures !(random && rng == null) ==> r.Ok? && fresh(r.value) && r.value.rng == rng
    {
      if random && rng == null {
        return Err(GeneratorRequired);
      }
      var m := new PermMut(rng);
      r := Ok(m);
    }

    method Apply(it: IndividualTree) returns (r: Result<IndividualTree>)
      requires it.Valid()
      modifies if rng == null then {} else {rng}
      ensures r.Ok? ==> fresh(r.value)
      ensures rng == null ==> Yields(r, PermMutate(it.root, false, _ => 0, 0).result, it)
      ensures rng != null ==>
                var d := PermMutate(it.root, true, rng.stream, old(rng.pos));
                Yields(r, d.result, it) && rng.pos == d.next
    {
      var ret := it.DeepCopy();
      var nodes := Subnodes(ret.root, false, true);
      var nary := Filter(nodes, IsNaryAt(ret.root));
      if |nary| != 0 {
        if rng == null {
          return Err(MissingGenerator);
        }
        var k := rng.Choice(|nary|);
        var p := nary[k.value];
        assert IsNaryAt(ret.root)(p);
        var n := At(ret.root, p);
        var children := rng.Permutation(n.children);
        ret.root := Replace(ret.root, p, Node(n.op, children));
      }
      r := Ok(ret);
    }
  }

  class HoistMut {
    const name: string
    const rng: Rng

    constructor (rng: Rng)
      ensures name == "Hoist Mutation Operator" && this.rng == rng
    {
      name := "Hoist Mutation Operator";
      this.rng := rng;
    }

    method Apply(it: IndividualTree) returns (r: Result<IndividualTree>)
      requires it.Valid()
      modifies rng
      ensures r.Ok? && fresh(r.value)
      ensures var d := HoistMutate(it.root, rng.stream, old(rng.pos));
              Yields(r, d.result, it) && rng.pos == d.next
    {
      var ret := it.DeepCopy();
      var nodes := Subnodes(ret.root, false, false);
      if |nodes| != 0 {
        var k := rng.Choice(|nodes|);
        var p := nodes[k.value];
        SubnodesExact(ret.root, false, false, p);
        ret.root := At(ret.root, p);
      }
      r := Ok(ret);
    }
  }

  class MixedMut {
    const name: string
    const rng: Rng
    const fset: seq<Operator>
    /** The list of mutation operators the source draws from, one field per entry. */
    const point: PointMut
    const perm: PermMut
    const hoist: HoistMut

    /** The three delegates share this operator's generator and function set. */
    ghost predicate Valid()
    {
      point.rng == rng && point.fset == fset && perm.rng == rng && hoist.rng == rng
    }

    constructor (rng: Rng, fset: seq<Operator>)
      ensures name == "Mixed Mutation Operator" && this.rng == rng && this.fset == fset
      ensures Valid() && fresh(point) && fresh(perm) && fresh(hoist)
    {
      name := "Mixed Mutation Operator";
      this.rng := rng;
      this.fset := fset;
      point := new PointMut(rng, fset);
      perm := new PermMut(rng);
      hoist := new HoistMut(rng);
    }

    method Apply(it: IndividualTree) returns (r: Result<IndividualTree>)
      requires Valid() && it.Valid()
      modifies rng
      ensures r.Ok? ==> fresh(r.value)
      ensures var d := MixedMutate(it.root, fset, rng.stream, old(rng.pos));
              Yields(r, d.result, it) && rng.pos == d.next
    {
      var k := rng.Choice(3);
      if k.value == 0 {
        r := point.Apply(it);
      } else if k.value == 1 {
        r := perm.Apply(it);
      } else {
        r := hoist.Apply(it);
      }
    }
  }
}
