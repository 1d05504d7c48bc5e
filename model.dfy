/**
 * symgp/model.py: the model that samples random individuals. It holds the function set, the
 * shared input leaves, the share of random constants among the terminals and a generator
 * seeded at construction. Sampling builds a tree in which every terminal sits at the maximum
 * depth, wrapped in an individual over the model's input leaves.
 */
module Models {
  import opened Outcomes
  import opened Operators
  import opened Generator
  import opened Individual
  import opened Positions

  /** The default seed of a model's generator. */
  const SecretRecipe: int := 12345

  /** What one grow step returns: a bare subtree, or (at depth 0) an individual wrapping it. */
  datatype Sampled = Bare(tree: Tree) | Wrapped(it: IndividualTree)

  /** The tree a grow step produced. */
  ghost function TreeOf(g: Sampled): Tree
    reads if g.Wrapped? then {g.it} else {}
  {
    if g.Bare? then g.tree else g.it.root
  }

  /**
   * The shape of a grown tree with `h` levels still to go: a terminal when none remain,
   * otherwise a function-set operator with one grown child per argument.
   */
  ghost predicate Full(t: Tree, h: nat, fset: seq<Operator>)
    decreases t
  {
    if h == 0 then t.Terminal?
    else
      && t.Node? && t.op in fset && |t.children| == t.op.arity
      && AllFull(t.children, h - 1, fset)
  }

  /** A grown tree is well-formed, uses only the function set, and has at most `h` levels. */
  lemma {:induction false} FullShape(t: Tree, h: nat, fset: seq<Operator>)
    requires Full(t, h, fset)
    ensures WellFormed(t) && OpsFrom(t, fset) && Height(t) <= h
    decreases t
  {
    if h > 0 {
      forall i | 0 <= i < |t.children|
        ensures WellFormed(t.children[i]) && OpsFrom(t.children[i], fset) && Height(t.children[i]) <= h - 1
      {
        FullShape(t.children[i], h - 1, fset);
      }
      if t.children != [] {
        var i :| 0 <= i < |t.children| && Height(t.children[i]) == MaxHeight(t.children);
      }
    }
  }

  /**
   * In a grown tree the terminals are exactly the nodes at depth `h`: every node above is an
   * operator, and no path goes deeper.
   */
  lemma {:induction false} FullLayers(t: Tree, h: nat, fset: seq<Operator>, p: Path)
    requires Full(t, h, fset) && ValidPath(t, p)
    ensures |p| <= h
    ensures At(t, p).Terminal? <==> |p| == h
    decreases p
  {
    if p != [] {
      FullLayers(t.children[p[0]], h - 1, fset, p[1..]);
    }
  }

  /** When no operator of the function set is nullary, a grown tree has exactly `h` levels. */
  lemma {:induction false} FullHeight(t: Tree, h: nat, fset: seq<Operator>)
    requires Full(t, h, fset)
    requires forall op :: op in fset ==> op.arity >= 1
    ensures Height(t) == h
    decreases t
  {
    if h > 0 {
      forall i | 0 <= i < |t.children|
        ensures Height(t.children[i]) == h - 1
      {
        FullHeight(t.children[i], h - 1, fset);
      }
      assert Height(t.children[0]) == h - 1;
    }
  }

  /** A grown tree whose leaves all hold a value evaluates without error. */
  lemma FullEvaluates(t: Tree, h: nat, fset: seq<Operator>)
    requires Full(t, h, fset)
    requires forall l :: l in LeafSet(t) ==> l.value.Some?
    ensures Eval(t).Ok?
  {
    FullShape(t, h, fset);
    BoundTreeEvaluates(t);
  }

  /** Every tree of the list has the grown shape with `h` levels. */
  ghost predicate AllFull(cs: seq<Tree>, h: nat, fset: seq<Operator>)
    decreases cs
  {
    forall j :: 0 <= j < |cs| ==> Full(cs[j], h, fset)
  }

  lemma AllFullAppend(cs: seq<Tree>, t: Tree, h: nat, fset: seq<Operator>)
    requires AllFull(cs, h, fset) && Full(t, h, fset)
    ensures AllFull(cs + [t], h, fset)
  {
    assert forall j :: 0 <= j < |cs| ==> (cs + [t])[j] == cs[j];
  }

  lemma LeafSetOfAppend(cs: seq<Tree>, t: Tree, l: Leaf)
    requires l in LeafSetOf(cs + [t])
    ensures l in LeafSetOf(cs) || l in LeafSet(t)
  {
    var cs' := cs + [t];
    var i :| 0 <= i < |cs'| && l in LeafSet(cs'[i]);
    if i < |cs| {
      assert cs'[i] == cs[i];
    }
  }

  class Model {
    const maxDepth: nat
    const populationSize: int
    const fset: seq<Operator>
    const inputLeaves: seq<Leaf>
    const cProp: real
    const rng: Rng

    /** The generator is seeded with `randSeed`; `bitGenerator` stands for PCG64. */
    constructor (maxDepth: nat, populationSize: int, fset: seq<Operator>, inputLeaves: seq<Leaf>,
                 bitGenerator: int -> (nat -> nat), cProp: real := 0.3, randSeed: int := SecretRecipe)
      ensures this.maxDepth == maxDepth && this.populationSize == populationSize
      ensures this.fset == fset && this.inputLeaves == inputLeaves && this.cProp == cProp
      ensures fresh(rng) && rng.stream == bitGenerator(randSeed) && rng.pos == 0
    {
      this.maxDepth := maxDepth;
      this.populationSize := populationSize;
      this.fset := fset;
      this.inputLeaves := inputLeaves;
      this.cProp := cProp;
      rng := new Rng(randSeed, bitGenerator);
    }

    /**
     * Whether a grow at `depth` whose first draw is at `pos` succeeds, and where it leaves the
     * generator: a terminal takes one float draw and a second draw (none when the input-leaf
     * choice fails), a node one draw for its operator and then the draws of its children, each
     * child starting where the previous one ended.
     */
    ghost function GrowEnd(depth: nat, pos: nat): (bool, nat)
      requires depth <= maxDepth
      decreases maxDepth - depth, 1, 0
    {
      if depth == maxDepth then
        if Unit(rng.stream(pos)) < cProp || |inputLeaves| > 0 then (true, pos + 2) else (false, pos + 1)
      else if |fset| == 0 then (false, pos)
      else ChildrenEnd(depth, fset[rng.stream(pos) % |fset|].arity, pos + 1)
    }

    /** The same for `count` children grown one after another below a node at `depth`; the first failure stops the node. */
    ghost function ChildrenEnd(depth: nat, count: nat, pos: nat): (bool, nat)
      requires depth < maxDepth
      decreases maxDepth - depth, 0, count
    {
      if count == 0 then (true, pos)
      else
        var child := GrowEnd(depth + 1, pos);
        if !child.0 then child else ChildrenEnd(depth, count - 1, child.1)
    }

    /**
     * A grow never moves the generator backwards, a successful one uses at least one draw, and
     * it always succeeds when the function set and the input leaves are both non-empty.
     */
    lemma {:induction false} GrowEndAdvances(depth: nat, pos: nat)
      requires depth <= maxDepth
      ensures pos <= GrowEnd(depth, pos).1
      ensures GrowEnd(depth, pos).0 ==> pos < GrowEnd(depth, pos).1
      ensures |fset| > 0 && |inputLeaves| > 0 ==> GrowEnd(depth, pos).0
      decreases maxDepth - depth, 1, 0
    {
      if depth < maxDepth && |fset| > 0 {
        ChildrenEndAdvances(depth, fset[rng.stream(pos) % |fset|].arity, pos + 1);
      }
    }

    lemma {:induction false} ChildrenEndAdvances(depth: nat, count: nat, pos: nat)
      requires depth < maxDepth
      ensures pos <= ChildrenEnd(depth, count, pos).1
      ensures |fset| > 0 && |inputLeaves| > 0 ==> ChildrenEnd(depth, count, pos).0
      decreases maxDepth - depth, 0, count
    {
      if count > 0 {
        GrowEndAdvances(depth + 1, pos);
        var child := GrowEnd(depth + 1, pos);
        if child.0 {
          ChildrenEndAdvances(depth, count - 1, child.1);
        }
      }
    }

    /**
     * __grow: at the maximum depth a terminal, above it an operator node; depth 0 wraps the
     * node in an individual over the model's input leaves. Drawing from an empty function set
     * or input-leaf list fails.
     */
    method Grow(currDepth: nat) returns (r: Result<Sampled>)
      requires currDepth <= maxDepth
      modifies rng
      ensures r.Ok? ==> Full(TreeOf(r.value), maxDepth - currDepth, fset)
      ensures r.Ok? ==> forall l :: l in LeafSet(TreeOf(r.value)) ==>
                          l in inputLeaves || (fresh(l) && allocated(l) && l.value.Some? && 0.0 <= l.value.value < 1.0)
      ensures r.Ok? ==> (r.value.Wrapped? <==> currDepth == 0 < maxDepth)
      ensures r.Ok? && r.value.Wrapped? ==>
                fresh(r.value.it) && r.value.it.inputLeaves == inputLeaves && r.value.it.Valid()
      ensures r.Err? ==> r.error == EmptyChoice && (|inputLeaves| == 0 || (|fset| == 0 && currDepth < maxDepth))
      ensures |inputLeaves| > 0 && |fset| > 0 ==> r.Ok?
      ensures var e := GrowEnd(currDepth, old(rng.pos)); r.Ok? == e.0 && rng.pos == e.1
    {
      var t := GrowTree(currDepth);
      if t.Err? {
        return Err(t.error);
      }
      if currDepth == 0 < maxDepth {
        var it := new IndividualTree(t.value, inputLeaves);
        r := Ok(Wrapped(it));
        assert TreeOf(r.value) == t.value;
      } else {
        r := Ok(Bare(t.value));
      }
    }

    /**
     * The tree __grow builds below the wrapping step: a terminal at the maximum depth, an
     * operator node above it.
     */
    method GrowTree(currDepth: nat) returns (r: Result<Tree>)
      requires currDepth <= maxDepth
      modifies rng
      decreases maxDepth - currDepth, 2
      ensures r.Ok? ==> Full(r.value, maxDepth - currDepth, fset)
      ensures r.Ok? ==> forall l :: l in LeafSet(r.value) ==>
                          l in inputLeaves || (fresh(l) && allocated(l) && l.value.Some? && 0.0 <= l.value.value < 1.0)
      ensures r.Err? ==> r.error == EmptyChoice && (|inputLeaves| == 0 || (|fset| == 0 && currDepth < maxDepth))
      ensures |inputLeaves| > 0 && |fset| > 0 ==> r.Ok?
      ensures var e := GrowEnd(currDepth, old(rng.pos)); r.Ok? == e.0 && rng.pos == e.1
    {
      if currDepth == maxDepth {
        r := GrowTerminal();
        if r.Ok? {
          assert LeafSet(r.value) == {r.value.leaf};
        }
      } else {
        r := GrowNode(currDepth);
      }
    }

    /**
     * The terminal __grow returns at the maximum depth: one draw decides between a new
     * constant leaf holding a second draw (probability `cProp`) and a drawn input leaf.
     */
    method GrowTerminal() returns (r: Result<Tree>)
      modifies rng
      ensures r.Ok? ==> r.value.Terminal?
      ensures r.Ok? ==> r.value.leaf in inputLeaves || (fresh(r.value.leaf) && r.value.leaf.value.Some? && 0.0 <= r.value.leaf.value.value < 1.0)
      ensures var draw, u := rng.stream(old(rng.pos) + 1), Unit(rng.stream(old(rng.pos)));
              && (u < cProp ==> r.Ok? && fresh(r.value.leaf) && r.value.leaf.value == Some(Unit(draw))
                                && rng.pos == old(rng.pos) + 2)
              && (u >= cProp && |inputLeaves| > 0 ==>
                    r == Ok(Terminal(inputLeaves[draw % |inputLeaves|])) && rng.pos == old(rng.pos) + 2)
              && (u >= cProp && |inputLeaves| == 0 ==> r == Err(EmptyChoice) && rng.pos == old(rng.pos) + 1)
    {
      var u := rng.Random();
      if u < cProp {
        var x := rng.Random();
        var leaf := new Leaf(Some(x));
        return Ok(Terminal(leaf));
      }
      var k := rng.Choice(|inputLeaves|);
      if k.Err? {
        return Err(k.error);
      }
      r := Ok(Terminal(inputLeaves[k.value]));
    }

    /**
     * The operator node __grow builds above the maximum depth: a drawn function-set operator
     * with as many children as its arity, each grown one level deeper.
     */
    method GrowNode(currDepth: nat) returns (r: Result<Tree>)
      requires currDepth < maxDepth
      modifies rng
      decreases maxDepth - currDepth, 1
      ensures r.Ok? ==> Full(r.value, maxDepth - currDepth, fset)
      ensures r.Ok? ==> r.value.op == fset[rng.stream(old(rng.pos)) % |fset|]
      ensures r.Ok? ==> forall l :: l in LeafSet(r.value) ==>
                          l in inputLeaves || (fresh(l) && allocated(l) && l.value.Some? && 0.0 <= l.value.value < 1.0)
      ensures |fset| == 0 ==> r == Err(EmptyChoice) && rng.pos == old(rng.pos)
      ensures r.Err? ==> r.error == EmptyChoice && (|inputLeaves| == 0 || |fset| == 0)
      ensures |inputLeaves| > 0 && |fset| > 0 ==> r.Ok?
      ensures var e := GrowEnd(currDepth, old(rng.pos)); r.Ok? == e.0 && rng.pos == e.1
    {
      var k := rng.Choice(|fset|);
      if k.Err? {
        return Err(k.error);
      }
      var op := fset[k.value];
      var children := GrowChildren(currDepth, op.arity);
      if children.Err? {
        return Err(children.error);
      }
      r := Ok(Node(op, children.value));
    }

    /** The children loop of __grow: `count` subtrees grown one level deeper, left to right. */
    method GrowChildren(currDepth: nat, count: nat) returns (r: Result<seq<Tree>>)
      requires currDepth < maxDepth
      modifies rng
      decreases maxDepth - currDepth, 0
      ensures r.Ok? ==> |r.value| == count
      ensures r.Ok? ==> AllFull(r.value, maxDepth - currDepth - 1, fset)
      ensures r.Ok? ==> forall l :: l in LeafSetOf(r.value) ==>
                          l in inputLeaves || (fresh(l) && allocated(l) && l.value.Some? && 0.0 <= l.value.value < 1.0)
      ensures r.Err? ==> r.error == EmptyChoice && (|inputLeaves| == 0 || |fset| == 0)
      ensures |inputLeaves| > 0 && |fset| > 0 ==> r.Ok?
      ensures var e := ChildrenEnd(currDepth, count, old(rng.pos)); r.Ok? == e.0 && rng.pos == e.1
    {
      ghost var h: nat := maxDepth - currDepth - 1;
      var children: seq<Tree> := [];
      for i := 0 to count
        invariant |children| == i
        invariant AllFull(children, h, fset)
        invariant forall l :: l in LeafSetOf(children) ==>
                    l in inputLeaves || (fresh(l) && allocated(l) && l.value.Some? && 0.0 <= l.value.value < 1.0)
        invariant ChildrenEnd(currDepth, count, old(rng.pos)) == ChildrenEnd(currDepth, count - i, rng.pos)
      {
        var c := GrowTree(currDepth + 1);
        if c.Err? {
          return Err(c.error);
        }
        forall l | l in LeafSetOf(children + [c.value])
          ensures l in inputLeaves || (fresh(l) && allocated(l) && l.value.Some? && 0.0 <= l.value.value < 1.0)
        {
          LeafSetOfAppend(children, c.value, l);
        }
        AllFullAppend(children, c.value, h, fset);
        children := children + [c.value];
      }
      r := Ok(children);
    }

    /**
     * sample: grows from depth 0. With a maximum depth of 0 the result is a bare terminal,
     * not an individual.
     */
    method Sample() returns (r: Result<Sampled>)
      modifies rng
      ensures r.Ok? ==> Full(TreeOf(r.value), maxDepth, fset)
      ensures r.Ok? ==> forall l :: l in LeafSet(TreeOf(r.value)) ==>
                          l in inputLeaves || (fresh(l) && allocated(l) && l.value.Some? && 0.0 <= l.value.value < 1.0)
      ensures r.Ok? ==> (r.value.Wrapped? <==> maxDepth > 0)
      ensures r.Ok? && r.value.Wrapped? ==>
                fresh(r.value.it) && r.value.it.inputLeaves == inputLeaves && r.value.it.Valid()
      ensures r.Err? ==> r.error == EmptyChoice && (|inputLeaves| == 0 || (|fset| == 0 && 0 < maxDepth))
      ensures |inputLeaves| > 0 && |fset| > 0 ==> r.Ok?
      ensures var e := GrowEnd(0, old(rng.pos)); r.Ok? == e.0 && rng.pos == e.1
    {
      r := Grow(0);
    }

    /**
     * sample as its signature promises: always an individual over the model's input leaves,
     * the grown terminal being wrapped too when the maximum depth is 0.
     */
    method SampleIndividual() returns (r: Result<IndividualTree>)
      modifies rng
      ensures r.Ok? ==> fresh(r.value) && r.value.inputLeaves == inputLeaves && r.value.Valid()
      ensures r.Ok? ==> Full(r.value.root, maxDepth, fset)
      ensures r.Ok? ==> forall l :: l in LeafSet(r.value.root) ==>
                          l in inputLeaves || (fresh(l) && allocated(l) && l.value.Some? && 0.0 <= l.value.value < 1.0)
      ensures r.Err? ==> r.error == EmptyChoice && (|inputLeaves| == 0 || (|fset| == 0 && 0 < maxDepth))
      ensures |inputLeaves| > 0 && |fset| > 0 ==> r.Ok?
      ensures var e := GrowEnd(0, old(rng.pos)); r.Ok? == e.0 && rng.pos == e.1
    {
      var g := Grow(0);
      if g.Err? {
        return Err(g.error);
      }
      match g.value
      case Wrapped(it) =>
        r := Ok(it);
      case Bare(t) =>
        var it := new IndividualTree(t, inputLeaves);
        r := Ok(it);
    }
  }
}
