/**
 * symgp/individual.py: expression trees, their evaluation, and the individual that owns a
 * tree together with the list of input leaves it is evaluated on.
 */
module Individual {
  import opened Outcomes
  import opened Operators

  /**
   * A terminal. Its value may be unset; input leaves are shared by reference between the model
   * and every tree grown from it, and evaluation writes their values in place.
   */
  class Leaf {
    var value: Option<Value>

    constructor (value: Option<Value> := None)
      ensures this.value == value
    {
      this.value := value;
    }
  }

  /**
   * An expression tree: an operator node with its ordered children, or a reference to a leaf.
   * A leaf has neither an operator nor children.
   */
  datatype Tree = Node(op: Operator, children: seq<Tree>) | Terminal(leaf: Leaf)

  /** The children of a tree; a leaf has none. */
  function Kids(t: Tree): seq<Tree>
  {
    if t.Node? then t.children else []
  }

  /** The leaf objects a tree refers to. */
  function LeafSet(t: Tree): set<Leaf>
    decreases t
  {
    match t
    case Terminal(l) => {l}
    case Node(_, cs) => LeafSetOf(cs)
  }

  function LeafSetOf(cs: seq<Tree>): (r: set<Leaf>)
    ensures forall i :: 0 <= i < |cs| ==> LeafSet(cs[i]) <= r
    ensures forall l :: l in r ==> exists i :: 0 <= i < |cs| && l in LeafSet(cs[i])
    decreases cs
  {
    if cs == [] then {}
    else
      var rest := LeafSetOf(cs[1..]);
      assert forall i :: 1 <= i < |cs| ==> cs[i] == cs[1..][i - 1];
      LeafSet(cs[0]) + rest
  }

  /**
   * Node.evaluate and Leaf.evaluate: children are evaluated in order, then the operator is
   * called on their values; the first failing child's error is the node's error.
   */
  function Eval(t: Tree): (r: Result<Value>)
    reads LeafSet(t)
    ensures t.Terminal? ==> (r.Ok? <==> t.leaf.value.Some?)
    ensures t.Terminal? && r.Ok? ==> r.value == t.leaf.value.value
    ensures t.Terminal? && r.Err? ==> r.error == LeafNotSet
    ensures t.Node? ==> (r.Ok? <==> (forall i :: 0 <= i < |t.children| ==> Eval(t.children[i]).Ok?)
                                    && |t.children| == t.op.arity)
    ensures t.Node? && r.Ok? ==> r.value == t.op.apply(EvalChildren(t.children).value)
    ensures (&& t.Node?
             && (forall i :: 0 <= i < |t.children| ==> Eval(t.children[i]).Ok?)
             && |t.children| != t.op.arity)
            ==> r == Err(ArityMismatch(t.op.name, t.op.arity, |t.children|))
    ensures t.Node? ==>
              forall i :: (&& 0 <= i < |t.children| && Eval(t.children[i]).Err?
                           && forall j :: 0 <= j < i ==> Eval(t.children[j]).Ok?)
                          ==> r == Eval(t.children[i])
    decreases t
  {
    match t
    case Terminal(l) =>
      if l.value.Some? then Ok(l.value.value) else Err(LeafNotSet)
    case Node(op, cs) =>
      var vs := EvalChildren(cs);
      if vs.Err? then
        FirstErrorPropagates(cs);
        Err(vs.error)
      else Call(op, vs.value)
  }

  /** The values of the children, in child order; the first failing child's error otherwise. */
  function EvalChildren(cs: seq<Tree>): (r: Result<seq<Value>>)
    reads LeafSetOf(cs)
    ensures r.Ok? <==> forall i :: 0 <= i < |cs| ==> Eval(cs[i]).Ok?
    ensures r.Ok? ==> |r.value| == |cs| && forall i :: 0 <= i < |cs| ==> Eval(cs[i]) == Ok(r.value[i])
    decreases cs, 0
  {
    if cs == [] then Ok([])
    else
      var v := Eval(cs[0]);
      if v.Err? then Err(v.error)
      else
        var rest := EvalChildren(cs[1..]);
        assert forall i :: 1 <= i < |cs| ==> cs[i] == cs[1..][i - 1];
        if rest.Err? then Err(rest.error) else Ok([v.value] + rest.value)
  }

  /** A failing evaluation of children reports the error of the first child that fails. */
  lemma {:induction false} FirstErrorPropagates(cs: seq<Tree>)
    requires EvalChildren(cs).Err?
    ensures exists i :: 0 <= i < |cs| && Eval(cs[i]) == Err(EvalChildren(cs).error)
                        && forall j :: 0 <= j < i ==> Eval(cs[j]).Ok?
    decreases cs, 1
  {
    if Eval(cs[0]).Err? {
      assert Eval(cs[0]) == Err(EvalChildren(cs).error);
    } else {
      var rest := cs[1..];
      FirstErrorPropagates(rest);
      var i :| 0 <= i < |rest| && Eval(rest[i]) == Err(EvalChildren(rest).error)
               && forall j :: 0 <= j < i ==> Eval(rest[j]).Ok?;
      assert Eval(cs[i + 1]) == Err(EvalChildren(cs).error);
      assert forall j :: 1 <= j < i + 1 ==> cs[j] == rest[j - 1];
    }
  }

  /** What a node holds besides its children: an operator, or a reference to a leaf. */
  datatype Label = OpLabel(op: Operator) | LeafLabel(leaf: Leaf)

  function LabelOf(t: Tree): Label
  {
    match t
    case Node(op, _) => OpLabel(op)
    case Terminal(l) => LeafLabel(l)
  }

  /** Every node of `t` passes `ok`, which sees only the node's label and its number of children. */
  predicate Everywhere(t: Tree, ok: (Label, nat) -> bool)
    decreases t
  {
    ok(LabelOf(t), |Kids(t)|) && (t.Node? ==> forall i :: 0 <= i < |t.children| ==> Everywhere(t.children[i], ok))
  }

  /** An operator node has as many children as its operator's arity. */
  predicate ArityMatches(l: Label, childCount: nat)
  {
    l.OpLabel? ==> childCount == l.op.arity
  }

  /** The structural invariant of a tree: every operator node has exactly `arity` children. */
  predicate WellFormed(t: Tree)
  {
    Everywhere(t, ArityMatches)
  }

  /** A node passes when its operator, if it has one, belongs to the function set. */
  ghost function InFunctionSet(fset: seq<Operator>): (Label, nat) -> bool
  {
    (l: Label, childCount: nat) => l.OpLabel? ==> l.op in fset
  }

  /** Every operator of the tree is drawn from the function set. */
  ghost predicate OpsFrom(t: Tree, fset: seq<Operator>)
  {
    Everywhere(t, InFunctionSet(fset))
  }

  /** A well-formed tree whose leaves all hold a value evaluates without error. */
  lemma {:induction false} BoundTreeEvaluates(t: Tree)
    requires WellFormed(t)
    requires forall l :: l in LeafSet(t) ==> l.value.Some?
    ensures Eval(t).Ok?
    decreases t
  {
    if t.Node? {
      forall i | 0 <= i < |t.children|
        ensures Eval(t.children[i]).Ok?
      {
        BoundTreeEvaluates(t.children[i]);
      }
    }
  }

  /** Node.appendChild: the child goes last and the earlier children stay as they were. */
  function AppendChild(n: Tree, child: Tree): (r: Tree)
    ensures n.Node? ==> r.Node? && r.op == n.op && |r.children| == |n.children| + 1
    ensures n.Node? ==> r.children[..|n.children|] == n.children && r.children[|n.children|] == child
    ensures n.Terminal? ==> r == n
  {
    if n.Node? then Node(n.op, n.children + [child]) else n
  }

  /** Number of nodes and leaves in a tree. */
  function Size(t: Tree): (r: nat)
    ensures r >= 1
    decreases t
  {
    match t
    case Terminal(_) => 1
    case Node(_, cs) => 1 + SumSizes(cs)
  }

  function SumSizes(cs: seq<Tree>): nat
    decreases cs
  {
    if cs == [] then 0 else Size(cs[0]) + SumSizes(cs[1..])
  }

  /** Number of edges on the longest path from the root down to a tree without children. */
  function Height(t: Tree): nat
    decreases t
  {
    match t
    case Terminal(_) => 0
    case Node(_, cs) => if cs == [] then 0 else 1 + MaxHeight(cs)
  }

  function MaxHeight(cs: seq<Tree>): (r: nat)
    ensures forall i :: 0 <= i < |cs| ==> Height(cs[i]) <= r
    ensures cs != [] ==> exists i :: 0 <= i < |cs| && Height(cs[i]) == r
    decreases cs
  {
    if cs == [] then 0
    else
      var rest := MaxHeight(cs[1..]);
      assert forall i :: 1 <= i < |cs| ==> cs[i] == cs[1..][i - 1];
      if Height(cs[0]) >= rest then Height(cs[0]) else rest
  }

  /** Each index's element is not repeated later in `s`: the write at that index is the last one to its leaf. */
  ghost predicate LastOccurrence(s: seq<Leaf>, i: nat, n: nat)
    requires i < n <= |s|
  {
    forall k :: i < k < n ==> s[k] != s[i]
  }

  ghost predicate Distinct(s: seq<Leaf>)
  {
    forall i, j :: 0 <= i < j < |s| ==> s[i] != s[j]
  }

  /**
   * IndividualTree: a root plus the input leaves, in input order. The root is reassigned by the
   * mutation operators; the input leaves and their count are fixed at construction.
   */
  class IndividualTree {
    var root: Tree
    const inputLeaves: seq<Leaf>
    const numInputs: int

    /** The count recorded at construction matches the list it was taken from. */
    ghost predicate Valid()
    {
      numInputs == |inputLeaves|
    }

    constructor (root: Tree, inputLeaves: seq<Leaf> := [])
      ensures this.root == root && this.inputLeaves == inputLeaves
      ensures numInputs == |inputLeaves| && Valid()
    {
      this.root := root;
      this.numInputs := |inputLeaves|;
      this.inputLeaves := inputLeaves;
    }

    /**
     * evaluate: with as many values as inputs, writes value i into input leaf i (a leaf listed
     * twice keeps the later value), then evaluates the root. With a wrong count it fails and
     * writes nothing.
     */
    method Evaluate(inputValues: seq<Value>) returns (r: Result<Value>)
      requires Valid()
      modifies inputLeaves
      ensures |inputValues| != numInputs ==> r == Err(InputLengthMismatch(numInputs, |inputValues|))
      ensures |inputValues| != numInputs ==> forall l :: l in inputLeaves ==> l.value == old(l.value)
      ensures |inputValues| == numInputs ==>
                forall i :: 0 <= i < numInputs && LastOccurrence(inputLeaves, i, numInputs) ==>
                  inputLeaves[i].value == Some(inputValues[i])
      ensures |inputValues| == numInputs && Distinct(inputLeaves) ==>
                forall i :: 0 <= i < numInputs ==> inputLeaves[i].value == Some(inputValues[i])
      ensures |inputValues| == numInputs ==> r == Eval(root)
      ensures (|inputValues| == numInputs && WellFormed(root)
               && (forall l :: l in LeafSet(root) && l !in inputLeaves ==> l.value.Some?)) ==> r.Ok?
    {
      if |inputValues| != numInputs {
        return Err(InputLengthMismatch(numInputs, |inputValues|));
      }
      for i := 0 to numInputs
        invariant forall j :: 0 <= j < i && LastOccurrence(inputLeaves, j, i) ==> inputLeaves[j].value == Some(inputValues[j])
        invariant forall j :: 0 <= j < i ==> inputLeaves[j].value.Some?
        invariant forall l :: l in inputLeaves && l !in inputLeaves[..i] ==> l.value == old(l.value)
      {
        inputLeaves[i].value := Some(inputValues[i]);
      }
      if WellFormed(root) && (forall l :: l in LeafSet(root) && l !in inputLeaves ==> l.value.Some?) {
        forall l | l in LeafSet(root)
          ensures l.value.Some?
        {
          if l in inputLeaves {
            var k :| 0 <= k < numInputs && inputLeaves[k] == l;
          }
        }
        BoundTreeEvaluates(root);
      }
      r := Eval(root);
    }

    /** deepCopy: a new individual over an equal tree; operators and input leaves stay shared. */
    method DeepCopy() returns (c: IndividualTree)
      requires Valid()
      ensures fresh(c) && c.Valid()
      ensures c.root == root && c.inputLeaves == inputLeaves && c.numInputs == numInputs
    {
      c := new IndividualTree(root, inputLeaves);
    }
  }
}
