/**
 * symgp/genetic/rec.py: subtree exchange. Two individuals each get a non-leaf node drawn, each
 * of those nodes gets a child slot drawn, and the two child subtrees trade places. Both
 * individuals are edited in place; nothing is copied and nothing is returned.
 */
module Recombination {
  import opened Outcomes
  import opened Operators
  import opened Generator
  import opened Individual
  import opened Positions

  /**
   * The two trees after the exchange, or the failure, and the draws used: the node of the
   * first tree, the node of the second, the slot of the first, the slot of the second.
   */
  function Exchange(t1: Tree, t2: Tree, draws: nat -> nat, pos: nat): Drawn<(Tree, Tree)>
  {
    var s := Sites(t1, t2, draws, pos);
    if s.result.Err? then Drawn(Err(s.result.error), s.next)
    else ExchangeBelow(t1, t2, s.result.value.0, s.result.value.1, draws, s.next)
  }

  /**
   * The first half of an exchange: a non-leaf node drawn from each tree. The non-leaf node
   * list of a tree is empty exactly when the tree is a single leaf.
   */
  function Sites(t1: Tree, t2: Tree, draws: nat -> nat, pos: nat): (r: Drawn<(Path, Path)>)
    ensures r.result.Err? <==> t1.Terminal? || t2.Terminal?
    ensures r.result.Err? ==> r.result.error == EmptyChoice && r.next == (if t1.Terminal? then pos else pos + 1)
    ensures r.result.Ok? ==> r.next == pos + 2
    ensures r.result.Ok? ==> ValidPath(t1, r.result.value.0) && At(t1, r.result.value.0).Node?
    ensures r.result.Ok? ==> ValidPath(t2, r.result.value.1) && At(t2, r.result.value.1).Node?
  {
    if t1.Terminal? then Drawn(Err(EmptyChoice), pos)
    else if t2.Terminal? then Drawn(Err(EmptyChoice), pos + 1)
    else
      var p1 := Site(Subnodes(t1, false, true), draws(pos));
      var p2 := Site(Subnodes(t2, false, true), draws(pos + 1));
      SubnodesExact(t1, false, true, p1);
      SubnodesExact(t2, false, true, p2);
      Drawn(Ok((p1, p2)), pos + 2)
  }

  /** The second half of an exchange, once the nodes `p1` and `p2` are drawn: the two slot draws and the trade. */
  function ExchangeBelow(t1: Tree, t2: Tree, p1: Path, p2: Path, draws: nat -> nat, pos: nat): Drawn<(Tree, Tree)>
    requires ValidPath(t1, p1) && ValidPath(t2, p2)
  {
    var s := Slots(t1, t2, p1, p2, draws, pos);
    if s.result.Err? then Drawn(Err(s.result.error), s.next)
    else Drawn(Ok(Swap(t1, t2, s.result.value.0, s.result.value.1)), s.next)
  }

  /**
   * The slot draws: a child position below each drawn node. A node without children has an
   * empty range to draw from.
   */
  function Slots(t1: Tree, t2: Tree, p1: Path, p2: Path, draws: nat -> nat, pos: nat): (r: Drawn<(Path, Path)>)
    requires ValidPath(t1, p1) && ValidPath(t2, p2)
    ensures r.result.Err? <==> |Kids(At(t1, p1))| == 0 || |Kids(At(t2, p2))| == 0
    ensures r.result.Err? ==> r.result.error == EmptyRange && r.next == (if |Kids(At(t1, p1))| == 0 then pos else pos + 1)
    ensures r.result.Ok? ==> r.next == pos + 2
    ensures r.result.Ok? ==> ValidPath(t1, r.result.value.0) && ValidPath(t2, r.result.value.1)
  {
    var n1 := |Kids(At(t1, p1))|;
    if n1 == 0 then Drawn(Err(EmptyRange), pos)
    else
      var n2 := |Kids(At(t2, p2))|;
      if n2 == 0 then Drawn(Err(EmptyRange), pos + 1)
      else
        var q1 := p1 + [draws(pos) % n1];
        var q2 := p2 + [draws(pos + 1) % n2];
        AtAppend(t1, p1, [draws(pos) % n1]);
        AtAppend(t2, p2, [draws(pos + 1) % n2]);
        Drawn(Ok((q1, q2)), pos + 2)
  }

  /**
   * The drawn slots are child positions of the drawn nodes: each extends its node's path by one
   * index below that node's child count.
   */
  lemma SlotsBelow(t1: Tree, t2: Tree, p1: Path, p2: Path, draws: nat -> nat, pos: nat)
    requires ValidPath(t1, p1) && ValidPath(t2, p2)
    ensures var s := Slots(t1, t2, p1, p2, draws, pos);
            s.result.Ok? ==> var q1 := s.result.value.0;
                             |q1| == |p1| + 1 && IsPrefix(p1, q1) && q1[|p1|] < |Kids(At(t1, p1))|
    ensures var s := Slots(t1, t2, p1, p2, draws, pos);
            s.result.Ok? ==> var q2 := s.result.value.1;
                             |q2| == |p2| + 1 && IsPrefix(p2, q2) && q2[|p2|] < |Kids(At(t2, p2))|
  {
  }

  /** The swap itself: each slot receives the subtree the other slot held. */
  function Swap(t1: Tree, t2: Tree, q1: Path, q2: Path): (r: (Tree, Tree))
    requires ValidPath(t1, q1) && ValidPath(t2, q2)
    ensures ValidPath(r.0, q1) && At(r.0, q1) == At(t2, q2)
    ensures ValidPath(r.1, q2) && At(r.1, q2) == At(t1, q1)
  {
    ReplaceAt(t1, q1, At(t2, q2), q1);
    ReplaceAt(t2, q2, At(t1, q1), q2);
    (Replace(t1, q1, At(t2, q2)), Replace(t2, q2, At(t1, q1)))
  }

  /** `r1` and `r2` are `t1` and `t2` with the child subtrees at `q1` and `q2` traded. */
  ghost predicate Swapped(t1: Tree, t2: Tree, r1: Tree, r2: Tree, q1: Path, q2: Path)
  {
    && q1 != [] && q2 != []
    && ValidPath(t1, q1) && ValidPath(t2, q2)
    && r1 == Replace(t1, q1, At(t2, q2))
    && r2 == Replace(t2, q2, At(t1, q1))
  }

  /** A node passes when it is a leaf or has at least one child. */
  predicate HasSlot(l: Label, childCount: nat)
  {
    l.LeafLabel? || childCount > 0
  }

  /** A node of a tree whose every node passes `ok` passes `ok` itself. */
  lemma NodeAt(t: Tree, p: Path, ok: (Label, nat) -> bool)
    requires ValidPath(t, p) && Everywhere(t, ok)
    ensures ok(LabelOf(At(t, p)), |Kids(At(t, p))|)
  {
    SubtreeEverywhere(t, p, ok);
  }

  /**
   * The outcome of an exchange: choosing from a leaf-only tree fails (and only that makes a
   * choice fail); a drawn node without children makes the slot draw fail, which cannot happen
   * when every node has a child; on success two child slots were traded and four draws used.
   */
  lemma ExchangeOutcome(t1: Tree, t2: Tree, draws: nat -> nat, pos: nat)
    ensures var d := Exchange(t1, t2, draws, pos);
            d.result == Err(EmptyChoice) <==> t1.Terminal? || t2.Terminal?
    ensures var d := Exchange(t1, t2, draws, pos);
            d.result.Err? ==> d.result.error in {EmptyChoice, EmptyRange}
    ensures var d := Exchange(t1, t2, draws, pos);
            t1.Node? && t2.Node? && Everywhere(t1, HasSlot) && Everywhere(t2, HasSlot) ==> d.result.Ok?
    ensures var d := Exchange(t1, t2, draws, pos);
            d.result.Ok? ==> d.next == pos + 4
                             && exists q1, q2 :: Swapped(t1, t2, d.result.value.0, d.result.value.1, q1, q2)
    ensures var d := Exchange(t1, t2, draws, pos);
            d.result.Ok? ==> var p := Sites(t1, t2, draws, pos).result;
                             p.Ok? && var s := Slots(t1, t2, p.value.0, p.value.1, draws, pos + 2).result.value;
                             Swapped(t1, t2, d.result.value.0, d.result.value.1, s.0, s.1)
  {
    if t1.Node? && t2.Node? {
      var p1 := Site(Subnodes(t1, false, true), draws(pos));
      var p2 := Site(Subnodes(t2, false, true), draws(pos + 1));
      SubnodesExact(t1, false, true, p1);
      SubnodesExact(t2, false, true, p2);
      if Everywhere(t1, HasSlot) && Everywhere(t2, HasSlot) {
        NodeAt(t1, p1, HasSlot);
        NodeAt(t2, p2, HasSlot);
      }
      ExchangeBelowOutcome(t1, t2, p1, p2, draws, pos + 2);
      assert Exchange(t1, t2, draws, pos) == ExchangeBelow(t1, t2, p1, p2, draws, pos + 2);
    }
  }

  /** The second stage fails only on a childless node, and otherwise trades two child slots using two draws. */
  lemma ExchangeBelowOutcome(t1: Tree, t2: Tree, p1: Path, p2: Path, draws: nat -> nat, pos: nat)
    requires ValidPath(t1, p1) && ValidPath(t2, p2)
    ensures var d := ExchangeBelow(t1, t2, p1, p2, draws, pos);
            d.result.Err? <==> d.result == Err(EmptyRange)
    ensures var d := ExchangeBelow(t1, t2, p1, p2, draws, pos);
            d.result.Ok? <==> |Kids(At(t1, p1))| > 0 && |Kids(At(t2, p2))| > 0
    ensures var d := ExchangeBelow(t1, t2, p1, p2, draws, pos);
            d.result.Ok? ==> d.next == pos + 2
                             && exists q1, q2 :: Swapped(t1, t2, d.result.value.0, d.result.value.1, q1, q2)
    ensures var d := ExchangeBelow(t1, t2, p1, p2, draws, pos);
            d.result.Ok? ==> var s := Slots(t1, t2, p1, p2, draws, pos).result.value;
                             Swapped(t1, t2, d.result.value.0, d.result.value.1, s.0, s.1)
  {
    var d := ExchangeBelow(t1, t2, p1, p2, draws, pos);
    var n1 := |Kids(At(t1, p1))|;
    var n2 := |Kids(At(t2, p2))|;
    if n1 > 0 && n2 > 0 {
      var q1 := p1 + [draws(pos) % n1];
      var q2 := p2 + [draws(pos + 1) % n2];
      AtAppend(t1, p1, [draws(pos) % n1]);
      AtAppend(t2, p2, [draws(pos + 1) % n2]);
      assert Swapped(t1, t2, d.result.value.0, d.result.value.1, q1, q2);
    }
  }

  /**
   * After a trade, each traded slot holds the other tree's subtree, and every node of each tree
   * away from its slot keeps its path, its label and its number of children.
   */
  lemma SwappedSlots(t1: Tree, t2: Tree, r1: Tree, r2: Tree, q1: Path, q2: Path)
    requires Swapped(t1, t2, r1, r2, q1, q2)
    ensures ValidPath(r1, q1) && At(r1, q1) == At(t2, q2)
    ensures ValidPath(r2, q2) && At(r2, q2) == At(t1, q1)
    ensures forall q :: ValidPath(t1, q) && !IsPrefix(q1, q) ==>
              ValidPath(r1, q) && LabelOf(At(r1, q)) == LabelOf(At(t1, q)) && |Kids(At(r1, q))| == |Kids(At(t1, q))|
    ensures forall q :: ValidPath(t2, q) && !IsPrefix(q2, q) ==>
              ValidPath(r2, q) && LabelOf(At(r2, q)) == LabelOf(At(t2, q)) && |Kids(At(r2, q))| == |Kids(At(t2, q))|
  {
    ReplaceAt(t1, q1, At(t2, q2), q1);
    ReplaceAt(t2, q2, At(t1, q1), q2);
    assert q1[|q1|..] == [] && q2[|q2|..] == [];
    forall q | ValidPath(t1, q) && !IsPrefix(q1, q)
      ensures ValidPath(r1, q) && LabelOf(At(r1, q)) == LabelOf(At(t1, q)) && |Kids(At(r1, q))| == |Kids(At(t1, q))|
    {
      ReplaceAt(t1, q1, At(t2, q2), q);
    }
    forall q | ValidPath(t2, q) && !IsPrefix(q2, q)
      ensures ValidPath(r2, q) && LabelOf(At(r2, q)) == LabelOf(At(t2, q)) && |Kids(At(r2, q))| == |Kids(At(t2, q))|
    {
      ReplaceAt(t2, q2, At(t1, q1), q);
    }
  }

  /** A trade moves nodes between the trees without creating or losing any. */
  lemma SwappedSize(t1: Tree, t2: Tree, r1: Tree, r2: Tree, q1: Path, q2: Path)
    requires Swapped(t1, t2, r1, r2, q1, q2)
    ensures Size(r1) + Size(r2) == Size(t1) + Size(t2)
  {
    ReplaceSize(t1, q1, At(t2, q2));
    ReplaceSize(t2, q2, At(t1, q1));
  }

  /** A per-node property both trees have everywhere (well-formedness, operators from a set) survives a trade. */
  lemma SwappedEverywhere(t1: Tree, t2: Tree, r1: Tree, r2: Tree, q1: Path, q2: Path, ok: (Label, nat) -> bool)
    requires Swapped(t1, t2, r1, r2, q1, q2)
    requires Everywhere(t1, ok) && Everywhere(t2, ok)
    ensures Everywhere(r1, ok) && Everywhere(r2, ok)
  {
    SubtreeEverywhere(t1, q1, ok);
    SubtreeEverywhere(t2, q2, ok);
    ReplaceEverywhere(t1, q1, At(t2, q2), ok);
    ReplaceEverywhere(t2, q2, At(t1, q1), ok);
  }

  /** Exchange keeps two well-formed trees well-formed, and their operators within a function set. */
  lemma ExchangePreserves(t1: Tree, t2: Tree, fset: seq<Operator>, draws: nat -> nat, pos: nat)
    requires WellFormed(t1) && WellFormed(t2)
    ensures var d := Exchange(t1, t2, draws, pos);
            d.result.Ok? ==> WellFormed(d.result.value.0) && WellFormed(d.result.value.1)
                             && Size(d.result.value.0) + Size(d.result.value.1) == Size(t1) + Size(t2)
    ensures var d := Exchange(t1, t2, draws, pos);
            d.result.Ok? && OpsFrom(t1, fset) && OpsFrom(t2, fset) ==>
              OpsFrom(d.result.value.0, fset) && OpsFrom(d.result.value.1, fset)
  {
    var d := Exchange(t1, t2, draws, pos);
    ExchangeOutcome(t1, t2, draws, pos);
    if d.result.Ok? {
      var (r1, r2) := d.result.value;
      var q1, q2 :| Swapped(t1, t2, r1, r2, q1, q2);
      SwappedEverywhere(t1, t2, r1, r2, q1, q2, ArityMatches);
      SwappedSize(t1, t2, r1, r2, q1, q2);
      if OpsFrom(t1, fset) && OpsFrom(t2, fset) {
        SwappedEverywhere(t1, t2, r1, r2, q1, q2, InFunctionSet(fset));
      }
    }
  }

  class SubEx {
    const name: string
    const rng: Rng

    constructor (rng: Rng)
      ensures name == "Subtree Exchange Operator" && this.rng == rng
    {
      name := "Subtree Exchange Operator";
      this.rng := rng;
    }

    /**
     * Trades a child subtree of a node of `it1` with one of a node of `it2`, in place. A failed
     * draw raises before the trade, so both roots stay as they were.
     */
    method Apply(it1: IndividualTree, it2: IndividualTree) returns (r: Result<()>)
      requires it1 != it2
      modifies it1, it2, rng
      ensures var d := Exchange(old(it1.root), old(it2.root), rng.stream, old(rng.pos));
              && rng.pos == d.next
              && r.Ok? == d.result.Ok?
              && (r.Err? ==> r.error == d.result.error && it1.root == old(it1.root) && it2.root == old(it2.root))
              && (r.Ok? ==> (it1.root, it2.root) == d.result.value)
    {
      var traded := Trade(it1.root, it2.root);
      if traded.Err? {
        return Err(traded.error);
      }
      it1.root, it2.root := traded.value.0, traded.value.1;
      r := Ok(());
    }

    /** The draws and the trade of `Apply`, on the two roots as values. */
    method Trade(t1: Tree, t2: Tree) returns (r: Result<(Tree, Tree)>)
      modifies rng
      ensures var d := Exchange(t1, t2, rng.stream, old(rng.pos));
              r == d.result && rng.pos == d.next
    {
      var sites := PickSites(t1, t2);
      if sites.Err? {
        return Err(sites.error);
      }
      var (p1, p2) := sites.value;
      r := TradeBelow(t1, t2, p1, p2);
    }

    /** The two node draws of an exchange, giving exactly the first stage of Exchange. */
    method PickSites(t1: Tree, t2: Tree) returns (r: Result<(Path, Path)>)
      modifies rng
      ensures var d := Sites(t1, t2, rng.stream, old(rng.pos));
              r == d.result && rng.pos == d.next
    {
      var nodes1 := Subnodes(t1, false, true);
      var nodes2 := Subnodes(t2, false, true);
      var c1 := rng.Choice(|nodes1|);
      if c1.Err? {
        return Err(c1.error);
      }
      var c2 := rng.Choice(|nodes2|);
      if c2.Err? {
        return Err(c2.error);
      }
      r := Ok((nodes1[c1.value], nodes2[c2.value]));
    }

    /** The slot draws and the trade, once the two nodes are drawn. */
    method TradeBelow(t1: Tree, t2: Tree, p1: Path, p2: Path) returns (r: Result<(Tree, Tree)>)
      requires ValidPath(t1, p1) && ValidPath(t2, p2)
      modifies rng
      ensures var d := ExchangeBelow(t1, t2, p1, p2, rng.stream, old(rng.pos));
              r == d.result && rng.pos == d.next
    {
      var slots := PickSlots(t1, t2, p1, p2);
      if slots.Err? {
        return Err(slots.error);
      }
      var (q1, q2) := slots.value;
      r := Ok(Swap(t1, t2, q1, q2));
    }

    /** The two slot draws, giving exactly Slots. */
    method PickSlots(t1: Tree, t2: Tree, p1: Path, p2: Path) returns (r: Result<(Path, Path)>)
      requires ValidPath(t1, p1) && ValidPath(t2, p2)
      modifies rng
      ensures var d := Slots(t1, t2, p1, p2, rng.stream, old(rng.pos));
              r == d.result && rng.pos == d.next
    {
      var idx1 := rng.Integers(0, |Kids(At(t1, p1))|);
      if idx1.Err? {
        return Err(idx1.error);
      }
      var idx2 := rng.Integers(0, |Kids(At(t2, p2))|);
      if idx2.Err? {
        return Err(idx2.error);
      }
      r := Ok((p1 + [idx1.value], p2 + [idx2.value]));
    }
  }
}
