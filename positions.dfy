/**
 * Positions in a tree. A node of a tree is addressed by its path: the child indices that lead
 * to it from the root. `Subnodes` is the flattened node list the genetic operators pick from;
 * `Replace` is the in-place edit of one node, seen on the tree value.
 */
module Positions {
  import opened Individual

  type Path = seq<nat>

  predicate ValidPath(t: Tree, p: Path)
    decreases p
  {
    p == [] || (t.Node? && p[0] < |t.children| && ValidPath(t.children[p[0]], p[1..]))
  }

  /** The subtree at a path. */
  function At(t: Tree, p: Path): Tree
    requires ValidPath(t, p)
    decreases p
  {
    if p == [] then t else At(t.children[p[0]], p[1..])
  }

  /** The tree with the subtree at `p` replaced by `s`. */
  function Replace(t: Tree, p: Path, s: Tree): Tree
    requires ValidPath(t, p)
    decreases p
  {
    if p == [] then s
    else Node(t.op, t.children[p[0] := Replace(t.children[p[0]], p[1..], s)])
  }

  predicate IsPrefix(p: Path, q: Path)
  {
    |p| <= |q| && q[..|p|] == p
  }

  /** The paths `[i] + p` for each `p` of `ps`, in order. */
  function Under(i: nat, ps: seq<Path>): (r: seq<Path>)
    ensures |r| == |ps| && forall k :: 0 <= k < |ps| ==> r[k] == [i] + ps[k]
  {
    seq(|ps|, k requires 0 <= k < |ps| => [i] + ps[k])
  }

  /**
   * subnodes(keep_leaves, keep_root): the paths of the tree's nodes in pre-order (a node before
   * its children, children left to right), without the leaves unless `keepLeaves`, and
   * without the root unless `keepRoot`.
   */
  function Subnodes(t: Tree, keepLeaves: bool, keepRoot: bool): seq<Path>
    decreases t
  {
    (if keepRoot && (keepLeaves || t.Node?) then [[]] else [])
    + (if t.Node? then SubnodesOf(t.children, 0, keepLeaves) else [])
  }

  function SubnodesOf(cs: seq<Tree>, i: nat, keepLeaves: bool): seq<Path>
    decreases cs
  {
    if cs == [] then []
    else Under(i, Subnodes(cs[0], keepLeaves, true)) + SubnodesOf(cs[1..], i + 1, keepLeaves)
  }

  /** The path a choice over a non-empty path list lands on, given the raw draw. */
  function Site(nodes: seq<Path>, raw: nat): Path
    requires |nodes| > 0
  {
    nodes[raw % |nodes|]
  }

  lemma UnderMembership(i: nat, ps: seq<Path>, p: Path)
    ensures p in Under(i, ps) <==> |p| > 0 && p[0] == i && p[1..] in ps
  {
    var r := Under(i, ps);
    if p in r {
      var k :| 0 <= k < |r| && r[k] == p;
      assert p[1..] == ps[k];
    }
    if |p| > 0 && p[0] == i && p[1..] in ps {
      var k :| 0 <= k < |ps| && ps[k] == p[1..];
      assert r[k] == p;
    }
  }

  /** A path is listed by subnodes exactly when it leads to a node that passes the two filters. */
  lemma {:induction false} SubnodesExact(t: Tree, keepLeaves: bool, keepRoot: bool, p: Path)
    ensures p in Subnodes(t, keepLeaves, keepRoot) <==>
              ValidPath(t, p) && (keepLeaves || At(t, p).Node?) && (keepRoot || p != [])
    decreases t, 1
  {
    var root: seq<Path> := if keepRoot && (keepLeaves || t.Node?) then [[]] else [];
    if t.Terminal? {
      assert Subnodes(t, keepLeaves, keepRoot) == root;
    } else {
      var below := SubnodesOf(t.children, 0, keepLeaves);
      assert Subnodes(t, keepLeaves, keepRoot) == root + below;
      SubnodesOfExact(t.children, 0, keepLeaves, p);
      if p != [] {
        assert p !in root;
        assert ValidPath(t, p) ==> At(t, p) == At(t.children[p[0]], p[1..]);
      }
    }
  }

  lemma {:induction false} SubnodesOfExact(cs: seq<Tree>, i: nat, keepLeaves: bool, p: Path)
    ensures p in SubnodesOf(cs, i, keepLeaves) <==>
              |p| > 0 && i <= p[0] < i + |cs| && ValidPath(cs[p[0] - i], p[1..])
              && (keepLeaves || At(cs[p[0] - i], p[1..]).Node?)
    decreases cs, 0
  {
    if cs != [] {
      var first := Under(i, Subnodes(cs[0], keepLeaves, true));
      var rest := SubnodesOf(cs[1..], i + 1, keepLeaves);
      assert SubnodesOf(cs, i, keepLeaves) == first + rest;
      assert p in first + rest <==> p in first || p in rest;
      UnderMembership(i, Subnodes(cs[0], keepLeaves, true), p);
      SubnodesOfExact(cs[1..], i + 1, keepLeaves, p);
      if |p| > 0 && p[0] == i {
        SubnodesExact(cs[0], keepLeaves, true, p[1..]);
      } else if |p| > 0 && i + 1 <= p[0] < i + |cs| {
        assert cs[p[0] - i] == cs[1..][p[0] - (i + 1)];
      }
    }
  }

  /** Walking a path then a second path is walking their concatenation. */
  lemma {:induction false} AtAppend(t: Tree, p: Path, q: Path)
    requires ValidPath(t, p)
    ensures ValidPath(t, p + q) <==> ValidPath(At(t, p), q)
    ensures ValidPath(t, p + q) ==> At(t, p + q) == At(At(t, p), q)
    decreases p
  {
    if p == [] {
      assert p + q == q;
    } else {
      assert (p + q)[0] == p[0] && (p + q)[1..] == p[1..] + q;
      AtAppend(t.children[p[0]], p[1..], q);
    }
  }

  /**
   * What replacing the subtree at `p` by `s` does at any path `q`: below `p` the tree is `s`;
   * elsewhere the paths are the same; nodes off the line to `p` are untouched, and the
   * ancestors of `p` keep their label and their number of children.
   */
  lemma {:induction false} ReplaceAt(t: Tree, p: Path, s: Tree, q: Path)
    requires ValidPath(t, p)
    ensures IsPrefix(p, q) ==> (ValidPath(Replace(t, p, s), q) <==> ValidPath(s, q[|p|..]))
    ensures IsPrefix(p, q) && ValidPath(Replace(t, p, s), q) ==> At(Replace(t, p, s), q) == At(s, q[|p|..])
    ensures !IsPrefix(p, q) ==> (ValidPath(Replace(t, p, s), q) <==> ValidPath(t, q))
    ensures !IsPrefix(p, q) && ValidPath(t, q) ==>
              LabelOf(At(Replace(t, p, s), q)) == LabelOf(At(t, q))
              && |Kids(At(Replace(t, p, s), q))| == |Kids(At(t, q))|
    ensures !IsPrefix(p, q) && !IsPrefix(q, p) && ValidPath(t, q) ==> At(Replace(t, p, s), q) == At(t, q)
    decreases p
  {
    if p == [] {
      assert q[|p|..] == q;
    } else if q == [] {
    } else if q[0] != p[0] {
      assert !IsPrefix(p, q) && !IsPrefix(q, p);
    } else {
      var k := p[0];
      ReplaceAt(t.children[k], p[1..], s, q[1..]);
      assert IsPrefix(p, q) <==> IsPrefix(p[1..], q[1..]);
      assert IsPrefix(q, p) <==> IsPrefix(q[1..], p[1..]);
      assert IsPrefix(p, q) ==> q[|p|..] == q[1..][|p[1..]|..];
    }
  }

  /** Replacing a subtree changes the size by the difference of the two subtrees' sizes. */
  lemma {:induction false} ReplaceSize(t: Tree, p: Path, s: Tree)
    requires ValidPath(t, p)
    ensures Size(Replace(t, p, s)) + Size(At(t, p)) == Size(t) + Size(s)
    decreases p
  {
    if p != [] {
      var k := p[0];
      ReplaceSize(t.children[k], p[1..], s);
      SumSizesUpdate(t.children, k, Replace(t.children[k], p[1..], s));
    }
  }

  lemma {:induction false} SumSizesUpdate(cs: seq<Tree>, k: nat, c: Tree)
    requires k < |cs|
    ensures SumSizes(cs[k := c]) + Size(cs[k]) == SumSizes(cs) + Size(c)
    decreases cs
  {
    if k == 0 {
      assert cs[k := c][1..] == cs[1..];
    } else {
      SumSizesUpdate(cs[1..], k - 1, c);
      assert cs[k := c][1..] == cs[1..][k - 1 := c];
    }
  }

  lemma {:induction false} SumSizesBound(cs: seq<Tree>, k: nat)
    requires k < |cs|
    ensures Size(cs[k]) <= SumSizes(cs)
    decreases cs
  {
    if k > 0 {
      SumSizesBound(cs[1..], k - 1);
    }
  }

  /** A proper subtree is smaller than the tree, and at least as many levels lower as its path is long. */
  lemma {:induction false} SubtreeBounds(t: Tree, p: Path)
    requires ValidPath(t, p)
    ensures Height(At(t, p)) + |p| <= Height(t)
    ensures p != [] ==> Size(At(t, p)) < Size(t)
    decreases p
  {
    if p != [] {
      var k := p[0];
      SubtreeBounds(t.children[k], p[1..]);
      SumSizesBound(t.children, k);
    }
  }

  /** A subtree of a tree whose every node passes `ok` has every node passing `ok`. */
  lemma {:induction false} SubtreeEverywhere(t: Tree, p: Path, ok: (Label, nat) -> bool)
    requires ValidPath(t, p) && Everywhere(t, ok)
    ensures Everywhere(At(t, p), ok)
    decreases p
  {
    if p != [] {
      SubtreeEverywhere(t.children[p[0]], p[1..], ok);
    }
  }

  /** Replacing a subtree by one whose every node passes `ok` keeps every node passing `ok`. */
  lemma {:induction false} ReplaceEverywhere(t: Tree, p: Path, s: Tree, ok: (Label, nat) -> bool)
    requires ValidPath(t, p) && Everywhere(t, ok) && Everywhere(s, ok)
    ensures Everywhere(Replace(t, p, s), ok)
    decreases p
  {
    if p != [] {
      var k := p[0];
      ReplaceEverywhere(t.children[k], p[1..], s, ok);
      var cs := t.children[k := Replace(t.children[k], p[1..], s)];
      assert forall i :: 0 <= i < |cs| ==> Everywhere(cs[i], ok);
    }
  }
}
