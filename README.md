# symgp expression-tree core in Dafny

This project models the core of symgp, a symbolic-regression library. Candidate formulas are operator trees that grow, mutate and recombine under a seeded random generator. The model covers six parts:

- **Expression trees** (`individual.dfy`, module `Individual`):
  - A `Tree` is an operator node with ordered children, or a terminal referring to a `Leaf`.
  - `Leaf` is a class whose `value` may be unset. Input leaves are shared by reference between a model and every tree grown from it.
  - `IndividualTree.Evaluate` writes input values into those leaves in place and then evaluates the root.
- **Operators** (`operator.dfy`): a name, an arity and an uninterpreted function over reals. A call checks the argument count.
- **Registry filters** (`lists.dfy`, `registry.dfy`): the list comprehensions that select operators by arity.
- **Paths** (`positions.dfy`):
  - A node is addressed by the child indices that lead to it.
  - `Subnodes` is the pre-order node list that the genetic operators draw from.
  - `Replace` is an in-place edit of one node, seen on the tree value.
- **Genetic operators**:
  - Mutation (`mut.dfy`): point, permutation, hoist and mixed. Each works on a deep copy.
  - Recombination (`rec.dfy`): subtree exchange, done in place on two live individuals.
  - Each operator has a specification function from the tree and the generator's draws to the outcome (`PointMutate`, `PermMutate`, `HoistMutate`, `MixedMutate`, `Exchange`). Each class method is proved to follow its function. Lemmas prove what the source promises about these functions.
- **Random trees** (`model.dfy`): `Model` owns its generator. It grows trees whose terminals all sit at the maximum depth.

The generator (`generator.dfy`) is a class `Rng`:

- It holds the stream of raw numbers that the seed fixes, plus a cursor.
- `choice` and `integers` take the raw number modulo the range.
- `random` scales 53 bits of a raw number into [0, 1).
- `permutation` is a Fisher–Yates shuffle from the last position down.

Failures that the source raises (`ValueError`, `AssertionError`, a call on `None`) are `Err` values of `Outcomes.Result`.

Behaviour of the code worth knowing, which the model follows:

- `SubEx` edits both individuals in place and returns nothing. It makes no copies. An empty node list or a childless chosen node makes the draw fail; it is not a no-op.
- `PointMut` fails when the function set has no operator of the chosen node's arity (choice over an empty list). It does not fall back to a no-op.
- `__grow` draws operators uniformly from the whole function set. It picks terminals between one uniform constant in [0, 1) and a uniformly drawn input leaf. There are no unary/n-ary weights, no special constants and no simplification.
- `IndividualTree.evaluate` takes one value per input leaf, in order, rather than a matrix and a name ordering.
- Tree height is counted in edges (a single terminal has height 0).

## Model

| member | source | states |
|---|---|---|
| Operators.Call | symgp/operator.py:19-21 | A call succeeds exactly when the argument count equals the arity. It then returns the wrapped function applied to the arguments in order. Otherwise it fails with the operator's name, arity and the count received. |
| Lists.Filter | symgp/npf/utils.py:10 | A conditional comprehension keeps exactly the elements satisfying the condition, in their original order (a subsequence), and is never longer than its input. |
| Lists.FilterCounts | symgp/npf/utils.py:10 | A conditional comprehension keeps every occurrence of each element satisfying the condition and no other element: the multiplicities match. With the subsequence property of Lists.Filter this determines the result. |
| Registry.GetUnary | symgp/npf/utils.py:8-10 | Contains exactly the operators of arity 1, in registry order. |
| Registry.GetNary | symgp/npf/utils.py:12-14 | Contains exactly the operators of arity greater than 1, in registry order. |
| Registry.GetBinary | symgp/npf/utils.py:16-18 | Contains exactly the operators of arity 2, in registry order. |
| Registry.GetByArity | symgp/npf/utils.py:20-22 | Contains exactly the operators of arity n, in registry order. |
| Registry.ByArityOneIsUnary | symgp/npf/utils.py:8-22 | Selecting by arity 1 gives the same list as get_unary. |
| Registry.ByArityTwoIsBinary | symgp/npf/utils.py:12-22 | Selecting by arity 2 gives the same list as get_binary. |
| Registry.BinaryWithinNary | symgp/npf/utils.py:12-18 | The binary operators are a subsequence of the n-ary ones. |
| Registry.UnaryNaryDisjoint | symgp/npf/utils.py:8-14 | No operator is in both the unary and the n-ary selection. |
| Registry.PredicatesMatchSelections | symgp/npf/utils.py:24-29 | For a registry operator, is_unary, is_nary and is_binary each hold exactly when it is in the matching selection. |
| Generator.Unit | symgp/model.py:47-48 | A float draw lies in [0, 1). |
| Generator.Shuffled | symgp/genetic/mut.py:32 | A permutation keeps the length and the multiset of the elements. |
| Generator.Rng.constructor | symgp/model.py:37 | The generator starts at the beginning of the stream its seed fixes. |
| Generator.Rng.Random | symgp/model.py:47-48 | Returns the float of the next raw number, in [0, 1), and consumes one draw. |
| Generator.Rng.Choice | symgp/genetic/mut.py:15 | Over an empty list it fails and consumes nothing. Otherwise it returns an index below the length and consumes one draw. |
| Generator.Rng.Integers | symgp/genetic/rec.py:22-23 | Over an empty range it fails and consumes nothing. Otherwise it returns a number in [low, high) and consumes one draw. |
| Generator.Rng.Permutation | symgp/genetic/mut.py:32 | Returns the shuffle of its argument driven by the stream, and consumes one draw per position except the first. |
| Individual.Leaf.constructor | symgp/individual.py:15-18 | A new leaf holds the given value, unset by default. It has no operator and no children, by construction of `Tree`. |
| Individual.Eval | symgp/individual.py:6-22 | A set leaf evaluates to its value; an unset leaf fails with "leaf value is not set". A node succeeds exactly when every child succeeds and the child count equals the arity, and its value is then the operator's function applied to the children's values in child order. With all children succeeding but the wrong count it fails with the arity mismatch (name, arity, count). Otherwise its error is that of the first failing child. |
| Individual.EvalChildren | symgp/individual.py:7 | The children's values are produced in child order, and all succeed or the list fails. |
| Individual.FirstErrorPropagates | symgp/individual.py:7 | A failing child list reports the error of the first child that fails, with every earlier child succeeding. |
| Individual.BoundTreeEvaluates | symgp/individual.py:6-22 | A tree whose every node has as many children as its arity, and whose leaves are all set, evaluates without error. |
| Individual.AppendChild | symgp/individual.py:8-9 | The new child goes last, the earlier children and the operator are unchanged, and the count grows by one. |
| Individual.IndividualTree.constructor | symgp/individual.py:32-35 | Stores the root and the input leaves; numInputs is the number of input leaves. |
| Individual.IndividualTree.Evaluate | symgp/individual.py:37-42 | A wrong number of values fails and writes no leaf. Otherwise every input leaf holds its value (the later one when a leaf is listed twice), and the result is the root's evaluation. That result succeeds when the root is well formed and every leaf of it that is not an input leaf holds a value, as the constants of a grown tree do. |
| Individual.IndividualTree.DeepCopy | symgp/genetic/mut.py:12 | A new individual, distinct from the original, with an equal tree and the same input leaves. |
| Positions.SubnodesExact | symgp/genetic/mut.py:13 | A path is in the node list exactly when it leads to a node that passes the keep-leaves and keep-root filters. |
| Positions.ReplaceAt | symgp/genetic/mut.py:17 | After an in-place edit of one node, the edited position holds the new subtree and paths elsewhere are unchanged. Nodes on the line to it keep their label and child count, and nodes off that line are untouched. |
| Positions.SubtreeBounds | symgp/genetic/mut.py:45 | A subtree is at least as many levels lower as its path is long, and a proper subtree is strictly smaller. |
| Mutation.PointMutateOutcome | symgp/genetic/mut.py:11-19 | A tree without non-leaf nodes comes back unchanged with no draw used. Otherwise the drawn node is a non-leaf node, and the call fails exactly when no function-set operator has its arity. On success only that node's operator changed: to a function-set operator of the same arity, with the same children, and every other node keeps its label. |
| Mutation.PointMutatePreserves | symgp/genetic/mut.py:15-17 | Point mutation keeps every child count equal to its arity. On a tree built from the function set it cannot fail, and its result is again built from the function set. |
| Mutation.PermMutateOutcome | symgp/genetic/mut.py:26-34 | Without a node of arity > 1 the tree comes back unchanged; without a generator the call fails. Otherwise the drawn node has arity > 1 and keeps its operator, and its children have the same length and multiset. Nodes and paths off its subtree are unchanged. |
| Mutation.PermMutatePreserves | symgp/genetic/mut.py:29-32 | Permutation mutation keeps a tree well formed and its operators in the function set. |
| Mutation.HoistMutateOutcome | symgp/genetic/mut.py:40-47 | Hoisting never fails. Without a non-root non-leaf node the tree comes back unchanged. Otherwise the new root is such a node's subtree, strictly smaller and strictly lower. Height and size never grow. |
| Mutation.HoistMutatePreserves | symgp/genetic/mut.py:42-45 | Hoisting keeps a tree well formed and its operators in the function set. |
| Mutation.MixedMutatePreserves | symgp/genetic/mut.py:55-56 | On a well-formed tree built from the function set, mixed mutation never fails and returns a well-formed tree built from the function set. |
| Mutation.PointMut.constructor | symgp/genetic/mut.py:7-10 | Stores the name, the generator and the function set. |
| Mutation.PointMut.Apply | symgp/genetic/mut.py:11-19 | Returns a new individual, or the failure, exactly as PointMutate gives for the stream. The generator advances by the draws used, and the argument is not modified. |
| Mutation.PermMut.constructor | symgp/genetic/mut.py:22-25 | Stores the name and the possibly absent generator. |
| Mutation.PermMut.Create | symgp/genetic/mut.py:22-23 | Asking for random permutations without a generator fails the assertion; otherwise a new operator holding the generator. |
| Mutation.PermMut.Apply | symgp/genetic/mut.py:26-34 | Returns what PermMutate gives. Without a generator, a tree with a node of arity > 1 fails. The argument is not modified. |
| Mutation.HoistMut.constructor | symgp/genetic/mut.py:37-39 | Stores the name and the generator. |
| Mutation.HoistMut.Apply | symgp/genetic/mut.py:40-47 | Always returns a new individual whose root is what HoistMutate gives; the argument is not modified. |
| Mutation.MixedMut.constructor | symgp/genetic/mut.py:50-54 | Builds the point, permutation and hoist operators over the same generator and function set. |
| Mutation.MixedMut.Apply | symgp/genetic/mut.py:55-56 | One draw picks one of the three operators, which then runs; the result is what MixedMutate gives. |
| Recombination.Sites | symgp/genetic/rec.py:18-21 | Drawing a node fails with an empty choice exactly when either tree is a single leaf, after one draw if only the second tree is. Otherwise two draws give a non-leaf node of each tree. |
| Recombination.Slots | symgp/genetic/rec.py:22-23 | Drawing a child position fails with an empty range exactly when either drawn node has no children, after one draw if only the second node has none. Otherwise two draws give a valid path in each tree; SlotsBelow states that each is a child of its drawn node. |
| Recombination.SlotsBelow | symgp/genetic/rec.py:22-23 | Each drawn slot is a child position of its drawn node: the node's path extended by one index below that node's number of children. |
| Recombination.Swap | symgp/genetic/rec.py:24 | After the swap, each tree holds at its slot the subtree the other tree held at its slot. |
| Recombination.ExchangeOutcome | symgp/genetic/rec.py:17-24 | The node choice fails exactly when either tree is a single leaf. Any failure is an empty choice or an empty range. When every node has a child, the call succeeds. On success four draws were used, and the traded slots are exactly the ones Slots draws below the nodes Sites draws. |
| Recombination.ExchangeBelowOutcome | symgp/genetic/rec.py:22-24 | Once the nodes are drawn, the slot draws fail exactly when one of the nodes has no children. On success the two slots Slots draws below the given nodes are the ones traded, using two draws. |
| Recombination.SwappedSlots | symgp/genetic/rec.py:24 | After the trade each slot holds the other tree's old subtree, and every node outside a slot keeps its path, label and child count (the parents' counts included). |
| Recombination.SwappedSize | symgp/genetic/rec.py:24 | The two trees together have as many nodes as before. |
| Recombination.SwappedEverywhere | symgp/genetic/rec.py:24 | A per-node property that holds throughout both trees still holds after the trade. |
| Recombination.ExchangePreserves | symgp/genetic/rec.py:17-24 | Exchange keeps both trees well formed and their operators in the function set, and keeps their total size. |
| Recombination.SubEx.constructor | symgp/genetic/rec.py:14-16 | Stores the name and the generator. |
| Recombination.SubEx.Apply | symgp/genetic/rec.py:17-24 | The two individuals' roots become the pair Exchange gives, in place, with nothing returned. On a failed draw both roots stay as they were. The generator advances by the draws used. |
| Recombination.SubEx.Trade | symgp/genetic/rec.py:18-24 | The draws and the trade on the two roots give exactly what Exchange specifies. |
| Recombination.SubEx.PickSites | symgp/genetic/rec.py:18-21 | The two node choices give exactly the node pair or failure that Sites specifies, and the generator advances by the draws used. |
| Recombination.SubEx.PickSlots | symgp/genetic/rec.py:22-23 | The two integer draws give exactly the slot pair or failure that Slots specifies, and the generator advances by the draws used. |
| Recombination.SubEx.TradeBelow | symgp/genetic/rec.py:22-24 | The slot draws and the trade give exactly the second stage of Exchange. |
| Models.FullShape | symgp/model.py:51-55 | A grown tree has every child count equal to its operator's arity and every operator from the function set. Its height is at most the remaining depth. |
| Models.FullLayers | symgp/model.py:45-54 | In a grown tree the terminals are exactly the nodes at the maximum depth. No path goes deeper. |
| Models.FullHeight | symgp/model.py:45-54 | When every function-set operator takes at least one argument, a grown tree's height is exactly the maximum depth. |
| Models.FullEvaluates | symgp/model.py:45-55 | A grown tree whose leaves all hold values evaluates without error. |
| Models.Model.constructor | symgp/model.py:22-37 | Stores the maximum depth, the population size, the function set, the input leaves and the constant share. Creates its own generator seeded with the given seed, 12345 by default. |
| Models.Model.Grow | symgp/model.py:39-59 | Returns a tree with every terminal at the maximum depth, built from the function set, whose leaves are the model's input leaves or new constants in [0, 1). Depth 0 above a positive maximum wraps it in a new individual over the model's input leaves; deeper calls return bare nodes. It fails only by drawing from an empty function set or input-leaf list, and it cannot fail when both are non-empty. Success and the generator's final position are exactly those `GrowEnd` gives for the starting position. |
| Models.Model.GrowTree | symgp/model.py:45-55 | The tree a call at a given depth builds before any wrapping: its terminals sit exactly at the maximum depth, its operators come from the function set with their arity of children, and its leaves are input leaves or new constants in [0, 1). It fails only on an empty input-leaf list, or on an empty function set above the maximum depth, and it succeeds when both are non-empty. Success and the generator's final position are exactly those `GrowEnd` gives. |
| Models.Model.GrowChildren | symgp/model.py:52-54 | Grows as many children as the operator's arity, each a full tree one level deeper whose leaves are input leaves or new constants. The draws are those `ChildrenEnd` gives: each child starts where the previous one ended, and the first failed child fails the whole node and stops the draws. |
| Models.Model.GrowEndAdvances | symgp/model.py:45-55 | A grow never moves the generator backwards, a successful grow uses at least one draw, and a grow always succeeds when the function set and the input leaves are both non-empty. |
| Models.Model.ChildrenEndAdvances | symgp/model.py:52-54 | Growing a node's children never moves the generator backwards, and always succeeds when the function set and the input leaves are both non-empty. |
| Models.Model.GrowTerminal | symgp/model.py:45-50 | A float draw below the constant share gives a new constant leaf holding the next float draw. Otherwise it gives the drawn input leaf itself, not a copy, or fails when there are no input leaves. |
| Models.Model.GrowNode | symgp/model.py:51-55 | The node's operator is the drawn function-set operator, and it has exactly that operator's arity of children, each grown one level deeper. Success and the final position are exactly those `GrowEnd` gives: one draw for the operator, then the children's draws. |
| Models.Model.Sample | symgp/model.py:61-67 | Grows from depth 0. The result is an individual exactly when the maximum depth is positive. Its tree is full to the maximum depth, and every leaf is a model input leaf or a new constant in [0, 1). It fails only by drawing from an empty input-leaf list, or from an empty function set when the maximum depth is positive. Success and the generator's final position are those `GrowEnd` gives from depth 0. |
| Models.Model.SampleIndividual | symgp/model.py:61-67 | Always returns a new individual over the model's input leaves whose tree is grown to the maximum depth, and whose every leaf is a model input leaf or a new constant in [0, 1). It fails only by drawing from an empty input-leaf list, or from an empty function set when the maximum depth is positive. Success and the generator's final position are those `GrowEnd` gives from depth 0. |

## Left out

- PCG64 and numpy's bounded-integer and float algorithms: the raw stream is a parameter of `Rng`. Draws reduce a raw number modulo the range, and `random` keeps 53 bits. Only the number of generator calls and their order follow the source; numpy may consume a different number of raw words per call (none for a choice over one element, rejection sampling for bounded integers).
- Floating point: values are reals. Overflow, NaN and infinities are not modelled, and operator functions are uninterpreted.
- `update_input_leaves` (called by every mutation), `deepCopy` and `subnodes` are absent from `symgp/individual.py`, whose `IndividualTree` `symgp/genetic/mut.py` calls them on. The model defines `deepCopy` as a new individual over an equal tree that keeps the same input leaves, and `subnodes` as the pre-order path list. It treats `update_input_leaves` as keeping the input leaves unchanged (`Mutation.Yields`).
- Node identity: operator nodes are values, so aliasing between nodes is not modelled; only `Leaf` is a shared object. This is also why `Node.appendChild`, which mutates a list in place, is the value function `AppendChild`.
- Individual.AppendChild: a terminal cannot hold children in `Tree`, so appending to a leaf returns the leaf unchanged and drops the child. In the source `Leaf` inherits `appendChild` and keeps its own `children` list, which then holds the child; evaluating the leaf ignores that list either way.
- Recombination.Sites: `subnodes(keep_leaves=False)` leaves `keep_root` at its default, and `subnodes` is absent from `symgp/individual.py`, so that default is not known. The model takes the root as eligible (`Subnodes(t, false, true)`), so the node draw fails only on a tree that is a single leaf. With the root excluded it would also fail on a tree whose only operator node is the root, and `Recombination.ExchangeOutcome` rests on the same assumption.
- Recombination.SubEx.Apply: requires two distinct individuals. Exchanging within one tree can build a cycle in the source's object graph, and that case is not modelled.
- Models.Model.Grow: the maximum depth is a natural number. With a negative `max_depth` the source never reaches the terminal case: an empty function set fails at the first choice; otherwise a branch stops only where a nullary operator is drawn, and a branch that keeps drawing operators with arguments recurses until Python raises `RecursionError`.
- `get_all` and `BaseModel`: module reflection. The registry is the parameter `all`, and the function set is a constructor argument.
- `Operator.getInfo`, `fstr` and every `__str__`: formatting and source introspection.
- The `symgp/operators` package, `symgp/specifications.py`, `symgp/format.py`, `symgp/npf.py` and `symgp/genetic/genop.py`: diagnostics, console output and numpy wrappers outside the core.
- Shared mutable default lists (`Node(children=[])`, `IndividualTree(inputLeaves=[])`): every tree gets its own sequence.
- `PointMut`, `HoistMut`, `MixedMut` and `SubEx` with no generator: the source types them with a required generator, so the model requires one. Only `PermMut` accepts a missing one.
- `populationSize`: stored and otherwise unused by the modelled code.

## Findings

| source | as written | input that shows it | evidently intended | confidence | as-written member | corrected member |
|---|---|---|---|---|---|---|
| symgp/model.py:45-50, 61-67 | `sample` returns `__grow(0)`. At depth 0 the terminal branch comes first, so with `max_depth == 0` a bare `Leaf` is returned. | `Model(max_depth=0, …).sample()` returns a `Leaf`; calling `.evaluate(inputs)` on it fails because `Leaf.evaluate` takes no inputs. | `__grow` is annotated and `sample` documented as returning an `IndividualTree`, so the terminal should be wrapped as well. | medium, not executed | Models.Model.Sample | Models.Model.SampleIndividual |
