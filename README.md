# sidh-optimizer in Dafny

This project models the core of sidh-optimizer, a small Python library for
choosing *strategies* in the SIDH key exchange. A strategy of height h is a
binary tree drawn on a triangle of h levels. It says in which order a party
computes the multiplications (left edges) and the isogeny evaluations (right
edges) of its walk. The model covers five things:

- **Paths** (`sidh_optimizer/paths.py`). The `Path` class becomes a datatype
  over its list of floors. Floor i packs the edges leaving the i+1 nodes of
  level i, two bits per node. The model covers the constructor's bound,
  `height`, `count`, `crosses` and the bottom-up reachability check `well_formed`.
  It also covers the two ways of building strategies: appending a level with
  `cat`, and joining two strategies with `a * b`.
- **Enumeration** (`paths.py`). `paths(n)` lists all strategies of height
  n. `_h4` is a bitfield helper. `wf_paths(reachable)` builds well-formed
  strategies bottom floor first: it builds the floor that `cat` appends at the
  bottom, then recurses upward on `_h4` of that floor.
- **Optimizer** (`paths.py`). `optimal_paths(n, l, r, construct)` is a
  dynamic programme. It fills a table of (cost, split) pairs, mirrors the
  table when the costs were swapped, and optionally rebuilds each optimal
  strategy as the product of two smaller ones.
- **Formulas** (`sidh_optimizer/formulas.py`). The `Cost` class counts
  operations by name. The model covers its constructor, `+`, scalar `*`,
  `weigh`, the `Party` triple, the field costs A, M, S and I, and the
  De Feo-Jao-Plût (DJP) costs.
- **KeyExchange** (`sidh_optimizer/key_exchange.py`). `opcount(n, costs,
  weights)` returns the optimal strategy, the total operation count of the
  walk, and the strategy's cost.

Python exceptions become values of `Results.Result`:

- `ValueError("Malformed path")` becomes `Malformed`.
- The bare `ValueError` for a non-positive height becomes `InvalidArgument`.
- A `TypeError` or `AttributeError` from multiplying or counting the wrong
  kind of table entry becomes `TypeMismatch`.

Python's `|`, `<<`, `>>` and `&` on non-negative integers are modelled
arithmetically in `Bits`. `Or` is bitwise OR; `OrDisjoint` proves that it is
addition when the bits do not overlap. `Shl` is `<<`.

Code that runs as a loop in the source is a method with loop invariants
(`NewPath`, `Count`, `Crosses`, `CheckLevel`, `WellFormed`, `Merge`, `H4`,
`BottomFloors`, `WfPaths`, `FillTable`, `Construct`, `NewCost`). Every such
method is proved against a function or predicate that states what it
computes, except `BottomFloors` and `WfPaths`, which are proved sound only
(see Left out). Everything else is a function, and the properties are lemmas about
those functions.

## Model

| member | source | states |
|---|---|---|
| Paths.NewPath | sidh_optimizer/paths.py:17-35 | the floor list is accepted exactly when floor i is below 4^(i+1) for every i; the path keeps that list; any other list is rejected as Malformed |
| Paths.Height | sidh_optimizer/paths.py:102-107 | computes `height()`, the number of floors plus one; Cat, Merged and AllPaths state how it grows, and Fits ties it to the bit length of `wf_paths`' bitfield |
| Paths.Count | sidh_optimizer/paths.py:109-122 | returns the total number of left edges (set even bits) and right edges (set odd bits) over all floors |
| Paths.PairShift | sidh_optimizer/paths.py:130-134 | dropping two bits keeps whether a crossing pair exists, when the lowest position holds none |
| Paths.NoPairInZero | sidh_optimizer/paths.py:131 | an exhausted floor holds no crossing pair |
| Paths.Crosses | sidh_optimizer/paths.py:124-135 | true exactly when some floor has a node whose right edge and the next node's left edge are both present |
| Paths.Cat | sidh_optimizer/paths.py:176-180 | a floor is accepted exactly when it is below 4^height; the result is a valid path with the floor appended and height one more; otherwise Malformed |
| Paths.Merged | sidh_optimizer/paths.py:182-211 | a*b always satisfies the constructor's bound, so the final `Path(newpath)` never raises, and its height is height(a) + height(b) |
| Paths.MergedFloorBound | sidh_optimizer/paths.py:196-209 | every floor of a*b is within the bound of its level |
| Paths.SpineFloor | sidh_optimizer/paths.py:196-197 | the first loop appends the floor with both spines, `1 \| 1 << (2i+1)` |
| Paths.LeftTailFloor | sidh_optimizer/paths.py:202-204 | when a is taller, the second loop appends a's next floor under the right spine |
| Paths.RightTailFloor | sidh_optimizer/paths.py:202-206 | when b is at least as tall, the second loop appends b's next floor shifted past a, beside the left spine |
| Paths.ZipFloor | sidh_optimizer/paths.py:208-209 | the zip loop appends a's floor OR b's floor shifted by 2·height(a) |
| Paths.ZipTails | sidh_optimizer/paths.py:199-209 | from any correct prefix, the zip loop completes exactly the floors of a*b |
| Paths.Merge | sidh_optimizer/paths.py:182-211 | the floors `__mul__` builds are those of a*b |
| Paths.EdgesPack | sidh_optimizer/paths.py:204-209 | OR-ing one floor above the bits of another adds their left counts and their right counts |
| Paths.MergedFloorEdges | sidh_optimizer/paths.py:196-209 | the left and right edge counts of each floor of a*b: its spine bit plus what comes from a and from b |
| Paths.PrefixCount | sidh_optimizer/paths.py:196-209 | the floors of a*b up to level m hold the spine edges up to m plus a's and b's floors that lie below m |
| Paths.MergeCount | sidh_optimizer/paths.py:182-211 | count(a*b) = (left(a) + left(b) + height(b), right(a) + right(b) + height(a)): the two spines are the only new edges |
| Paths.H4Bit | sidh_optimizer/paths.py:264-276 | bit k of `_h4(x)` is set exactly when bit 2k or bit 2k+1 of x is set |
| Paths.ScanEnd | sidh_optimizer/paths.py:154-172 | when a level's scan ends, reachable is empty exactly when every reachable leaf got exactly one edge and every other leaf none, and newreachable is then `_h4` of the floor |
| Paths.CheckLevel | sidh_optimizer/paths.py:143-172 | one level of `well_formed` succeeds exactly when the floor fits the reachable leaves (LevelOk); it then passes on `_h4(floor)` as what the floor above must reach |
| Paths.WellFormed | sidh_optimizer/paths.py:137-173 | true exactly when the floors, checked bottom-up from 2^height - 1, each fit the bitfield left by the floor below |
| Enumeration.Row | sidh_optimizer/paths.py:225 | `[p.cat(j) for j in range(m)]`: m valid paths, the j-th being p with floor j appended |
| Enumeration.Flatten | sidh_optimizer/paths.py:225 | the double comprehension has \|sub\|·4^h elements, all valid and one level taller |
| Enumeration.FlattenHas | sidh_optimizer/paths.py:225 | every sub-path with every admissible floor appears in the comprehension |
| Enumeration.FlattenFrom | sidh_optimizer/paths.py:225 | every element of the comprehension is a sub-path with one floor appended |
| Enumeration.FlattenDistinct | sidh_optimizer/paths.py:225 | distinct sub-paths give a comprehension without duplicates |
| Enumeration.AllPaths | sidh_optimizer/paths.py:215-225 | `paths(n)` raises for n <= 0, is `[Path([])]` for n = 1, and otherwise lists 4^(n(n-1)/2) valid paths of height n |
| Enumeration.AllPathsDistinct | sidh_optimizer/paths.py:215-225 | `paths(n)` has no duplicates |
| Enumeration.AllPathsComplete | sidh_optimizer/paths.py:215-225 | every valid path of height h is in `paths(h)` |
| Enumeration.TwiceTriangle | sidh_optimizer/paths.py:225 | n(n-1) is even, so the count 4^(n(n-1)/2) is exact |
| Enumeration.H4 | sidh_optimizer/paths.py:264-276 | the loop computes `_h4`: one bit per two-bit group, set when the group is non-zero |
| Enumeration.H4Positive | sidh_optimizer/paths.py:264-276 | `_h4` of a positive number is positive |
| Enumeration.H4Below | sidh_optimizer/paths.py:264-276 | a number below 4^m has `_h4` below 2^m |
| Enumeration.H4Above | sidh_optimizer/paths.py:264-276 | a number at least 4^m has `_h4` at least 2^m |
| Enumeration.AddEdge | sidh_optimizer/paths.py:250-251 | for a reachable leaf, OR-ing either edge into a partial floor adds a fresh bit and keeps the floor partial for the next leaf |
| Enumeration.SkipLeaf | sidh_optimizer/paths.py:249-253 | for an unreachable leaf the floors are kept unchanged |
| Enumeration.CloseFloor | sidh_optimizer/paths.py:255 | the final `f \| left` gives the last reachable leaf its edge and finishes the floor |
| Enumeration.OrEach | sidh_optimizer/paths.py:251 | computes the new list `[f \| b for f in fs]`; GrowFloors and CloseFloors state what it does to the candidate floors |
| Enumeration.Doubled | sidh_optimizer/paths.py:250-251 | computes the new list for a reachable leaf, the floors with a left edge followed by the floors with a right edge; GrowFloors states that both halves stay partial |
| Enumeration.GrowFloors | sidh_optimizer/paths.py:250-251 | both halves of the doubled list stay partial floors |
| Enumeration.KeepFloors | sidh_optimizer/paths.py:249-253 | a skipped leaf keeps every floor partial |
| Enumeration.CloseFloors | sidh_optimizer/paths.py:255 | every floor of the final list is finished |
| Enumeration.LastLeaf | sidh_optimizer/paths.py:249-255 | when the shifted bitfield reaches 1, its last bit is the top bit of reachable |
| Enumeration.BottomFloors | sidh_optimizer/paths.py:245-255 | every floor built gives each reachable leaf exactly one incoming edge and no other leaf any edge |
| Enumeration.FinishedReach | sidh_optimizer/paths.py:259 | `_h4` of such a floor is at least 1 and below reachable, and has one bit fewer: the recursion goes down and the heights agree |
| Enumeration.ExtendWf | sidh_optimizer/paths.py:259 | appending a fitting floor to a path well-formed from `_h4(f)` gives a path well-formed from reachable |
| Enumeration.WfPaths | sidh_optimizer/paths.py:227-261 | raises for reachable <= 0, is `[Path([])]` for 1; its recursion terminates and never raises; every path it returns is valid, has height bit_length(reachable) and is well-formed from reachable |
| Enumeration.AllOnesLength | sidh_optimizer/paths.py:142 | the bitfield 2^h - 1 that `well_formed` starts from has h binary digits |
| Enumeration.WfAllOnes | sidh_optimizer/paths.py:227-261 | every strategy that fits the full bitfield 2^h - 1, as each one `wf_paths(2^h - 1)` returns does, has height h and passes `well_formed` |
| Optimizer.Score | sidh_optimizer/paths.py:309-311 | computes the score of split j; ScanMinimal, UpperHalfWorse and CostMinimal state the minimum it is compared in |
| Optimizer.Sentinel | sidh_optimizer/paths.py:307 | computes the initial entry (i+1)^2(l+r); SentinelLoses states that split 1 always beats it when the costs are non-negative |
| Optimizer.TimesIsMul | sidh_optimizer/paths.py:311 | k edges of cost x cost k·x |
| Optimizer.Scan | sidh_optimizer/paths.py:307-313 | the inner loop over j = 1..jm ends with a split in 0..jm, 0 meaning that no split beat the sentinel |
| Optimizer.ScanMinimal | sidh_optimizer/paths.py:307-313 | after splits 1..jm the entry is within the sentinel and no more than any tried split's score; it is strictly less than the score of every split tried after the chosen one, so the last minimum wins; it equals the score of its split, or the sentinel when the split is 0 |
| Optimizer.ScanPrefix | sidh_optimizer/paths.py:308-311 | the inner loop reads only entries below i |
| Optimizer.Dp | sidh_optimizer/paths.py:305-313 | the table has n+1 entries with `(0,0), (0,1)` first |
| Optimizer.DpEntry | sidh_optimizer/paths.py:305-313 | entry i is the inner loop's result over the finished table |
| Optimizer.DpShape | sidh_optimizer/paths.py:308 | with ordered costs every split lies in 0..i/2 |
| Optimizer.Mirror | sidh_optimizer/paths.py:316 | the swap keeps the table's length |
| Optimizer.MirrorCosts | sidh_optimizer/paths.py:316 | the swap keeps every cost |
| Optimizer.SplitTable | sidh_optimizer/paths.py:299-316 | the table returned with `construct=False` has n+1 entries |
| Optimizer.SplitTableShape | sidh_optimizer/paths.py:305-316 | every split of entry k lies in 0..k |
| Optimizer.SplitTableFirst | sidh_optimizer/paths.py:305 | the leaf entry costs 0 in both orders |
| Optimizer.CostsSymmetric | sidh_optimizer/paths.py:299-316 | swapping l and r changes only the split column: `optimal_paths(n, l, r)` and `optimal_paths(n, r, l)` have the same costs |
| Optimizer.MirrorScore | sidh_optimizer/paths.py:311 | a split's score with the costs swapped is its mirror split's score |
| Optimizer.UpperHalfWorse | sidh_optimizer/paths.py:308 | with l <= r a split in the upper half never beats its mirror, so trying only j <= i/2 loses nothing |
| Optimizer.DpMinimal | sidh_optimizer/paths.py:305-313 | with ordered costs entry i is no more than the score of any split 1..i-1 |
| Optimizer.OrderedOptimal | sidh_optimizer/paths.py:305-313 | with l <= r every entry is optimal (OptimalAt) over all splits |
| Optimizer.MirroredMinimal | sidh_optimizer/paths.py:299-316 | with l > r, entry i of the table computed with swapped costs is no more than the score, under the original costs, of any split 1..i-1 |
| Optimizer.MirroredOptimal | sidh_optimizer/paths.py:299-316 | with l > r the swapped table is optimal under the original l and r |
| Optimizer.CostMinimal | sidh_optimizer/paths.py:299-316 | entry i of the returned table is the minimum, over all splits 1..i-1, of cost(j) + cost(i-j) + (i-j)·l + j·r, capped by the sentinel (i+1)^2(l+r); a split inside 1..i-1 achieves it, and any other split value means the sentinel survived |
| Optimizer.DpBounded | sidh_optimizer/paths.py:307 | with non-negative ordered costs entry k costs at most k^2(l+r) |
| Optimizer.SentinelLoses | sidh_optimizer/paths.py:307-313 | the split at 1 beats the sentinel, so the scan ends on a real split |
| Optimizer.SentinelBeaten | sidh_optimizer/paths.py:299-316 | with non-negative costs every split lies strictly inside 1..i-1 and entry i costs at most i^2(l+r) |
| Optimizer.OrderedBeaten | sidh_optimizer/paths.py:305-313 | the same for the ordered table, with the split in 1..i/2 |
| Optimizer.Product | sidh_optimizer/paths.py:322 | computes `opaths[j][1] * opaths[i-j][1]`, including the integer product and the type error of a mix; MergedRealizes and BuildRealizes state its meaning |
| Optimizer.Initial | sidh_optimizer/paths.py:319 | computes `opaths[1] = (0, Path([]))`; BuildKeeps and BuildRealizes state its meaning |
| Optimizer.Build | sidh_optimizer/paths.py:318-322 | the table keeps its length, and every strategy in it is valid |
| Optimizer.BuildKeeps | sidh_optimizer/paths.py:318-322 | construction keeps every cost (entry 1 reset to 0) and leaves entries not yet reached untouched |
| Optimizer.BuildErrSticks | sidh_optimizer/paths.py:320-322 | once a product fails, the construction fails |
| Optimizer.Optimal | sidh_optimizer/paths.py:279-324 | raises for n <= 0; `construct=False` returns the split table; `construct=True` returns n+1 entries |
| Optimizer.OptimalConstructed | sidh_optimizer/paths.py:318-324 | with `construct=True` the result is the construction run over the split table |
| Optimizer.FillTable | sidh_optimizer/paths.py:305-313 | the main loop builds the ordered table |
| Optimizer.TrySplits | sidh_optimizer/paths.py:307-313 | one round of the main loop appends the inner loop's result |
| Optimizer.Construct | sidh_optimizer/paths.py:318-322 | the construct loop computes the construction, error included |
| Optimizer.SplitsOf | sidh_optimizer/paths.py:299-316 | the swap, the main loop and the mirror compute the split table for the caller's l and r |
| Optimizer.OptimalPaths | sidh_optimizer/paths.py:279-324 | `optimal_paths` computes exactly Optimal in both modes |
| Optimizer.MergeWeighted | sidh_optimizer/paths.py:311 | a strategy with a*b's edge counts costs the two parts plus height(b) left and height(a) right edges, the term the score adds |
| Optimizer.MergedRealizes | sidh_optimizer/paths.py:322 | merging the strategies realising entries j and i-j realises entry i |
| Optimizer.BuildRealizes | sidh_optimizer/paths.py:318-322 | with non-negative costs construction never fails, and each entry k holds a valid strategy of height k whose cost under l and r is the entry's cost |
| Optimizer.ConstructOptimal | sidh_optimizer/paths.py:279-324 | with non-negative costs `optimal_paths(n, l, r)` returns n+1 entries; entry k (1..n) holds the optimal cost and a valid strategy of height k that costs exactly that |
| Formulas.NewCost | sidh_optimizer/formulas.py:9-17 | `Cost(from_cost, **kwds)` has the keys of from_cost (if given) and of kwds; each count is from_cost's plus kwds', with missing keys counting 0; from_cost is not changed |
| Formulas.CombineInsert | sidh_optimizer/formulas.py:13-17 | adding one keyword to an existing key or inserting it fresh both give the combined count |
| Formulas.CombineGet | sidh_optimizer/formulas.py:9-17 | the combined counts cover both key sets and add pointwise |
| Formulas.CostOf | sidh_optimizer/formulas.py:9-17 | computes `Cost(**kwds)`; CostOfIs states that it holds exactly the keyword counts |
| Formulas.Add | sidh_optimizer/formulas.py:24-26 | computes `a + b` as `Cost(b, **a.costs)`; AddPointwise, AddCommutes, AddAssociates and AddEmpty state its meaning |
| Formulas.Scale | sidh_optimizer/formulas.py:28-32 | computes `c * s` and `s * c`; ScalePointwise and ScaleDistributes state its meaning |
| Formulas.AddPointwise | sidh_optimizer/formulas.py:24-26 | a + b has the union of the keys, and each count is a.get(k,0) + b.get(k,0) |
| Formulas.AddCommutes | sidh_optimizer/formulas.py:24-26 | addition is commutative (as counts; insertion order is not modelled) |
| Formulas.AddAssociates | sidh_optimizer/formulas.py:24-26 | addition is associative |
| Formulas.AddEmpty | sidh_optimizer/formulas.py:24-26 | `Cost()` is neutral on both sides |
| Formulas.ScalePointwise | sidh_optimizer/formulas.py:28-32 | c * s (and s * c) keeps the keys and multiplies every count by s |
| Formulas.ScaleDistributes | sidh_optimizer/formulas.py:24-32 | scaling distributes over addition |
| Formulas.ScaleOne | sidh_optimizer/formulas.py:28-32 | scaling by 1 changes nothing |
| Formulas.CostOfIs | sidh_optimizer/formulas.py:9-17 | `Cost(**kwds)` holds exactly the keyword counts |
| Formulas.Weigh | sidh_optimizer/formulas.py:34-41 | computes `weigh(*args, **kwds)` as the weighted sum over the weight keys, missing counts 0; DotTake, WeighAdd, WeighScale, WeighEmpty and WeighOne state its meaning |
| Formulas.Weights | sidh_optimizer/formulas.py:39-40 | positional names weigh 1 and keyword weights override them |
| Formulas.DotTake | sidh_optimizer/formulas.py:41 | the weighted sum does not depend on the order the keys are visited in |
| Formulas.WeighAdd | sidh_optimizer/formulas.py:24-41 | `(a + b).weigh(w) == a.weigh(w) + b.weigh(w)` |
| Formulas.WeighScale | sidh_optimizer/formulas.py:28-41 | `(c * s).weigh(w) == s * c.weigh(w)` |
| Formulas.WeighEmpty | sidh_optimizer/formulas.py:34-41 | `Cost().weigh(...)` is 0 |
| Formulas.WeighOne | sidh_optimizer/formulas.py:34-41 | `c.weigh(k)` is `c.costs.get(k, 0)` |
| Formulas.ConstantsAre | sidh_optimizer/formulas.py:46-49 | A, M, S and I hold exactly their listed counts |
| Formulas.MulSquare | sidh_optimizer/formulas.py:47-48 | p·M + q·S counts 3p+2q multiplications, 4p+3q additions and 2p+2q reductions |
| Formulas.Djp2 | sidh_optimizer/formulas.py:54 | degree 2: mul = {m:13, a:18, mod:10}, isogeny = {m:8, a:11, mod:6} |
| Formulas.Djp3 | sidh_optimizer/formulas.py:55 | degree 3: mul = {m:29, a:40, mod:22}, isogeny = {m:16, a:22, mod:12} |
| Formulas.Djp4 | sidh_optimizer/formulas.py:56 | degree 4: mul = {m:26, a:36, mod:20}, isogeny = {m:20, a:27, mod:14} |
| Formulas.DjpNextFree | sidh_optimizer/formulas.py:53-57 | DJP covers degrees 2, 3 and 4, and none of them charges for moving to the next curve |
| KeyExchange.EdgeWeights | sidh_optimizer/key_exchange.py:12-15 | computes `w`: (1, 1) without weights, otherwise the weighed mul and isogeny costs |
| KeyExchange.Walk | sidh_optimizer/key_exchange.py:16-20 | computes the body of `opcount` once w is known; WalkLeaf, WalkOptimal and WalkTotal state its meaning |
| KeyExchange.Opcount | sidh_optimizer/key_exchange.py:7-20 | computes `opcount(n, costs, weights)`; OpcountRejects, OpcountOptimal, OpcountUnweighted, OpcountWeighed and OpcountDjp state its meaning |
| KeyExchange.OpcountRejects | sidh_optimizer/key_exchange.py:16 | n <= 0 raises, through `optimal_paths` |
| KeyExchange.WalkLeaf | sidh_optimizer/key_exchange.py:16-20 | for n = 1 the strategy is `Path([])` with cost 0, whatever the weights |
| KeyExchange.WalkOptimal | sidh_optimizer/key_exchange.py:16-20 | with non-negative edge weights opcount succeeds; the strategy is valid, has height n and costs the table's optimum, which is left edges · wl + right edges · wr |
| KeyExchange.OpcountOptimal | sidh_optimizer/key_exchange.py:7-20 | the same for `opcount` itself, whatever weights give non-negative edge weights |
| KeyExchange.OpcountUnweighted | sidh_optimizer/key_exchange.py:12-13 | without weights both edge kinds weigh 1, so the cost is the number of edges |
| KeyExchange.WalkTotal | sidh_optimizer/key_exchange.py:17-18 | the total counts each operation l times per left edge, r times per right edge and n times for the curves |
| KeyExchange.OpcountWeighed | sidh_optimizer/key_exchange.py:14-20 | `total.weigh(**w) == cost + n * next_curve.weigh(**w)` |
| KeyExchange.OpcountFreeCurves | sidh_optimizer/key_exchange.py:18-20 | when the next curve costs nothing, the weighed total is exactly the strategy's cost |
| KeyExchange.OpcountDjp | sidh_optimizer/key_exchange.py:18-20 | so it is for every DJP party |

## Left out

- Rendering (`ascii_art`, `xpm`, `bitmap`, `__repr__`), `Path.__hash__` and `Cost.__str__`/`__repr__`: output only.
- `Path.__eq__` is Dafny's structural equality on the `Path` datatype, so it needs no member of its own.
- The insertion order of `Cost`'s `OrderedDict` is not kept: a `Cost` is a `map`. The order only shows when printing, and `weigh` sums over the keys in any order (`DotTake`).
- Formulas.Weigh: a ghost function, because it sums over a set of keys in no particular order. For the same reason `KeyExchange.Opcount` and `EdgeWeights` are ghost; `KeyExchange.Walk`, the body of `opcount` once the edge weights are known, is not.
- The `assert type(...)` checks in `Cost.__add__` and `__mul__` are enforced by Dafny's types: only a `Cost` can be added and only an `int` can scale.
- `CLN` is an empty dictionary in the source and has no members.
- Floors are natural numbers. The source's bit operations on negative integers are not modelled.
- The costs `l` and `r` of `optimal_paths`, the weights of `Formulas.Weigh` and `KeyExchange.EdgeWeights`, and the scalar of `Formulas.Scale` are integers. Python also accepts floats there (for example a weight of 0.5 in `opcount`); floating-point costs and weights are not modelled.
- Enumeration.BottomFloors: proves that every floor built gives each reachable leaf exactly one edge. It does not prove that every such floor is built, or how many there are.
- Enumeration.WfPaths: proves that every returned strategy fits the bitfield. It does not prove that every fitting strategy is returned, that none is returned twice, or how many there are.
- Paths.Merged: proves the bound, the height and the edge counts of a*b. It does not prove that a*b has the fewest edges among strategies with those two sub-strategies, or that it is well-formed or non-crossing.
- Optimizer.CostMinimal: states optimality against the recurrence the dynamic programme follows (all splits of height i). It does not state it against every strategy tree of height i.
- setup.py and the formula graphs are packaging and documentation, not modelled.
