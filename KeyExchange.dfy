/** The operation count of one party's walk with the optimal strategy. */
module KeyExchange {
  import opened Results
  import opened Paths
  import opened Optimizer
  import opened Formulas

  /** The weight of a left edge (a doubling or tripling) and of a right
      edge (an isogeny evaluation): one each when no weights are given,
      otherwise the two costs weighed with them. */
  ghost function EdgeWeights(costs: Party, weights: Option<map<string, int>>): (int, int)
  {
    if weights.None? then (1, 1)
    else (Weigh(costs.mul, [], weights.value), Weigh(costs.isogeny, [], weights.value))
  }

  /** `opcount(n, costs, weights)`: the optimal strategy for height n, the
      operations its walk performs in total, and its cost under the edge
      weights. */
  ghost function Opcount(n: int, costs: Party, weights: Option<map<string, int>>): Result<(Path, Cost, int)>
  {
    Walk(n, costs, EdgeWeights(costs, weights))
  }

  /** The body of `opcount` once the edge weights w are known. Taking
      `path.count()` of an integer entry is an error. */
  function Walk(n: int, costs: Party, w: (int, int)): Result<(Path, Cost, int)>
  {
    var table := Optimal(n, w.0, w.1, true);
    if table.Err? then Err(table.error)
    else
      var last := table.value.cells[|table.value.cells| - 1];
      if !last.1.Tree? then Err(TypeMismatch)
      else
        var path := last.1.p;
        var l, r := LeftTotal(path.floors), RightTotal(path.floors);
        Ok((path, Add(Add(Scale(costs.mul, l), Scale(costs.isogeny, r)), Scale(costs.nextCurve, n)), last.0))
  }

  /** There is no strategy below height 1. */
  lemma OpcountRejects(n: int, costs: Party, weights: Option<map<string, int>>)
    requires n <= 0
    ensures Opcount(n, costs, weights) == Err(InvalidArgument)
  {
  }

  /** At height 1 the strategy is the single leaf, costing nothing. */
  lemma WalkLeaf(costs: Party, w: (int, int))
    ensures Walk(1, costs, w).Ok?
    ensures Walk(1, costs, w).value.0 == Path([])
    ensures Walk(1, costs, w).value.2 == 0
  {
    SplitTableShape(1, w.0, w.1);
    var t := SplitTable(1, w.0, w.1);
    assert Build(t, 2) == Ok(Initial(t));
  }

  /** With non-negative edge weights the walk succeeds; its strategy is a
      valid strategy of height n, the optimum the table records, and its
      cost is its number of left edges times the left weight plus its
      number of right edges times the right weight. */
  lemma WalkOptimal(n: int, costs: Party, w: (int, int))
    requires n >= 1 && w.0 >= 0 && w.1 >= 0
    ensures Walk(n, costs, w).Ok?
    ensures var (path, _, cost) := Walk(n, costs, w).value;
      path.Valid() && Height(path) == n && cost == SplitTable(n, w.0, w.1)[n].0
      && cost == LeftTotal(path.floors) * w.0 + RightTotal(path.floors) * w.1
  {
    ConstructOptimal(n, w.0, w.1);
    var cell := Optimal(n, w.0, w.1, true).value.cells[n];
    TimesIsMul(LeftTotal(cell.1.p.floors), w.0);
    TimesIsMul(RightTotal(cell.1.p.floors), w.1);
  }

  /** So it is for opcount, whatever weights give non-negative edge weights. */
  lemma OpcountOptimal(n: int, costs: Party, weights: Option<map<string, int>>)
    requires n >= 1
    requires EdgeWeights(costs, weights).0 >= 0 && EdgeWeights(costs, weights).1 >= 0
    ensures Opcount(n, costs, weights).Ok?
    ensures var (path, _, cost) := Opcount(n, costs, weights).value;
      var w := EdgeWeights(costs, weights);
      path.Valid() && Height(path) == n && cost == SplitTable(n, w.0, w.1)[n].0
      && cost == LeftTotal(path.floors) * w.0 + RightTotal(path.floors) * w.1
  {
    WalkOptimal(n, costs, EdgeWeights(costs, weights));
  }

  /** Without weights the cost is the number of edges of the strategy. */
  lemma OpcountUnweighted(n: int, costs: Party)
    requires n >= 1
    ensures Opcount(n, costs, None).Ok?
    ensures var (path, _, cost) := Opcount(n, costs, None).value;
      cost == LeftTotal(path.floors) + RightTotal(path.floors)
  {
    WalkOptimal(n, costs, (1, 1));
  }

  /** The total counts each operation l times per left edge, r times per
      right edge and n times for the curves. */
  lemma WalkTotal(n: int, costs: Party, w: (int, int), k: string)
    requires Walk(n, costs, w).Ok?
    ensures var (path, total, _) := Walk(n, costs, w).value;
      Get(total.costs, k) == LeftTotal(path.floors) * Get(costs.mul.costs, k)
        + RightTotal(path.floors) * Get(costs.isogeny.costs, k) + n * Get(costs.nextCurve.costs, k)
  {
    var (path, total, _) := Walk(n, costs, w).value;
    var l, r := LeftTotal(path.floors), RightTotal(path.floors);
    var x, y, z := Scale(costs.mul, l), Scale(costs.isogeny, r), Scale(costs.nextCurve, n);
    AddPointwise(x, y);
    AddPointwise(Add(x, y), z);
    ScalePointwise(costs.mul, l);
    ScalePointwise(costs.isogeny, r);
    ScalePointwise(costs.nextCurve, n);
  }

  /** Weighed with the same weights, the total is the strategy's cost plus
      n times the cost of moving to the next curve. */
  lemma OpcountWeighed(n: int, costs: Party, weights: map<string, int>)
    requires n >= 1
    requires EdgeWeights(costs, Some(weights)).0 >= 0 && EdgeWeights(costs, Some(weights)).1 >= 0
    ensures Opcount(n, costs, Some(weights)).Ok?
    ensures var (_, total, cost) := Opcount(n, costs, Some(weights)).value;
      Weigh(total, [], weights) == cost + n * Weigh(costs.nextCurve, [], weights)
  {
    var w := EdgeWeights(costs, Some(weights));
    WalkOptimal(n, costs, w);
    var (path, total, cost) := Walk(n, costs, w).value;
    var l, r := LeftTotal(path.floors), RightTotal(path.floors);
    var x, y, z := Scale(costs.mul, l), Scale(costs.isogeny, r), Scale(costs.nextCurve, n);
    WeighAdd(Add(x, y), z, [], weights);
    WeighAdd(x, y, [], weights);
    WeighScale(costs.mul, l, [], weights);
    WeighScale(costs.isogeny, r, [], weights);
    WeighScale(costs.nextCurve, n, [], weights);
  }

  /** A party that pays nothing to move to the next curve spends, over the
      whole walk, exactly the strategy's cost. */
  lemma OpcountFreeCurves(n: int, costs: Party, weights: map<string, int>)
    requires n >= 1 && costs.nextCurve.costs == map[]
    requires EdgeWeights(costs, Some(weights)).0 >= 0 && EdgeWeights(costs, Some(weights)).1 >= 0
    ensures Opcount(n, costs, Some(weights)).Ok?
    ensures var (_, total, cost) := Opcount(n, costs, Some(weights)).value;
      Weigh(total, [], weights) == cost
  {
    OpcountWeighed(n, costs, weights);
    CostOfIs(map[]);
    assert costs.nextCurve == CostOf(map[]);
    WeighEmpty([], weights);
  }

  /** So it is with every De Feo-Jao-Plût party. */
  lemma OpcountDjp(n: int, d: int, weights: map<string, int>)
    requires n >= 1 && d in DJP
    requires EdgeWeights(DJP[d], Some(weights)).0 >= 0 && EdgeWeights(DJP[d], Some(weights)).1 >= 0
    ensures Opcount(n, DJP[d], Some(weights)).Ok?
    ensures var (_, total, cost) := Opcount(n, DJP[d], Some(weights)).value;
      Weigh(total, [], weights) == cost
  {
    DjpNextFree();
    OpcountFreeCurves(n, DJP[d], weights);
  }
}
