/** Operation counts of the SIDH formulas (`Cost`) and the per-party costs
    of the three steps of a walk (`Party`). */
module Formulas {
  import opened Results

  /** A `Cost`: how many operations of each named kind ("m", "a", "mod",
      ...) a formula performs. Insertion order, which only affects
      printing, is not kept. */
  datatype Cost = Cost(costs: map<string, int>)

  /** `costs.get(k, 0)`. */
  function Get(m: map<string, int>, k: string): int
  {
    if k in m then m[k] else 0
  }

  /** The counts of `base` with those of `kw` added key by key. */
  function Combine(base: map<string, int>, kw: map<string, int>): map<string, int>
  {
    map k | k in base.Keys + kw.Keys :: Get(base, k) + Get(kw, k)
  }

  /** What `Combine` means: the union of the keys, the counts added. */
  lemma CombineGet(base: map<string, int>, kw: map<string, int>)
    ensures Combine(base, kw).Keys == base.Keys + kw.Keys
    ensures forall k :: Get(Combine(base, kw), k) == Get(base, k) + Get(kw, k)
  {
  }

  /** The counts `from_cost` contributes: none when it is `None`. */
  function Base(from: Option<Cost>): map<string, int>
  {
    if from.Some? then from.value.costs else map[]
  }

  /** `Cost(from_cost, **kwds)`: a copy of `from_cost`'s counts (none when
      absent) into which every keyword count is added, inserting the keys
      not yet present. */
  method NewCost(from: Option<Cost>, kwds: map<string, int>) returns (c: Cost)
    ensures c.costs.Keys == Base(from).Keys + kwds.Keys
    ensures forall k :: Get(c.costs, k) == Get(Base(from), k) + Get(kwds, k)
  {
    var costs: map<string, int> := if from.Some? then from.value.costs else map[];
    var rest := kwds.Keys;
    CombineNone(costs, kwds);
    while rest != {}
      invariant rest <= kwds.Keys
      invariant costs == Combine(Base(from), kwds - rest)
      decreases |rest|
    {
      var k :| k in rest;
      var v := kwds[k];
      ghost var was := costs;
      if k in costs {
        costs := costs[k := costs[k] + v];
      } else {
        costs := costs[k := v];
      }
      CombineInsert(Base(from), kwds, rest, k, was, costs);
      rest := rest - {k};
    }
    c := Cost(costs);
    CombineAll(Base(from), kwds, costs);
  }

  /** Before the loop: no keyword added yet. */
  lemma CombineNone(base: map<string, int>, kwds: map<string, int>)
    ensures base == Combine(base, kwds - kwds.Keys)
  {
    assert kwds - kwds.Keys == map[];
    assert base == Combine(base, map[]);
  }

  /** After the loop: every keyword added. */
  lemma CombineAll(base: map<string, int>, kwds: map<string, int>, costs: map<string, int>)
    requires costs == Combine(base, kwds - {})
    ensures costs.Keys == base.Keys + kwds.Keys
    ensures forall k :: Get(costs, k) == Get(base, k) + Get(kwds, k)
  {
    assert kwds - {} == kwds;
    CombineGet(base, kwds);
  }

  /** The loop step of the constructor: one more keyword is added in. */
  lemma CombineInsert(base: map<string, int>, kwds: map<string, int>, rest: set<string>, k: string,
                      was: map<string, int>, now: map<string, int>)
    requires k in kwds && k in rest
    requires was == Combine(base, kwds - rest)
    requires now == was[k := Get(was, k) + kwds[k]]
    ensures now == Combine(base, kwds - (rest - {k}))
  {
    var want := Combine(base, kwds - (rest - {k}));
    CombineGet(base, kwds - (rest - {k}));
    CombineGet(base, kwds - rest);
    assert now.Keys == want.Keys;
    forall q | q in want ensures now[q] == want[q] {
    }
  }

  /** `Cost(**kwds)`. */
  function CostOf(kwds: map<string, int>): Cost
  {
    Cost(Combine(map[], kwds))
  }

  /** `self + other`, written `Cost(other, **self.costs)` in the source. */
  function Add(self: Cost, other: Cost): Cost
  {
    Cost(Combine(other.costs, self.costs))
  }

  /** `self * scalar` (and `scalar * self`), written
      `Cost(**{k: scalar * v for k, v in self.costs.items()})`. */
  function Scale(self: Cost, scalar: int): Cost
  {
    CostOf(map k | k in self.costs :: scalar * self.costs[k])
  }

  /** Addition is pointwise over the union of the keys. */
  lemma AddPointwise(a: Cost, b: Cost)
    ensures Add(a, b).costs.Keys == a.costs.Keys + b.costs.Keys
    ensures forall k :: Get(Add(a, b).costs, k) == Get(a.costs, k) + Get(b.costs, k)
  {
  }

  /** Scaling keeps the keys and multiplies every count. */
  lemma ScalePointwise(a: Cost, s: int)
    ensures Scale(a, s).costs.Keys == a.costs.Keys
    ensures forall k :: Get(Scale(a, s).costs, k) == s * Get(a.costs, k)
  {
  }

  lemma AddCommutes(a: Cost, b: Cost)
    ensures Add(a, b) == Add(b, a)
  {
    assert Add(a, b).costs == Add(b, a).costs;
  }

  lemma AddAssociates(a: Cost, b: Cost, c: Cost)
    ensures Add(Add(a, b), c) == Add(a, Add(b, c))
  {
    AddPointwise(a, b);
    AddPointwise(Add(a, b), c);
    AddPointwise(b, c);
    AddPointwise(a, Add(b, c));
    SameCounts(Add(Add(a, b), c), Add(a, Add(b, c)));
  }

  /** `Cost()` is the identity of addition. */
  lemma AddEmpty(a: Cost)
    ensures Add(a, CostOf(map[])) == a && Add(CostOf(map[]), a) == a
  {
    assert Add(a, CostOf(map[])).costs == a.costs;
    assert Add(CostOf(map[]), a).costs == a.costs;
  }

  /** Two costs with the same keys and the same counts are the same. */
  lemma SameCounts(x: Cost, y: Cost)
    requires x.costs.Keys == y.costs.Keys
    requires forall k :: Get(x.costs, k) == Get(y.costs, k)
    ensures x == y
  {
    forall k | k in x.costs ensures x.costs[k] == y.costs[k] {
      assert Get(x.costs, k) == Get(y.costs, k);
    }
  }

  lemma MulDistrib(s: int, x: int, y: int)
    ensures s * (x + y) == s * x + s * y
  {
  }

  lemma ScaleDistributes(a: Cost, b: Cost, s: int)
    ensures Scale(Add(a, b), s) == Add(Scale(a, s), Scale(b, s))
  {
    var x, y := Scale(Add(a, b), s), Add(Scale(a, s), Scale(b, s));
    AddPointwise(a, b);
    AddPointwise(Scale(a, s), Scale(b, s));
    ScalePointwise(Add(a, b), s);
    ScalePointwise(a, s);
    ScalePointwise(b, s);
    forall k ensures Get(x.costs, k) == Get(y.costs, k) {
      MulDistrib(s, Get(a.costs, k), Get(b.costs, k));
    }
    SameCounts(x, y);
  }

  /** `Cost(**kwds)` holds exactly the keyword counts. */
  lemma CostOfIs(kwds: map<string, int>)
    ensures CostOf(kwds).costs == kwds
  {
    CombineGet(map[], kwds);
    SameCounts(CostOf(kwds), Cost(kwds));
  }

  // ---------------------------------------------------------------------
  // Weighing

  /** `weights = {k: 1 for k in args}; weights.update(kwds)`. */
  function Weights(args: seq<string>, kwds: map<string, int>): (w: map<string, int>)
    ensures w.Keys == (set k | k in args) + kwds.Keys
    ensures forall k :: k in kwds ==> w[k] == kwds[k]
    ensures forall k :: k in args && k !in kwds ==> w[k] == 1
  {
    (map k | k in args :: 1) + kwds
  }

  /** The sum of `costs.get(k, 0) * w[k]` over the keys ks of w. */
  ghost function Dot(c: map<string, int>, w: map<string, int>, ks: set<string>): int
    requires ks <= w.Keys
    decreases ks
  {
    if ks == {} then 0
    else
      var k :| k in ks;
      Get(c, k) * w[k] + Dot(c, w, ks - {k})
  }

  /** The sum does not depend on the order the keys are taken in: any one
      of them can be taken first. */
  lemma {:induction false} DotTake(c: map<string, int>, w: map<string, int>, ks: set<string>, x: string)
    requires ks <= w.Keys && x in ks
    ensures Dot(c, w, ks) == Get(c, x) * w[x] + Dot(c, w, ks - {x})
    decreases ks
  {
    var k :| k in ks && Dot(c, w, ks) == Get(c, k) * w[k] + Dot(c, w, ks - {k});
    if k != x {
      DotTake(c, w, ks - {k}, x);
      DotTake(c, w, ks - {x}, k);
      assert ks - {k} - {x} == ks - {x} - {k};
    }
  }

  /** `self.weigh(*args, **kwds)`. */
  ghost function Weigh(self: Cost, args: seq<string>, kwds: map<string, int>): int
  {
    var w := Weights(args, kwds);
    Dot(self.costs, w, w.Keys)
  }

  lemma Distrib(x: int, y: int, z: int)
    ensures (x + y) * z == x * z + y * z
  {
  }

  lemma {:induction false} DotAdd(a: map<string, int>, b: map<string, int>, w: map<string, int>, ks: set<string>)
    requires ks <= w.Keys
    ensures Dot(Combine(a, b), w, ks) == Dot(a, w, ks) + Dot(b, w, ks)
    decreases ks
  {
    if ks != {} {
      var k :| k in ks;
      DotTake(Combine(a, b), w, ks, k);
      DotTake(a, w, ks, k);
      DotTake(b, w, ks, k);
      DotAdd(a, b, w, ks - {k});
      CombineGet(a, b);
      Distrib(Get(a, k), Get(b, k), w[k]);
    }
  }

  /** One step of the homogeneity proof, on plain numbers. */
  lemma ScaleTerm(s: int, cx: int, ax: int, wx: int, cr: int, ar: int)
    requires cx == s * ax && cr == s * ar
    ensures cx * wx + cr == s * (ax * wx + ar)
  {
    assert (s * ax) * wx == s * (ax * wx);
  }

  lemma {:induction false} DotScale(c: map<string, int>, a: map<string, int>, s: int, w: map<string, int>, ks: set<string>)
    requires ks <= w.Keys
    requires forall k :: Get(c, k) == s * Get(a, k)
    ensures Dot(c, w, ks) == s * Dot(a, w, ks)
    decreases ks
  {
    if ks != {} {
      var k :| k in ks;
      DotTake(c, w, ks, k);
      DotTake(a, w, ks, k);
      DotScale(c, a, s, w, ks - {k});
      ScaleTerm(s, Get(c, k), Get(a, k), w[k], Dot(c, w, ks - {k}), Dot(a, w, ks - {k}));
    }
  }

  /** Weighing is additive ... */
  lemma WeighAdd(a: Cost, b: Cost, args: seq<string>, kwds: map<string, int>)
    ensures Weigh(Add(a, b), args, kwds) == Weigh(a, args, kwds) + Weigh(b, args, kwds)
  {
    var w := Weights(args, kwds);
    DotAdd(b.costs, a.costs, w, w.Keys);
  }

  /** ... and homogeneous. */
  lemma WeighScale(a: Cost, s: int, args: seq<string>, kwds: map<string, int>)
    ensures Weigh(Scale(a, s), args, kwds) == s * Weigh(a, args, kwds)
  {
    var w := Weights(args, kwds);
    ScalePointwise(a, s);
    DotScale(Scale(a, s).costs, a.costs, s, w, w.Keys);
  }

  lemma {:induction false} DotEmpty(w: map<string, int>, ks: set<string>)
    requires ks <= w.Keys
    ensures Dot(map[], w, ks) == 0
    decreases ks
  {
    if ks != {} {
      var k :| k in ks;
      DotTake(map[], w, ks, k);
      DotEmpty(w, ks - {k});
    }
  }

  /** `Cost().weigh(...)` is 0 whatever the weights. */
  lemma WeighEmpty(args: seq<string>, kwds: map<string, int>)
    ensures Weigh(CostOf(map[]), args, kwds) == 0
  {
    var w := Weights(args, kwds);
    assert CostOf(map[]).costs == map[];
    DotEmpty(w, w.Keys);
  }

  /** A single key given positionally weighs its count: `c.weigh(k) == c.costs.get(k, 0)`. */
  lemma WeighOne(c: Cost, k: string)
    ensures Weigh(c, [k], map[]) == Get(c.costs, k)
  {
    var w := Weights([k], map[]);
    assert w.Keys == {k};
    DotTake(c.costs, w, {k}, k);
    assert {k} - {k} == {};
  }

  // ---------------------------------------------------------------------
  // Constants

  /** What one party pays for a doubling/tripling (`mul`), an isogeny
      evaluation (`isogeny`) and moving to the next curve (`next_curve`). */
  datatype Party = Party(mul: Cost, isogeny: Cost, nextCurve: Cost)

  // Arithmetic in GF(p^2) counted in GF(p) operations.
  const A: Cost := CostOf(map["a" := 2, "mod" := 2])
  const M: Cost := CostOf(map["m" := 3, "a" := 4, "mod" := 2])
  const S: Cost := CostOf(map["m" := 2, "a" := 3, "mod" := 2])
  const I: Cost := CostOf(map["i" := 1, "m" := 4, "a" := 1, "mod" := 2])

  /** The costs of the original De Feo-Jao-Plût formulas, by degree. */
  const DJP: map<int, Party> := map[
    2 := Party(Add(Scale(M, 3), Scale(S, 2)), Add(Scale(M, 2), S), CostOf(map[])),
    3 := Party(Add(Scale(M, 7), Scale(S, 4)), Add(Scale(M, 4), Scale(S, 2)), CostOf(map[])),
    4 := Party(Add(Scale(M, 6), Scale(S, 4)), Add(Scale(M, 6), S), CostOf(map[]))
  ]

  lemma ConstantsAre()
    ensures A.costs == map["a" := 2, "mod" := 2]
    ensures M.costs == map["m" := 3, "a" := 4, "mod" := 2]
    ensures S.costs == map["m" := 2, "a" := 3, "mod" := 2]
    ensures I.costs == map["i" := 1, "m" := 4, "a" := 1, "mod" := 2]
  {
    CostOfIs(map["a" := 2, "mod" := 2]);
    CostOfIs(map["m" := 3, "a" := 4, "mod" := 2]);
    CostOfIs(map["m" := 2, "a" := 3, "mod" := 2]);
    CostOfIs(map["i" := 1, "m" := 4, "a" := 1, "mod" := 2]);
  }

  /** `p * M + q * S` counts `3p + 2q` multiplications, `4p + 3q` additions
      and `2p + 2q` reductions. */
  lemma MulSquare(p: int, q: int)
    ensures Add(Scale(M, p), Scale(S, q)).costs == map["m" := 3 * p + 2 * q, "a" := 4 * p + 3 * q, "mod" := 2 * p + 2 * q]
  {
    ConstantsAre();
    Triple(3, 4, 2);
    Triple(2, 3, 2);
    Triple(3 * p + 2 * q, 4 * p + 3 * q, 2 * p + 2 * q);
    Combination(M, p, S, q, Add(Scale(M, p), Scale(S, q)).costs, map["m" := 3 * p + 2 * q, "a" := 4 * p + 3 * q, "mod" := 2 * p + 2 * q]);
  }

  /** The keys and counts of a literal `{m: .., a: .., mod: ..}`. */
  lemma Triple(m: int, a: int, r: int)
    ensures map["m" := m, "a" := a, "mod" := r].Keys == {"m", "a", "mod"}
    ensures Get(map["m" := m, "a" := a, "mod" := r], "m") == m
    ensures Get(map["m" := m, "a" := a, "mod" := r], "a") == a
    ensures Get(map["m" := m, "a" := a, "mod" := r], "mod") == r
  {
  }

  lemma Combination(m: Cost, p: int, s: Cost, q: int, x: map<string, int>, want: map<string, int>)
    requires x == Add(Scale(m, p), Scale(s, q)).costs
    requires m.costs.Keys == s.costs.Keys == want.Keys == {"m", "a", "mod"}
    requires Get(m.costs, "m") == 3 && Get(m.costs, "a") == 4 && Get(m.costs, "mod") == 2
    requires Get(s.costs, "m") == 2 && Get(s.costs, "a") == 3 && Get(s.costs, "mod") == 2
    requires Get(want, "m") == 3 * p + 2 * q && Get(want, "a") == 4 * p + 3 * q && Get(want, "mod") == 2 * p + 2 * q
    ensures x == want
  {
    Linear(m, p, s, q, "m");
    Linear(m, p, s, q, "a");
    Linear(m, p, s, q, "mod");
    SameOnKeys(x, want, "m", "a", "mod");
  }

  /** Two count maps over the same three keys agreeing on each are equal. */
  lemma SameOnKeys(x: map<string, int>, y: map<string, int>, k1: string, k2: string, k3: string)
    requires x.Keys == y.Keys == {k1, k2, k3}
    requires Get(x, k1) == Get(y, k1) && Get(x, k2) == Get(y, k2) && Get(x, k3) == Get(y, k3)
    ensures x == y
  {
    forall k | k in x ensures x[k] == y[k] {
      assert k == k1 || k == k2 || k == k3;
    }
  }

  /** One count of `p * x + q * y`, and its keys. */
  lemma Linear(x: Cost, p: int, y: Cost, q: int, k: string)
    ensures Add(Scale(x, p), Scale(y, q)).costs.Keys == x.costs.Keys + y.costs.Keys
    ensures Get(Add(Scale(x, p), Scale(y, q)).costs, k) == p * Get(x.costs, k) + q * Get(y.costs, k)
  {
    AddPointwise(Scale(x, p), Scale(y, q));
    ScalePointwise(x, p);
    ScalePointwise(y, q);
  }

  /** `M * s` written `s * M`, with `S` standing in for `1 * S`. */
  lemma ScaleOne(c: Cost)
    ensures Scale(c, 1) == c
  {
    ScalePointwise(c, 1);
    SameCounts(Scale(c, 1), c);
  }

  /** The De Feo-Jao-Plût costs for degree 2, counted out. */
  lemma Djp2()
    ensures 2 in DJP
    ensures DJP[2].mul.costs == map["m" := 13, "a" := 18, "mod" := 10]
    ensures DJP[2].isogeny.costs == map["m" := 8, "a" := 11, "mod" := 6]
  {
    var d := DJP[2];
    assert d.mul == Add(Scale(M, 3), Scale(S, 2));
    assert d.isogeny == Add(Scale(M, 2), S);
    MulSquare(3, 2);
    ScaleOne(S);
    MulSquare(2, 1);
  }

  /** ... for degree 3 ... */
  lemma Djp3()
    ensures 3 in DJP
    ensures DJP[3].mul.costs == map["m" := 29, "a" := 40, "mod" := 22]
    ensures DJP[3].isogeny.costs == map["m" := 16, "a" := 22, "mod" := 12]
  {
    var d := DJP[3];
    assert d.mul == Add(Scale(M, 7), Scale(S, 4));
    assert d.isogeny == Add(Scale(M, 4), Scale(S, 2));
    MulSquare(7, 4);
    MulSquare(4, 2);
  }

  /** ... and for degree 4. */
  lemma Djp4()
    ensures 4 in DJP
    ensures DJP[4].mul.costs == map["m" := 26, "a" := 36, "mod" := 20]
    ensures DJP[4].isogeny.costs == map["m" := 20, "a" := 27, "mod" := 14]
  {
    var d := DJP[4];
    assert d.mul == Add(Scale(M, 6), Scale(S, 4));
    assert d.isogeny == Add(Scale(M, 6), S);
    MulSquare(6, 4);
    ScaleOne(S);
    MulSquare(6, 1);
  }

  /** The table covers degrees 2, 3 and 4 and never charges anything for
      moving to the next curve. */
  lemma DjpNextFree()
    ensures DJP.Keys == {2, 3, 4}
    ensures forall d :: d in DJP ==> DJP[d].nextCurve.costs == map[]
  {
    CostOfIs(map[]);
    NextFree(DJP, CostOf(map[]));
  }

  lemma NextFree(djp: map<int, Party>, e: Cost)
    requires djp.Keys == {2, 3, 4}
    requires djp[2].nextCurve == e && djp[3].nextCurve == e && djp[4].nextCurve == e
    ensures forall d :: d in djp ==> djp[d].nextCurve == e
  {
  }
}
