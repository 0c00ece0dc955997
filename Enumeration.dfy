/** Exhaustive enumerations of strategies: all strategies of a height, and
    the well-formed strategies matching a leaf-reachability bitfield. */
module Enumeration {
  import opened Bits
  import opened Results
  import opened Paths

  // ---------------------------------------------------------------------
  // paths(n)

  /** Twice the number of floor bits of a strategy of height n is n(n-1). */
  lemma {:induction false} TriangleStep(n: int)
    requires n >= 2
    ensures (n - 1) * (n - 2) / 2 + (n - 1) == n * (n - 1) / 2
  {
    TwiceTriangle(n - 1);
    TwiceTriangle(n);
  }

  lemma {:induction false} TwiceTriangle(n: int)
    requires n >= 1
    ensures n * (n - 1) % 2 == 0
    decreases n
  {
    if n > 1 {
      TwiceTriangle(n - 1);
      assert n * (n - 1) == (n - 1) * (n - 2) + 2 * (n - 1) by {
        assert (n - 1) * (n - 2) + (n - 1) * 2 == (n - 1) * ((n - 2) + 2);
      }
    }
  }

  predicate Distinct(s: seq<Path>)
  {
    forall a, b :: 0 <= a < b < |s| ==> s[a] != s[b]
  }

  /** `[p.cat(j) for j in range(m)]` for one sub-strategy p. */
  function Row(p: Path, m: nat): (r: seq<Path>)
    requires p.Valid() && m <= Pow4(Height(p))
    ensures |r| == m
    ensures forall j :: 0 <= j < m ==> r[j].Valid() && r[j].floors == p.floors + [j]
  {
    seq(m, j requires 0 <= j < m => Cat(p, j).value)
  }

  /** `[p.cat(j) for p in sub for j in range(4**h)]`. */
  function Flatten(sub: seq<Path>, h: nat): (r: seq<Path>)
    requires forall p :: p in sub ==> p.Valid() && Height(p) == h
    ensures |r| == |sub| * Pow4(h)
    ensures forall q :: q in r ==> q.Valid() && Height(q) == h + 1
  {
    if sub == [] then []
    else
      var rest := Flatten(sub[1..], h);
      assert |sub| * Pow4(h) == Pow4(h) + (|sub| - 1) * Pow4(h);
      Row(sub[0], Pow4(h)) + rest
  }

  lemma {:induction false} FlattenHas(sub: seq<Path>, h: nat, p: Path, j: nat)
    requires forall p :: p in sub ==> p.Valid() && Height(p) == h
    requires p in sub && j < Pow4(h)
    ensures Path(p.floors + [j]) in Flatten(sub, h)
    decreases |sub|
  {
    if p == sub[0] {
      assert Row(p, Pow4(h))[j] == Path(p.floors + [j]);
    } else {
      FlattenHas(sub[1..], h, p, j);
    }
  }

  lemma {:induction false} FlattenFrom(sub: seq<Path>, h: nat, q: Path)
    requires forall p :: p in sub ==> p.Valid() && Height(p) == h
    requires q in Flatten(sub, h)
    ensures |q.floors| >= 1 && Path(q.floors[..|q.floors| - 1]) in sub
    decreases |sub|
  {
    var row := Row(sub[0], Pow4(h));
    if q in row {
      var j :| 0 <= j < |row| && row[j] == q;
      assert q.floors[..|q.floors| - 1] == sub[0].floors;
    } else {
      FlattenFrom(sub[1..], h, q);
    }
  }

  lemma HeadNotInTail(sub: seq<Path>)
    requires sub != [] && Distinct(sub)
    ensures sub[0] !in sub[1..]
  {
  }

  lemma {:induction false} FlattenDistinct(sub: seq<Path>, h: nat)
    requires forall p :: p in sub ==> p.Valid() && Height(p) == h
    requires Distinct(sub)
    ensures Distinct(Flatten(sub, h))
    decreases |sub|
  {
    if sub != [] {
      var row := Row(sub[0], Pow4(h));
      var rest := Flatten(sub[1..], h);
      assert Distinct(sub[1..]);
      FlattenDistinct(sub[1..], h);
      var s := row + rest;
      forall a, b | 0 <= a < b < |s| ensures s[a] != s[b] {
        if b < |row| {
          assert s[a].floors[|s[a].floors| - 1] == a;
          assert s[b].floors[|s[b].floors| - 1] == b;
        } else if a >= |row| {
          assert s[a] == rest[a - |row|] && s[b] == rest[b - |row|];
        } else {
          assert s[b] in rest;
          FlattenFrom(sub[1..], h, s[b]);
          assert Path(s[a].floors[..|s[a].floors| - 1]) == sub[0];
          HeadNotInTail(sub);
          assert Path(s[a].floors[..|s[a].floors| - 1]) != Path(s[b].floors[..|s[b].floors| - 1]);
        }
      }
    }
  }

  /** `paths(n)`: every strategy of height n, well-formed or not; every `cat`
      on the way is accepted and there are 4^(n(n-1)/2) of them. */
  function AllPaths(n: int): (r: Result<seq<Path>>)
    ensures n <= 0 ==> r == Err(InvalidArgument)
    ensures n == 1 ==> r == Ok([Path([])])
    ensures n >= 1 ==> r.Ok? && |r.value| == Pow4(n * (n - 1) / 2)
    ensures n >= 1 ==> forall p :: p in r.value ==> p.Valid() && Height(p) == n
    decreases n
  {
    if n <= 0 then Err(InvalidArgument)
    else if n == 1 then Ok([Path([])])
    else
      var sub := AllPaths(n - 1).value;
      TriangleStep(n);
      Pow4Add((n - 1) * (n - 2) / 2, n - 1);
      Ok(Flatten(sub, n - 1))
  }

  /** The enumeration lists no strategy twice. */
  lemma {:induction false} AllPathsDistinct(n: int)
    requires n >= 1
    ensures Distinct(AllPaths(n).value)
    decreases n
  {
    if n >= 2 {
      AllPathsDistinct(n - 1);
      FlattenDistinct(AllPaths(n - 1).value, n - 1);
    }
  }

  lemma AllPathsStep(n: int)
    requires n >= 2
    ensures AllPaths(n).value == Flatten(AllPaths(n - 1).value, n - 1)
  {
  }

  lemma DropLast(p: Path)
    requires p.Valid() && |p.floors| >= 1
    ensures Path(p.floors[..|p.floors| - 1]).Valid()
    ensures Height(Path(p.floors[..|p.floors| - 1])) == Height(p) - 1
    ensures p.floors[|p.floors| - 1] < Pow4(Height(p) - 1)
    ensures p == Path(p.floors[..|p.floors| - 1] + [p.floors[|p.floors| - 1]])
  {
  }

  /** Every strategy satisfying the constructor bound is enumerated. */
  lemma {:induction false} AllPathsComplete(p: Path)
    requires p.Valid()
    ensures p in AllPaths(Height(p)).value
    decreases |p.floors|
  {
    var n := Height(p);
    if n == 1 {
      assert p == Path([]);
    } else {
      var fs := p.floors;
      var q := Path(fs[..|fs| - 1]);
      DropLast(p);
      AllPathsComplete(q);
      AllPathsStep(n);
      FlattenHas(AllPaths(n - 1).value, n - 1, q, fs[|fs| - 1]);
    }
  }

  // ---------------------------------------------------------------------
  // _h4(n)

  /** `_h4(n)`: packs "group k of n is nonzero" into bit k (see H4Bit). */
  method H4(n: nat) returns (res: nat)
    ensures res == H4Of(n)
  {
    res := 0;
    var i: nat := 1;
    ghost var k: nat := 0;
    var x := n;
    while x > 0
      invariant i == Pow2(k) && res < i
      invariant res + i * H4Of(x) == H4Of(n)
    {
      H4Step(x, i);
      if x % 4 != 0 {  // n & 3 != 0
        OrDisjoint(res, 1, k);
        res := Or(res, i);  // res |= i
      }
      i := i * 2;
      k := k + 1;
      x := x / 4;
    }
  }

  lemma H4Step(x: nat, i: nat)
    requires x > 0
    ensures i * H4Of(x) == (if x % 4 != 0 then i else 0) + (2 * i) * H4Of(x / 4)
  {
    MulSplit(i, H4Of(x), if x % 4 != 0 then 1 else 0, H4Of(x / 4));
  }

  lemma MulSplit(i: int, a: int, c: int, h: int)
    requires c == 0 || c == 1
    requires a == c + 2 * h
    ensures i * a == (if c == 1 then i else 0) + (2 * i) * h
  {
  }

  lemma {:induction false} H4Positive(x: nat)
    requires x > 0
    ensures H4Of(x) >= 1
    decreases x
  {
    if x % 4 == 0 { H4Positive(x / 4); }
  }

  lemma {:induction false} H4Below(x: nat, m: nat)
    requires x < Pow4(m)
    ensures H4Of(x) < Pow2(m)
  {
    if m > 0 && x > 0 { H4Below(x / 4, m - 1); }
  }

  lemma {:induction false} H4Above(x: nat, m: nat)
    requires x >= Pow4(m)
    ensures H4Of(x) >= Pow2(m)
  {
    if m == 0 {
      H4Positive(x);
    } else {
      H4Above(x / 4, m - 1);
    }
  }

  // ---------------------------------------------------------------------
  // wf_paths(reachable)

  /** A floor under construction after leaves 0..k of the level below have
      been decided: it uses bits 0..2k only, and each decided leaf receives
      exactly the edges the bitfield asks for. */
  ghost predicate Partial(f: nat, reachable: nat, k: nat)
  {
    f < Pow2(2 * k + 1) && forall j: nat :: j <= k ==> InEdges(f, j) == Bit(reachable, j)
  }

  /** Adding the bit b (2k+1: the right edge of node k, or 2k+2: the left
      edge of node k+1) gives leaf k+1 exactly one edge and leaves the lower
      leaves alone. */
  lemma AddEdge(f: nat, reachable: nat, k: nat, b: nat)
    requires Partial(f, reachable, k) && Bit(reachable, k + 1) == 1
    requires b == 2 * k + 1 || b == 2 * k + 2
    ensures Or(f, Pow2(b)) == f + Pow2(b)
    ensures Partial(f + Pow2(b), reachable, k + 1)
    ensures b == 2 * k + 1 ==> f + Pow2(b) < Pow2(2 * k + 2)
  {
    Pow2Mono(2 * k + 1, b);
    OrDisjoint(f, 1, b);
    BitsAbove(f, 2 * k + 1, b);
    var g := f + Pow2(b);
    forall j: nat ensures Bit(g, j) == if j == b then 1 else Bit(f, j) {
      BitAddPow2(f, b, j);
    }
    BitsAbove(f, 2 * k + 1, 2 * k + 1);
    BitsAbove(f, 2 * k + 1, 2 * k + 2);
    assert InEdges(g, k + 1) == Bit(g, 2 * k + 1) + Bit(g, 2 * k + 2);
    forall j: nat | j <= k ensures InEdges(g, j) == InEdges(f, j) {
      if j > 0 {
        assert Bit(g, 2 * j - 1) == Bit(f, 2 * j - 1);
      }
      assert Bit(g, 2 * j) == Bit(f, 2 * j);
    }
    assert Pow2(2 * k + 3) == 2 * Pow2(2 * k + 2) == 4 * Pow2(2 * k + 1);
  }

  /** An unreachable leaf k+1 receives no edge from an unchanged floor. */
  lemma SkipLeaf(f: nat, reachable: nat, k: nat)
    requires Partial(f, reachable, k) && Bit(reachable, k + 1) == 0
    ensures Partial(f, reachable, k + 1)
  {
    BitsAbove(f, 2 * k + 1, 2 * k + 1);
    BitsAbove(f, 2 * k + 1, 2 * k + 2);
    assert Pow2(2 * k + 3) == 2 * Pow2(2 * k + 2) == 4 * Pow2(2 * k + 1);
    Pow2Mono(2 * k + 1, 2 * k + 3);
  }

  /** A finished floor fits the bitfield, lies above the previous powers of
      four and below Pow4(k+1), so the level above it has k+1 leaves. */
  ghost predicate Finished(f: nat, reachable: nat, k: nat)
  {
    LevelOk(reachable, f) && Pow2(2 * k + 1) <= f < Pow4(k + 1)
  }

  lemma CloseFloor(f: nat, reachable: nat, k: nat)
    requires Partial(f, reachable, k) && Bit(reachable, k + 1) == 1
    requires forall m: nat :: m > k + 1 ==> Bit(reachable, m) == 0
    ensures Or(f, Pow2(2 * k + 1)) == f + Pow2(2 * k + 1)
    ensures Finished(f + Pow2(2 * k + 1), reachable, k)
  {
    AddEdge(f, reachable, k, 2 * k + 1);
    var g := f + Pow2(2 * k + 1);
    Pow4IsPow2(k + 1);
    forall j: nat ensures InEdges(g, j) == Bit(reachable, j) {
      if j > k + 1 {
        BitsAbove(g, 2 * k + 2, 2 * j - 1);
        BitsAbove(g, 2 * k + 2, 2 * j);
      }
    }
  }

  /** The nodes reached by a finished floor form a bitfield of k+1 binary
      digits, below `reachable`. */
  lemma FinishedReach(f: nat, reachable: nat, k: nat)
    requires Finished(f, reachable, k)
    requires Pow2(k + 1) <= reachable
    ensures 1 <= H4Of(f) < reachable
    ensures BitLength(H4Of(f)) == k + 1
  {
    H4Below(f, k + 1);
    if k > 0 {
      Pow4IsPow2(k);
      Pow2Mono(2 * k, 2 * k + 1);
      H4Above(f, k);
      BitLengthOf(H4Of(f), k);
    } else {
      H4Positive(f);
      assert H4Of(f) == 1;
    }
  }

  /** Bit k+1 set and nothing above it: k+2 binary digits. */
  lemma TopAt(x: nat, m: nat)
    requires Bit(x, m) == 1
    requires forall j: nat :: j > m ==> Bit(x, j) == 0
    ensures BitLength(x) == m + 1 && Pow2(m) <= x
  {
    if x == 0 {
      ZeroBits(m);
      assert false;
    }
    BitLengthBounds(x);
    TopBit(x);
    var top := BitLength(x) - 1;
    assert Bit(x, top) == 1;
    assert top <= m;
    if top < m {
      BitsAbove(x, top + 1, m);
      assert false;
    }
    assert Pow2(top) <= x;
  }

  lemma ExtendWf(p: Path, f: nat, reachable: nat)
    requires LevelOk(reachable, f) && WellFormedFrom(p.floors, H4Of(f))
    ensures WellFormedFrom(p.floors + [f], reachable)
  {
    assert (p.floors + [f])[..|p.floors|] == p.floors;
  }

  /** What every strategy produced for a bitfield satisfies. */
  ghost predicate Fits(p: Path, reachable: nat)
  {
    p.Valid() && Height(p) == BitLength(reachable) && WellFormedFrom(p.floors, reachable)
  }

  /** `[f | b for f in fs]`. */
  function OrEach(fs: seq<nat>, b: nat): (r: seq<nat>)
    ensures |r| == |fs| && forall q :: 0 <= q < |fs| ==> r[q] == Or(fs[q], b)
  {
    seq(|fs|, q requires 0 <= q < |fs| => Or(fs[q], b))
  }

  lemma ShiftBits(rest: nat, reachable: nat, k: nat)
    requires forall j: nat :: Bit(rest, j) == Bit(reachable, j + k + 1)
    ensures forall j: nat :: Bit(rest / 2, j) == Bit(reachable, j + k + 2)
  {
    forall j: nat ensures Bit(rest / 2, j) == Bit(reachable, j + k + 2) {
      assert Bit(rest, j + 1) == Bit(rest / 2, j);
    }
  }

  /** `[f | left for f in floors] + [f | right for f in floors]` at leaf k+1. */
  function Doubled(floors: seq<nat>, k: nat): seq<nat>
  {
    OrEach(floors, Pow2(2 * k + 1)) + OrEach(floors, Pow2(2 * k + 2))
  }

  /** A reachable leaf doubles the candidates: each gets the right edge of
      the previous node, or the left edge of the next one. */
  lemma GrowFloors(floors: seq<nat>, reachable: nat, k: nat)
    requires forall f :: f in floors ==> Partial(f, reachable, k)
    requires Bit(reachable, k + 1) == 1
    ensures forall f :: f in Doubled(floors, k) ==> Partial(f, reachable, k + 1)
  {
    var s := Doubled(floors, k);
    forall q | 0 <= q < |s| ensures Partial(s[q], reachable, k + 1) {
      if q < |floors| {
        assert floors[q] in floors;
        AddEdge(floors[q], reachable, k, 2 * k + 1);
      } else {
        assert floors[q - |floors|] in floors;
        AddEdge(floors[q - |floors|], reachable, k, 2 * k + 2);
      }
    }
  }

  /** An unreachable leaf leaves the candidates as they are. */
  lemma KeepFloors(floors: seq<nat>, reachable: nat, k: nat)
    requires forall f :: f in floors ==> Partial(f, reachable, k)
    requires Bit(reachable, k + 1) == 0
    ensures forall f :: f in floors ==> Partial(f, reachable, k + 1)
  {
    forall f | f in floors ensures Partial(f, reachable, k + 1) {
      SkipLeaf(f, reachable, k);
    }
  }

  /** The last (always reachable) leaf closes each candidate with the right
      edge of the last node. */
  lemma CloseFloors(floors: seq<nat>, reachable: nat, k: nat)
    requires forall f :: f in floors ==> Partial(f, reachable, k)
    requires Bit(reachable, k + 1) == 1
    requires forall m: nat :: m > k + 1 ==> Bit(reachable, m) == 0
    ensures forall f :: f in OrEach(floors, Pow2(2 * k + 1)) ==> Finished(f, reachable, k)
  {
    var s := OrEach(floors, Pow2(2 * k + 1));
    forall q | 0 <= q < |s| ensures Finished(s[q], reachable, k) {
      assert floors[q] in floors;
      CloseFloor(floors[q], reachable, k);
    }
  }

  lemma Pow2Plus2(n: nat)
    ensures Pow2(n + 2) == 4 * Pow2(n)
  {
    assert Pow2(n + 2) == 2 * Pow2(n + 1);
  }

  /** The first half of `wf_paths(reachable)`: the candidate bottom floors,
      built leaf by leaf, each giving every reachable leaf exactly one edge
      and every other leaf none. */
  method BottomFloors(reachable: nat) returns (floors: seq<nat>)
    requires reachable >= 2
    ensures BitLength(reachable) >= 2 && Pow2(BitLength(reachable) - 1) <= reachable
    ensures forall f :: f in floors ==> Finished(f, reachable, BitLength(reachable) - 2)
  {
    var R := reachable;
    floors := [R % 2];           // [reachable & 1]
    var rest: nat := R / 2;      // reachable >>= 1
    var left: nat, right: nat := 2, 4;
    ghost var k: nat := 0;
    while rest > 1
      invariant left == Pow2(2 * k + 1) && right == Pow2(2 * k + 2)
      invariant rest >= 1 && forall j: nat :: Bit(rest, j) == Bit(R, j + k + 1)
      invariant forall f :: f in floors ==> Partial(f, R, k)
    {
      assert Bit(R, k + 1) == Bit(rest, 0);
      if rest % 2 == 1 {
        GrowFloors(floors, R, k);
        ghost var before := floors;
        floors := OrEach(floors, left) + OrEach(floors, right);
        assert floors == Doubled(before, k);
      } else {
        KeepFloors(floors, R, k);
      }
      ShiftBits(rest, R, k);
      Pow2Plus2(2 * k + 1);
      Pow2Plus2(2 * k + 2);
      left, right := left * 4, right * 4;
      rest := rest / 2;
      k := k + 1;
    }
    LastLeaf(rest, R, k);
    CloseFloors(floors, R, k);
    floors := OrEach(floors, left);
  }

  /** When the loop stops, leaf k+1 is the highest set bit of the bitfield. */
  lemma LastLeaf(rest: nat, reachable: nat, k: nat)
    requires rest == 1 && forall j: nat :: Bit(rest, j) == Bit(reachable, j + k + 1)
    ensures Bit(reachable, k + 1) == 1
    ensures forall m: nat :: m > k + 1 ==> Bit(reachable, m) == 0
    ensures BitLength(reachable) == k + 2 && Pow2(k + 1) <= reachable
  {
    assert Bit(reachable, k + 1) == Bit(rest, 0) == 1;
    forall m: nat | m > k + 1 ensures Bit(reachable, m) == 0 {
      assert Bit(reachable, m) == Bit(rest, m - k - 1);
      ZeroBits(m - k - 2);
    }
    TopAt(reachable, k + 1);
  }

  /** `wf_paths(reachable)`: strategies of height bit_length(reachable) whose
      floors, checked bottom-up from the bitfield, all fit; the recursion
      on `_h4` of the bottom floor always terminates and never hits the error. */
  method WfPaths(reachable: int) returns (res: Result<seq<Path>>)
    ensures reachable <= 0 ==> res == Err(InvalidArgument)
    ensures reachable == 1 ==> res == Ok([Path([])])
    ensures reachable >= 1 ==> res.Ok? && forall p :: p in res.value ==> Fits(p, reachable)
    decreases if reachable > 0 then reachable else 0
  {
    if reachable <= 0 {
      return Err(InvalidArgument);
    }
    if reachable == 1 {
      return Ok([Path([])]);
    }
    var floors := BottomFloors(reachable);
    ghost var k := BitLength(reachable) - 2;
    var paths: seq<Path> := [];
    for q := 0 to |floors|
      invariant forall p :: p in paths ==> Fits(p, reachable)
    {
      var f := floors[q];
      assert f in floors;
      FinishedReach(f, reachable, k);
      var h := H4(f);
      var sub := WfPaths(h);
      var col := sub.value;
      forall p | p in col ensures Cat(p, f).Ok? && Fits(Cat(p, f).value, reachable) {
        ExtendWf(p, f, reachable);
      }
      paths := paths + seq(|col|, c requires 0 <= c < |col| => Cat(col[c], f).value);
    }
    return Ok(paths);
  }

  /** The full bitfield 2^h - 1 has h binary digits. */
  lemma {:induction false} AllOnesLength(h: nat)
    ensures BitLength(Pow2(h) - 1) == h
  {
    if h > 0 {
      AllOnesLength(h - 1);
      assert (Pow2(h) - 1) / 2 == Pow2(h - 1) - 1;
    }
  }

  /** For the full bitfield 2^h - 1 the strategies `wf_paths` produces have
      height h and pass `well_formed()`. */
  lemma WfAllOnes(p: Path, h: nat)
    requires Fits(p, Pow2(h) - 1)
    ensures Height(p) == h && WellFormedFrom(p.floors, Pow2(Height(p)) - 1)
  {
    AllOnesLength(h);
  }
}
