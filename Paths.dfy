/** Strategies ("paths") of the SIDH strategy search.

    A strategy of height h is a binary tree drawn on a triangle of h levels.
    Level i (0 at the root) has i+1 nodes; floor i packs their outgoing edges
    two bits per node: bit 2k is the left edge of node k, bit 2k+1 its right
    edge. The leaf level carries no floor, so a strategy of height h has h-1
    floors. */
module Paths {
  import opened Bits
  import opened Results

  datatype Path = Path(floors: seq<nat>)
  {
    /** The constructor's bound: floor i holds at most i+1 two-bit groups. */
    predicate Valid()
    {
      forall i :: 0 <= i < |floors| ==> floors[i] < Pow4(i + 1)
    }
  }

  /** `Path(list)`: accepts a floor list exactly when every floor is within
      the bound of its level, and raises "Malformed path" otherwise. */
  method NewPath(floors: seq<nat>) returns (r: Result<Path>)
    ensures r.Ok? <==> Path(floors).Valid()
    ensures r.Ok? ==> r.value.floors == floors
    ensures r.Err? ==> r.error == Malformed
  {
    var n: nat := 4;
    for idx := 0 to |floors|
      invariant n == Pow4(idx + 1)
      invariant forall i :: 0 <= i < idx ==> floors[i] < Pow4(i + 1)
    {
      if floors[idx] >= n {
        return Err(Malformed);
      }
      n := n * 4;  // n <<= 2
    }
    return Ok(Path(floors));
  }

  /** Number of levels: one more than the number of floors. */
  function Height(p: Path): nat
  {
    |p.floors| + 1
  }

  // ---------------------------------------------------------------------
  // Edge counts

  /** Left edges packed in one floor: its set bits at even positions. */
  function LeftEdges(x: nat): nat
  {
    if x == 0 then 0 else x % 2 + LeftEdges(x / 4)
  }

  /** Right edges packed in one floor: its set bits at odd positions. */
  function RightEdges(x: nat): nat
  {
    if x == 0 then 0 else (x / 2) % 2 + RightEdges(x / 4)
  }

  function LeftTotal(fs: seq<nat>): nat
  {
    if fs == [] then 0 else LeftTotal(fs[..|fs| - 1]) + LeftEdges(fs[|fs| - 1])
  }

  function RightTotal(fs: seq<nat>): nat
  {
    if fs == [] then 0 else RightTotal(fs[..|fs| - 1]) + RightEdges(fs[|fs| - 1])
  }

  /** `count()`: the numbers of left and right edges of the whole strategy. */
  method Count(p: Path) returns (left: nat, right: nat)
    ensures left == LeftTotal(p.floors) && right == RightTotal(p.floors)
  {
    left, right := 0, 0;
    for idx := 0 to |p.floors|
      invariant left == LeftTotal(p.floors[..idx]) && right == RightTotal(p.floors[..idx])
    {
      var floor := p.floors[idx];
      ghost var f0 := floor;
      while floor > 0
        invariant left + LeftEdges(floor) == LeftTotal(p.floors[..idx]) + LeftEdges(f0)
        invariant right + RightEdges(floor) == RightTotal(p.floors[..idx]) + RightEdges(f0)
      {
        assert floor / 2 / 2 == floor / 4;
        left := left + floor % 2;
        floor := floor / 2;
        right := right + floor % 2;
        floor := floor / 2;
      }
      assert p.floors[..idx + 1][..idx] == p.floors[..idx];
    }
    assert p.floors[..|p.floors|] == p.floors;
  }

  // ---------------------------------------------------------------------
  // Crossings

  /** Node k's right edge (bit 2k+1) and node k+1's left edge (bit 2k+2)
      are both present: the two edges cross below the floor. */
  predicate CrossesAt(x: nat, k: nat)
  {
    Bit(x, 2 * k + 1) == 1 && Bit(x, 2 * k + 2) == 1
  }

  ghost predicate FloorCrosses(x: nat)
  {
    exists k: nat :: CrossesAt(x, k)
  }

  /** Both bits of the two-bit group k of y are set. */
  predicate PairAt(y: nat, k: nat)
  {
    Bit(y, 2 * k) == 1 && Bit(y, 2 * k + 1) == 1
  }

  lemma PairShift(y: nat)
    requires !PairAt(y, 0)
    ensures (exists k: nat :: PairAt(y, k)) <==> (exists k: nat :: PairAt(y / 4, k))
  {
    forall k: nat ensures PairAt(y, k + 1) <==> PairAt(y / 4, k) {
      BitDiv4(y, 2 * k);
      BitDiv4(y, 2 * k + 1);
    }
    if k: nat :| PairAt(y, k) {
      assert k > 0 && PairAt(y / 4, k - 1);
    }
  }

  lemma NoPairInZero()
    ensures forall k: nat :: !PairAt(0, k)
  {
    forall k: nat ensures !PairAt(0, k) { ZeroBits(2 * k); }
  }

  /** `crosses()`: true exactly when some floor has a crossing. */
  method Crosses(p: Path) returns (b: bool)
    ensures b <==> exists i :: 0 <= i < |p.floors| && FloorCrosses(p.floors[i])
  {
    for idx := 0 to |p.floors|
      invariant forall i :: 0 <= i < idx ==> !FloorCrosses(p.floors[i])
    {
      var floor := p.floors[idx] / 2;  // floor >>= 1
      assert forall k: nat :: CrossesAt(p.floors[idx], k) <==> PairAt(floor, k);
      while floor > 0
        invariant FloorCrosses(p.floors[idx]) <==> exists k: nat :: PairAt(floor, k)
      {
        Mod4Bits(floor);
        if floor % 4 == 3 {
          assert PairAt(floor, 0);
          return true;
        }
        PairShift(floor);
        floor := floor / 4;  // floor >>= 2
      }
      NoPairInZero();
    }
    return false;
  }

  // ---------------------------------------------------------------------
  // Appending a level

  /** `cat(f)`: a floor is rejected exactly when it is beyond the bound of the
      new level, so an accepted floor never trips the constructor. */
  function Cat(p: Path, floor: nat): (r: Result<Path>)
    requires p.Valid()
    ensures r.Ok? <==> floor < Pow4(Height(p))
    ensures r.Err? ==> r.error == Malformed
    ensures r.Ok? ==> r.value.Valid() && r.value.floors == p.floors + [floor]
    ensures r.Ok? ==> Height(r.value) == Height(p) + 1
  {
    if floor >= Pow4(Height(p)) then Err(Malformed) else Ok(Path(p.floors + [floor]))
  }

  // ---------------------------------------------------------------------
  // Merging two strategies

  /** Floor i of a*b. The left spine (bit 0) occupies the first Height(b)
      levels and a's floors follow it; the right spine (the right edge of the
      last node, bit 2i+1) occupies the first Height(a) levels and b's floors
      follow it, shifted to start at node Height(a). */
  function MergedFloor(a: Path, b: Path, i: nat): nat
    requires i < Height(a) + Height(b) - 1
  {
    var sh, oh := Height(a), Height(b);
    (if i < oh then 1 else a.floors[i - oh])
    + (if i < sh then Shl(1, 2 * i + 1) else Shl(b.floors[i - sh], 2 * sh))
  }

  /** The shifts of a merged floor as multiples of powers of four. */
  lemma MergedShifts(y: nat, i: nat, k: nat)
    ensures Shl(1, 2 * i + 1) == 2 * Pow4(i)
    ensures Shl(y, 2 * k) == y * Pow4(k)
  {
    ShlIsMul(1, 2 * i + 1);
    Pow4IsPow2(i);
    ShlIsMul(y, 2 * k);
    Pow4IsPow2(k);
  }

  /** a*b: the strategy with the fewest edges having a as left and b as right
      sub-strategy. It always satisfies the constructor bound. */
  function Merged(a: Path, b: Path): (r: Path)
    requires a.Valid() && b.Valid()
    ensures r.Valid()
    ensures Height(r) == Height(a) + Height(b)
  {
    var r := Path(seq(Height(a) + Height(b) - 1, i requires 0 <= i < Height(a) + Height(b) - 1 => MergedFloor(a, b, i)));
    forall i | 0 <= i < |r.floors| ensures r.floors[i] < Pow4(i + 1) {
      MergedFloorBound(a, b, i);
    }
    r
  }

  /** x below 4^k packed under y below 4^m stays below 4^(k+m). */
  lemma PackBound(x: nat, y: nat, k: nat, m: nat)
    requires x < Pow4(k) && y < Pow4(m)
    ensures x + y * Pow4(k) < Pow4(k + m)
  {
    Pow4Add(k, m);
    MulBound(x, y, Pow4(k), Pow4(m));
  }

  lemma MulBound(x: nat, y: nat, p: nat, q: nat)
    requires x < p && y < q
    ensures x + y * p < q * p
  {
    assert y * p <= (q - 1) * p by {
      MulMono(y, q - 1, p);
    }
  }

  lemma MulMono(a: nat, b: nat, c: nat)
    requires a <= b
    ensures a * c <= b * c
  {
  }

  lemma MergedFloorBound(a: Path, b: Path, i: nat)
    requires a.Valid() && b.Valid()
    requires i < Height(a) + Height(b) - 1
    ensures MergedFloor(a, b, i) < Pow4(i + 1)
  {
    var sh, oh := Height(a), Height(b);
    MergedShifts(if i < sh then 0 else b.floors[i - sh], i, sh);
    if i < oh && i < sh {
      if i > 0 {
        Pow4Mono(1, i);
        PackBound(1, 2, i, 1);
      }
    } else if i < sh {
      Pow4Mono(i - oh + 1, i);
      PackBound(a.floors[i - oh], 2, i, 1);
    } else if i < oh {
      Pow4Mono(1, sh);
      PackBound(1, b.floors[i - sh], sh, i - sh + 1);
    } else {
      Pow4Mono(i - oh + 1, sh);
      PackBound(a.floors[i - oh], b.floors[i - sh], sh, i - sh + 1);
    }
  }

  /** Edge counts of a floor packed below position 2k add up. */
  lemma {:induction false} EdgesPack(x: nat, y: nat, k: nat)
    requires x < Pow4(k)
    ensures LeftEdges(x + y * Pow4(k)) == LeftEdges(x) + LeftEdges(y)
    ensures RightEdges(x + y * Pow4(k)) == RightEdges(x) + RightEdges(y)
  {
    if k > 0 {
      var p := Pow4(k - 1);
      var m := y * p;
      assert y * Pow4(k) == 4 * m by {
        assert Pow4(k) == 4 * p;
        MulAssoc4(y, p);
      }
      Shift4(x, m);
      assert x / 4 < p;
      EdgesPack(x / 4, y, k - 1);
      EdgesStep(x);
      EdgesStep(x + 4 * m);
    }
  }

  lemma MulAssoc4(y: nat, p: nat)
    ensures y * (4 * p) == 4 * (y * p)
  {
  }

  lemma Shift4(x: nat, m: nat)
    ensures (x + 4 * m) / 4 == x / 4 + m
    ensures (x + 4 * m) % 2 == x % 2
    ensures ((x + 4 * m) / 2) % 2 == (x / 2) % 2
  {
    assert (x + 4 * m) / 2 == x / 2 + 2 * m;
  }

  lemma EdgesStep(x: nat)
    ensures LeftEdges(x) == x % 2 + LeftEdges(x / 4)
    ensures RightEdges(x) == (x / 2) % 2 + RightEdges(x / 4)
  {
  }

  lemma MergedFloorEdges(a: Path, b: Path, i: nat)
    requires a.Valid() && b.Valid()
    requires i < Height(a) + Height(b) - 1
    ensures LeftEdges(MergedFloor(a, b, i)) == MergedLeft(a, b, i)
    ensures RightEdges(MergedFloor(a, b, i)) == MergedRight(a, b, i)
  {
    var sh, oh := Height(a), Height(b);
    var f := MergedFloor(a, b, i);
    MergedShifts(if i < sh then 0 else b.floors[i - sh], i, sh);
    SmallEdges();
    if i < oh && i < sh {
      if i == 0 {
        assert f == 3;
      } else {
        assert f == 1 + 2 * Pow4(i);
        Pow4Mono(1, i);
        EdgesPack(1, 2, i);
      }
    } else if i < sh {
      var x := a.floors[i - oh];
      assert f == x + 2 * Pow4(i);
      Pow4Mono(i - oh + 1, i);
      EdgesPack(x, 2, i);
    } else if i < oh {
      var y := b.floors[i - sh];
      assert f == 1 + y * Pow4(sh);
      Pow4Mono(1, sh);
      EdgesPack(1, y, sh);
    } else {
      var x, y := a.floors[i - oh], b.floors[i - sh];
      assert f == x + y * Pow4(sh);
      Pow4Mono(i - oh + 1, sh);
      EdgesPack(x, y, sh);
    }
  }

  lemma SmallEdges()
    ensures LeftEdges(1) == 1 && RightEdges(1) == 0
    ensures LeftEdges(2) == 0 && RightEdges(2) == 1
    ensures LeftEdges(3) == 1 && RightEdges(3) == 1
  {
    assert LeftEdges(0) == 0 && RightEdges(0) == 0;
  }

  function Max0(x: int): nat { if x < 0 then 0 else x }

  lemma TotalSnoc(fs: seq<nat>, m: nat)
    requires 1 <= m <= |fs|
    ensures LeftTotal(fs[..m]) == LeftTotal(fs[..m - 1]) + LeftEdges(fs[m - 1])
    ensures RightTotal(fs[..m]) == RightTotal(fs[..m - 1]) + RightEdges(fs[m - 1])
  {
    assert fs[..m][..m - 1] == fs[..m - 1];
  }

  /** Edges contributed by a spine of length h to the first m floors. */
  function Spine(m: nat, h: nat): nat
  {
    if m < h then m else h
  }

  /** One more merged floor extends the prefix of a side placed at offset
      off by one floor, or not at all while the spine still runs. */
  lemma SideStep(fs: seq<nat>, off: nat, m: nat)
    requires 1 <= m <= off + |fs|
    ensures LeftTotal(fs[..Max0(m - off)])
         == LeftTotal(fs[..Max0(m - 1 - off)]) + (if m - 1 < off then 0 else LeftEdges(fs[m - 1 - off]))
    ensures RightTotal(fs[..Max0(m - off)])
         == RightTotal(fs[..Max0(m - 1 - off)]) + (if m - 1 < off then 0 else RightEdges(fs[m - 1 - off]))
  {
    if m - 1 >= off {
      assert Max0(m - off) == m - off && Max0(m - 1 - off) == m - off - 1;
      TotalSnoc(fs, m - off);
    }
  }

  /** Left and right edges of floor i of a*b. */
  function MergedLeft(a: Path, b: Path, i: nat): nat
    requires i < Height(a) + Height(b) - 1
  {
    (if i < Height(b) then 1 else LeftEdges(a.floors[i - Height(b)]))
    + (if i < Height(a) then 0 else LeftEdges(b.floors[i - Height(a)]))
  }

  function MergedRight(a: Path, b: Path, i: nat): nat
    requires i < Height(a) + Height(b) - 1
  {
    (if i < Height(b) then 0 else RightEdges(a.floors[i - Height(b)]))
    + (if i < Height(a) then 1 else RightEdges(b.floors[i - Height(a)]))
  }

  lemma {:induction false} PrefixCount(a: Path, b: Path, fs: seq<nat>, m: nat)
    requires |fs| == Height(a) + Height(b) - 1 && m <= |fs|
    requires forall i :: 0 <= i < |fs| ==> LeftEdges(fs[i]) == MergedLeft(a, b, i) && RightEdges(fs[i]) == MergedRight(a, b, i)
    ensures LeftTotal(fs[..m])
         == Spine(m, Height(b)) + LeftTotal(a.floors[..Max0(m - Height(b))]) + LeftTotal(b.floors[..Max0(m - Height(a))])
    ensures RightTotal(fs[..m])
         == Spine(m, Height(a)) + RightTotal(a.floors[..Max0(m - Height(b))]) + RightTotal(b.floors[..Max0(m - Height(a))])
  {
    var sh, oh := Height(a), Height(b);
    if m == 0 {
      assert fs[..0] == [] && a.floors[..0] == [] && b.floors[..0] == [];
    } else {
      PrefixCount(a, b, fs, m - 1);
      TotalSnoc(fs, m);
      assert LeftEdges(fs[m - 1]) == MergedLeft(a, b, m - 1);
      assert RightEdges(fs[m - 1]) == MergedRight(a, b, m - 1);
      SideStep(a.floors, oh, m);
      SideStep(b.floors, sh, m);
    }
  }

  /** The merge adds the heights and adds edges in closed form: the left
      spine contributes Height(b) left edges and the right spine Height(a)
      right edges. */
  lemma MergeCount(a: Path, b: Path)
    requires a.Valid() && b.Valid()
    ensures LeftTotal(Merged(a, b).floors) == LeftTotal(a.floors) + LeftTotal(b.floors) + Height(b)
    ensures RightTotal(Merged(a, b).floors) == RightTotal(a.floors) + RightTotal(b.floors) + Height(a)
  {
    var fs := Merged(a, b).floors;
    forall i | 0 <= i < |fs|
      ensures LeftEdges(fs[i]) == MergedLeft(a, b, i) && RightEdges(fs[i]) == MergedRight(a, b, i)
    {
      MergedFloorEdges(a, b, i);
    }
    PrefixCount(a, b, fs, |fs|);
    assert fs[..|fs|] == fs;
    assert a.floors[..|a.floors|] == a.floors;
    assert b.floors[..|b.floors|] == b.floors;
  }

  lemma SpineFloor(a: Path, b: Path, i: nat)
    requires i < Height(a) && i < Height(b)
    ensures Or(1, Shl(1, 2 * i + 1)) == MergedFloor(a, b, i)
  {
    ShlIsMul(1, 2 * i + 1);
    OrDisjoint(1, 1, 2 * i + 1);
  }

  lemma LeftTailFloor(a: Path, b: Path, i: nat)
    requires a.Valid()
    requires Height(b) <= i < Height(a)
    ensures Or(a.floors[i - Height(b)], Shl(1, 2 * i + 1)) == MergedFloor(a, b, i)
  {
    var x := a.floors[i - Height(b)];
    Pow4Mono(i - Height(b) + 1, i);
    Pow4IsPow2(i);
    assert x < Pow2(2 * i + 1);
    ShlIsMul(1, 2 * i + 1);
    OrDisjoint(x, 1, 2 * i + 1);
  }

  lemma RightTailFloor(a: Path, b: Path, i: nat)
    requires Height(a) <= i < Height(b)
    ensures Or(1, Shl(b.floors[i - Height(a)], 2 * Height(a))) == MergedFloor(a, b, i)
  {
    ShlIsMul(b.floors[i - Height(a)], 2 * Height(a));
    OrDisjoint(1, b.floors[i - Height(a)], 2 * Height(a));
  }

  lemma ZipFloor(a: Path, b: Path, i: nat)
    requires a.Valid()
    requires Height(a) <= i && Height(b) <= i && i < Height(a) + Height(b) - 1
    ensures Or(a.floors[i - Height(b)], Shl(b.floors[i - Height(a)], 2 * Height(a))) == MergedFloor(a, b, i)
  {
    var x := a.floors[i - Height(b)];
    Pow4Mono(i - Height(b) + 1, Height(a));
    Pow4IsPow2(Height(a));
    assert x < Pow2(2 * Height(a));
    ShlIsMul(b.floors[i - Height(a)], 2 * Height(a));
    OrDisjoint(x, b.floors[i - Height(a)], 2 * Height(a));
  }

  /** `a * b` as the source computes it: both spines on the shorter height,
      then one spine beside the taller side's first floors, then the
      remaining floors of both sides side by side. */
  method Merge(a: Path, b: Path) returns (p: Path)
    requires a.Valid() && b.Valid()
    ensures p == Merged(a, b)
  {
    var sh, oh := Height(a), Height(b);
    var newpath: seq<nat> := [];
    var h, hh;
    if sh >= oh {
      h, hh := oh, sh;
    } else {
      h, hh := sh, oh;
    }
    for i := 0 to h
      invariant |newpath| == i
      invariant forall q :: 0 <= q < i ==> newpath[q] == MergedFloor(a, b, q)
    {
      SpineFloor(a, b, i);
      newpath := newpath + [Or(1, Shl(1, 2 * i + 1))];  // 1 | (1 << (2i+1))
    }
    var li, ri := 0, 0;  // positions of the iterators over a's and b's floors
    for i := h to hh
      invariant |newpath| == i
      invariant forall q :: 0 <= q < i ==> newpath[q] == MergedFloor(a, b, q)
      invariant li == (if sh > oh then i - h else 0)
      invariant ri == (if sh > oh then 0 else i - h)
    {
      if sh > oh {
        LeftTailFloor(a, b, i);
        newpath := newpath + [Or(a.floors[li], Shl(1, 2 * i + 1))];
        li := li + 1;
      } else {
        RightTailFloor(a, b, i);
        newpath := newpath + [Or(1, Shl(b.floors[ri], 2 * sh))];
        ri := ri + 1;
      }
    }
    newpath := ZipTails(a, b, newpath, li, ri);
    var r := NewPath(newpath);
    if r.Err? {
      assert false;
    }
    p := r.value;
  }

  /** The last loop of `a * b`: the floors left on both sides, side by side. */
  method ZipTails(a: Path, b: Path, prefix: seq<nat>, li0: nat, ri0: nat) returns (newpath: seq<nat>)
    requires a.Valid() && b.Valid()
    requires li0 <= |a.floors| && ri0 <= |b.floors|
    requires li0 + Height(b) == |prefix| && ri0 + Height(a) == |prefix|
    requires forall q :: 0 <= q < |prefix| ==> prefix[q] == MergedFloor(a, b, q)
    ensures newpath == Merged(a, b).floors
  {
    var sh := Height(a);
    var li, ri := li0, ri0;
    newpath := prefix;
    while li < |a.floors| && ri < |b.floors|
      invariant li <= |a.floors| && ri <= |b.floors|
      invariant li + Height(b) == |newpath| && ri + sh == |newpath|
      invariant forall q :: 0 <= q < |newpath| ==> newpath[q] == MergedFloor(a, b, q)
      decreases |a.floors| - li
    {
      ZipFloor(a, b, |newpath|);
      newpath := newpath + [Or(a.floors[li], Shl(b.floors[ri], 2 * sh))];
      li, ri := li + 1, ri + 1;
    }
  }

  // ---------------------------------------------------------------------
  // Well-formedness

  /** `_h4`'s value: bit k is set exactly when node k of the floor carries
      an edge (its two-bit group is nonzero). */
  function H4Of(x: nat): nat
  {
    if x == 0 then 0 else (if x % 4 != 0 then 1 else 0) + 2 * H4Of(x / 4)
  }

  lemma {:induction false} H4Bit(x: nat, k: nat)
    ensures Bit(H4Of(x), k) == if Bit(x, 2 * k) == 1 || Bit(x, 2 * k + 1) == 1 then 1 else 0
  {
    if x == 0 {
      ZeroBits(k);
      ZeroBits(2 * k);
      ZeroBits(2 * k + 1);
    } else {
      var c := if x % 4 != 0 then 1 else 0;
      var h := H4Of(x / 4);
      assert (c + 2 * h) / 2 == h && (c + 2 * h) % 2 == c;
      if k == 0 {
        Mod4Bits(x);
      } else {
        H4Bit(x / 4, k - 1);
        BitDiv4(x, 2 * k - 2);
        BitDiv4(x, 2 * k - 1);
      }
    }
  }

  /** The edges of floor f that end at leaf k of the level below: the left
      edge of node k (bit 2k) and the right edge of node k-1 (bit 2k-1). */
  function InEdges(f: nat, k: nat): nat
  {
    if k == 0 then Bit(f, 0) else Bit(f, 2 * k - 1) + Bit(f, 2 * k)
  }

  /** Floor f fits the reachability bitfield r of the level below it when
      every reachable leaf receives exactly one edge and every other leaf none. */
  ghost predicate LevelOk(r: nat, f: nat)
  {
    forall k: nat :: InEdges(f, k) == Bit(r, k)
  }

  /** Checking the floors bottom-up: the last floor must fit r, and the nodes
      carrying its edges, H4Of(f), are what the floor above must reach. */
  ghost predicate WellFormedFrom(fs: seq<nat>, r: nat)
    decreases |fs|
  {
    fs == [] || (LevelOk(r, fs[|fs| - 1]) && WellFormedFrom(fs[..|fs| - 1], H4Of(fs[|fs| - 1])))
  }

  /** The bits of newreachable once bits 0..2k of the floor are examined:
      nodes before k are complete, node k has only its left edge examined. */
  ghost function SeenBit(f: nat, k: nat, j: nat): nat
  {
    if j < k then (if Bit(f, 2 * j) == 1 || Bit(f, 2 * j + 1) == 1 then 1 else 0)
    else if j == k then Bit(f, 2 * k)
    else 0
  }

  /** The invariants of one level's scan, after leaf k: f holds the floor's
      bits from 2k+1 upwards, reach the reachable leaves after k, every leaf
      up to k received the right edges, and nr the nodes seen to carry one. */
  ghost predicate FloorRest(f: nat, floor: nat, k: nat)
  {
    forall j: nat :: Bit(f, j) == Bit(floor, j + 2 * k + 1)
  }

  ghost predicate ReachRest(reach: nat, reachable: nat, k: nat)
  {
    forall j: nat :: Bit(reach, j) == if j <= k then 0 else Bit(reachable, j)
  }

  ghost predicate FitsUpTo(floor: nat, reachable: nat, k: nat)
  {
    forall j: nat :: j <= k ==> InEdges(floor, j) == Bit(reachable, j)
  }

  ghost predicate Seen(nr: nat, floor: nat, k: nat)
  {
    forall j: nat :: Bit(nr, j) == SeenBit(floor, k, j)
  }

  lemma ScanStart(reachable: nat, floor: nat)
    requires Bit(reachable, 0) == floor % 2
    ensures reachable >= Bit(reachable, 0)
    ensures FloorRest(floor / 2, floor, 0)
    ensures ReachRest(reachable - Bit(reachable, 0), reachable, 0)
    ensures FitsUpTo(floor, reachable, 0)
    ensures Seen(Or(0, Bit(reachable, 0)), floor, 0)
  {
    var r := Bit(reachable, 0);
    if r == 1 {
      forall j: nat ensures Bit(reachable - 1, j) == if j == 0 then 0 else Bit(reachable, j) {
        BitSubPow2(reachable, 0, j);
      }
    }
    forall j: nat ensures Bit(r, j) == SeenBit(floor, 0, j) {
      if j > 0 { ZeroBits(j - 1); }
    }
  }

  lemma EdgeOf(f: nat, floor: nat, k: nat)
    requires k >= 1 && FloorRest(f, floor, k - 1)
    ensures f % 4 == Bit(floor, 2 * k - 1) + 2 * Bit(floor, 2 * k)
  {
    Mod4Bits(f);
    assert Bit(f, 0) == Bit(floor, 2 * k - 1);
    assert Bit(f, 1) == Bit(floor, 2 * k);
  }

  lemma ShiftRest(f: nat, floor: nat, k: nat)
    requires k >= 1 && FloorRest(f, floor, k - 1)
    ensures FloorRest(f / 4, floor, k)
  {
    forall j: nat ensures Bit(f / 4, j) == Bit(floor, j + 2 * k + 1) {
      BitDiv4(f, j);
    }
  }

  lemma ClearReach(reach: nat, reachable: nat, k: nat)
    requires k >= 1 && ReachRest(reach, reachable, k - 1) && Bit(reachable, k) == 1
    ensures reach >= Pow2(k) && ReachRest(reach - Pow2(k), reachable, k)
  {
    assert Bit(reach, k) == 1;
    BitSubPow2(reach, k, 0);
    var y := reach - Pow2(k);
    forall j: nat ensures Bit(y, j) == if j <= k then 0 else Bit(reachable, j) {
      BitSubPow2(reach, k, j);
      assert Bit(reach, j) == if j <= k - 1 then 0 else Bit(reachable, j);
    }
  }

  lemma KeepReach(reach: nat, reachable: nat, k: nat)
    requires k >= 1 && ReachRest(reach, reachable, k - 1) && Bit(reachable, k) == 0
    ensures ReachRest(reach, reachable, k)
  {
  }

  /** An edge k-1 -> leaf k (right edge of node k-1) completes node k-1. */
  lemma SeenRightEdge(nr: nat, floor: nat, k: nat)
    requires k >= 1 && Seen(nr, floor, k - 1)
    requires Bit(floor, 2 * k - 1) == 1 && Bit(floor, 2 * k) == 0
    ensures Seen(Or(nr, Pow2(k - 1)), floor, k)
  {
    forall j: nat ensures Bit(Or(nr, Pow2(k - 1)), j) == SeenBit(floor, k, j) {
      BitOr(nr, Pow2(k - 1), j);
      BitPow2(k - 1, j);
    }
  }

  /** An edge k -> leaf k (left edge of node k) marks node k. */
  lemma SeenLeftEdge(nr: nat, floor: nat, k: nat)
    requires k >= 1 && Seen(nr, floor, k - 1)
    requires Bit(floor, 2 * k - 1) == 0 && Bit(floor, 2 * k) == 1
    ensures Seen(Or(nr, Pow2(k)), floor, k)
  {
    forall j: nat ensures Bit(Or(nr, Pow2(k)), j) == SeenBit(floor, k, j) {
      BitOr(nr, Pow2(k), j);
      BitPow2(k, j);
    }
  }

  lemma SeenNoEdge(nr: nat, floor: nat, k: nat)
    requires k >= 1 && Seen(nr, floor, k - 1)
    requires Bit(floor, 2 * k - 1) == 0 && Bit(floor, 2 * k) == 0
    ensures Seen(nr, floor, k)
  {
  }

  /** When the scan runs out of floor bits after leaf k, the level fits
      exactly when no reachable leaf is left, and nr is then H4Of(floor). */
  lemma ScanEnd(floor: nat, reachable: nat, reach: nat, nr: nat, k: nat)
    requires FloorRest(0, floor, k) && ReachRest(reach, reachable, k)
    requires FitsUpTo(floor, reachable, k) && Seen(nr, floor, k)
    ensures (reach == 0) == LevelOk(reachable, floor)
    ensures reach == 0 ==> nr == H4Of(floor)
  {
    forall m: nat | m >= 2 * k + 1 ensures Bit(floor, m) == 0 {
      assert Bit(0, m - 2 * k - 1) == Bit(floor, m);
      ZeroBits(m - 2 * k - 1);
    }
    if reach > 0 {
      TopBit(reach);
      var top := BitLength(reach) - 1;
      assert InEdges(floor, top) != Bit(reachable, top);
    } else {
      forall j: nat ensures InEdges(floor, j) == Bit(reachable, j) {
        if j > k {
          ZeroBits(j);
        }
      }
      forall j: nat ensures Bit(nr, j) == Bit(H4Of(floor), j) {
        H4Bit(floor, j);
      }
      BitsEqual(nr, H4Of(floor));
    }
  }

  /** One level of `well_formed()`: leaf 0 first, then for each further leaf
      the two edges that may end at it; a leaf left reachable beyond the last
      edge fails the check. */
  method CheckLevel(reachable: nat, floor: nat) returns (ok: bool, newreachable: nat)
    ensures ok == LevelOk(reachable, floor)
    ensures ok ==> newreachable == H4Of(floor)
  {
    var reach: nat := reachable;
    var f: nat := floor;
    var i: nat := 1;
    var k: nat := 0;  // i == 2^k
    newreachable := 0;
    var r := Bit(reach, 0);  // reachable & i
    if r != f % 2 {
      assert InEdges(floor, 0) != Bit(reachable, 0);
      return false, newreachable;
    }
    ScanStart(reachable, floor);
    reach := reach - r;  // reachable ^= r
    newreachable := Or(newreachable, r);
    f := f / 2;
    while f > 0
      invariant i == Pow2(k)
      invariant FloorRest(f, floor, k) && ReachRest(reach, reachable, k)
      invariant FitsUpTo(floor, reachable, k) && Seen(newreachable, floor, k)
      decreases f
    {
      i := i * 2;
      k := k + 1;
      var edge := f % 4;
      EdgeOf(f, floor, k);
      assert Bit(reach, k) == Bit(reachable, k);
      r := Bit(reach, k) * i;  // reachable & i
      if r != 0 {
        if edge == 1 {
          SeenRightEdge(newreachable, floor, k);
          newreachable := Or(newreachable, i / 2);
        } else if edge == 2 {
          SeenLeftEdge(newreachable, floor, k);
          newreachable := Or(newreachable, i);
        } else {
          assert InEdges(floor, k) != Bit(reachable, k);
          return false, newreachable;
        }
        ClearReach(reach, reachable, k);
      } else if edge != 0 {
        assert InEdges(floor, k) != Bit(reachable, k);
        return false, newreachable;
      } else {
        KeepReach(reach, reachable, k);
        SeenNoEdge(newreachable, floor, k);
      }
      reach := reach - r;  // reachable ^= r
      ShiftRest(f, floor, k);
      f := f / 4;  // floor >>= 2
    }
    ScanEnd(floor, reachable, reach, newreachable, k);
    if reach > 0 {
      return false, newreachable;
    }
    return true, newreachable;
  }

  /** `well_formed()`: the floors, walked bottom-up from the full leaf level
      2^height - 1, each fit what the level below them requires. */
  method WellFormed(p: Path) returns (b: bool)
    ensures b == WellFormedFrom(p.floors, Pow2(Height(p)) - 1)
  {
    var reachable: nat := Pow2(Height(p)) - 1;
    var idx := |p.floors|;
    assert p.floors[..idx] == p.floors;
    while idx > 0
      invariant 0 <= idx <= |p.floors|
      invariant WellFormedFrom(p.floors, Pow2(Height(p)) - 1) == WellFormedFrom(p.floors[..idx], reachable)
    {
      var floor := p.floors[idx - 1];
      assert p.floors[..idx][..idx - 1] == p.floors[..idx - 1];
      var ok, nr := CheckLevel(reachable, floor);
      if !ok {
        return false;
      }
      reachable := nr;
      idx := idx - 1;
    }
    assert p.floors[..0] == [];
    return true;
  }
}
