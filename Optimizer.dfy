/** `optimal_paths`: the dynamic programme computing the cheapest strategy
    of every height, for a cost l per left edge (multiplication) and r per
    right edge (isogeny evaluation). */
module Optimizer {
  import opened Results
  import opened Paths

  // ---------------------------------------------------------------------
  // The cost table

  /** Cost of a height-i strategy whose left branch leaves the spine at
      height j: the two optimal sub-strategies plus the i-j left edges and
      j right edges joining them. */
  function Score(c: seq<int>, i: nat, j: nat, l: int, r: int): int
    requires 1 <= j < i <= |c|
  {
    c[j] + c[i - j] + Times(i - j, l) + Times(j, r)
  }

  /** The initial, deliberately too large, cost of entry i: (i+1)^2 (l+r). */
  function Sentinel(i: nat, l: int, r: int): int
  {
    Times((i + 1) * (i + 1), l + r)
  }

  /** The cost of k edges of cost x each, k * x (TimesIsMul). */
  function Times(k: nat, x: int): int
  {
    if k == 0 then 0 else x + Times(k - 1, x)
  }

  lemma {:induction false} TimesIsMul(k: nat, x: int)
    ensures Times(k, x) == k * x
  {
    if k > 0 {
      TimesIsMul(k - 1, x);
    }
  }

  /** Entry i once the inner loop has tried splits 1..jm: a split replaces
      the current entry when it is no worse, so the last minimum wins. */
  function Scan(c: seq<int>, i: nat, l: int, r: int, jm: nat): (e: (int, int))
    requires 2 <= i <= |c| && jm <= i / 2
    ensures 0 <= e.1 <= jm
  {
    if jm == 0 then (Sentinel(i, l, r), 0)
    else
      var prev := Scan(c, i, l, r, jm - 1);
      var s := Score(c, i, jm, l, r);
      if s <= prev.0 then (s, jm) else prev
  }

  /** The scan finds the minimum over the splits it tried, capped by the
      sentinel, and keeps the largest split achieving it. */
  lemma {:induction false} ScanMinimal(c: seq<int>, i: nat, l: int, r: int, jm: nat)
    requires 2 <= i <= |c| && jm <= i / 2
    ensures Scan(c, i, l, r, jm).0 <= Sentinel(i, l, r)
    ensures forall j :: 1 <= j <= jm ==> Scan(c, i, l, r, jm).0 <= Score(c, i, j, l, r)
    ensures forall j :: Scan(c, i, l, r, jm).1 < j <= jm ==> Scan(c, i, l, r, jm).0 < Score(c, i, j, l, r)
    ensures Scan(c, i, l, r, jm).1 == 0 ==> Scan(c, i, l, r, jm).0 == Sentinel(i, l, r)
    ensures Scan(c, i, l, r, jm).1 >= 1 ==> Scan(c, i, l, r, jm).0 == Score(c, i, Scan(c, i, l, r, jm).1, l, r)
  {
    if jm > 0 {
      ScanMinimal(c, i, l, r, jm - 1);
    }
  }

  /** Scan reads only the entries below i. */
  lemma {:induction false} ScanPrefix(c: seq<int>, d: seq<int>, i: nat, l: int, r: int, jm: nat)
    requires 2 <= i <= |c| && i <= |d| && jm <= i / 2
    requires forall k :: 0 <= k < i ==> c[k] == d[k]
    ensures Scan(c, i, l, r, jm) == Scan(d, i, l, r, jm)
  {
    if jm > 0 {
      ScanPrefix(c, d, i, l, r, jm - 1);
      assert Score(c, i, jm, l, r) == Score(d, i, jm, l, r);
    }
  }

  function Costs(t: seq<(int, int)>): (c: seq<int>)
    ensures |c| == |t| && forall k :: 0 <= k < |t| ==> c[k] == t[k].0
  {
    seq(|t|, k requires 0 <= k < |t| => t[k].0)
  }

  /** The table `opaths` after the main loop, for l <= r already ordered. */
  function Dp(n: nat, l: int, r: int): (t: seq<(int, int)>)
    requires n >= 1
    ensures |t| == n + 1
    ensures t[0] == (0, 0) && t[1] == (0, 1)
  {
    if n == 1 then [(0, 0), (0, 1)]
    else
      var prev := Dp(n - 1, l, r);
      prev + [Scan(Costs(prev), n, l, r, n / 2)]
  }

  lemma {:induction false} DpEntry(n: nat, l: int, r: int, i: nat)
    requires 2 <= i <= n
    ensures Dp(n, l, r)[i] == Scan(Costs(Dp(n, l, r)), i, l, r, i / 2)
  {
    var prev := Dp(n - 1, l, r);
    var e := Scan(Costs(prev), n, l, r, n / 2);
    DpStep(n, l, r, prev);
    if i < n {
      DpEntry(n - 1, l, r, i);
      ExtendedEntry(prev, Dp(n, l, r), e, n, i, l, r);
    } else {
      ExtendedEntry(prev, Dp(n, l, r), e, n, i, l, r);
    }
  }

  /** Appending the next scan keeps every earlier entry the scan over the
      table, and makes the new entry one too. */
  lemma ExtendedEntry(prev: seq<(int, int)>, t: seq<(int, int)>, e: (int, int), n: nat, i: nat, l: int, r: int)
    requires 2 <= i <= n == |prev|
    requires e == Scan(Costs(prev), n, l, r, n / 2)
    requires t == prev + [e]
    requires i < n ==> prev[i] == Scan(Costs(prev), i, l, r, i / 2)
    ensures t[i] == Scan(Costs(t), i, l, r, i / 2)
  {
    ScanPrefix(Costs(prev), Costs(t), i, l, r, i / 2);
    if i < n {
      assert t[i] == prev[i];
    }
  }

  /** When the costs were swapped the split column is read from the other
      side: `[(x, i-j) for (i, (x, j)) in enumerate(opaths)]`. */
  function Mirror(t: seq<(int, int)>): (m: seq<(int, int)>)
    ensures |m| == |t|
  {
    seq(|t|, k requires 0 <= k < |t| => (t[k].0, k - t[k].1))
  }

  lemma MirrorAt(t: seq<(int, int)>, k: nat)
    requires k < |t|
    ensures Mirror(t)[k] == (t[k].0, k - t[k].1)
  {
  }

  /** Splits of the ordered table lie in 0..k/2 (entry 1 holds 1). */
  lemma {:induction false} DpShape(n: nat, l: int, r: int)
    requires n >= 1
    ensures forall k :: 2 <= k <= n ==> 0 <= Dp(n, l, r)[k].1 <= k / 2
  {
    if n > 1 {
      DpShape(n - 1, l, r);
      assert Dp(n, l, r) == Dp(n - 1, l, r) + [Dp(n, l, r)[n]];
    }
  }

  lemma MirrorCosts(t: seq<(int, int)>)
    ensures Costs(Mirror(t)) == Costs(t)
  {
  }

  /** The table `optimal_paths(n, l, r, construct=False)` returns. */
  function SplitTable(n: nat, l: int, r: int): (t: seq<(int, int)>)
    requires n >= 1
    ensures |t| == n + 1
  {
    if l > r then Mirror(Dp(n, r, l)) else Dp(n, l, r)
  }

  /** Swapping l and r changes only the split column: both orders give the
      same costs. */
  lemma CostsSymmetric(n: nat, l: int, r: int)
    requires n >= 1
    ensures Costs(SplitTable(n, l, r)) == Costs(SplitTable(n, r, l))
  {
    if l > r {
      MirrorCosts(Dp(n, r, l));
    } else if r > l {
      MirrorCosts(Dp(n, l, r));
    }
  }

  /** Every split names an entry at or below its own: 0 <= split <= k. */
  lemma SplitTableShape(n: nat, l: int, r: int)
    requires n >= 1
    ensures TableShape(SplitTable(n, l, r))
  {
    var lo, hi := if l > r then r else l, if l > r then l else r;
    DpShape(n, lo, hi);
    if l > r {
      forall k | 0 <= k <= n ensures 0 <= SplitTable(n, l, r)[k].1 <= k {
        MirrorAt(Dp(n, r, l), k);
      }
    }
  }

  // ---------------------------------------------------------------------
  // What the cost table means

  lemma MirrorScore(c: seq<int>, i: nat, j: nat, l: int, r: int)
    requires 1 <= j < i <= |c|
    ensures Score(c, i, j, r, l) == Score(c, i, i - j, l, r)
  {
  }

  /** With l <= r a split in the upper half is never cheaper than its mirror
      image in the lower half. */
  lemma UpperHalfWorse(c: seq<int>, i: nat, j: nat, l: int, r: int)
    requires 1 <= j <= i / 2 && 2 <= i <= |c| && l <= r
    ensures Score(c, i, j, l, r) <= Score(c, i, i - j, l, r)
  {
    TimesIsMul(i - j, l);
    TimesIsMul(j, r);
    TimesIsMul(j, l);
    TimesIsMul(i - j, r);
    var a, b := i - 2 * j, r - l;
    assert a * b >= 0;
    assert (i - j) * l + j * r + a * b == j * l + (i - j) * r by {
      assert a * b == i * r - i * l - 2 * j * r + 2 * j * l;
    }
  }

  /** Ordered costs: entry i is no more than any split 1..i-1, not only the
      lower half the loop tries. */
  lemma DpMinimal(n: nat, l: int, r: int, i: nat, j: nat)
    requires l <= r && 2 <= i <= n && 1 <= j < i
    ensures Costs(Dp(n, l, r))[i] <= Score(Costs(Dp(n, l, r)), i, j, l, r)
  {
    var c := Costs(Dp(n, l, r));
    DpEntry(n, l, r, i);
    var e := Scan(c, i, l, r, i / 2);
    ScanMinimal(c, i, l, r, i / 2);
    assert c[i] == e.0;
    if j > i / 2 {
      assert 1 <= i - j <= i / 2;
      assert e.0 <= Score(c, i, i - j, l, r);
      UpperHalfWorse(c, i, i - j, l, r);
      assert i - (i - j) == j;
    } else {
      assert e.0 <= Score(c, i, j, l, r);
    }
  }

  /** Entry i of a table with cost column c is optimal under l and r: no
      split 1..i-1 is cheaper and the sentinel is not exceeded; a split
      strictly inside 1..i-1 achieves the cost, and any other split value
      means the sentinel survived. */
  ghost predicate OptimalAt(t: seq<(int, int)>, i: nat, l: int, r: int)
    requires 2 <= i < |t|
  {
    var c := Costs(t);
    (forall j :: 1 <= j < i ==> c[i] <= Score(c, i, j, l, r))
    && c[i] <= Sentinel(i, l, r)
    && (1 <= t[i].1 < i ==> c[i] == Score(c, i, t[i].1, l, r))
    && (!(1 <= t[i].1 < i) ==> c[i] == Sentinel(i, l, r))
  }

  lemma OrderedOptimal(n: nat, l: int, r: int, i: nat)
    requires l <= r && 2 <= i <= n
    ensures OptimalAt(Dp(n, l, r), i, l, r)
  {
    var t := Dp(n, l, r);
    var c := Costs(t);
    DpEntry(n, l, r, i);
    var e := Scan(c, i, l, r, i / 2);
    ScanMinimal(c, i, l, r, i / 2);
    assert t[i] == e;
    forall j | 1 <= j < i ensures c[i] <= Score(c, i, j, l, r) {
      DpMinimal(n, l, r, i, j);
    }
  }

  lemma MirroredOptimal(n: nat, l: int, r: int, i: nat)
    requires l > r && 2 <= i <= n
    ensures OptimalAt(Mirror(Dp(n, r, l)), i, l, r)
  {
    var d := Dp(n, r, l);
    var c := Costs(d);
    MirrorCosts(d);
    DpEntry(n, r, l, i);
    var e := Scan(c, i, r, l, i / 2);
    ScanMinimal(c, i, r, l, i / 2);
    MirrorAt(d, i);
    MirroredAllMinimal(n, l, r, i);
    MirroredEntry(Mirror(d), c, i, l, r, e);
  }

  /** Entry i of a swapped table is optimal when the ordered scan that
      produced it, read from the other side, was. */
  lemma MirroredEntry(t: seq<(int, int)>, c: seq<int>, i: nat, l: int, r: int, e: (int, int))
    requires 2 <= i < |t| && c == Costs(t)
    requires t[i] == (e.0, i - e.1) && 0 <= e.1 <= i / 2
    requires e.0 <= Sentinel(i, r, l)
    requires e.1 == 0 ==> e.0 == Sentinel(i, r, l)
    requires e.1 >= 1 ==> e.0 == Score(c, i, e.1, r, l)
    requires forall j :: 1 <= j < i ==> c[i] <= Score(c, i, j, l, r)
    ensures OptimalAt(t, i, l, r)
  {
    assert Sentinel(i, r, l) == Sentinel(i, l, r);
    if e.1 >= 1 {
      MirrorScore(c, i, e.1, l, r);
      assert i - (i - e.1) == e.1;
    }
  }

  lemma MirroredAllMinimal(n: nat, l: int, r: int, i: nat)
    requires l > r && 2 <= i <= n
    ensures forall j :: 1 <= j < i ==> Costs(Mirror(Dp(n, r, l)))[i] <= Score(Costs(Mirror(Dp(n, r, l))), i, j, l, r)
  {
    MirrorCosts(Dp(n, r, l));
    forall j | 1 <= j < i ensures Costs(Dp(n, r, l))[i] <= Score(Costs(Dp(n, r, l)), i, j, l, r) {
      MirroredMinimal(n, l, r, i, j);
    }
  }

  lemma MirroredMinimal(n: nat, l: int, r: int, i: nat, j: nat)
    requires l > r && 2 <= i <= n && 1 <= j < i
    ensures Costs(Dp(n, r, l))[i] <= Score(Costs(Dp(n, r, l)), i, j, l, r)
  {
    var c := Costs(Dp(n, r, l));
    DpMinimal(n, r, l, i, i - j);
    assert c[i] <= Score(c, i, i - j, r, l);
    MirrorScore(c, i, i - j, l, r);
    assert i - (i - j) == j;
  }

  /** Every entry of the cost column is optimal under the caller's own l
      and r, whichever way round they were given. */
  lemma CostMinimal(n: nat, l: int, r: int, i: nat)
    requires 2 <= i <= n
    ensures OptimalAt(SplitTable(n, l, r), i, l, r)
  {
    if l > r {
      MirroredOptimal(n, l, r, i);
    } else {
      OrderedOptimal(n, l, r, i);
    }
  }

  lemma SquareStep(i: nat, s: int)
    requires i >= 1 && s >= 0
    ensures (i - 1) * (i - 1) * s + i * s <= i * i * s
    ensures i * i * s <= (i + 1) * (i + 1) * s
  {
    assert (i - 1) * (i - 1) + i <= i * i;
    assert i * i <= (i + 1) * (i + 1);
    MulLe(s, (i - 1) * (i - 1) + i, i * i);
    MulLe(s, i * i, (i + 1) * (i + 1));
  }

  lemma MulLe(s: int, x: int, y: int)
    requires s >= 0 && x <= y
    ensures x * s <= y * s
  {
  }

  /** The cost of the split at 1 is at most the bound of the level below
      plus i(l+r). */
  lemma FirstSplitBound(c: seq<int>, i: nat, l: int, r: int)
    requires 2 <= i <= |c| && l >= 0 && r >= 0 && c[1] == 0
    requires c[i - 1] <= (i - 1) * (i - 1) * (l + r)
    ensures Score(c, i, 1, l, r) <= i * i * (l + r)
  {
    TimesIsMul(i - 1, l);
    TimesIsMul(1, r);
    MulLe(i - 1, l, l + r);
    assert (i - 1) * l + r <= i * (l + r);
    SquareStep(i, l + r);
  }

  /** With non-negative ordered costs, entry k costs at most k^2(l+r). */
  lemma {:induction false} DpBounded(n: nat, l: int, r: int, k: nat)
    requires 0 <= l <= r && 1 <= k <= n
    ensures Costs(Dp(n, l, r))[k] <= k * k * (l + r)
  {
    if k >= 2 {
      var c := Costs(Dp(n, l, r));
      DpBounded(n, l, r, k - 1);
      DpMinimal(n, l, r, k, 1);
      FirstSplitBound(c, k, l, r);
    }
  }

  /** With non-negative costs the sentinel is always beaten: every split
      lies strictly inside 1..i-1 and entry i costs at most i^2(l+r). */
  lemma SentinelBeaten(n: nat, l: int, r: int, i: nat)
    requires l >= 0 && r >= 0 && 2 <= i <= n
    ensures 1 <= SplitTable(n, l, r)[i].1 < i
    ensures Costs(SplitTable(n, l, r))[i] <= i * i * (l + r)
  {
    if l > r {
      var d := Dp(n, r, l);
      OrderedBeaten(n, r, l, i);
      MirrorCosts(d);
      MirrorAt(d, i);
      assert r + l == l + r;
    } else {
      OrderedBeaten(n, l, r, i);
    }
  }

  /** The same for the table of ordered costs, where the split lies in the
      lower half. */
  lemma OrderedBeaten(n: nat, lo: int, hi: int, i: nat)
    requires 0 <= lo <= hi && 2 <= i <= n
    ensures 1 <= Dp(n, lo, hi)[i].1 <= i / 2
    ensures Costs(Dp(n, lo, hi))[i] <= i * i * (lo + hi)
  {
    var c := Costs(Dp(n, lo, hi));
    DpEntry(n, lo, hi, i);
    DpBounded(n, lo, hi, i - 1);
    SentinelLoses(c, i, lo, hi);
    DpBounded(n, lo, hi, i);
  }

  /** The split at 1 is never worse than the sentinel, so the scan ends on
      a real split. */
  lemma SentinelLoses(c: seq<int>, i: nat, l: int, r: int)
    requires 2 <= i <= |c| && l >= 0 && r >= 0 && c[1] == 0
    requires c[i - 1] <= (i - 1) * (i - 1) * (l + r)
    ensures Scan(c, i, l, r, i / 2).1 >= 1
  {
    FirstSplitBound(c, i, l, r);
    SquareStep(i, l + r);
    TimesIsMul((i + 1) * (i + 1), l + r);
    assert Score(c, i, 1, l, r) <= Sentinel(i, l, r);
    ScanMinimal(c, i, l, r, i / 2);
  }

  // ---------------------------------------------------------------------
  // Building the strategies

  /** The second member of a table entry: a split height (Python int) or
      a strategy (Path). */
  datatype Cell = Split(j: int) | Tree(p: Path)

  predicate CellValid(x: Cell)
  {
    x.Tree? ==> x.p.Valid()
  }

  /** `opaths[j][1] * opaths[i-j][1]`: two strategies merge, two integers
      multiply, and anything else is a type error. */
  function Product(a: Cell, b: Cell): (r: Result<Cell>)
    requires CellValid(a) && CellValid(b)
    ensures r.Ok? <==> a.Tree? == b.Tree?
    ensures r.Err? ==> r.error == TypeMismatch
    ensures r.Ok? && a.Tree? ==> r.value == Tree(Merged(a.p, b.p)) && r.value.p.Valid()
    ensures r.Ok? && a.Split? ==> r.value == Split(a.j * b.j)
  {
    match (a, b)
    case (Tree(x), Tree(y)) => Ok(Tree(Merged(x, y)))
    case (Split(x), Split(y)) => Ok(Split(x * y))
    case _ => Err(TypeMismatch)
  }

  predicate TableShape(t: seq<(int, int)>)
  {
    |t| >= 2 && forall k :: 0 <= k < |t| ==> 0 <= t[k].1 <= k
  }

  /** The table once `opaths[1] = (0, Path([]))` has run. */
  function Initial(t: seq<(int, int)>): (cells: seq<(int, Cell)>)
    requires |t| >= 2
    ensures |cells| == |t| && cells[1] == (0, Tree(Path([])))
    ensures forall k :: 0 <= k < |t| && k != 1 ==> cells[k] == (t[k].0, Split(t[k].1))
  {
    seq(|t|, k requires 0 <= k < |t| => if k == 1 then (0, Tree(Path([]))) else (t[k].0, Split(t[k].1)))
  }

  /** The table once the construct loop has rewritten entries 2..m-1: each
      takes the product of the cells its split names; entries from m on
      still hold their integer split. */
  function Build(t: seq<(int, int)>, m: nat): (res: Result<seq<(int, Cell)>>)
    requires TableShape(t) && 2 <= m <= |t|
    ensures res.Err? ==> res.error == TypeMismatch
    ensures res.Ok? ==> |res.value| == |t| && forall k :: 0 <= k < |t| ==> CellValid(res.value[k].1)
  {
    if m == 2 then Ok(Initial(t))
    else
      var prev := Build(t, m - 1);
      if prev.Err? then prev
      else
        var cells := prev.value;
        var i := m - 1;
        var j := t[i].1;
        var pr := Product(cells[j].1, cells[i - j].1);
        if pr.Err? then Err(pr.error) else Ok(cells[i := (cells[i].0, pr.value)])
  }

  /** The two shapes `optimal_paths` returns. */
  datatype Table = Splits(rows: seq<(int, int)>) | Strategies(cells: seq<(int, Cell)>)

  function Optimal(n: int, l: int, r: int, construct: bool): (res: Result<Table>)
    ensures n <= 0 ==> res == Err(InvalidArgument)
    ensures n >= 1 && !construct ==> res == Ok(Splits(SplitTable(n, l, r)))
    ensures n >= 1 && construct && res.Ok? ==> res.value.Strategies? && |res.value.cells| == n + 1
  {
    if n <= 0 then Err(InvalidArgument)
    else if !construct then Ok(Splits(SplitTable(n, l, r)))
    else
      SplitTableShape(n, l, r);
      Tabled(Build(SplitTable(n, l, r), n + 1))
  }

  /** The strategies the construct loop produced, or its error. */
  function Tabled(b: Result<seq<(int, Cell)>>): Result<Table>
  {
    if b.Err? then Err(b.error) else Ok(Strategies(b.value))
  }

  lemma ScanStart(c: seq<int>, i: nat, l: int, r: int)
    requires 2 <= i <= |c|
    ensures Scan(c, i, l, r, 0) == ((i + 1) * (i + 1) * (l + r), 0)
  {
    TimesIsMul((i + 1) * (i + 1), l + r);
  }

  lemma ScanStep(c: seq<int>, i: nat, l: int, r: int, j: nat, score: int)
    requires 2 <= i <= |c| && 1 <= j <= i / 2
    requires score == c[j] + c[i - j] + (i - j) * l + j * r
    ensures Scan(c, i, l, r, j) == if score <= Scan(c, i, l, r, j - 1).0 then (score, j) else Scan(c, i, l, r, j - 1)
  {
    TimesIsMul(i - j, l);
    TimesIsMul(j, r);
  }

  lemma ReplaceLast<T>(s: seq<T>, x: T, y: T)
    ensures (s + [x])[|s| := y] == s + [y]
  {
  }

  lemma DpStep(i: nat, l: int, r: int, prev: seq<(int, int)>)
    requires i >= 2 && prev == Dp(i - 1, l, r)
    ensures Dp(i, l, r) == prev + [Scan(Costs(prev), i, l, r, i / 2)]
  {
  }

  /** Construction keeps the cost column (entry 1 is reset to 0) and
      leaves the entries from m on untouched. */
  lemma {:induction false} BuildKeeps(t: seq<(int, int)>, m: nat)
    requires TableShape(t) && 2 <= m <= |t| && Build(t, m).Ok?
    ensures forall k :: 0 <= k < |t| ==> Build(t, m).value[k].0 == (if k == 1 then 0 else t[k].0)
    ensures forall k :: m <= k < |t| ==> Build(t, m).value[k].1 == Split(t[k].1)
  {
    if m > 2 {
      BuildKeeps(t, m - 1);
    }
  }

  lemma BuildSplit(t: seq<(int, int)>, i: nat, cells: seq<(int, Cell)>)
    requires TableShape(t) && 2 <= i < |t| && Build(t, i) == Ok(cells)
    ensures cells[i].1 == Split(t[i].1)
    ensures CellValid(cells[t[i].1].1) && CellValid(cells[i - t[i].1].1)
  {
    BuildKeeps(t, i);
  }

  lemma BuildStep(t: seq<(int, int)>, i: nat, cells: seq<(int, Cell)>, j: int, pr: Result<Cell>)
    requires TableShape(t) && 2 <= i < |t| && Build(t, i) == Ok(cells)
    requires j == t[i].1 && CellValid(cells[j].1) && CellValid(cells[i - j].1)
    requires pr == Product(cells[j].1, cells[i - j].1)
    ensures pr.Err? ==> Build(t, i + 1) == Err(pr.error)
    ensures pr.Ok? ==> Build(t, i + 1) == Ok(cells[i := (cells[i].0, pr.value)])
  {
  }

  /** Once a product fails, the whole construction fails with it. */
  lemma {:induction false} BuildErrSticks(t: seq<(int, int)>, m: nat, m2: nat)
    requires TableShape(t) && 2 <= m <= m2 <= |t| && Build(t, m).Err?
    ensures Build(t, m2) == Build(t, m)
    decreases m2
  {
    if m2 > m {
      BuildErrSticks(t, m, m2 - 1);
    }
  }

  /** The main loop of `optimal_paths`, on costs already ordered. */
  method FillTable(n: nat, lo: int, hi: int) returns (opaths: seq<(int, int)>)
    requires n >= 1
    ensures opaths == Dp(n, lo, hi)
  {
    opaths := [(0, 0), (0, 1)];
    for i := 2 to n + 1
      invariant opaths == Dp(i - 1, lo, hi)
    {
      DpStep(i, lo, hi, opaths);
      opaths := TrySplits(opaths, i, lo, hi);
    }
  }

  /** One pass of the inner loop of `optimal_paths`: entry i starts as the
      sentinel and is replaced by every split 1..i/2 that is no worse. */
  method TrySplits(prev: seq<(int, int)>, i: nat, lo: int, hi: int) returns (res: seq<(int, int)>)
    requires 2 <= i == |prev|
    ensures res == prev + [Scan(Costs(prev), i, lo, hi, i / 2)]
  {
    ghost var c := Costs(prev);
    ScanStart(c, i, lo, hi);
    res := prev + [((i + 1) * (i + 1) * (lo + hi), 0)];
    var j := 1;
    while j <= i / 2
      invariant 1 <= j <= i / 2 + 1
      invariant res == prev + [Scan(c, i, lo, hi, j - 1)]
    {
      assert res[j].0 == c[j] && res[i - j].0 == c[i - j];
      var lscore := res[j].0;
      var rscore := res[i - j].0;
      var score := lscore + rscore + (i - j) * lo + j * hi;
      ScanStep(c, i, lo, hi, j, score);
      if score <= res[i].0 {
        ReplaceLast(prev, res[i], (score, j));
        res := res[i := (score, j)];
      }
      j := j + 1;
    }
  }

  /** The construct loop of `optimal_paths`: entry 1 becomes the one-leaf
      strategy, then each later entry the product its split names. */
  method Construct(opaths: seq<(int, int)>) returns (res: Result<seq<(int, Cell)>>)
    requires TableShape(opaths)
    ensures res == Build(opaths, |opaths|)
  {
    var cells := Initial(opaths);  // opaths[1] = (0, Path([]))
    for i := 2 to |opaths|
      invariant Build(opaths, i) == Ok(cells)
    {
      BuildSplit(opaths, i, cells);
      var j := cells[i].1.j;
      var pr := Product(cells[j].1, cells[i - j].1);
      BuildStep(opaths, i, cells, j, pr);
      if pr.Err? {
        BuildErrSticks(opaths, i + 1, |opaths|);
        return Err(pr.error);
      }
      cells := cells[i := (cells[i].0, pr.value)];
    }
    return Ok(cells);
  }

  lemma OptimalConstructed(n: int, l: int, r: int)
    requires n >= 1
    ensures TableShape(SplitTable(n, l, r))
    ensures Optimal(n, l, r, true) == Tabled(Build(SplitTable(n, l, r), n + 1))
  {
    SplitTableShape(n, l, r);
  }

  /** `optimal_paths(n, l, r, construct)`. */
  method OptimalPaths(n: int, l: int, r: int, construct: bool) returns (res: Result<Table>)
    ensures res == Optimal(n, l, r, construct)
  {
    if n <= 0 {
      return Err(InvalidArgument);
    }
    var opaths := SplitsOf(n, l, r);
    if !construct {
      return Ok(Splits(opaths));
    }
    OptimalConstructed(n, l, r);
    var cells := Construct(opaths);
    if cells.Err? {
      return Err(cells.error);
    }
    return Ok(Strategies(cells.value));
  }

  /** The swap, the main loop and the mirror of `optimal_paths`. */
  method SplitsOf(n: int, l: int, r: int) returns (opaths: seq<(int, int)>)
    requires n >= 1
    ensures opaths == SplitTable(n, l, r)
  {
    var lo, hi, swapped := l, r, false;
    if l > r {
      lo, hi, swapped := r, l, true;
    }
    opaths := FillTable(n, lo, hi);
    if swapped {
      opaths := Mirror(opaths);
    }
  }

  // ---------------------------------------------------------------------
  // What the constructed strategies cost

  /** The cost of a strategy under l per left edge and r per right edge. */
  function Weighted(p: Path, l: int, r: int): int
  {
    Times(LeftTotal(p.floors), l) + Times(RightTotal(p.floors), r)
  }

  lemma {:induction false} TimesAdd(a: nat, b: nat, x: int)
    ensures Times(a + b, x) == Times(a, x) + Times(b, x)
    decreases a
  {
    if a > 0 {
      TimesAdd(a - 1, b, x);
    }
  }

  lemma TimesSum(la: nat, lb: nat, hb: nat, ra: nat, rb: nat, ha: nat, l: int, r: int)
    ensures Times(la + lb + hb, l) + Times(ra + rb + ha, r)
         == (Times(la, l) + Times(ra, r)) + (Times(lb, l) + Times(rb, r)) + Times(hb, l) + Times(ha, r)
  {
    TimesAdd(la + lb, hb, l);
    TimesAdd(la, lb, l);
    TimesAdd(ra + rb, ha, r);
    TimesAdd(ra, rb, r);
  }

  /** A strategy with the edge counts of a*b costs the two parts plus the
      spines joining them. */
  lemma MergeWeighted(p: Path, a: Path, b: Path, l: int, r: int)
    requires LeftTotal(p.floors) == LeftTotal(a.floors) + LeftTotal(b.floors) + Height(b)
    requires RightTotal(p.floors) == RightTotal(a.floors) + RightTotal(b.floors) + Height(a)
    ensures Weighted(p, l, r) == Weighted(a, l, r) + Weighted(b, l, r) + Times(Height(b), l) + Times(Height(a), r)
  {
    TimesSum(LeftTotal(a.floors), LeftTotal(b.floors), Height(b), RightTotal(a.floors), RightTotal(b.floors), Height(a), l, r);
  }

  /** Cell k holds a strategy of height k whose cost is entry k's cost. */
  ghost predicate Realizes(cells: seq<(int, Cell)>, t: seq<(int, int)>, l: int, r: int, k: nat)
    requires k < |cells| && k < |t|
  {
    cells[k].1.Tree? && cells[k].1.p.Valid() && Height(cells[k].1.p) == k
    && Weighted(cells[k].1.p, l, r) == t[k].0
  }

  lemma SplitTableFirst(n: nat, l: int, r: int)
    requires n >= 1
    ensures SplitTable(n, l, r)[1].0 == 0
  {
    if l > r {
      MirrorAt(Dp(n, r, l), 1);
    }
  }

  /** Merging the strategies realizing j and i-j realizes entry i when the
      split j achieves entry i's cost. */
  lemma MergedRealizes(t: seq<(int, int)>, l: int, r: int, i: nat, j: nat, a: Path, b: Path)
    requires 1 <= j < i < |t|
    requires a.Valid() && Height(a) == j && Weighted(a, l, r) == t[j].0
    requires b.Valid() && Height(b) == i - j && Weighted(b, l, r) == t[i - j].0
    requires t[i].0 == Score(Costs(t), i, j, l, r)
    ensures Height(Merged(a, b)) == i && Weighted(Merged(a, b), l, r) == t[i].0
  {
    MergeCount(a, b);
    MergeWeighted(Merged(a, b), a, b, l, r);
  }

  /** One round of the construct loop on an entry whose split lies inside
      1..i-1 and achieves its cost: the merged strategy realizes it. */
  lemma RealizeStep(t: seq<(int, int)>, l: int, r: int, i: nat, cells: seq<(int, Cell)>) returns (next: seq<(int, Cell)>)
    requires TableShape(t) && 2 <= i < |t| && Build(t, i) == Ok(cells)
    requires forall k :: 1 <= k < i ==> Realizes(cells, t, l, r, k)
    requires 1 <= t[i].1 < i && t[i].0 == Score(Costs(t), i, t[i].1, l, r)
    ensures Build(t, i + 1) == Ok(next)
    ensures forall k :: 1 <= k <= i ==> Realizes(next, t, l, r, k)
  {
    var j := t[i].1;
    assert Realizes(cells, t, l, r, j) && Realizes(cells, t, l, r, i - j);
    var a, b := cells[j].1.p, cells[i - j].1.p;
    BuildSplit(t, i, cells);
    var pr := Product(cells[j].1, cells[i - j].1);
    BuildStep(t, i, cells, j, pr);
    next := cells[i := (cells[i].0, Tree(Merged(a, b)))];
    MergedRealizes(t, l, r, i, j, a, b);
    assert Realizes(next, t, l, r, i);
    forall k | 1 <= k < i ensures Realizes(next, t, l, r, k) {
      assert next[k] == cells[k];
      assert Realizes(cells, t, l, r, k);
    }
  }

  /** With non-negative costs the construction never meets a type error and
      every cell 1..m-1 realizes its cost. */
  lemma {:induction false} BuildRealizes(n: nat, l: int, r: int, m: nat)
    requires n >= 1 && l >= 0 && r >= 0 && 2 <= m <= n + 1
    ensures TableShape(SplitTable(n, l, r))
    ensures Build(SplitTable(n, l, r), m).Ok?
    ensures forall k :: 1 <= k < m ==> Realizes(Build(SplitTable(n, l, r), m).value, SplitTable(n, l, r), l, r, k)
  {
    var t := SplitTable(n, l, r);
    SplitTableShape(n, l, r);
    if m == 2 {
      SplitTableFirst(n, l, r);
      assert Weighted(Path([]), l, r) == 0;
    } else {
      var i := m - 1;
      BuildRealizes(n, l, r, i);
      SentinelBeaten(n, l, r, i);
      CostMinimal(n, l, r, i);
      var next := RealizeStep(t, l, r, i, Build(t, i).value);
    }
  }

  /** `optimal_paths(n, l, r, construct=True)` with non-negative costs:
      entry k holds (cost_k, a strategy of height k costing exactly cost_k),
      and cost_k is the optimal cost CostMinimal describes. */
  lemma ConstructOptimal(n: int, l: int, r: int)
    requires n >= 1 && l >= 0 && r >= 0
    ensures Optimal(n, l, r, true).Ok? && Optimal(n, l, r, true).value.Strategies?
    ensures |Optimal(n, l, r, true).value.cells| == n + 1
    ensures forall k :: 1 <= k <= n ==>
      var cell := Optimal(n, l, r, true).value.cells[k];
      cell.0 == SplitTable(n, l, r)[k].0 && cell.1.Tree? && cell.1.p.Valid()
      && Height(cell.1.p) == k && Weighted(cell.1.p, l, r) == cell.0
  {
    var t := SplitTable(n, l, r);
    BuildRealizes(n, l, r, n + 1);
    SplitTableFirst(n, l, r);
    OptimalConstructed(n, l, r);
    RealizedCells(Optimal(n, l, r, true), Build(t, n + 1), t, n, l, r);
  }

  lemma RealizedCells(res: Result<Table>, b: Result<seq<(int, Cell)>>, t: seq<(int, int)>, n: int, l: int, r: int)
    requires TableShape(t) && |t| == n + 1 && n >= 1 && b == Build(t, n + 1)
    requires res == Tabled(b) && b.Ok?
    requires forall k :: 1 <= k < |t| ==> Realizes(b.value, t, l, r, k)
    requires t[1].0 == 0
    ensures res.Ok? && res.value.Strategies?
    ensures |res.value.cells| == n + 1
    ensures forall k :: 1 <= k <= n ==>
      var cell := res.value.cells[k];
      cell.0 == t[k].0 && cell.1.Tree? && cell.1.p.Valid()
      && Height(cell.1.p) == k && Weighted(cell.1.p, l, r) == cell.0
  {
    var cells := b.value;
    BuildKeeps(t, n + 1);
    forall k | 1 <= k <= n
      ensures cells[k].0 == t[k].0 && cells[k].1.Tree? && cells[k].1.p.Valid()
      && Height(cells[k].1.p) == k && Weighted(cells[k].1.p, l, r) == cells[k].0
    {
      assert Realizes(cells, t, l, r, k);
    }
  }
}
