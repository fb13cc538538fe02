/** The sequential meaning of jacob.c: repeated sweeps of a square grid whose border is fixed.

    The four-point average and the distance between two cells are parameters, so that what is
    proved about the parallel program holds for any arithmetic on the cells, rounded or not. */
module JacobiSpec {

  type Row = seq<real>
  type Grid = seq<Row>

  /** N, E, L, the initial grid, and the arithmetic of a cell. */
  datatype Problem = Problem(n: nat, e: real, limit: nat, g0: Grid,
                             avg: (real, real, real, real) -> real, dist: (real, real) -> real) {
    ghost predicate Valid() {
      n >= 3 && Square(g0)
    }

    ghost predicate Square(g: Grid) {
      |g| == n && forall i :: 0 <= i < n ==> |g[i]| == n
    }
  }

  function Max(a: real, b: real): real { if b > a then b else a }

  /** The new value of a cell: the average of its four neighbours, except on the border. */
  function Cell(p: Problem, a: Row, m: Row, b: Row, j: nat): real
    requires |a| == |m| == |b| == p.n && j < p.n
  {
    if 0 < j < p.n - 1 then p.avg(a[j], b[j], m[j - 1], m[j + 1]) else m[j]
  }

  function StencilTo(p: Problem, a: Row, m: Row, b: Row, k: nat): (r: Row)
    requires |a| == |m| == |b| == p.n && k <= p.n
    ensures |r| == k && forall j :: 0 <= j < k ==> r[j] == Cell(p, a, m, b, j)
  {
    if k == 0 then [] else StencilTo(p, a, m, b, k - 1) + [Cell(p, a, m, b, k - 1)]
  }

  /** The new row between the rows `a` above and `b` below. */
  function Stencil(p: Problem, a: Row, m: Row, b: Row): (r: Row)
    requires |a| == |m| == |b| == p.n
    ensures |r| == p.n
  {
    StencilTo(p, a, m, b, p.n)
  }

  /** The largest change from row m to row st in columns 1..j-1. */
  function RowChange(p: Problem, st: Row, m: Row, j: nat): real
    requires |st| == |m| == p.n && j < p.n
  {
    if j <= 1 then 0.0 else Max(RowChange(p, st, m, j - 1), p.dist(st[j - 1], m[j - 1]))
  }

  /** The largest change in the row between `a` and `b`. */
  function RowDiff(p: Problem, a: Row, m: Row, b: Row): real
    requires |a| == |m| == |b| == p.n >= 1
  {
    RowChange(p, Stencil(p, a, m, b), m, p.n - 1)
  }

  /** The largest change in rows lo..hi of a sweep of `g`. */
  function RowsDiff(p: Problem, g: Grid, lo: nat, hi: int): real
    requires p.n >= 1 && |g| == p.n && hi < p.n - 1 && 1 <= lo
    requires forall i :: 0 <= i < p.n ==> |g[i]| == p.n
    decreases hi - lo
  {
    if hi < lo then 0.0
    else Max(RowsDiff(p, g, lo, hi - 1), RowDiff(p, g[hi - 1], g[hi], g[hi + 1]))
  }

  /** Row i after a sweep of rows lo..hi. */
  function SweptRow(p: Problem, g: Grid, lo: nat, hi: int, i: nat): (r: Row)
    requires |g| == p.n && 1 <= lo && hi < p.n - 1 && i < p.n
    requires forall i :: 0 <= i < p.n ==> |g[i]| == p.n
    ensures |r| == p.n
  {
    if lo <= i <= hi then Stencil(p, g[i - 1], g[i], g[i + 1]) else g[i]
  }

  function SweepRowsTo(p: Problem, g: Grid, lo: nat, hi: int, k: nat): (r: Grid)
    requires |g| == p.n && 1 <= lo && hi < p.n - 1 && k <= p.n
    requires forall i :: 0 <= i < p.n ==> |g[i]| == p.n
    ensures |r| == k && forall i :: 0 <= i < k ==> r[i] == SweptRow(p, g, lo, hi, i)
  {
    if k == 0 then [] else SweepRowsTo(p, g, lo, hi, k - 1) + [SweptRow(p, g, lo, hi, k - 1)]
  }

  /** Rows lo..hi swept, the others as they were. */
  function SweepRows(p: Problem, g: Grid, lo: nat, hi: int): (r: Grid)
    requires |g| == p.n && 1 <= lo && hi < p.n - 1
    requires forall i :: 0 <= i < p.n ==> |g[i]| == p.n
    ensures |r| == p.n && forall i :: 0 <= i < p.n ==> |r[i]| == p.n
  {
    SweepRowsTo(p, g, lo, hi, p.n)
  }

  /** The grid after k sweeps. */
  function After(p: Problem, k: nat): (g: Grid)
    requires p.n >= 3 && |p.g0| == p.n
    requires forall i :: 0 <= i < p.n ==> |p.g0[i]| == p.n
    ensures |g| == p.n && forall i :: 0 <= i < p.n ==> |g[i]| == p.n
  {
    if k == 0 then p.g0 else SweepRows(p, After(p, k - 1), 1, p.n - 2)
  }

  /** The largest change of sweep k + 1. */
  ghost function Diff(p: Problem, k: nat): real
    requires p.Valid()
  {
    RowsDiff(p, After(p, k), 1, p.n - 2)
  }

  /** The test that ends the program after sweep k + 1. */
  ghost predicate Stops(p: Problem, k: nat)
    requires p.Valid()
  {
    Diff(p, k) <= p.e || k + 1 > p.limit
  }

  lemma {:induction false} BorderFixed(p: Problem, k: nat)
    requires p.Valid()
    ensures After(p, k)[0] == p.g0[0] && After(p, k)[p.n - 1] == p.g0[p.n - 1]
  {
    if k > 0 {
      BorderFixed(p, k - 1);
    }
  }

  /** The change of a block of rows depends on those rows and their two neighbours alone. */
  lemma {:induction false} RowsDiffLocal(p: Problem, g: Grid, h: Grid, lo: nat, hi: int)
    requires p.n >= 1 && p.Square(g) && p.Square(h) && 1 <= lo && hi < p.n - 1
    requires forall i :: lo - 1 <= i <= hi + 1 ==> g[i] == h[i]
    ensures RowsDiff(p, g, lo, hi) == RowsDiff(p, h, lo, hi)
    decreases hi - lo
  {
    if lo <= hi {
      RowsDiffLocal(p, g, h, lo, hi - 1);
    }
  }

  lemma {:induction false} RowsDiffNonNegative(p: Problem, g: Grid, lo: nat, hi: int)
    requires p.n >= 1 && p.Square(g) && 1 <= lo && hi < p.n - 1
    ensures RowsDiff(p, g, lo, hi) >= 0.0
    decreases hi - lo
  {
    if lo <= hi {
      RowsDiffNonNegative(p, g, lo, hi - 1);
    }
  }

  /** The change of a block is the larger of the changes of its two parts. */
  lemma {:induction false} RowsDiffSplit(p: Problem, g: Grid, lo: nat, mid: nat, hi: int)
    requires p.n >= 1 && p.Square(g) && 1 <= lo <= mid + 1 && mid <= hi < p.n - 1
    ensures RowsDiff(p, g, lo, hi) == Max(RowsDiff(p, g, lo, mid), RowsDiff(p, g, mid + 1, hi))
    decreases hi - mid
  {
    RowsDiffNonNegative(p, g, lo, hi);
    if mid < hi {
      RowsDiffSplit(p, g, lo, mid, hi - 1);
    }
  }

  /** Sweeping some rows needs those rows and their two neighbours alone. */
  lemma SweepLocal(p: Problem, g: Grid, h: Grid, lo: nat, hi: int, i: nat)
    requires p.n >= 3 && p.Square(g) && p.Square(h) && 1 <= lo <= i <= hi < p.n - 1
    requires g[i - 1] == h[i - 1] && g[i] == h[i] && g[i + 1] == h[i + 1]
    ensures SweepRows(p, g, lo, hi)[i] == SweepRows(p, h, 1, p.n - 2)[i]
  {
  }

  // ----- the division of the rows among the children -----

  ghost predicate Adjacent(lo: seq<nat>, hi: seq<nat>, c: nat) {
    c + 1 < |lo| && c < |hi| && lo[c + 1] == hi[c] + 1
  }

  /** Child c of k has rows lo[c]..hi[c]; together they are rows 1..n-2, in order. */
  ghost predicate Division(n: nat, lo: seq<nat>, hi: seq<nat>) {
    && n >= 3 && |lo| == |hi| >= 1
    && lo[0] == 1 && hi[|hi| - 1] == n - 2
    && (forall c :: 0 <= c < |lo| ==> 1 <= lo[c] <= hi[c] <= n - 2)
    && (forall c :: 0 <= c < |lo| - 1 ==> Adjacent(lo, hi, c))
  }

  /** The parent's maximum over the first c children. */
  ghost function ChildrenDiff(p: Problem, g: Grid, lo: seq<nat>, hi: seq<nat>, c: nat): real
    requires p.n >= 1 && p.Square(g) && Division(p.n, lo, hi) && c <= |lo|
  {
    if c == 0 then 0.0
    else Max(ChildrenDiff(p, g, lo, hi, c - 1), RowsDiff(p, g, lo[c - 1], hi[c - 1]))
  }

  /** ... is the maximum over their rows. */
  lemma {:induction false} ChildrenDiffIs(p: Problem, g: Grid, lo: seq<nat>, hi: seq<nat>, c: nat)
    requires p.n >= 1 && p.Square(g) && Division(p.n, lo, hi) && c <= |lo|
    ensures ChildrenDiff(p, g, lo, hi, c) == RowsDiff(p, g, 1, if c == 0 then 0 else hi[c - 1])
  {
    if c == 1 {
      ChildrenDiffIs(p, g, lo, hi, 0);
      RowsDiffNonNegative(p, g, 1, hi[0]);
    } else if c > 1 {
      ChildrenDiffIs(p, g, lo, hi, c - 1);
      assert Adjacent(lo, hi, c - 2);
      RowsDiffSplit(p, g, 1, hi[c - 2], hi[c - 1]);
    }
  }

  /** The parent's maximum of the differences it received. */
  function MaxOf(ds: seq<real>): real {
    if ds == [] then 0.0 else Max(MaxOf(ds[..|ds| - 1]), ds[|ds| - 1])
  }

  lemma {:induction false} MaxOfIs(p: Problem, g: Grid, lo: seq<nat>, hi: seq<nat>, ds: seq<real>, c: nat)
    requires p.n >= 1 && p.Square(g) && Division(p.n, lo, hi) && |ds| == |lo| && c <= |ds|
    requires forall d :: 0 <= d < c ==> ds[d] == RowsDiff(p, g, lo[d], hi[d])
    ensures MaxOf(ds[..c]) == ChildrenDiff(p, g, lo, hi, c)
  {
    if c > 0 {
      MaxOfIs(p, g, lo, hi, ds, c - 1);
      assert ds[..c][..c - 1] == ds[..c - 1];
    }
  }

  /** The maximum over the children's differences is the largest change of the whole sweep. */
  lemma MaxOfAll(p: Problem, g: Grid, lo: seq<nat>, hi: seq<nat>, ds: seq<real>)
    requires p.n >= 1 && p.Square(g) && Division(p.n, lo, hi) && |ds| == |lo|
    requires forall d :: 0 <= d < |ds| ==> ds[d] == RowsDiff(p, g, lo[d], hi[d])
    ensures MaxOf(ds) == RowsDiff(p, g, 1, p.n - 2)
  {
    MaxOfIs(p, g, lo, hi, ds, |ds|);
    assert ds[..|ds|] == ds;
    ChildrenDiffIs(p, g, lo, hi, |ds|);
  }
}
