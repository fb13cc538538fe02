/** Over the reals, the sweeps of jacob.c obey a discrete maximum principle, and the change the
    parent sees never grows from one round to the next. */
module JacobiBounds {
  import opened JacobiSpec
  import opened JacobiLoops

  function Average(a: real, b: real, c: real, d: real): real { (a + b + c + d) / 4.0 }

  /** fabsm(a - b) */
  function Distance(a: real, b: real): (r: real)
    ensures r >= 0.0
  {
    if a - b < 0.0 then b - a else a - b
  }

  ghost predicate RealArithmetic(p: Problem) {
    && p.Valid()
    && (forall a, b, c, d :: p.avg(a, b, c, d) == Average(a, b, c, d))
    && (forall a, b :: p.dist(a, b) == Distance(a, b))
  }

  ghost predicate Within(g: Grid, t: real) {
    forall i, j {:trigger CellWithin(g, t, i, j)} :: 0 <= i < |g| && 0 <= j < |g[i]| ==> CellWithin(g, t, i, j)
  }

  ghost predicate CellWithin(g: Grid, t: real, i: nat, j: nat)
    requires i < |g| && j < |g[i]|
  {
    0.0 <= g[i][j] <= t
  }

  // ----- the maximum principle -----

  lemma StencilWithin(p: Problem, a: Row, m: Row, b: Row, t: real, j: nat)
    requires RealArithmetic(p) && |a| == |m| == |b| == p.n && j < p.n
    requires 0.0 <= a[j] <= t && 0.0 <= m[j] <= t && 0.0 <= b[j] <= t
    requires 0 < j < p.n - 1 ==> 0.0 <= m[j - 1] <= t && 0.0 <= m[j + 1] <= t
    ensures 0.0 <= Stencil(p, a, m, b)[j] <= t
  {
  }

  lemma SweepWithin(p: Problem, g: Grid, t: real)
    requires RealArithmetic(p) && p.Square(g) && Within(g, t)
    ensures Within(SweepRows(p, g, 1, p.n - 2), t)
  {
    var s := SweepRows(p, g, 1, p.n - 2);
    forall i, j | 0 <= i < p.n && 0 <= j < p.n
      ensures CellWithin(s, t, i, j)
    {
      SweptCellWithin(p, g, s, t, i, j);
    }
  }

  lemma SweptCellWithin(p: Problem, g: Grid, s: Grid, t: real, i: nat, j: nat)
    requires RealArithmetic(p) && p.Square(g) && Within(g, t) && s == SweepRows(p, g, 1, p.n - 2) && i < p.n && j < p.n
    ensures 0.0 <= s[i][j] <= t
  {
    if 1 <= i <= p.n - 2 {
      SweptRowIs(p, g, i);
      assert CellWithin(g, t, i - 1, j) && CellWithin(g, t, i, j) && CellWithin(g, t, i + 1, j);
      assert 0 < j < p.n - 1 ==> CellWithin(g, t, i, j - 1) && CellWithin(g, t, i, j + 1);
      StencilWithin(p, g[i - 1], g[i], g[i + 1], t, j);
    } else {
      assert s[i] == g[i] && CellWithin(g, t, i, j);
    }
  }

  lemma NextWithin(p: Problem, t: real, k: nat)
    requires RealArithmetic(p) && k > 0 && Within(After(p, k - 1), t)
    ensures Within(After(p, k), t)
  {
    SweepWithin(p, After(p, k - 1), t);
  }

  /** Values between 0 and T stay there. */
  lemma {:induction false} MaximumPrinciple(p: Problem, t: real, k: nat)
    requires RealArithmetic(p) && Within(p.g0, t)
    ensures Within(After(p, k), t)
  {
    if k > 0 {
      MaximumPrinciple(p, t, k - 1);
      NextWithin(p, t, k);
    }
  }

  /** The grid that FillGrid makes. */
  ghost predicate IsStart(n: nat, t: real, g: Grid) {
    && n >= 3 && |g| == n
    && forall i, j :: 0 <= i < n && 0 <= j < |g[i]| ==>
         g[i][j] == if Inside(n, i, j) then t * (3 * n - 1) as real / (4 * n) as real else Border(n, t, i, j)
  }

  lemma ShareOfT(n: nat, t: real)
    requires n >= 3 && t >= 0.0
    ensures 0.0 <= t * (3 * n - 1) as real / (4 * n) as real <= t
  {
    var a, b := (3 * n - 1) as real, (4 * n) as real;
    assert 0.0 <= t * a <= t * b;
    assert t * b / b == t;
  }

  /** From the initial grid on, every value in every round lies between 0 and T. */
  lemma ValuesStayInRange(p: Problem, t: real, k: nat)
    requires RealArithmetic(p) && t >= 0.0 && IsStart(p.n, t, p.g0)
    ensures Within(After(p, k), t)
  {
    ShareOfT(p.n, t);
    forall i, j | 0 <= i < |p.g0| && 0 <= j < |p.g0[i]|
      ensures CellWithin(p.g0, t, i, j)
    {
    }
    MaximumPrinciple(p, t, k);
  }

  // ----- the change as a least upper bound -----

  lemma {:induction false} RowChangeBounds(p: Problem, st: Row, m: Row, j: nat, c: nat)
    requires |st| == |m| == p.n && j < p.n && 1 <= c < j
    ensures p.dist(st[c], m[c]) <= RowChange(p, st, m, j)
  {
    if c < j - 1 {
      RowChangeBounds(p, st, m, j - 1, c);
    }
  }

  lemma {:induction false} RowChangeLeast(p: Problem, st: Row, m: Row, j: nat, d: real)
    requires |st| == |m| == p.n && j < p.n && d >= 0.0
    requires forall c :: 1 <= c < j ==> p.dist(st[c], m[c]) <= d
    ensures RowChange(p, st, m, j) <= d
  {
    if j > 1 {
      RowChangeLeast(p, st, m, j - 1, d);
    }
  }

  lemma {:induction false} RowsDiffBounds(p: Problem, g: Grid, lo: nat, hi: int, i: nat)
    requires p.n >= 3 && p.Square(g) && 1 <= lo <= i <= hi < p.n - 1
    ensures RowDiff(p, g[i - 1], g[i], g[i + 1]) <= RowsDiff(p, g, lo, hi)
    decreases hi - lo
  {
    if i < hi {
      RowsDiffBounds(p, g, lo, hi - 1, i);
    }
  }

  ghost predicate RowAtMost(p: Problem, g: Grid, i: nat, d: real)
    requires p.Square(g) && 1 <= i < p.n - 1
  {
    RowDiff(p, g[i - 1], g[i], g[i + 1]) <= d
  }

  lemma {:induction false} RowsDiffLeast(p: Problem, g: Grid, lo: nat, hi: int, d: real)
    requires p.n >= 3 && p.Square(g) && 1 <= lo && hi < p.n - 1 && d >= 0.0
    requires forall i :: lo <= i <= hi ==> RowAtMost(p, g, i, d)
    ensures RowsDiff(p, g, lo, hi) <= d
    decreases hi - lo
  {
    if lo <= hi {
      assert RowAtMost(p, g, hi, d);
      RowsDiffLeast(p, g, lo, hi - 1, d);
    }
  }

  lemma SweepIsNear(p: Problem, g: Grid, i: nat, j: nat)
    requires RealArithmetic(p) && p.Square(g) && i < p.n && j < p.n
    ensures Distance(SweepRows(p, g, 1, p.n - 2)[i][j], g[i][j]) <= RowsDiff(p, g, 1, p.n - 2)
  {
    RowsDiffNonNegative(p, g, 1, p.n - 2);
    var s := SweepRows(p, g, 1, p.n - 2);
    if 1 <= i <= p.n - 2 {
      var st := Stencil(p, g[i - 1], g[i], g[i + 1]);
      assert s[i] == st;
      RowsDiffBounds(p, g, 1, p.n - 2, i);
      if 1 <= j < p.n - 1 {
        RowChangeBounds(p, st, g[i], p.n - 1, j);
      }
    } else {
      assert s[i] == g[i];
    }
  }

  /** Averages of near values are near. */
  lemma AverageIsNear(a: real, b: real, c: real, e: real, a': real, b': real, c': real, e': real, d: real)
    requires Distance(a', a) <= d && Distance(b', b) <= d && Distance(c', c) <= d && Distance(e', e) <= d
    ensures Distance(Average(a', b', c', e'), Average(a, b, c, e)) <= d
  {
  }

  ghost predicate NearRow(n: nat, r: Row, s: Row, d: real) {
    |r| == |s| == n && forall j {:trigger NearCell(r, s, d, j)} :: 0 <= j < n ==> NearCell(r, s, d, j)
  }

  ghost predicate NearCell(r: Row, s: Row, d: real, j: nat)
    requires j < |r| == |s|
  {
    Distance(s[j], r[j]) <= d
  }

  lemma NextCellIsNear(p: Problem, a: Row, m: Row, b: Row, a': Row, m': Row, b': Row, d: real, j: nat)
    requires RealArithmetic(p) && 1 <= j < p.n - 1
    requires NearRow(p.n, a, a', d) && NearRow(p.n, m, m', d) && NearRow(p.n, b, b', d)
    ensures p.dist(Stencil(p, a', m', b')[j], Stencil(p, a, m, b)[j]) <= d
  {
    assert NearCell(a, a', d, j) && NearCell(b, b', d, j) && NearCell(m, m', d, j - 1) && NearCell(m, m', d, j + 1);
    AverageIsNear(a[j], b[j], m[j - 1], m[j + 1], a'[j], b'[j], m'[j - 1], m'[j + 1], d);
  }

  /** A row whose surroundings moved by at most d in one sweep moves by at most d in the next. */
  lemma NextRowIsNear(p: Problem, a: Row, m: Row, b: Row, a': Row, m': Row, b': Row, d: real)
    requires RealArithmetic(p) && d >= 0.0
    requires NearRow(p.n, a, a', d) && NearRow(p.n, m, m', d) && NearRow(p.n, b, b', d)
    requires m' == Stencil(p, a, m, b)
    ensures RowDiff(p, a', m', b') <= d
  {
    var st := Stencil(p, a', m', b');
    forall c | 1 <= c < p.n - 1
      ensures p.dist(st[c], m'[c]) <= d
    {
      NextCellIsNear(p, a, m, b, a', m', b', d, c);
    }
    RowChangeLeast(p, st, m', p.n - 1, d);
  }

  /** The largest change of a sweep is at most that of the sweep before. */
  lemma ChangeNeverGrows(p: Problem, k: nat)
    requires RealArithmetic(p)
    ensures Diff(p, k + 1) <= Diff(p, k)
  {
    SweepContracts(p, After(p, k));
  }

  lemma SweptRowIsNear(p: Problem, g: Grid, i: nat)
    requires RealArithmetic(p) && p.Square(g) && i < p.n
    ensures NearRow(p.n, g[i], SweepRows(p, g, 1, p.n - 2)[i], RowsDiff(p, g, 1, p.n - 2))
  {
    var s, d := SweepRows(p, g, 1, p.n - 2), RowsDiff(p, g, 1, p.n - 2);
    forall j | 0 <= j < p.n
      ensures NearCell(g[i], s[i], d, j)
    {
      SweepIsNear(p, g, i, j);
    }
  }

  /** Stated on any bound, so that the change itself stays out of the proof. */
  lemma SweptRowContracts(p: Problem, g: Grid, s: Grid, d: real, i: nat)
    requires RealArithmetic(p) && p.Square(g) && p.Square(s) && 1 <= i <= p.n - 2 && d >= 0.0
    requires NearRow(p.n, g[i - 1], s[i - 1], d) && NearRow(p.n, g[i], s[i], d) && NearRow(p.n, g[i + 1], s[i + 1], d)
    requires s[i] == Stencil(p, g[i - 1], g[i], g[i + 1])
    ensures RowAtMost(p, s, i, d)
  {
    NextRowIsNear(p, g[i - 1], g[i], g[i + 1], s[i - 1], s[i], s[i + 1], d);
  }

  lemma SweptRowIs(p: Problem, g: Grid, i: nat)
    requires p.n >= 3 && p.Square(g) && 1 <= i <= p.n - 2
    ensures SweepRows(p, g, 1, p.n - 2)[i] == Stencil(p, g[i - 1], g[i], g[i + 1])
  {
  }

  lemma SweptRowAtMost(p: Problem, g: Grid, s: Grid, d: real, i: nat)
    requires RealArithmetic(p) && p.Square(g) && 1 <= i <= p.n - 2 && d >= 0.0
    requires s == SweepRows(p, g, 1, p.n - 2) && d == RowsDiff(p, g, 1, p.n - 2)
    ensures RowAtMost(p, s, i, d)
  {
    SweptRowIsNear(p, g, i - 1);
    SweptRowIsNear(p, g, i);
    SweptRowIsNear(p, g, i + 1);
    SweptRowIs(p, g, i);
    SweptRowContracts(p, g, s, d, i);
  }

  lemma SweepContracts(p: Problem, g: Grid)
    requires RealArithmetic(p) && p.Square(g)
    ensures RowsDiff(p, SweepRows(p, g, 1, p.n - 2), 1, p.n - 2) <= RowsDiff(p, g, 1, p.n - 2)
  {
    RowsDiffNonNegative(p, g, 1, p.n - 2);
    var s, d := SweepRows(p, g, 1, p.n - 2), RowsDiff(p, g, 1, p.n - 2);
    forall i | 1 <= i <= p.n - 2
      ensures RowAtMost(p, s, i, d)
    {
      SweptRowAtMost(p, g, s, d, i);
    }
    RowsDiffLeast(p, s, 1, p.n - 2, d);
  }
}
