/** What the sweeps of jacob.c look for, over the reals: a grid on which every cell inside is the mean of its four
    neighbours.  Exactly those grids stay as they are, the polynomials that solve Laplace's equation are among
    them, the program stops exactly when no cell moves by more than E, and sweeping never takes a grid further
    from a solution. */
module JacobiLaplace {
  import opened JacobiSpec
  import opened JacobiBounds

  /** Cell (i, j) is the mean of its neighbours. */
  ghost predicate Balanced(g: Grid, i: nat, j: nat)
    requires 1 <= i < |g| - 1 && 1 <= j < |g[i]| - 1 && j < |g[i - 1]| && j < |g[i + 1]|
  {
    g[i - 1][j] + g[i + 1][j] + g[i][j - 1] + g[i][j + 1] == 4.0 * g[i][j]
  }

  ghost predicate Solves(n: nat, g: Grid) {
    && |g| == n && (forall i :: 0 <= i < n ==> |g[i]| == n)
    && forall i, j {:trigger Balanced(g, i, j)} :: 1 <= i < n - 1 && 1 <= j < n - 1 ==> Balanced(g, i, j)
  }

  lemma SweptCell(p: Problem, g: Grid, i: nat, j: nat)
    requires RealArithmetic(p) && p.Square(g) && 1 <= i < p.n - 1 && 1 <= j < p.n - 1
    ensures 4.0 * SweepRows(p, g, 1, p.n - 2)[i][j] == g[i - 1][j] + g[i + 1][j] + g[i][j - 1] + g[i][j + 1]
  {
    SweptRowIs(p, g, i);
  }

  lemma SweptBorder(p: Problem, g: Grid, i: nat, j: nat)
    requires p.n >= 3 && p.Square(g) && i < p.n && j < p.n && !(1 <= i < p.n - 1 && 1 <= j < p.n - 1)
    ensures SweepRows(p, g, 1, p.n - 2)[i][j] == g[i][j]
  {
    if 1 <= i < p.n - 1 {
      SweptRowIs(p, g, i);
    }
  }

  /** A sweep leaves a grid as it is if and only if the grid is a solution. */
  lemma StaysIff(p: Problem, g: Grid)
    requires RealArithmetic(p) && p.Square(g)
    ensures SweepRows(p, g, 1, p.n - 2) == g <==> Solves(p.n, g)
  {
    var s := SweepRows(p, g, 1, p.n - 2);
    forall i, j | 1 <= i < p.n - 1 && 1 <= j < p.n - 1
      ensures Balanced(g, i, j) <==> s[i][j] == g[i][j]
    {
      SweptCell(p, g, i, j);
    }
    if Solves(p.n, g) {
      forall i | 0 <= i < p.n
        ensures s[i] == g[i]
      {
        SolvedRow(p, g, i);
      }
    }
  }

  lemma SolvedRow(p: Problem, g: Grid, i: nat)
    requires RealArithmetic(p) && Solves(p.n, g) && i < p.n
    ensures SweepRows(p, g, 1, p.n - 2)[i] == g[i]
  {
    forall j | 0 <= j < p.n
      ensures SweepRows(p, g, 1, p.n - 2)[i][j] == g[i][j]
    {
      if 1 <= i < p.n - 1 && 1 <= j < p.n - 1 {
        assert Balanced(g, i, j);
        SweptCell(p, g, i, j);
      } else {
        SweptBorder(p, g, i, j);
      }
    }
  }

  // ----- polynomials -----

  /** a + b x + c y + d x y + e (x^2 - y^2), the solutions of Laplace's equation of degree two. */
  function Polynomial(a: real, b: real, c: real, d: real, e: real, x: real, y: real): real {
    a + b * x + c * y + d * (x * y) + e * (x * x - y * y)
  }

  lemma Products(k: real, u: real, v: real, w: real, z: real)
    ensures k * (u + v + w + z) == k * u + k * v + k * w + k * z
  {
  }

  /** Its value is the mean of the values one step away in the four directions. */
  lemma PolynomialIsMean(a: real, b: real, c: real, d: real, e: real, x: real, y: real)
    ensures Polynomial(a, b, c, d, e, x - 1.0, y) + Polynomial(a, b, c, d, e, x + 1.0, y)
            + Polynomial(a, b, c, d, e, x, y - 1.0) + Polynomial(a, b, c, d, e, x, y + 1.0)
         == 4.0 * Polynomial(a, b, c, d, e, x, y)
  {
    var l, r := x - 1.0, x + 1.0;
    var u, v := y - 1.0, y + 1.0;
    assert l * y + r * y + x * u + x * v == 4.0 * (x * y);
    assert l * l + r * r == 2.0 * (x * x) + 2.0 && u * u + v * v == 2.0 * (y * y) + 2.0;
    Products(b, l, r, x, x);
    Products(c, y, y, u, v);
    Products(d, l * y, r * y, x * u, x * v);
    Products(e, l * l - y * y, r * r - y * y, x * x - u * u, x * x - v * v);
    assert b * (l + r + x + x) == 4.0 * (b * x) && c * (y + y + u + v) == 4.0 * (c * y);
    assert e * (4.0 * (x * x - y * y)) == 4.0 * (e * (x * x - y * y));
    assert d * (4.0 * (x * y)) == 4.0 * (d * (x * y));
  }

  ghost predicate Sampled(g: Grid, n: nat, a: real, b: real, c: real, d: real, e: real) {
    && |g| == n && (forall i :: 0 <= i < n ==> |g[i]| == n)
    && forall i, j :: 0 <= i < n && 0 <= j < n ==> g[i][j] == Polynomial(a, b, c, d, e, i as real, j as real)
  }

  /** So every such grid is left as it is by a sweep. */
  lemma PolynomialsStay(p: Problem, g: Grid, a: real, b: real, c: real, d: real, e: real)
    requires RealArithmetic(p) && Sampled(g, p.n, a, b, c, d, e)
    ensures SweepRows(p, g, 1, p.n - 2) == g
  {
    forall i, j | 1 <= i < p.n - 1 && 1 <= j < p.n - 1
      ensures Balanced(g, i, j)
    {
      PolynomialIsMean(a, b, c, d, e, i as real, j as real);
      assert (i - 1) as real == i as real - 1.0 && (j - 1) as real == j as real - 1.0;
    }
    StaysIff(p, g);
  }

  // ----- the test for the end -----

  ghost predicate MovesAtMost(g: Grid, s: Grid, e: real, i: nat, j: nat)
    requires i < |g| && i < |s| && j < |g[i]| && j < |s[i]|
  {
    -e <= s[i][j] - g[i][j] <= e
  }

  ghost predicate NoneMoves(n: nat, g: Grid, s: Grid, e: real) {
    && |g| == |s| == n && (forall i :: 0 <= i < n ==> |g[i]| == |s[i]| == n)
    && forall i, j {:trigger MovesAtMost(g, s, e, i, j)} :: 0 <= i < n && 0 <= j < n ==> MovesAtMost(g, s, e, i, j)
  }

  /** The largest change of a sweep is at most e if and only if no cell moves by more. */
  lemma ChangeAtMostIff(p: Problem, g: Grid, e: real)
    requires RealArithmetic(p) && p.Square(g) && e >= 0.0
    ensures RowsDiff(p, g, 1, p.n - 2) <= e <==> NoneMoves(p.n, g, SweepRows(p, g, 1, p.n - 2), e)
  {
    var s := SweepRows(p, g, 1, p.n - 2);
    forall i, j | 0 <= i < p.n && 0 <= j < p.n
      ensures RowsDiff(p, g, 1, p.n - 2) <= e ==> MovesAtMost(g, s, e, i, j)
    {
      SweepIsNear(p, g, i, j);
    }
    if NoneMoves(p.n, g, s, e) {
      forall i | 1 <= i <= p.n - 2
        ensures RowAtMost(p, g, i, e)
      {
        RowMovesAtMost(p, g, s, e, i);
      }
      RowsDiffLeast(p, g, 1, p.n - 2, e);
    }
  }

  lemma StencilAtMost(p: Problem, a: Row, m: Row, b: Row, st: Row, e: real)
    requires RealArithmetic(p) && |a| == |m| == |b| == p.n && st == Stencil(p, a, m, b) && e >= 0.0
    requires forall j :: 0 <= j < p.n ==> -e <= st[j] - m[j] <= e
    ensures RowDiff(p, a, m, b) <= e
  {
    RowChangeLeast(p, st, m, p.n - 1, e);
  }

  lemma RowMovesAtMost(p: Problem, g: Grid, s: Grid, e: real, i: nat)
    requires RealArithmetic(p) && p.Square(g) && e >= 0.0 && 1 <= i <= p.n - 2
    requires s == SweepRows(p, g, 1, p.n - 2) && NoneMoves(p.n, g, s, e)
    ensures RowAtMost(p, g, i, e)
  {
    SweptRowIs(p, g, i);
    forall j | 0 <= j < p.n
      ensures -e <= s[i][j] - g[i][j] <= e
    {
      assert MovesAtMost(g, s, e, i, j);
    }
    StencilAtMost(p, g[i - 1], g[i], g[i + 1], s[i], e);
  }

  lemma NoneMovesAtAll(n: nat, g: Grid, s: Grid)
    ensures NoneMoves(n, g, s, 0.0) <==> s == g && |g| == n && forall i :: 0 <= i < n ==> |g[i]| == n
  {
    if NoneMoves(n, g, s, 0.0) {
      forall i | 0 <= i < n
        ensures s[i] == g[i]
      {
        forall j | 0 <= j < n
          ensures s[i][j] == g[i][j]
        {
          assert MovesAtMost(g, s, 0.0, i, j);
        }
      }
    }
  }

  /** The program would stop at any E, even zero, if and only if the grid is a solution. */
  lemma StillIff(p: Problem, g: Grid)
    requires RealArithmetic(p) && p.Square(g)
    ensures RowsDiff(p, g, 1, p.n - 2) == 0.0 <==> Solves(p.n, g)
  {
    RowsDiffNonNegative(p, g, 1, p.n - 2);
    ChangeAtMostIff(p, g, 0.0);
    NoneMovesAtAll(p.n, g, SweepRows(p, g, 1, p.n - 2));
    StaysIff(p, g);
  }

  // ----- the distance to a solution -----

  ghost predicate Near(n: nat, g: Grid, h: Grid, d: real) {
    && |g| == |h| == n
    && forall i {:trigger NearRow(n, g[i], h[i], d)} :: 0 <= i < n ==> NearRow(n, g[i], h[i], d)
  }

  lemma SweptNear(p: Problem, g: Grid, h: Grid, d: real, i: nat)
    requires RealArithmetic(p) && p.Square(g) && p.Square(h) && Near(p.n, g, h, d) && i < p.n
    ensures NearRow(p.n, SweepRows(p, g, 1, p.n - 2)[i], SweepRows(p, h, 1, p.n - 2)[i], d)
  {
    var s, t := SweepRows(p, g, 1, p.n - 2), SweepRows(p, h, 1, p.n - 2);
    assert NearRow(p.n, g[i], h[i], d);
    forall j | 0 <= j < p.n
      ensures NearCell(s[i], t[i], d, j)
    {
      assert NearCell(g[i], h[i], d, j);
      if 1 <= i < p.n - 1 && 1 <= j < p.n - 1 {
        assert NearRow(p.n, g[i - 1], h[i - 1], d) && NearRow(p.n, g[i + 1], h[i + 1], d);
        SweptRowIs(p, g, i);
        SweptRowIs(p, h, i);
        NextCellIsNear(p, g[i - 1], g[i], g[i + 1], h[i - 1], h[i], h[i + 1], d, j);
      } else {
        SweptBorder(p, g, i, j);
        SweptBorder(p, h, i, j);
      }
    }
  }

  lemma NextNear(p: Problem, g: Grid, s: Grid, h: Grid, d: real)
    requires RealArithmetic(p) && p.Square(g) && s == SweepRows(p, g, 1, p.n - 2)
    requires Solves(p.n, h) && Near(p.n, g, h, d)
    ensures Near(p.n, s, h, d)
  {
    StaysIff(p, h);
    forall i | 0 <= i < p.n
      ensures NearRow(p.n, s[i], h[i], d)
    {
      SweptNear(p, g, h, d, i);
    }
  }

  /** The grid never gets further from a solution: if no cell of the initial grid is off by more than d, none ever
      is. */
  lemma {:induction false} ErrorNeverGrows(p: Problem, h: Grid, d: real, k: nat)
    requires RealArithmetic(p) && Solves(p.n, h) && Near(p.n, p.g0, h, d)
    ensures Near(p.n, After(p, k), h, d)
  {
    if k > 0 {
      ErrorNeverGrows(p, h, d, k - 1);
      NextNear(p, After(p, k - 1), After(p, k), h, d);
    }
  }
}
