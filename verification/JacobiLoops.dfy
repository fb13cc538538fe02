/** The loops of jacob.c that work in place: dividing the rows, filling the grid, and one sweep. */
module JacobiLoops {
  import opened JacobiSpec
  import opened RoundRobin

  // ----- dividing the rows -----

  function Min(a: nat, b: nat): nat { if a < b then a else b }

  lemma DivModIs(p: nat, m: nat)
    requires p > 0
    ensures m == p * (m / p) + m % p && m % p < p
  {
  }

  lemma ShareIsZero(p: nat, j: nat, m: nat)
    requires j < p
    ensures Turn(p, j, m) == 0 <==> m <= j
  {
    TurnIs(p, j, m);
    if m < p {
      DivUnique(p, m, 0, m);
    } else if m / p == 0 {
      DivModIs(p, m);
      assert false;
    }
  }

  /** The children beyond the m-th get nothing. */
  lemma {:induction false} DealtTail(p: nat, i: nat, m: nat)
    requires 0 < p && m <= i <= p
    ensures Dealt(p, i, m) == m
    decreases p - i
  {
    if i == p {
      AllDealt(p, m);
    } else {
      DealtTail(p, i + 1, m);
      ShareIsZero(p, i, m);
    }
  }

  /** The children that take part: the first min(P, N-2), with the rows 1..N-2 divided among them. */
  lemma SharesDivide(n: nat, p: nat, lo: seq<nat>, hi: seq<nat>)
    requires n >= 3 && p >= 1 && |lo| == |hi| == Min(p, n - 2)
    requires forall c :: 0 <= c < |lo| ==> lo[c] == 1 + Dealt(p, c, n - 2) && hi[c] == Dealt(p, c + 1, n - 2)
    ensures Division(n, lo, hi)
  {
    var m, k := n - 2, |lo|;
    if k == p {
      AllDealt(p, m);
    } else {
      DealtTail(p, k, m);
    }
    forall c | 0 <= c < k
      ensures 1 <= lo[c] <= hi[c] <= m
    {
      ShareIsZero(p, c, m);
      DealtMonotone(p, c + 1, k, m);
    }
    assert hi[k - 1] == Dealt(p, k, m);
  }

  lemma {:induction false} DealtMonotone(p: nat, i: nat, j: nat, m: nat)
    requires i <= j
    ensures Dealt(p, i, m) <= Dealt(p, j, m)
    decreases j - i
  {
    if i < j {
      DealtMonotone(p, i, j - 1, m);
    }
  }

  /** works[] */
  method CountWorks(m: nat, p: nat) returns (works: array<nat>)
    requires p >= 1
    ensures fresh(works) && works.Length == p
    ensures forall j :: 0 <= j < p ==> works[j] == Turn(p, j, m)
  {
    works := new nat[p];
    for i := 0 to p
      invariant forall j :: 0 <= j < i ==> works[j] == 0
    {
      works[i] := 0;
    }
    for i := 0 to m
      invariant forall j :: 0 <= j < p ==> works[j] == Turn(p, j, i)
    {
      works[i % p] := works[i % p] + 1;
    }
  }

  /** start_indices[], end_indices[] and the number of children that are not `unused`. */
  method Bounds(m: nat, p: nat, works: array<nat>) returns (start: array<nat>, end: array<nat>, live: nat)
    requires m >= 1 && p >= 1 && works.Length == p
    requires forall j :: 0 <= j < p ==> works[j] == Turn(p, j, m)
    ensures start.Length == end.Length == p && live == Min(p, m)
    ensures forall j :: 0 <= j < p ==> start[j] == 1 + Dealt(p, j, m) && end[j] == Dealt(p, j + 1, m)
  {
    start, end := new nat[p], new nat[p];
    start[0] := 1;
    end[0] := works[0];
    var unused := 0;
    assert Dealt(p, 1, m) == Dealt(p, 0, m) + Turn(p, 0, m);
    for i := 1 to p
      invariant forall j :: 0 <= j < p ==> works[j] == Turn(p, j, m)
      invariant forall j :: 0 <= j < i ==> start[j] == 1 + Dealt(p, j, m) && end[j] == Dealt(p, j + 1, m)
      invariant unused == if m < i then i - m else 0
    {
      start[i] := end[i - 1] + 1;
      end[i] := start[i] + works[i] - 1;
      ShareIsZero(p, i, m);
      if start[i] > end[i] {
        unused := unused + 1;
      }
    }
    live := p - unused;
  }

  /** The division of the rows, with one process less for the one input the program special-cases. */
  method Divide(n: nat, processes: nat) returns (start: array<nat>, end: array<nat>, live: nat)
    requires n >= 3 && processes >= 1
    ensures live == Min(if processes == 8 && n == 20 then 7 else processes, n - 2)
    ensures live <= start.Length && live <= end.Length && Division(n, start[..live], end[..live])
  {
    var p := if processes == 8 && n == 20 then processes - 1 else processes;
    var works := CountWorks(n - 2, p);
    start, end, live := Bounds(n - 2, p, works);
    SharesDivide(n, p, start[..live], end[..live]);
  }

  // ----- filling the grid -----

  /** The border: T on three sides, 0 on the last row but for its first corner. */
  function Border(n: nat, t: real, i: nat, j: nat): real {
    if i == n - 1 && j > 0 then 0.0 else t
  }

  predicate Inside(n: nat, i: nat, j: nat) { 0 < i < n - 1 && 0 < j < n - 1 }

  /** The sum of the first i turns of the loop round the border. */
  function BorderSum(t: real, n: nat, i: nat): real {
    if i == 0 then 0.0 else BorderSum(t, n, i - 1) + if i == n then t + t else t + t + t
  }

  lemma {:induction false} BorderSumIs(t: real, n: nat, i: nat)
    requires i <= n
    ensures BorderSum(t, n, i) == t * (if i < n || n == 0 then 3 * i else 3 * n - 1) as real
  {
    if i > 0 {
      BorderSumIs(t, n, i - 1);
    }
  }

  /** The loop round the border. */
  method FillBorder(n: nat, t: real, u: array2<real>) returns (sum: real)
    requires n >= 2 && u.Length0 == u.Length1 == n
    modifies u
    ensures sum == BorderSum(t, n, n)
    ensures forall i, j :: 0 <= i < n && 0 <= j < n && !Inside(n, i, j) ==> u[i, j] == Border(n, t, i, j)
  {
    sum := 0.0;
    ghost var last := n - 1;
    for i := 0 to n
      invariant sum == BorderSum(t, n, i)
      invariant forall k :: 0 <= k < i && k < last ==> u[k, 0] == t
      invariant forall k :: 0 <= k < i && k < last ==> u[k, last] == t
      invariant forall k :: 0 <= k < i ==> u[0, k] == t
      invariant forall k :: 0 < k < i ==> u[last, k] == 0.0
      invariant i == n ==> u[n - 1, 0] == t
    {
      u[i, 0] := t;
      u[i, n - 1] := t;
      u[0, i] := t;
      u[n - 1, i] := 0.0;
      sum := sum + (u[i, 0] + u[i, n - 1] + u[0, i] + u[n - 1, i]);
    }
  }

  method FillRow(n: nat, x: real, u: array2<real>, i: nat)
    requires u.Length0 == u.Length1 == n && 0 < i < n - 1
    modifies u
    ensures forall k, j :: 0 <= k < n && 0 <= j < n ==> u[k, j] == if k == i && 0 < j < n - 1 then x else old(u[k, j])
  {
    for j := 1 to n - 1
      invariant forall k, l :: 0 <= k < n && 0 <= l < n ==> u[k, l] == if k == i && 0 < l < j then x else old(u[k, l])
    {
      u[i, j] := x;
    }
  }

  /** The initial grid: the border, and its mean inside. */
  method FillGrid(n: nat, t: real) returns (u: array2<real>)
    requires n >= 2
    ensures fresh(u) && u.Length0 == u.Length1 == n
    ensures forall i, j :: 0 <= i < n && 0 <= j < n ==>
              u[i, j] == if Inside(n, i, j) then t * (3 * n - 1) as real / (4 * n) as real else Border(n, t, i, j)
  {
    u := new real[n, n];
    var mean := FillBorder(n, t, u);
    BorderSumIs(t, n, n);
    mean := mean / (4 * n) as real;
    for i := 1 to n - 1
      invariant forall k, j :: 0 <= k < n && 0 <= j < n && !Inside(n, k, j) ==> u[k, j] == Border(n, t, k, j)
      invariant forall k, j :: 0 < k < i && 0 < j < n - 1 ==> u[k, j] == mean
    {
      FillRow(n, mean, u, i);
    }
  }

  // ----- one sweep -----

  ghost function RowOf(u: array2<real>, i: nat): (r: Row)
    requires i < u.Length0
    reads u
    ensures |r| == u.Length1
  {
    seq(u.Length1, j requires 0 <= j < u.Length1 reads u => u[i, j])
  }

  ghost function GridOf(u: array2<real>): (g: Grid)
    reads u
    ensures |g| == u.Length0
    ensures forall i :: 0 <= i < |g| ==> |g[i]| == u.Length1
  {
    seq(u.Length0, i requires 0 <= i < u.Length0 reads u => RowOf(u, i))
  }

  /** One child's sweep: new values into w, the largest change, then the values back into u. */
  method SweepBlock(p: Problem, u: array2<real>, w: array2<real>, lo: nat, hi: nat) returns (diff: real)
    requires p.n >= 3 && u != w && u.Length0 == u.Length1 == w.Length0 == w.Length1 == p.n
    requires 1 <= lo <= hi <= p.n - 2
    modifies u, w
    ensures GridOf(u) == SweepRows(p, old(GridOf(u)), lo, hi)
    ensures diff == RowsDiff(p, old(GridOf(u)), lo, hi)
  {
    ghost var g := GridOf(u);
    ghost var s := SweepRows(p, g, lo, hi);
    SweptCells(p, g, lo, hi);
    forall r, c | 0 <= r < p.n && 0 <= c < p.n
      ensures u[r, c] == g[r][c]
    {
      CellsOfGrid(u, r, c);
    }
    diff := ComputeBlock(p, u, w, lo, hi, g, s);
    forall r, c | 0 <= r < p.n && 0 <= c < p.n && !(lo <= r <= hi && 1 <= c < p.n - 1)
      ensures s[r][c] == g[r][c]
    {
      assert CellIs(p, g, s, lo, hi, r, c);
    }
    CopyBlock(p, u, w, lo, hi, g, s);
    GridFromCells(u, s);
  }

  /** Two views of a grid: the cells, and the rows as sequences. */
  lemma CellsOfGrid(u: array2<real>, r: nat, c: nat)
    requires r < u.Length0 && c < u.Length1
    ensures GridOf(u)[r][c] == u[r, c]
  {
    assert GridOf(u)[r] == RowOf(u, r);
  }

  lemma GridFromCells(u: array2<real>, g: Grid)
    requires |g| == u.Length0 && forall r :: 0 <= r < |g| ==> |g[r]| == u.Length1
    requires forall r, c :: 0 <= r < u.Length0 && 0 <= c < u.Length1 ==> u[r, c] == g[r][c]
    ensures GridOf(u) == g
  {
    forall r | 0 <= r < |g|
      ensures GridOf(u)[r] == g[r]
    {
      assert RowOf(u, r) == g[r];
    }
  }

  /** Cell (r, c) of a sweep. */
  ghost predicate CellIs(p: Problem, g: Grid, s: Grid, lo: nat, hi: nat, r: nat, c: nat)
    requires p.Square(g) && p.Square(s) && r < p.n && c < p.n && 1 <= lo && hi < p.n - 1
  {
    s[r][c] == if lo <= r <= hi && 1 <= c < p.n - 1 then p.avg(g[r - 1][c], g[r + 1][c], g[r][c - 1], g[r][c + 1])
      else g[r][c]
  }

  ghost predicate Cells(p: Problem, g: Grid, s: Grid, lo: nat, hi: nat)
    requires p.Square(g) && 1 <= lo && hi < p.n - 1
  {
    && p.Square(s)
    && forall r, c {:trigger CellIs(p, g, s, lo, hi, r, c)} :: 0 <= r < p.n && 0 <= c < p.n ==>
         CellIs(p, g, s, lo, hi, r, c)
  }

  lemma SweptCells(p: Problem, g: Grid, lo: nat, hi: nat)
    requires p.n >= 3 && p.Square(g) && 1 <= lo <= hi <= p.n - 2
    ensures Cells(p, g, SweepRows(p, g, lo, hi), lo, hi)
  {
    var s := SweepRows(p, g, lo, hi);
    forall r, c | 0 <= r < p.n && 0 <= c < p.n
      ensures CellIs(p, g, s, lo, hi, r, c)
    {
      SweptCell(p, g, s, lo, hi, r, c);
    }
  }

  lemma SweptCell(p: Problem, g: Grid, s: Grid, lo: nat, hi: nat, r: nat, c: nat)
    requires p.n >= 3 && p.Square(g) && 1 <= lo <= hi <= p.n - 2 && s == SweepRows(p, g, lo, hi) && r < p.n && c < p.n
    ensures CellIs(p, g, s, lo, hi, r, c)
  {
    if lo <= r <= hi {
      assert s[r] == Stencil(p, g[r - 1], g[r], g[r + 1]);
      StencilCell(p, g[r - 1], g[r], g[r + 1], c);
    }
  }

  lemma StencilCell(p: Problem, a: Row, m: Row, b: Row, c: nat)
    requires |a| == |m| == |b| == p.n && c < p.n
    ensures Stencil(p, a, m, b)[c] == if 0 < c < p.n - 1 then p.avg(a[c], b[c], m[c - 1], m[c + 1]) else m[c]
  {
  }

  /** The change of one more row. */
  lemma RowsDiffNext(p: Problem, g: Grid, s: Grid, lo: nat, hi: nat, i: nat)
    requires p.n >= 3 && p.Square(g) && 1 <= lo <= i <= hi <= p.n - 2 && s == SweepRows(p, g, lo, hi)
    ensures RowsDiff(p, g, lo, i) == Max(RowsDiff(p, g, lo, i - 1), RowChange(p, s[i], g[i], p.n - 1))
  {
    assert s[i] == Stencil(p, g[i - 1], g[i], g[i + 1]);
  }

  method CopyBlock(p: Problem, u: array2<real>, w: array2<real>, lo: nat, hi: nat, ghost g: Grid, ghost s: Grid)
    requires p.n >= 3 && u != w && u.Length0 == u.Length1 == w.Length0 == w.Length1 == p.n
    requires p.Square(g) && p.Square(s) && 1 <= lo <= hi <= p.n - 2
    requires forall r, c :: 0 <= r < p.n && 0 <= c < p.n ==> u[r, c] == g[r][c]
    requires forall r, c :: 0 <= r < p.n && 0 <= c < p.n && !(lo <= r <= hi && 1 <= c < p.n - 1) ==> s[r][c] == g[r][c]
    requires forall r, c :: lo <= r <= hi && 1 <= c < p.n - 1 ==> w[r, c] == s[r][c]
    modifies u
    ensures forall r, c :: 0 <= r < p.n && 0 <= c < p.n ==> u[r, c] == s[r][c]
  {
    var i := lo;
    while i <= hi
      invariant lo <= i <= hi + 1
      invariant forall r, c :: 0 <= r < p.n && 0 <= c < p.n ==> u[r, c] == if lo <= r < i then s[r][c] else g[r][c]
    {
      CopyRow(p, u, w, i);
      i := i + 1;
    }
  }

  method CopyRow(p: Problem, u: array2<real>, w: array2<real>, i: nat)
    requires p.n >= 3 && u != w && u.Length0 == u.Length1 == w.Length0 == w.Length1 == p.n && i < p.n
    modifies u
    ensures forall r, c :: 0 <= r < p.n && 0 <= c < p.n ==>
              u[r, c] == if r == i && 1 <= c < p.n - 1 then w[r, c] else old(u[r, c])
  {
    for j := 1 to p.n - 1
      invariant forall r, c :: 0 <= r < p.n && 0 <= c < p.n ==>
                  u[r, c] == if r == i && 1 <= c < j then w[r, c] else old(u[r, c])
    {
      u[i, j] := w[i, j];
    }
  }

  method ComputeRow(p: Problem, u: array2<real>, w: array2<real>, i: nat, diff0: real, ghost m: Row, ghost st: Row)
    returns (diff: real)
    requires p.n >= 3 && u != w && u.Length0 == u.Length1 == w.Length0 == w.Length1 == p.n && 1 <= i <= p.n - 2
    requires |m| == |st| == p.n && diff0 >= 0.0
    requires forall c :: 0 <= c < p.n ==> u[i, c] == m[c]
    requires forall c :: 1 <= c < p.n - 1 ==> st[c] == p.avg(u[i - 1, c], u[i + 1, c], u[i, c - 1], u[i, c + 1])
    modifies w
    ensures diff == Max(diff0, RowChange(p, st, m, p.n - 1))
    ensures forall c :: 1 <= c < p.n - 1 ==> w[i, c] == st[c]
    ensures forall r, c :: 0 <= r < p.n && 0 <= c < p.n && r != i ==> w[r, c] == old(w[r, c])
  {
    diff := diff0;
    for j := 1 to p.n - 1
      invariant diff == Max(diff0, RowChange(p, st, m, j))
      invariant forall c :: 1 <= c < j ==> w[i, c] == st[c]
      invariant forall r, c :: 0 <= r < p.n && 0 <= c < p.n && r != i ==> w[r, c] == old(w[r, c])
    {
      w[i, j] := p.avg(u[i - 1, j], u[i + 1, j], u[i, j - 1], u[i, j + 1]);
      if p.dist(w[i, j], u[i, j]) > diff {
        diff := p.dist(w[i, j], u[i, j]);
      }
    }
  }

  method ComputeBlock(p: Problem, u: array2<real>, w: array2<real>, lo: nat, hi: nat, ghost g: Grid, ghost s: Grid)
    returns (diff: real)
    requires p.n >= 3 && u != w && u.Length0 == u.Length1 == w.Length0 == w.Length1 == p.n
    requires p.Square(g) && 1 <= lo <= hi <= p.n - 2 && s == SweepRows(p, g, lo, hi) && Cells(p, g, s, lo, hi)
    requires forall r, c :: 0 <= r < p.n && 0 <= c < p.n ==> u[r, c] == g[r][c]
    modifies w
    ensures diff == RowsDiff(p, g, lo, hi)
    ensures forall r, c :: lo <= r <= hi && 1 <= c < p.n - 1 ==> w[r, c] == s[r][c]
  {
    diff := 0.0;
    for i := lo to hi + 1
      invariant diff == RowsDiff(p, g, lo, i - 1) && diff >= 0.0
      invariant forall r, c :: lo <= r < i && 1 <= c < p.n - 1 ==> w[r, c] == s[r][c]
    {
      NewRow(p, u, g, s, lo, hi, i);
      diff := ComputeRow(p, u, w, i, diff, g[i], s[i]);
      RowsDiffNext(p, g, s, lo, hi, i);
    }
  }

  lemma NewRow(p: Problem, u: array2<real>, g: Grid, s: Grid, lo: nat, hi: nat, i: nat)
    requires p.n >= 3 && u.Length0 == u.Length1 == p.n && p.Square(g)
    requires 1 <= lo <= i <= hi <= p.n - 2 && Cells(p, g, s, lo, hi)
    requires forall r, c :: 0 <= r < p.n && 0 <= c < p.n ==> u[r, c] == g[r][c]
    ensures forall c :: 1 <= c < p.n - 1 ==> s[i][c] == p.avg(u[i - 1, c], u[i + 1, c], u[i, c - 1], u[i, c + 1])
  {
    forall c | 1 <= c < p.n - 1
      ensures s[i][c] == p.avg(u[i - 1, c], u[i + 1, c], u[i, c - 1], u[i, c + 1])
    {
      assert CellIs(p, g, s, lo, hi, i, c);
    }
  }
}
