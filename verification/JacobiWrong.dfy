/** Exactly when every run of jacob.c computes the right grid, for its own arithmetic over the reals and its own
    initial grid.  If the reads of some child's rows can lose two words, then a program that stops after one
    sweep has a run that ends with a wrong grid: a cell inside keeps the initial mean, or takes the border
    value, and neither is the average of its neighbours.  Only at T = 0, where all cells are always zero, does
    nothing that is lost matter. */
module JacobiWrong {
  import opened JacobiSpec
  import opened JacobiProtocol
  import opened JacobiProof
  import opened JacobiRuns
  import opened JacobiLoss
  import opened JacobiProgress
  import opened JacobiHang
  import opened JacobiStream
  import opened JacobiExact
  import JacobiBounds
  import JacobiLoops

  /** The problem of jacob.c for the border value T = t. */
  ghost predicate OfCode(p: Problem, t: real) {
    JacobiBounds.RealArithmetic(p) && JacobiBounds.IsStart(p.n, t, p.g0)
  }

  // ----- one sweep of the initial grid -----

  /** The mean of the border. */
  function Mean(n: nat, t: real): real
    requires n >= 3
  {
    t * (3 * n - 1) as real / (4 * n) as real
  }

  lemma MeanDiffers(n: nat, t: real)
    requires n >= 3 && t != 0.0
    ensures var m := Mean(n, t); m != t && 2.0 * m != t && 2.0 * m != 3.0 * t && 4.0 * m != 3.0 * t
  {
    var k := n as real;
    assert Mean(n, t) * (4.0 * k) == t * (3.0 * k - 1.0);
    assert t * (k + 1.0) != 0.0 && t * (k - 1.0) != 0.0 && t * (3.0 * k + 1.0) != 0.0;
  }

  /** A cell beside the left or the right border, between a and b, gets neither the mean nor the border value. */
  lemma BesideBorder(t: real, m: real, a: real, b: real)
    requires t != 0.0 && m != t && 2.0 * m != t && 2.0 * m != 3.0 * t
    requires (a == m && (b == m || b == 0.0)) || (a == t && b == m)
    ensures JacobiBounds.Average(a, b, t, m) != t && JacobiBounds.Average(a, b, m, t) != m
  {
  }

  lemma SweptOnce(p: Problem, i: nat, j: nat)
    requires JacobiBounds.RealArithmetic(p) && 1 <= i < p.n - 1 && 1 <= j < p.n - 1
    ensures After(p, 1)[i][j]
         == JacobiBounds.Average(p.g0[i - 1][j], p.g0[i + 1][j], p.g0[i][j - 1], p.g0[i][j + 1])
  {
    assert After(p, 0) == p.g0;
    assert After(p, 1) == SweepRows(p, After(p, 0), 1, p.n - 2);
    assert SweptRow(p, p.g0, 1, p.n - 2, i) == Stencil(p, p.g0[i - 1], p.g0[i], p.g0[i + 1]);
  }

  lemma StartIs(p: Problem, t: real, i: nat, j: nat)
    requires OfCode(p, t) && i < p.n && j < p.n
    ensures p.g0[i][j] == if JacobiLoops.Inside(p.n, i, j) then Mean(p.n, t) else JacobiLoops.Border(p.n, t, i, j)
  {
  }

  /** The first cell inside a row does not get the border value, nor the last one the mean. */
  lemma SweptDiffers(p: Problem, t: real, i: nat)
    requires OfCode(p, t) && t != 0.0 && 1 <= i < p.n - 1
    ensures After(p, 1)[i][1] != t && After(p, 1)[i][p.n - 2] != Mean(p.n, t)
  {
    var n, m := p.n, Mean(p.n, t);
    MeanDiffers(n, t);
    SweptOnce(p, i, 1);
    SweptOnce(p, i, n - 2);
    StartIs(p, t, i - 1, 1);
    StartIs(p, t, i + 1, 1);
    StartIs(p, t, i, 0);
    StartIs(p, t, i, 2);
    StartIs(p, t, i - 1, n - 2);
    StartIs(p, t, i + 1, n - 2);
    StartIs(p, t, i, n - 3);
    StartIs(p, t, i, n - 1);
    if n > 3 {
      BesideBorder(t, m, p.g0[i - 1][1], p.g0[i + 1][1]);
      BesideBorder(t, m, p.g0[i - 1][n - 2], p.g0[i + 1][n - 2]);
    }
  }

  // ----- a cell the parent has not got -----

  /** Row j is read, and a cell inside it is not that of the first sweep. */
  ghost predicate BadAt(x: Setup, m: Parent, c: nat, j: nat, col: nat)
    requires x.Valid() && c < |x.lo| && x.p.Square(m.u)
  {
    && x.lo[c] <= j < x.lo[c] + Reads(x, m, c) && j < x.p.n && 0 < col < x.p.n - 1
    && m.u[j][col] != After(x.p, 1)[j][col]
  }

  ghost predicate Bad(x: Setup, m: Parent, c: nat)
    requires x.Valid() && c < |x.lo| && x.p.Square(m.u)
  {
    exists j, col {:trigger BadAt(x, m, c, j, col)} :: BadAt(x, m, c, j, col)
  }

  /** Two words lost leave such a cell. */
  ghost predicate Lossy(x: Setup, s: Sys, c: nat)
    requires x.Valid() && Sizes(x, s) && c < |x.lo| && x.p.Square(s.parent.u)
  {
    Ending(s.kids[c].pc) && !HungUp(s, c) ==>
      Words(Reads(x, s.parent, c), x.p.n) + |s.cp[c]| <= Written(x, c, s.kids[c]) + 1 || Bad(x, s.parent, c)
  }

  lemma BadStays(x: Setup, s: Sys, c: nat)
    requires x.Valid() && Shape(x, s) && Gathers(x, s.parent) && c < |x.lo| && Bad(x, s.parent, c)
    requires s.parent.pc.Gather? && s.cp[s.parent.pc.i] != []
    ensures x.p.Square(DoGather(x, s).parent.u) && Bad(x, DoGather(x, s).parent, c)
  {
    var j, col :| BadAt(x, s.parent, c, j, col);
    ReadRowsApart(x, s.parent, c, j);
    GatherEffect(x, s, c);
    assert BadAt(x, DoGather(x, s).parent, c, j, col);
  }

  /** The first word of the next row is its border cell. */
  lemma RowStart(x: Setup, h: History, s: Sys, c: nat, k: nat)
    requires x.Valid() && Sequential(x, h) && Sized(x, h) && Sizes(x, s) && c < |x.lo| && k < Share(x, c)
    ensures Words(k, x.p.n) < |All(x, h, s, c)| && All(x, h, s, c)[Words(k, x.p.n)] == x.p.g0[x.lo[c] + k][0]
  {
    var kk, j, o, all := s.kids[c].round + 1, x.lo[c] + k, Words(k, x.p.n), All(x, h, s, c);
    PieceOfRow(x, h, kk, x.lo[c], x.hi[c] + 1, j, 0, 1);
    SideFixed(x.p, kk, j);
    assert RowIs(x, h, kk, j);
    assert all[o] == all[o..o + 1][0] == h.row(kk, j)[0..1][0];
  }

  /** The words of row j that a read of m words of `all`, from word o on, changes and does not change. */
  lemma ShortRow(x: Setup, t: real, all: seq<real>, o: nat, m: nat, j: nat, row: Row)
    requires x.Valid() && OfCode(x.p, t) && t != 0.0 && 1 <= j < x.p.n - 1
    requires o + m <= |all| && m <= x.p.n && row == all[o..o + m] + x.p.g0[j][m..]
    ensures |row| == x.p.n
    ensures m + 1 < x.p.n ==> row[x.p.n - 2] != After(x.p, 1)[j][x.p.n - 2]
    ensures m > 1 && all[o + 1] == t ==> row[1] != After(x.p, 1)[j][1]
  {
    SweptDiffers(x.p, t, j);
    StartIs(x.p, t, j, x.p.n - 2);
  }

  /** The row after a read, and that it is read. */
  lemma RowRead(x: Setup, h: History, s: Sys, c: nat, j: nat, taken: nat, m: nat)
    requires x.Valid() && Gathers(x, s.parent) && Shape(x, s) && c < |x.lo| && Piped(x, h, s, c)
    requires x.lo[c] <= j <= x.hi[c] && s.parent.pc == Gather(c, j) && s.cp[c] != [] && Ending(s.kids[c].pc)
    requires Untouched(x, s.parent) && Written(x, c, s.kids[c]) == taken + |s.cp[c]|
    requires m == if |s.cp[c]| <= x.p.n then |s.cp[c]| else x.p.n
    ensures var u, all := DoGather(x, s).parent.u, All(x, h, s, c);
            && x.p.Square(u) && taken + m <= |all| && u[j] == all[taken..taken + m] + x.p.g0[j][m..]
    ensures j < x.lo[c] + Reads(x, DoGather(x, s).parent, c)
  {
    assert Unread(x, s.parent, j);
    GatherEffect(x, s, c);
    ReadGives(x, h, s, c, taken, m);
  }

  /** A short read, or one that starts a word early, leaves such a cell. */
  lemma LossyRead(x: Setup, h: History, s: Sys, t: real, c: nat, k: nat, taken: nat, m: nat)
    requires x.Valid() && OfCode(x.p, t) && t != 0.0 && Sequential(x, h) && Sized(x, h)
    requires Gathers(x, s.parent) && Shape(x, s) && c < |x.lo| && Piped(x, h, s, c)
    requires k < Share(x, c) && s.parent.pc == Gather(c, x.lo[c] + k) && s.cp[c] != [] && Ending(s.kids[c].pc)
    requires Untouched(x, s.parent) && Written(x, c, s.kids[c]) == taken + |s.cp[c]|
    requires m == if |s.cp[c]| <= x.p.n then |s.cp[c]| else x.p.n
    ensures x.p.Square(DoGather(x, s).parent.u)
    ensures m + 1 < x.p.n ==> BadAt(x, DoGather(x, s).parent, c, x.lo[c] + k, x.p.n - 2)
    ensures m > 1 && taken + 1 == Words(k, x.p.n) ==> BadAt(x, DoGather(x, s).parent, c, x.lo[c] + k, 1)
  {
    var j := x.lo[c] + k;
    RowRead(x, h, s, c, j, taken, m);
    RowStart(x, h, s, c, k);
    StartIs(x.p, t, j, 0);
    ShortRow(x, t, All(x, h, s, c), taken, m, j, DoGather(x, s).parent.u[j]);
  }

  /** A read keeps the loss small, or leaves such a cell. */
  lemma LossyGather(x: Setup, h: History, s: Sys, r: Sys, t: real, c: nat)
    requires x.Valid() && OfCode(x.p, t) && t != 0.0 && Sequential(x, h) && Sized(x, h) && Ok(x, h, s, r) && Shape(x, s)
    requires Streams(x, h, s) && c < |x.lo| && Lossy(x, s, c) && s.parent.pc.Gather? && s.cp[s.parent.pc.i] != []
    ensures Sizes(x, DoGather(x, s)) && x.p.Square(DoGather(x, s).parent.u) && Lossy(x, DoGather(x, s), c)
  {
    var m, s', k := s.parent, DoGather(x, s), Reads(x, s.parent, c);
    GatherEffect(x, s, c);
    RewoundKid(x, h, s, r, c);
    if Bad(x, m, c) {
      BadStays(x, s, c);
    } else if m.pc.i == c {
      assert Piped(x, h, s, c);
      var taken := Written(x, c, s.kids[c]) - |s.cp[c]|;
      var got := if |s.cp[c]| <= x.p.n then |s.cp[c]| else x.p.n;
      LossyRead(x, h, s, t, c, k, taken, got);
      assert got + 1 < x.p.n ==> Bad(x, s'.parent, c);
      assert got > 1 && taken + 1 == Words(k, x.p.n) ==> Bad(x, s'.parent, c);
    }
  }

  lemma LossyChild(x: Setup, h: History, s: Sys, r: Sys, d: nat, c: nat)
    requires x.Valid() && Ok(x, h, s, r) && Shape(x, s) && d < |x.lo| && KidReady(x, s, d)
    requires c < |x.lo| && Lossy(x, s, c)
    ensures Sizes(x, KidStep(x, s, d)) && KidStep(x, s, d).parent == s.parent && Lossy(x, KidStep(x, s, d), c)
  {
    WaitingMoves(x, h, s, r, d, c);
  }

  lemma LossyStep(x: Setup, h: History, s: Sys, r: Sys, t: real, w: Proc, c: nat)
    requires x.Valid() && OfCode(x.p, t) && t != 0.0 && Sequential(x, h) && Sized(x, h) && Ok(x, h, s, r) && Shape(x, s)
    requires Ready(x, s, w) && Streams(x, h, s) && c < |x.lo| && Lossy(x, s, c)
    ensures Sizes(x, Step(x, s, w)) && x.p.Square(Step(x, s, w).parent.u) && Lossy(x, Step(x, s, w), c)
  {
    match w
    case TheParent =>
      if s.parent.pc.Gather? {
        LossyGather(x, h, s, r, t, c);
      } else {
        RewoundKid(x, h, s, r, c);
      }
    case Child(d) => LossyChild(x, h, s, r, d, c);
  }

  lemma {:induction false} RunLossy(x: Setup, h: History, ws: seq<Proc>, t: real, c: nat)
    requires x.Valid() && OfCode(x.p, t) && t != 0.0 && Sequential(x, h) && Sized(x, h) && Exec(x, ws).At? && c < |x.lo|
    ensures Sizes(x, Exec(x, ws).s) && x.p.Square(Exec(x, ws).s.parent.u) && Lossy(x, Exec(x, ws).s, c)
  {
    if ws != [] {
      var s, w := Exec(x, ws[..|ws| - 1]).s, ws[|ws| - 1];
      RunLossy(x, h, ws[..|ws| - 1], t, c);
      RunStreams(x, h, ws[..|ws| - 1]);
      var r := RunOk(x, h, ws[..|ws| - 1]);
      LossyStep(x, h, s, r, t, w, c);
    }
  }

  // ----- and it stays to the end -----

  lemma BadStep(x: Setup, h: History, s: Sys, r: Sys, t: Proc, c: nat)
    requires x.Valid() && Ok(x, h, s, r) && Shape(x, s) && Ready(x, s, t) && c < |x.lo| && Bad(x, s.parent, c)
    ensures x.p.Square(Step(x, s, t).parent.u) && Bad(x, Step(x, s, t).parent, c)
  {
    match t
    case TheParent =>
      assert s.parent.pc.Gather?;
      BadStays(x, s, c);
    case Child(d) => KidStepOnly(x, s, d);
  }

  /** The parent has finished with a grid that is not the result. */
  ghost predicate EndsWrong(x: Setup, ws: seq<Proc>)
    requires x.Valid()
  {
    && Exec(x, ws).At? && Exec(x, ws).s.parent.pc.Finished?
    && !IsResult(x.p, Exec(x, ws).s.parent.u, Exec(x, ws).s.parent.count)
  }

  lemma FirstResult(p: Problem, u: Grid, k: nat)
    requires p.Valid() && Stops(p, 0) && IsResult(p, u, k)
    ensures u == After(p, 1)
  {
  }

  lemma BadIsWrong(x: Setup, m: Parent, c: nat)
    requires x.Valid() && Stops(x.p, 0) && x.p.Square(m.u) && c < |x.lo| && Bad(x, m, c)
    ensures !IsResult(x.p, m.u, m.count)
  {
    var j, col :| BadAt(x, m, c, j, col);
    if IsResult(x.p, m.u, m.count) {
      FirstResult(x.p, m.u, m.count);
    }
  }

  lemma {:induction false} RunsOn(x: Setup, h: History, s: Sys, r: Sys, c: nat) returns (ws: seq<Proc>)
    requires x.Valid() && Stops(x.p, 0) && Sequential(x, h) && Sized(x, h) && Reached(x, s) && Ok(x, h, s, r)
    requires c < |x.lo| && Bad(x, s.parent, c)
    ensures EndsWrong(x, ws)
    decreases Left(x, s, r)
  {
    OkShape(x, h, s, r);
    LeftNonNegative(x, h, s, r);
    if s.parent.pc.Finished? {
      BadIsWrong(x, s.parent, c);
      ws := RunTo(x, s);
    } else {
      var w := SomeoneMoves(x, h, s, r);
      var r' := StepKeepsOk(x, h, s, r, w);
      BadStep(x, h, s, r, w, c);
      ReachedNext(x, s, w);
      ws := RunsOn(x, h, Step(x, s, w), r', c);
    }
  }

  lemma BehindIsBad(x: Setup, h: History, s: Sys, t: real, c: nat, d: nat)
    requires x.Valid() && OfCode(x.p, t) && t != 0.0 && Sequential(x, h) && Sized(x, h) && Behind(x, s, c, d) && d >= 2
    ensures x.p.Square(s.parent.u) && Bad(x, s.parent, c)
  {
    var ws := RunTo(x, s);
    RunLossy(x, h, ws, t, c);
  }

  /** A schedule that ends with a wrong grid, for every problem of the program that is done after one sweep. */
  lemma LossEndsWrong(x: Setup, t: real, c: nat) returns (ws: seq<Proc>)
    requires x.Valid() && OfCode(x.p, t) && t != 0.0 && Stops(x.p, 0) && c < |x.lo| && !Safe(x, c)
    ensures EndsWrong(x, ws)
  {
    var d := MaxLoss(x.p.n, x.cap, Share(x, c), 0);
    var h := SequentialHistory(x);
    SequentialHistoryIs(x);
    var s := ReachChild(x, h, c);
    s := PlayLoss(x, h, s, c, 0, 0, 0, 0, d);
    BehindIsBad(x, h, s, t, c, d);
    var r := ReachedOk(x, h, s);
    ws := RunsOn(x, h, s, r, c);
  }

  // ----- nothing to lose -----

  ghost predicate Zeros(q: seq<real>) { forall i :: 0 <= i < |q| ==> q[i] == 0.0 }

  ghost predicate Blank(g: Grid) { forall i :: 0 <= i < |g| ==> Zeros(g[i]) }

  lemma StaysBlank(p: Problem, k: nat)
    requires OfCode(p, 0.0)
    ensures Blank(After(p, k))
  {
    var g := After(p, k);
    JacobiBounds.ValuesStayInRange(p, 0.0, k);
    forall i, j | 0 <= i < p.n && 0 <= j < p.n
      ensures g[i][j] == 0.0
    {
      assert JacobiBounds.CellWithin(g, 0.0, i, j);
    }
  }

  lemma {:induction false} RowsBlank(x: Setup, h: History, k: nat, a: nat, b: nat)
    requires x.Valid() && OfCode(x.p, 0.0) && Sequential(x, h) && Sized(x, h) && b <= x.p.n
    ensures Zeros(Rows(h, k, a, b))
    decreases b
  {
    if a < b {
      RowsBlank(x, h, k, a, b - 1);
      StaysBlank(x.p, k);
      assert RowIs(x, h, k, b - 1);
    }
  }

  lemma BlankRow(u: Grid, j: nat, all: seq<real>, o: nat, m: nat)
    requires Blank(u) && Zeros(all) && j < |u| && m <= |u[j]| && o + m <= |all|
    ensures Blank(u[j := all[o..o + m] + u[j][m..]])
  {
    var row := all[o..o + m] + u[j][m..];
    assert Zeros(row);
  }

  lemma BlankGather(x: Setup, h: History, s: Sys, r: Sys)
    requires x.Valid() && OfCode(x.p, 0.0) && Sequential(x, h) && Sized(x, h) && Ok(x, h, s, r) && Shape(x, s)
    requires Streams(x, h, s) && Blank(s.parent.u) && s.parent.pc.Gather? && s.cp[s.parent.pc.i] != []
    ensures Blank(DoGather(x, s).parent.u)
  {
    var c := s.parent.pc.i;
    RewoundKid(x, h, s, r, c);
    assert Piped(x, h, s, c);
    var taken := Written(x, c, s.kids[c]) - |s.cp[c]|;
    var got := if |s.cp[c]| <= x.p.n then |s.cp[c]| else x.p.n;
    ReadGives(x, h, s, c, taken, got);
    RowsBlank(x, h, s.kids[c].round + 1, x.lo[c], x.hi[c] + 1);
    BlankRow(s.parent.u, s.parent.pc.j, All(x, h, s, c), taken, got);
  }

  lemma BlankStep(x: Setup, h: History, s: Sys, r: Sys, w: Proc)
    requires x.Valid() && OfCode(x.p, 0.0) && Sequential(x, h) && Sized(x, h) && Ok(x, h, s, r) && Shape(x, s)
    requires Ready(x, s, w) && Streams(x, h, s) && Blank(s.parent.u)
    ensures Blank(Step(x, s, w).parent.u)
  {
    match w
    case TheParent =>
      if s.parent.pc.Gather? {
        BlankGather(x, h, s, r);
      }
    case Child(d) => KidStepOnly(x, s, d);
  }

  lemma {:induction false} RunBlank(x: Setup, h: History, ws: seq<Proc>)
    requires x.Valid() && OfCode(x.p, 0.0) && Sequential(x, h) && Sized(x, h) && Exec(x, ws).At?
    ensures Blank(Exec(x, ws).s.parent.u)
  {
    if ws == [] {
      StaysBlank(x.p, 0);
    } else {
      RunBlank(x, h, ws[..|ws| - 1]);
      RunStreams(x, h, ws[..|ws| - 1]);
      var r := RunOk(x, h, ws[..|ws| - 1]);
      BlankStep(x, h, Exec(x, ws[..|ws| - 1]).s, r, ws[|ws| - 1]);
    }
  }

  /** At T = 0 every run that finishes has the sequential result. */
  lemma BlankIsRight(x: Setup, ws: seq<Proc>)
    requires x.Valid() && OfCode(x.p, 0.0) && Exec(x, ws).At? && Exec(x, ws).s.parent.pc.Finished?
    ensures IsResult(x.p, Exec(x, ws).s.parent.u, Exec(x, ws).s.parent.count)
  {
    var h := SequentialHistory(x);
    SequentialHistoryIs(x);
    var r := RunOk(x, h, ws);
    RunStreams(x, h, ws);
    RunBlank(x, h, ws);
    var m := Exec(x, ws).s.parent;
    StaysBlank(x.p, m.count);
    forall j | 1 <= j < x.p.n - 1
      ensures RowRight(x, h, m, j)
    {
      assert RowIs(x, h, m.count, j);
    }
    RowsGiveResult(x, h, Exec(x, ws).s, r);
  }

  // ----- exactly when -----

  ghost predicate AllSafe(x: Setup)
    requires x.Valid()
  {
    forall c :: 0 <= c < |x.lo| ==> Safe(x, c)
  }

  /** Problem by problem, for those that are done after one sweep: every run that finishes has the sequential
      result if and only if T is zero or the reads of no child's rows can lose more than one word. */
  lemma OneSweepCorrectIff(x: Setup, t: real)
    requires x.Valid() && OfCode(x.p, t) && Stops(x.p, 0)
    ensures (forall ws :: !EndsWrong(x, ws)) <==> t == 0.0 || AllSafe(x)
  {
    if t == 0.0 || AllSafe(x) {
      forall ws
        ensures !EndsWrong(x, ws)
      {
        NeverWrong(x, t, ws);
      }
    } else {
      var c :| 0 <= c < |x.lo| && !Safe(x, c);
      var ws := LossEndsWrong(x, t, c);
    }
  }

  lemma NeverWrong(x: Setup, t: real, ws: seq<Proc>)
    requires x.Valid() && OfCode(x.p, t) && (t == 0.0 || AllSafe(x))
    ensures !EndsWrong(x, ws)
  {
    if Exec(x, ws).At? && Exec(x, ws).s.parent.pc.Finished? {
      if t == 0.0 {
        BlankIsRight(x, ws);
      } else {
        SafeRefinesSequential(x, ws);
      }
    }
  }

  /** The program with border value t on a grid of the size of x, divided in the same way over the same pipes. */
  ghost predicate SameSizes(x: Setup, y: Setup, t: real) {
    y.Valid() && OfCode(y.p, t) && y.p.n == x.p.n && y.lo == x.lo && y.hi == x.hi && y.cap == x.cap
  }

  /** The program with L = 0, whatever the E. */
  function Once(n: nat, t: real, e: real): (p: Problem)
    requires n >= 3
  {
    Problem(n, e, 0, seq(n, i requires 0 <= i < n => seq(n, j requires 0 <= j < n =>
      if JacobiLoops.Inside(n, i, j) then Mean(n, t) else JacobiLoops.Border(n, t, i, j))),
      JacobiBounds.Average, JacobiBounds.Distance)
  }

  /** For a grid of a size and a border value t, with any E and L: every run of the program that finishes has the
      sequential result, if and only if t is zero or the reads of no child's rows can lose more than one word. */
  lemma CorrectIff(x: Setup, t: real)
    requires x.Valid()
    ensures (forall y, ws {:trigger EndsWrong(y, ws)} :: SameSizes(x, y, t) ==> !EndsWrong(y, ws))
            <==> t == 0.0 || AllSafe(x)
  {
    if t == 0.0 || AllSafe(x) {
      forall y, ws | SameSizes(x, y, t)
        ensures !EndsWrong(y, ws)
      {
        assert forall c :: 0 <= c < |x.lo| ==> Safe(y, c) == Safe(x, c);
        NeverWrong(y, t, ws);
      }
    } else {
      var c :| 0 <= c < |x.lo| && !Safe(x, c);
      var y := x.(p := Once(x.p.n, t, 0.0));
      assert Safe(y, c) == Safe(x, c);
      var ws := LossEndsWrong(y, t, c);
      assert SameSizes(x, y, t);
    }
  }
}
