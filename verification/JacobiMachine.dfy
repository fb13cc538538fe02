/** jacob.c on this kernel: pipes of 2048 bytes, and a user stack of one page, which holds the two grids
    of floats.  Grids that fit the stack have results that fit the pipes, so no transfer is cut in two and
    no run hangs.  On a larger stack some would. */
module JacobiMachine {
  import opened JacobiProtocol
  import opened JacobiRuns
  import opened JacobiLoss
  import opened JacobiHang
  import opened JacobiTorn

  const PIPESIZE: nat := 2048
  const PGSIZE: nat := 4096

  /** The pipes of this kernel, in words of 4 bytes. */
  ghost predicate OnXv6(x: Setup) { x.Valid() && x.cap == PIPESIZE / 4 }

  /** The two grids u and w are on the stack. */
  predicate FitsStack(n: nat) { 2 * 4 * n * n < PGSIZE }

  lemma StackHolds(n: nat)
    requires FitsStack(n)
    ensures n <= 22
  {
    assert n >= 23 ==> n * n >= 23 * 23;
  }

  lemma Area(rows: nat, n: nat)
    requires rows <= 20 && n <= 22
    ensures rows * n <= 440
  {
    assert rows * n <= 20 * n;
  }

  lemma ShareFits(x: Setup, c: nat)
    requires OnXv6(x) && x.p.n <= 22 && c < |x.lo|
    ensures x.Fits(c)
  {
    Area(x.hi[c] - x.lo[c] + 1, x.p.n);
  }

  lemma ResultsFitOnXv6(x: Setup)
    requires OnXv6(x) && FitsStack(x.p.n)
    ensures x.ResultsFit()
  {
    StackHolds(x.p.n);
    forall c | 0 <= c < |x.lo|
      ensures x.Fits(c)
    {
      ShareFits(x, c);
    }
  }

  /** Every run of jacob.c that the stack allows: a parent that finishes has the sequential result. */
  lemma ResultOnXv6(x: Setup, ws: seq<Proc>)
    requires OnXv6(x) && FitsStack(x.p.n) && Exec(x, ws).At? && Exec(x, ws).s.parent.pc.Finished?
    ensures IsResult(x.p, Exec(x, ws).s.parent.u, Exec(x, ws).s.parent.count)
  {
    ResultsFitOnXv6(x);
    ParallelRefinesSequential(x, ws);
  }

  /** Some process can move until all have finished, and no transfer is cut in two. */
  lemma ProgressOnXv6(x: Setup, ws: seq<Proc>)
    requires OnXv6(x) && FitsStack(x.p.n) && Exec(x, ws).At?
    ensures !Hangs(x, ws) && forall c: nat :: !Torn(x, ws, c)
    ensures var s := Exec(x, ws).s;
            && Shape(x, s)
            && ((exists w :: Ready(x, s, w))
                || (s.parent.pc.Finished? && forall c :: 0 <= c < |s.kids| ==> s.kids[c].pc.Exited?))
  {
    ResultsFitOnXv6(x);
    FittingLoss(x, |x.lo| - 1);
    NoDeadlock(x, ws);
    TransfersStayWholeIff(x);
  }

  /** Six reads of a full pipe of 512 words lose 88. */
  lemma SixReads(rows: nat, t: nat)
    requires rows >= 6 && t < 100
    ensures MaxLoss(100, 512, rows, t) >= 88 + MaxLoss(100, 512, rows - 6, Spin(100, 512, t))
  {
    var u := Spin(100, 512, t);
    DrainRead(100, 512, rows, 512, u, 100);
    DrainRead(100, 512, rows - 1, 412, u, 100);
    DrainRead(100, 512, rows - 2, 312, u, 100);
    DrainRead(100, 512, rows - 3, 212, u, 100);
    DrainRead(100, 512, rows - 4, 112, u, 100);
    DrainRead(100, 512, rows - 5, 12, u, 12);
  }

  lemma {:induction false} ManyReads(f: nat, t: nat)
    requires t < 100
    ensures MaxLoss(100, 512, 6 * f, t) >= 88 * f
  {
    if f > 0 {
      SixReads(6 * f, t);
      ManyReads(f - 1, Spin(100, 512, t));
    }
  }

  lemma LosesAPipe(rows: nat)
    requires rows >= 36
    ensures MaxLoss(100, 512, rows, 0) > 512
  {
    ManyReads(6, 0);
    LossMono(100, 512, 36, rows, 0);
  }

  /** With a larger stack, 100 columns and 36 rows for the last child would be enough to hang. */
  lemma HundredColumnsHang(x: Setup) returns (ws: seq<Proc>)
    requires OnXv6(x) && x.p.n == 100 && Share(x, |x.lo| - 1) >= 36
    ensures Hangs(x, ws)
  {
    LosesAPipe(Share(x, |x.lo| - 1));
    ws := LastChildHangs(x);
  }
}
