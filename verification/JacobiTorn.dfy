/** When jacob.c's results stay whole.  The parent reads each result row with a single read, so a
    row that a child could only write in part is lost.  That happens in some interleaving exactly
    when a child's result neither fits a pipe nor fills it in whole rows. */
module JacobiTorn {
  import opened JacobiProtocol
  import opened JacobiProof
  import opened JacobiRuns
  import opened JacobiLoss
  import opened JacobiProgress
  import opened JacobiHang
  import RoundRobin

  /** After the steps `ws`, child c is blocked in the middle of a write. */
  ghost predicate Torn(x: Setup, ws: seq<Proc>, c: nat)
    requires x.Valid()
  {
    Exec(x, ws).At? && c < |Exec(x, ws).s.kids| && Exec(x, ws).s.kids[c].off > 0
  }

  /** A full pipe of a child whose result does not fit ends in part of a row. */
  lemma FullIsTorn(x: Setup, h: History, s: Sys, r: Sys, c: nat, w: nat)
    requires x.Valid() && c < |x.lo| && Ok(x, h, s, r) && Front(x, s, c, 0, 0, x.cap, w) && !x.Fits(c)
    ensures s.kids[c].off > 0
  {
    RewoundKid(x, h, s, r, c);
    var n, rows := x.p.n, if s.kids[c].pc.SendRow? then s.kids[c].pc.j - x.lo[c] else x.hi[c] - x.lo[c] + 1;
    WordsIs(rows, n);
    if rows * n == x.cap {
      RoundRobin.DivUnique(n, x.cap, rows, 0);
      assert false;
    }
  }

  lemma TearsUnlessFits(x: Setup, c: nat) returns (ws: seq<Proc>)
    requires x.Valid() && c < |x.lo| && !x.Fits(c)
    ensures Torn(x, ws, c)
  {
    var h := SequentialHistory(x);
    SequentialHistoryIs(x);
    WordsIs(x.hi[c] - x.lo[c] + 1, x.p.n);
    var s := ReachChild(x, h, c);
    var w;
    s, w := Fill(x, h, s, c, 0, 0, 0, 0);
    var r := ReachedOk(x, h, s);
    FullIsTorn(x, h, s, r, c, w);
    ws := RunTo(x, s);
  }

  /** No interleaving tears a transfer exactly when every child's result fits a pipe or rows fill
      pipes without a remainder. */
  lemma TransfersStayWholeIff(x: Setup)
    requires x.Valid()
    ensures (forall ws, c :: !Torn(x, ws, c)) <==> x.ResultsFit()
  {
    if x.ResultsFit() {
      forall ws, c: nat
        ensures !Torn(x, ws, c)
      {
        if Torn(x, ws, c) {
          NeverTorn(x, ws, c);
        }
      }
    } else {
      var c :| 0 <= c < |x.lo| && !x.Fits(c);
      var ws := TearsUnlessFits(x, c);
    }
  }

  lemma NeverTorn(x: Setup, ws: seq<Proc>, c: nat)
    requires x.Valid() && x.ResultsFit() && Exec(x, ws).At? && c < |Exec(x, ws).s.kids|
    ensures Exec(x, ws).s.kids[c].off == 0
  {
    var h := SequentialHistory(x);
    SequentialHistoryIs(x);
    RunInv(x, h, ws);
    Around(x, h, Exec(x, ws).s, c);
  }
}
