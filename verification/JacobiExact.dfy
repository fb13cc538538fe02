/** jacob.c computes the right grid, whatever its arithmetic, if the reads of no child's rows can lose more than
    one word.  One word is lost only at the end of a child's last row, and that is a border cell, which the
    parent has already.  JacobiWrong has the other half. */
module JacobiExact {
  import opened JacobiSpec
  import opened JacobiProtocol
  import opened JacobiProof
  import opened JacobiRuns
  import opened JacobiBarrier
  import opened JacobiLoss
  import opened JacobiProgress
  import opened JacobiHang
  import opened JacobiStream

  /** The reads of child c's rows lose at most one word. */
  ghost predicate Safe(x: Setup, c: nat)
    requires x.Valid() && c < |x.lo|
  {
    MaxLoss(x.p.n, x.cap, Share(x, c), 0) <= 1
  }

  // ----- where the rows are -----

  lemma {:induction false} SharesApart(x: Setup, c: nat, d: nat)
    requires x.Valid() && c < d < |x.lo|
    ensures x.hi[c] < x.lo[d]
    decreases d
  {
    assert Adjacent(x.lo, x.hi, d - 1);
    if c < d - 1 {
      SharesApart(x, c, d - 1);
    }
  }

  lemma {:induction false} RowOwner(x: Setup, j: nat, c: nat) returns (d: nat)
    requires x.Valid() && c < |x.lo| && 1 <= j <= x.hi[c]
    ensures d < |x.lo| && x.lo[d] <= j <= x.hi[d]
    decreases c
  {
    if x.lo[c] <= j {
      d := c;
    } else {
      assert Adjacent(x.lo, x.hi, c - 1);
      d := RowOwner(x, j, c - 1);
    }
  }

  /** The parent is at a row that comes after all rows it has read. */
  lemma ReadRowsApart(x: Setup, m: Parent, c: nat, j: nat)
    requires x.Valid() && Gathers(x, m) && m.pc.Gather? && c < |x.lo| && x.lo[c] <= j < x.lo[c] + Reads(x, m, c)
    ensures j < m.pc.j
  {
    if c < m.pc.i {
      SharesApart(x, c, m.pc.i);
    }
  }

  lemma {:induction false} SideFixed(p: Problem, k: nat, i: nat)
    requires p.Valid() && i < p.n
    ensures After(p, k)[i][0] == p.g0[i][0] && After(p, k)[i][p.n - 1] == p.g0[i][p.n - 1]
  {
    if k > 0 {
      SideFixed(p, k - 1, i);
    }
  }

  // ----- nothing that matters is lost -----

  ghost predicate RowRight(x: Setup, h: History, m: Parent, j: nat)
    requires x.Valid() && x.p.Square(m.u) && j < x.p.n
  {
    m.u[j] == h.row(m.count, j)
  }

  /** The rows read from child c are right, and nothing is lost before the last of them. */
  ghost predicate Right(x: Setup, h: History, s: Sys, c: nat)
    requires x.Valid() && Sizes(x, s) && c < |x.lo| && x.p.Square(s.parent.u)
  {
    var k := Reads(x, s.parent, c);
    && k <= Share(x, c)
    && (forall j {:trigger RowRight(x, h, s.parent, j)} :: x.lo[c] <= j < x.lo[c] + k ==> RowRight(x, h, s.parent, j))
    && (k < Share(x, c) && Ending(s.kids[c].pc) ==> Written(x, c, s.kids[c]) == Words(k, x.p.n) + |s.cp[c]|)
  }

  /** A short read that keeps within a loss of one word is the last, and one word short. */
  lemma OnlyLastIsShort(n: nat, cap: nat, all: nat, k: nat, m: nat, w: nat)
    requires 3 <= n <= cap && k < all && m < n && MaxLoss(n, cap, all, 0) <= 1
    requires WithinLoss(n, cap, all, k + 1, Words(k, n) + m, 0, w) && w == Over(Words(k, n) + m, n)
    ensures k + 1 == all && m + 1 == n
  {
    OverRows(k, n, m);
    AheadIsMore(n, cap, all - (k + 1), m);
  }

  lemma AheadIsMore(n: nat, cap: nat, rows: nat, t: nat)
    requires 0 < n <= cap && t < n
    ensures Ahead(n, cap, rows, 0, t, t) >= if rows > 0 then t else 0
  {
    FillIsLoss(n, cap, rows, t);
  }

  /** A read puts the next words of the child's result into the row. */
  lemma ReadGives(x: Setup, h: History, s: Sys, c: nat, taken: nat, m: nat)
    requires x.Valid() && Shape(x, s) && c < |x.lo| && Piped(x, h, s, c) && Ending(s.kids[c].pc)
    requires s.parent.pc.Gather? && s.parent.pc.i == c && s.cp[c] != []
    requires Written(x, c, s.kids[c]) == taken + |s.cp[c]| && m == if |s.cp[c]| <= x.p.n then |s.cp[c]| else x.p.n
    ensures var j, all := s.parent.pc.j, All(x, h, s, c);
            && taken + m <= |all| && j < x.p.n && m <= |s.parent.u[j]|
            && DoGather(x, s).parent.u == s.parent.u[j := all[taken..taken + m] + s.parent.u[j][m..]]
  {
    var all := All(x, h, s, c);
    assert Pull(s.cp[c], x.p.n).0 == s.cp[c][..m] == all[taken..taken + m];
  }

  lemma KidRound(x: Setup, h: History, s: Sys, r: Sys, c: nat)
    requires x.Valid() && Ok(x, h, s, r) && c < |x.lo| && !InBarrier(s.parent)
    ensures s.kids[c].round + 1 == s.parent.count
  {
    RewoundKid(x, h, s, r, c);
  }

  /** Where nothing is lost, they are the first words of that row. */
  lemma ReadIsRow(x: Setup, h: History, s: Sys, r: Sys, c: nat, k: nat, m: nat)
    requires x.Valid() && Sized(x, h) && Ok(x, h, s, r) && Shape(x, s) && c < |x.lo| && Piped(x, h, s, c)
    requires k < Share(x, c) && s.parent.pc == Gather(c, x.lo[c] + k) && s.cp[c] != [] && Ending(s.kids[c].pc)
    requires Written(x, c, s.kids[c]) == Words(k, x.p.n) + |s.cp[c]|
    requires m == if |s.cp[c]| <= x.p.n then |s.cp[c]| else x.p.n
    ensures var j := x.lo[c] + k;
            && j < x.p.n && |h.row(s.parent.count, j)| == x.p.n && m <= |s.parent.u[j]|
            && DoGather(x, s).parent.u == s.parent.u[j := h.row(s.parent.count, j)[..m] + s.parent.u[j][m..]]
  {
    KidRound(x, h, s, r, c);
    var j := x.lo[c] + k;
    PieceOfRow(x, h, s.parent.count, x.lo[c], x.hi[c] + 1, j, 0, m);
    ReadGives(x, h, s, c, Words(k, x.p.n), m);
    assert h.row(s.parent.count, j)[0..m] == h.row(s.parent.count, j)[..m];
  }

  /** The last cell of a row is the parent's own. */
  lemma OneShortIsRight(x: Setup, h: History, k: nat, j: nat, row: Row, m: nat)
    requires x.Valid() && Sequential(x, h) && Sized(x, h) && j < x.p.n && row == x.p.g0[j]
    requires m == x.p.n || m + 1 == x.p.n
    ensures |h.row(k, j)| == x.p.n == |row| && h.row(k, j)[..m] + row[m..] == h.row(k, j)
  {
    SideFixed(x.p, k, j);
    assert RowIs(x, h, k, j);
  }

  /** The read that the parent is about to do from child c is whole, or the last and one word short. */
  lemma ReadIsWhole(x: Setup, h: History, s: Sys, r: Sys, c: nat, k: nat, m: nat)
    requires x.Valid() && Ok(x, h, s, r) && Shape(x, s) && c < |x.lo| && Safe(x, c) && Within(x, s, c)
    requires k < Share(x, c) && s.parent.pc == Gather(c, x.lo[c] + k) && s.cp[c] != [] && Ending(s.kids[c].pc)
    requires Written(x, c, s.kids[c]) == Words(k, x.p.n) + |s.cp[c]|
    requires m == if |s.cp[c]| <= x.p.n then |s.cp[c]| else x.p.n
    ensures m == x.p.n || (k + 1 == Share(x, c) && m + 1 == x.p.n)
  {
    RewoundKid(x, h, s, r, c);
    GatherEffect(x, s, c);
    if m < x.p.n {
      WithinRead(x, h, s, r, c);
      WrittenOffset(x, s, c);
      OnlyLastIsShort(x.p.n, x.cap, Share(x, c), k, m, TornWords(x, s.kids[c]));
    }
  }

  lemma RightRead(x: Setup, h: History, s: Sys, r: Sys, c: nat, k: nat)
    requires x.Valid() && Sequential(x, h) && Sized(x, h) && Ok(x, h, s, r) && Shape(x, s) && c < |x.lo| && Safe(x, c)
    requires k < Share(x, c) && s.parent.pc == Gather(c, x.lo[c] + k) && s.cp[c] != [] && Ending(s.kids[c].pc)
    requires Piped(x, h, s, c) && Within(x, s, c) && s.parent.u[x.lo[c] + k] == x.p.g0[x.lo[c] + k]
    requires Written(x, c, s.kids[c]) == Words(k, x.p.n) + |s.cp[c]|
    ensures var s' := DoGather(x, s);
            && s'.parent.u == s.parent.u[x.lo[c] + k := h.row(s.parent.count, x.lo[c] + k)]
            && |h.row(s.parent.count, x.lo[c] + k)| == x.p.n
            && (k + 1 < Share(x, c) ==> Written(x, c, s.kids[c]) == Words(k + 1, x.p.n) + |s'.cp[c]|)
  {
    var a := |s.cp[c]|;
    var m := if a <= x.p.n then a else x.p.n;
    ReadIsWhole(x, h, s, r, c, k, m);
    ReadIsRow(x, h, s, r, c, k, m);
    OneShortIsRight(x, h, s.parent.count, x.lo[c] + k, s.parent.u[x.lo[c] + k], m);
  }

  lemma RightGather(x: Setup, h: History, s: Sys, r: Sys, c: nat)
    requires x.Valid() && Sequential(x, h) && Sized(x, h) && Ok(x, h, s, r) && Shape(x, s) && Streams(x, h, s)
    requires c < |x.lo| && Safe(x, c) && Right(x, h, s, c)
    requires s.parent.pc.Gather? && s.cp[s.parent.pc.i] != []
    ensures Sizes(x, DoGather(x, s)) && x.p.Square(DoGather(x, s).parent.u) && Right(x, h, DoGather(x, s), c)
  {
    var m, s', k := s.parent, DoGather(x, s), Reads(x, s.parent, c);
    GatherEffect(x, s, c);
    RewoundKid(x, h, s, r, c);
    if m.pc.i == c {
      assert Piped(x, h, s, c) && Unread(x, m, m.pc.j);
      RightRead(x, h, s, r, c, k);
    }
    forall j | x.lo[c] <= j < x.lo[c] + Reads(x, s'.parent, c)
      ensures RowRight(x, h, s'.parent, j)
    {
      if j < x.lo[c] + k {
        ReadRowsApart(x, m, c, j);
        assert RowRight(x, h, m, j);
      }
    }
  }

  lemma RightStep(x: Setup, h: History, s: Sys, r: Sys, t: Proc, c: nat)
    requires x.Valid() && Sequential(x, h) && Sized(x, h) && Ok(x, h, s, r) && Shape(x, s) && Ready(x, s, t)
    requires Streams(x, h, s) && c < |x.lo| && Safe(x, c) && Right(x, h, s, c)
    ensures Sizes(x, Step(x, s, t)) && x.p.Square(Step(x, s, t).parent.u) && Right(x, h, Step(x, s, t), c)
  {
    match t
    case TheParent =>
      if s.parent.pc.Gather? {
        RightGather(x, h, s, r, c);
      } else {
        RewoundKid(x, h, s, r, c);
      }
    case Child(d) => RightChild(x, h, s, r, d, c);
  }

  /** What child d does to the words of child c: those written wait in the pipe. */
  lemma WaitingMoves(x: Setup, h: History, s: Sys, r: Sys, d: nat, c: nat)
    requires x.Valid() && Ok(x, h, s, r) && Shape(x, s) && d < |x.lo| && KidReady(x, s, d) && c < |x.lo|
    ensures var s' := KidStep(x, s, d);
            && Sizes(x, s') && s'.parent == s.parent
            && (Ending(s'.kids[c].pc) && !HungUp(s, c) ==>
                  if Ending(s.kids[c].pc)
                  then Written(x, c, s'.kids[c]) + |s.cp[c]| == Written(x, c, s.kids[c]) + |s'.cp[c]|
                  else Written(x, c, s'.kids[c]) == |s'.cp[c]| == Reads(x, s.parent, c) == 0)
  {
    KidStepOnly(x, s, d);
    if d == c && Ending(s.kids[c].pc) {
      RewoundKid(x, h, s, r, c);
      RowStep(x, s, c);
    } else if d == c && Ending(KidStep(x, s, d).kids[c].pc) {
      StartsEmpty(x, h, s, r, c);
    }
  }

  lemma RightChild(x: Setup, h: History, s: Sys, r: Sys, d: nat, c: nat)
    requires x.Valid() && Ok(x, h, s, r) && Shape(x, s) && d < |x.lo| && KidReady(x, s, d)
    requires c < |x.lo| && x.p.Square(s.parent.u) && Right(x, h, s, c)
    ensures Sizes(x, KidStep(x, s, d)) && KidStep(x, s, d).parent == s.parent && Right(x, h, KidStep(x, s, d), c)
  {
    WaitingMoves(x, h, s, r, d, c);
  }

  lemma {:induction false} RunRight(x: Setup, h: History, ws: seq<Proc>, c: nat)
    requires x.Valid() && Sequential(x, h) && Sized(x, h) && Exec(x, ws).At? && c < |x.lo| && Safe(x, c)
    ensures Sizes(x, Exec(x, ws).s) && x.p.Square(Exec(x, ws).s.parent.u) && Right(x, h, Exec(x, ws).s, c)
  {
    if ws != [] {
      var s, t := Exec(x, ws[..|ws| - 1]).s, ws[|ws| - 1];
      RunRight(x, h, ws[..|ws| - 1], c);
      RunStreams(x, h, ws[..|ws| - 1]);
      var r := RunOk(x, h, ws[..|ws| - 1]);
      RightStep(x, h, s, r, t, c);
    }
  }

  /** A parent that has finished, with all rows right, has the result. */
  lemma RowsGiveResult(x: Setup, h: History, s: Sys, r: Sys)
    requires x.Valid() && Sequential(x, h) && Sized(x, h) && Ok(x, h, s, r)
    requires s.parent.pc.Finished? && Untouched(x, s.parent)
    requires forall j :: 1 <= j < x.p.n - 1 ==> RowRight(x, h, s.parent, j)
    ensures IsResult(x.p, s.parent.u, s.parent.count)
  {
    var m := s.parent;
    forall j | 1 <= j < x.p.n - 1
      ensures m.u[j] == h.row(m.count, j)
    {
      assert RowRight(x, h, m, j);
    }
    assert Unread(x, m, 0) && Unread(x, m, x.p.n - 1);
    FinishedResult(x, h, m);
  }

  lemma RightResult(x: Setup, h: History, s: Sys, r: Sys)
    requires x.Valid() && Sequential(x, h) && Sized(x, h) && Ok(x, h, s, r)
    requires s.parent.pc.Finished? && Untouched(x, s.parent)
    requires forall c :: 0 <= c < |x.lo| ==> Right(x, h, s, c)
    ensures IsResult(x.p, s.parent.u, s.parent.count)
  {
    forall j | 1 <= j < x.p.n - 1
      ensures RowRight(x, h, s.parent, j)
    {
      var c := RowOwner(x, j, |x.lo| - 1);
      assert Right(x, h, s, c);
    }
    RowsGiveResult(x, h, s, r);
  }

  /** A parent that finishes has the sequential result, if no child's reads can lose more than a word. */
  lemma SafeRefinesSequential(x: Setup, ws: seq<Proc>)
    requires x.Valid() && (forall c :: 0 <= c < |x.lo| ==> Safe(x, c))
    requires Exec(x, ws).At? && Exec(x, ws).s.parent.pc.Finished?
    ensures IsResult(x.p, Exec(x, ws).s.parent.u, Exec(x, ws).s.parent.count)
  {
    var h := SequentialHistory(x);
    SequentialHistoryIs(x);
    var r := RunOk(x, h, ws);
    RunStreams(x, h, ws);
    forall c | 0 <= c < |x.lo|
      ensures Right(x, h, Exec(x, ws).s, c)
    {
      assert Safe(x, c);
      RunRight(x, h, ws, c);
    }
    RightResult(x, h, Exec(x, ws).s, r);
  }
}
