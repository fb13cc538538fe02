/** What the parent of jacob.c gets from a child, whatever is lost: the words of the child's rows in a row,
    read off piece by piece, and its own initial rows wherever it has not read. */
module JacobiStream {
  import opened JacobiSpec
  import opened JacobiProtocol
  import opened JacobiProof
  import opened JacobiRuns
  import opened JacobiBarrier
  import opened JacobiLoss
  import opened JacobiProgress
  import opened JacobiHang

  // ----- rows end to end -----

  lemma RowsWords(x: Setup, h: History, k: nat, a: nat, b: nat)
    requires Sized(x, h) && a <= b <= x.p.n
    ensures |Rows(h, k, a, b)| == Words(b - a, x.p.n)
  {
    RowsLength(x, h, k, a, b);
    WordsIs(b - a, x.p.n);
  }

  /** Words o..o+m-1 of row j. */
  lemma {:induction false} PieceOfRow(x: Setup, h: History, k: nat, a: nat, b: nat, j: nat, o: nat, m: nat)
    requires Sized(x, h) && a <= j < b <= x.p.n && o + m <= x.p.n
    ensures Words(j - a, x.p.n) + o + m <= |Rows(h, k, a, b)| && |h.row(k, j)| == x.p.n
    ensures Rows(h, k, a, b)[Words(j - a, x.p.n) + o..Words(j - a, x.p.n) + o + m] == h.row(k, j)[o..o + m]
    decreases b
  {
    RowsWords(x, h, k, a, b);
    RowsWords(x, h, k, a, b - 1);
    WordsMono(j - a + 1, b - a, x.p.n);
    if j < b - 1 {
      PieceOfRow(x, h, k, a, b - 1, j, o, m);
    }
  }

  // ----- the pipe -----

  /** The words of child c's result. */
  ghost function All(x: Setup, h: History, s: Sys, c: nat): seq<real>
    requires x.Valid() && Sizes(x, s) && c < |x.lo|
  {
    Rows(h, s.kids[c].round + 1, x.lo[c], x.hi[c] + 1)
  }

  /** The pipe holds the words that are written and not read. */
  ghost predicate Piped(x: Setup, h: History, s: Sys, c: nat)
    requires x.Valid() && Sizes(x, s) && c < |x.lo|
  {
    Ending(s.kids[c].pc) ==> Waiting(All(x, h, s, c), Written(x, c, s.kids[c]), s.cp[c])
  }

  /** Of the words `all`, q are the last ones of those written. */
  ghost predicate Waiting(all: seq<real>, written: nat, q: seq<real>) {
    |q| <= written <= |all| && q == all[written - |q|..written]
  }

  /** What a write puts in. */
  lemma PushIs(x: Setup, s: Sys, c: nat)
    requires x.Valid() && Shape(x, s) && c < |x.lo| && s.kids[c].pc.SendRow? && |s.cp[c]| < x.cap && Counts(x, s, c)
    ensures var s', j, o := DoSendRow(x, s, c), s.kids[c].pc.j, s.kids[c].off;
            var m := |s'.cp[c]| - |s.cp[c]|;
            0 <= m && o + m <= x.p.n && s'.cp[c] == s.cp[c] + s.kids[c].u[j][o..o + m]
  {
  }

  lemma PushFacts(x: Setup, s: Sys, c: nat) returns (m: nat)
    requires x.Valid() && Shape(x, s) && c < |x.lo| && s.kids[c].pc.SendRow? && KidReady(x, s, c) && Counts(x, s, c)
    requires !HungUp(s, c)
    ensures var s', ch := DoSendRow(x, s, c), s.kids[c];
            && Sizes(x, s') && Ending(s'.kids[c].pc) && s'.kids[c].round == ch.round && ch.off + m <= x.p.n
            && Written(x, c, s'.kids[c]) == Written(x, c, ch) + m
            && s'.cp[c] == s.cp[c] + ch.u[ch.pc.j][ch.off..ch.off + m]
  {
    RowStep(x, s, c);
    PushIs(x, s, c);
    m := |DoSendRow(x, s, c).cp[c]| - |s.cp[c]|;
  }

  lemma MoreWaiting(all: seq<real>, written: nat, q: seq<real>, m: nat)
    requires Waiting(all, written, q) && written + m <= |all|
    ensures Waiting(all, written + m, q + all[written..written + m])
  {
  }

  /** The next m words of row j. */
  lemma MoreOfRow(x: Setup, h: History, k: nat, a: nat, b: nat, j: nat, o: nat, m: nat, row: Row, q: seq<real>)
    requires Sized(x, h) && a <= j < b <= x.p.n && o + m <= x.p.n && row == h.row(k, j) && |row| == x.p.n
    requires Waiting(Rows(h, k, a, b), Words(j - a, x.p.n) + o, q)
    ensures Waiting(Rows(h, k, a, b), Words(j - a, x.p.n) + o + m, q + row[o..o + m])
  {
    PieceOfRow(x, h, k, a, b, j, o, m);
    MoreWaiting(Rows(h, k, a, b), Words(j - a, x.p.n) + o, q, m);
  }

  /** A finishing child has the rows of the sequential program. */
  lemma OwnRow(x: Setup, h: History, s: Sys, r: Sys, c: nat)
    requires x.Valid() && Ok(x, h, s, r) && c < |x.lo| && s.kids[c].pc.SendRow?
    ensures x.lo[c] <= s.kids[c].pc.j <= x.hi[c] && s.kids[c].off < x.p.n && Counts(x, s, c)
    ensures |s.kids[c].u| == x.p.n && |s.kids[c].u[s.kids[c].pc.j]| == x.p.n
    ensures s.kids[c].u[s.kids[c].pc.j] == h.row(s.kids[c].round + 1, s.kids[c].pc.j)
  {
    RewoundKid(x, h, s, r, c);
  }

  lemma PipedPush(x: Setup, h: History, s: Sys, r: Sys, c: nat)
    requires x.Valid() && Sized(x, h) && Ok(x, h, s, r) && Shape(x, s) && c < |x.lo| && !HungUp(s, c)
    requires KidReady(x, s, c) && s.kids[c].pc.SendRow? && Piped(x, h, s, c)
    ensures Sizes(x, DoSendRow(x, s, c)) && Piped(x, h, DoSendRow(x, s, c), c)
  {
    OwnRow(x, h, s, r, c);
    var ch := s.kids[c];
    var m := PushFacts(x, s, c);
    MoreOfRow(x, h, ch.round + 1, x.lo[c], x.hi[c] + 1, ch.pc.j, ch.off, m, ch.u[ch.pc.j], s.cp[c]);
  }

  lemma PipedStart(x: Setup, h: History, s: Sys, r: Sys, c: nat)
    requires x.Valid() && Ok(x, h, s, r) && Shape(x, s) && c < |x.lo| && KidReady(x, s, c) && !Ending(s.kids[c].pc)
    ensures Sizes(x, KidStep(x, s, c)) && Piped(x, h, KidStep(x, s, c), c)
  {
    KidStepOnly(x, s, c);
    if Ending(KidStep(x, s, c).kids[c].pc) {
      StartsEmpty(x, h, s, r, c);
    }
  }

  lemma PipedRead(x: Setup, h: History, s: Sys, c: nat)
    requires x.Valid() && Shape(x, s) && Gathers(x, s.parent) && c < |x.lo| && Piped(x, h, s, c)
    requires s.parent.pc.Gather? && s.cp[s.parent.pc.i] != []
    ensures Sizes(x, DoGather(x, s)) && Piped(x, h, DoGather(x, s), c)
  {
    GatherEffect(x, s, c);
  }

  lemma PipedChild(x: Setup, h: History, s: Sys, r: Sys, d: nat, c: nat)
    requires x.Valid() && Sized(x, h) && Ok(x, h, s, r) && Shape(x, s) && d < |x.lo| && KidReady(x, s, d)
    requires c < |x.lo| && !HungUp(s, c) && Piped(x, h, s, c)
    ensures Sizes(x, KidStep(x, s, d)) && Piped(x, h, KidStep(x, s, d), c)
  {
    KidStepOnly(x, s, d);
    if d == c && s.kids[c].pc.SendRow? {
      PipedPush(x, h, s, r, c);
    } else if d == c {
      PipedStart(x, h, s, r, c);
    }
  }

  lemma PipedBarrier(x: Setup, h: History, s: Sys, r: Sys, c: nat)
    requires x.Valid() && Ok(x, h, s, r) && Shape(x, s) && ParentReady(x, s) && c < |x.lo| && Piped(x, h, s, c)
    requires InBarrier(s.parent)
    ensures Sizes(x, ParentStep(x, s)) && Piped(x, h, ParentStep(x, s), c)
  {
    var s' := ParentStep(x, s);
    assert s'.kids == s.kids && |s'.cp| == |s.cp| && |s'.pc| == |s.pc|;
    if s.parent.pc.Collect? {
      RewoundKid(x, h, s, r, c);
    } else {
      assert s'.cp == s.cp;
    }
  }

  lemma PipedParent(x: Setup, h: History, s: Sys, r: Sys, c: nat)
    requires x.Valid() && Ok(x, h, s, r) && Shape(x, s) && ParentReady(x, s) && c < |x.lo| && Piped(x, h, s, c)
    ensures Sizes(x, ParentStep(x, s)) && Piped(x, h, ParentStep(x, s), c)
  {
    if s.parent.pc.Gather? {
      PipedRead(x, h, s, c);
    } else {
      PipedBarrier(x, h, s, r, c);
    }
  }

  lemma PipedStep(x: Setup, h: History, s: Sys, r: Sys, t: Proc, c: nat)
    requires x.Valid() && Sized(x, h) && Ok(x, h, s, r) && Shape(x, s) && Ready(x, s, t) && c < |x.lo|
    requires HungUp(s, c) || Piped(x, h, s, c)
    ensures Sizes(x, Step(x, s, t)) && (HungUp(Step(x, s, t), c) || Piped(x, h, Step(x, s, t), c))
  {
    match t
    case TheParent => PipedParent(x, h, s, r, c);
    case Child(d) =>
      KidStepOnly(x, s, d);
      if !HungUp(s, c) {
        PipedChild(x, h, s, r, d, c);
      }
  }

  // ----- the rows that are not read -----

  /** The parent has not written to row j. */
  predicate Unread(x: Setup, m: Parent, j: nat) {
    j == 0 || j + 1 == x.p.n || InBarrier(m) || (m.pc.Gather? && j >= m.pc.j)
  }

  ghost predicate Untouched(x: Setup, m: Parent)
    requires x.Valid()
  {
    x.p.Square(m.u) && forall j {:trigger Unread(x, m, j)} :: 0 <= j < x.p.n && Unread(x, m, j) ==> m.u[j] == x.p.g0[j]
  }

  lemma UntouchedRead(x: Setup, s: Sys)
    requires x.Valid() && Shape(x, s) && Gathers(x, s.parent) && Untouched(x, s.parent)
    requires s.parent.pc.Gather? && s.cp[s.parent.pc.i] != []
    ensures Untouched(x, DoGather(x, s).parent)
  {
    var m := DoGather(x, s).parent;
    if s.parent.pc.i + 1 < |x.lo| {
      assert Adjacent(x.lo, x.hi, s.parent.pc.i);
    }
    forall j | 0 <= j < x.p.n && Unread(x, m, j)
      ensures m.u[j] == x.p.g0[j]
    {
      assert Unread(x, s.parent, j);
    }
  }

  lemma UntouchedStep(x: Setup, h: History, s: Sys, r: Sys, t: Proc)
    requires x.Valid() && Ok(x, h, s, r) && Shape(x, s) && Ready(x, s, t) && Untouched(x, s.parent)
    ensures Untouched(x, Step(x, s, t).parent)
  {
    match t
    case TheParent =>
      if s.parent.pc.Gather? {
        UntouchedRead(x, s);
      } else {
        var m := ParentStep(x, s).parent;
        forall j | 0 <= j < x.p.n && Unread(x, m, j)
          ensures m.u[j] == x.p.g0[j]
        {
          assert Unread(x, s.parent, j);
        }
      }
    case Child(d) => KidStepOnly(x, s, d);
  }

  // ----- every run -----

  ghost predicate Streams(x: Setup, h: History, s: Sys)
    requires x.Valid()
  {
    && Sizes(x, s) && Untouched(x, s.parent)
    && forall c {:trigger Piped(x, h, s, c)} :: 0 <= c < |x.lo| ==>
         HungUp(s, c) || (Piped(x, h, s, c) && Within(x, s, c))
  }

  lemma StreamsStep(x: Setup, h: History, s: Sys, r: Sys, t: Proc)
    requires x.Valid() && Sized(x, h) && Ok(x, h, s, r) && Shape(x, s) && Ready(x, s, t) && Streams(x, h, s)
    requires Sizes(x, Step(x, s, t))
    ensures Streams(x, h, Step(x, s, t))
  {
    UntouchedStep(x, h, s, r, t);
    var s' := Step(x, s, t);
    forall c | 0 <= c < |x.lo|
      ensures HungUp(s', c) || (Piped(x, h, s', c) && Within(x, s', c))
    {
      assert HungUp(s, c) || Piped(x, h, s, c);
      PipedStep(x, h, s, r, t, c);
      WithinStep(x, h, s, r, t, c);
    }
  }

  lemma StreamsInit(x: Setup, h: History)
    requires x.Valid()
    ensures Streams(x, h, Init(x))
  {
    var s := Init(x);
    forall c | 0 <= c < |x.lo|
      ensures Piped(x, h, s, c) && Within(x, s, c)
    {
    }
  }

  lemma {:induction false} RunStreams(x: Setup, h: History, ws: seq<Proc>)
    requires x.Valid() && Sequential(x, h) && Sized(x, h) && Exec(x, ws).At?
    ensures Streams(x, h, Exec(x, ws).s)
  {
    if ws == [] {
      StreamsInit(x, h);
    } else {
      var s, t := Exec(x, ws[..|ws| - 1]).s, ws[|ws| - 1];
      RunStreams(x, h, ws[..|ws| - 1]);
      var r := RunOk(x, h, ws[..|ws| - 1]);
      var r' := StepKeepsOk(x, h, s, r, t);
      StreamsStep(x, h, s, r, t);
    }
  }
}
