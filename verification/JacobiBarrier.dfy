/** Every run of jacob.c can be led to the point where the parent starts to gather the results. */
module JacobiBarrier {
  import opened JacobiProtocol
  import opened JacobiProof
  import opened JacobiRuns

  lemma Extend(x: Setup, ws: seq<Proc>, w: Proc)
    requires x.Valid() && Exec(x, ws).At? && Shape(x, Exec(x, ws).s) && Ready(x, Exec(x, ws).s, w)
    ensures Exec(x, ws + [w]) == Outcome.At(Step(x, Exec(x, ws).s, w))
  {
    assert (ws + [w])[..|ws + [w]| - 1] == ws;
  }

  /** No child has started to send its result. */
  ghost predicate NoneFinishing(s: Sys) {
    forall c :: 0 <= c < |s.kids| ==> !s.kids[c].pc.SendRow? && !s.kids[c].pc.Exited?
  }

  /** The parent is still in its barrier. */
  predicate InBarrier(m: Parent) { m.pc.Collect? || m.pc.Order? }

  /** A child is told to finish only by the order 1. */
  lemma StaysUnfinished(x: Setup, s: Sys, c: nat)
    requires x.Valid() && Shape(x, s) && c < |x.lo| && KidReady(x, s, c) && NoneFinishing(s)
    requires s.kids[c].pc.RecvOrder? ==> s.pc[c][0] != 1
    ensures NoneFinishing(KidStep(x, s, c)) && KidStep(x, s, c).parent == s.parent
  {
  }

  lemma KidStaysUnfinished(x: Setup, h: History, s: Sys, i: nat, c: nat)
    requires x.Valid() && Inv(x, h, s) && Shape(x, s) && NoneFinishing(s) && c < |x.lo| && KidReady(x, s, c)
    requires s.parent.pc == Collect(i)
    ensures NoneFinishing(KidStep(x, s, c)) && KidStep(x, s, c).parent == s.parent
  {
    assert JacobiProof.At(x, h, s, c);
    StaysUnfinished(x, s, c);
  }

  /** A step towards the end of the barrier. */
  lemma BarrierStep(x: Setup, h: History, s: Sys) returns (w: Proc)
    requires x.Valid() && Sequential(x, h) && Sized(x, h) && Inv(x, h, s) && Shape(x, s)
    requires NoneFinishing(s) && InBarrier(s.parent)
    ensures Ready(x, s, w)
    ensures Inv(x, h, Step(x, s, w)) && NoneFinishing(Step(x, s, w)) && Rank(x, Step(x, s, w)) < Rank(x, s)
    ensures InBarrier(Step(x, s, w).parent) || Step(x, s, w).parent.pc == Gather(0, x.lo[0])
  {
    w := TheParent;
    if s.parent.pc.Order? {
      OrderOk(x, h, s);
    }
    if s.parent.pc.Collect? && s.cp[s.parent.pc.i] == [] {
      w := CollectMoves(x, h, s, s.parent.pc.i);
      assert w.Child?;
      KidStepOk(x, h, s, w.c);
      KidDescends(x, h, s, w.c);
      KidsRankUpdate(x, s.kids, w.c, KidStep(x, s, w.c).kids[w.c]);
      KidStaysUnfinished(x, h, s, s.parent.pc.i, w.c);
    } else {
      ParentStepOk(x, h, s);
      ParentDescends(x, h, s);
    }
  }

  lemma {:induction false} ReachGather(x: Setup, h: History, ws: seq<Proc>) returns (ws': seq<Proc>)
    requires x.Valid() && Sequential(x, h) && Sized(x, h) && Exec(x, ws).At?
    requires Inv(x, h, Exec(x, ws).s) && NoneFinishing(Exec(x, ws).s) && InBarrier(Exec(x, ws).s.parent)
    ensures Exec(x, ws').At? && Inv(x, h, Exec(x, ws').s) && NoneFinishing(Exec(x, ws').s)
    ensures Exec(x, ws').s.parent.pc == Gather(0, x.lo[0])
    decreases Rank(x, Exec(x, ws).s)
  {
    var s := Exec(x, ws).s;
    CountBound(x, h, s.parent);
    RankNonNegative(x, h, s);
    InvShape(x, h, s);
    var w := BarrierStep(x, h, s);
    Extend(x, ws, w);
    if InBarrier(Step(x, s, w).parent) {
      ws' := ReachGather(x, h, ws + [w]);
    } else {
      ws' := ws + [w];
    }
  }
}
