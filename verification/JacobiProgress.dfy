/** Progress of jacob.c whenever a row fits a pipe, whether or not the children's results do: no
    process is ever stuck while the parent still works, and every run ends.

    A run is tied to the invariant of JacobiProof by rewinding: a child that has taken the order to
    finish is put back to where the order waits for it, and a parent that gathers to where it
    starts to.  What happens after that is only counted, in words. */
module JacobiProgress {
  import opened JacobiSpec
  import opened JacobiProtocol
  import opened JacobiProof
  import opened JacobiRuns
  import opened JacobiBarrier
  import opened JacobiLoss

  predicate Ending(pc: Pc) { pc.SendRow? || pc.Exited? }

  function RewindParent(x: Setup, m: Parent): Parent
    requires |x.lo| >= 1
  {
    if InBarrier(m) then m else m.(u := x.p.g0, pc := Gather(0, x.lo[0]))
  }

  ghost predicate KidRewound(s: Sys, r: Sys, c: nat)
    requires c < |s.kids| == |s.cp| == |s.pc| == |r.kids| == |r.cp| == |r.pc|
  {
    var ch := s.kids[c];
    if Ending(ch.pc) then r.kids[c] == ch.(pc := RecvOrder, off := 0) && r.cp[c] == [] && r.pc[c] == [1]
    else r.kids[c] == ch && r.cp[c] == s.cp[c] && r.pc[c] == s.pc[c]
  }

  ghost predicate Rewound(x: Setup, s: Sys, r: Sys)
    requires x.Valid()
  {
    && Sizes(x, s) && Sizes(x, r) && r.up == s.up && r.down == s.down && r.parent == RewindParent(x, s.parent)
    && forall c {:trigger KidRewound(s, r, c)} :: 0 <= c < |x.lo| ==> KidRewound(s, r, c)
  }

  // ----- the words of the results -----

  /** The rows of child c that the parent has read, or has tried to. */
  function Reads(x: Setup, m: Parent, c: nat): nat
    requires c < |x.lo| && c < |x.hi|
  {
    var total := if x.lo[c] <= x.hi[c] then x.hi[c] - x.lo[c] + 1 else 0;
    match m.pc
    case Gather(i, j) => if c < i then total else if c == i && x.lo[c] <= j then j - x.lo[c] else 0
    case Finished => total
    case _ => 0
  }

  /** The words that a child has written of its result, if none of its writes has failed. */
  function Written(x: Setup, c: nat, ch: Kid): nat
    requires c < |x.lo| && c < |x.hi|
  {
    match ch.pc
    case SendRow(j) => if x.lo[c] <= j then Words(j - x.lo[c], x.p.n) + ch.off else 0
    case Exited => if x.lo[c] <= x.hi[c] then Words(x.hi[c] - x.lo[c] + 1, x.p.n) else 0
    case _ => 0
  }

  /** The parent's reads from child c have come short by d words or more. */
  ghost predicate Lags(x: Setup, s: Sys, c: nat, d: nat)
    requires x.Valid() && Sizes(x, s) && c < |x.lo|
  {
    Ending(s.kids[c].pc) ==> Written(x, c, s.kids[c]) + d <= Words(Reads(x, s.parent, c), x.p.n) + |s.cp[c]|
  }

  ghost predicate Counts(x: Setup, s: Sys, c: nat)
    requires x.Valid() && Sizes(x, s) && c < |x.lo|
  {
    var ch := s.kids[c];
    && (ch.pc.SendRow? ==> x.lo[c] <= ch.pc.j <= x.hi[c] && ch.off < x.p.n)
    && |s.cp[c]| <= x.cap
    && (Reads(x, s.parent, c) > 0 ==> Ending(ch.pc))
    && (HungUp(s, c) || Lags(x, s, c, 0))
  }

  ghost predicate Gathers(x: Setup, m: Parent)
    requires x.Valid()
  {
    && x.p.Square(m.u) && (InBarrier(m) ==> m.u == x.p.g0)
    && (m.pc.Gather? ==> m.pc.i < |x.lo| && x.lo[m.pc.i] <= m.pc.j <= x.hi[m.pc.i])
  }

  ghost predicate Counted(x: Setup, s: Sys)
    requires x.Valid() && Sizes(x, s)
  {
    Gathers(x, s.parent) && forall c {:trigger Counts(x, s, c)} :: 0 <= c < |x.lo| ==> Counts(x, s, c)
  }

  ghost predicate Ok(x: Setup, h: History, s: Sys, r: Sys)
    requires x.Valid()
  {
    Rewound(x, s, r) && Inv(x, h, r) && Counted(x, s)
  }

  lemma OkShape(x: Setup, h: History, s: Sys, r: Sys)
    requires x.Valid() && Ok(x, h, s, r)
    ensures Shape(x, s) && Shape(x, r)
  {
    InvShape(x, h, r);
    forall c | 0 <= c < |x.lo|
      ensures x.p.Square(s.kids[c].u) && (s.kids[c].pc.SendRow? ==> s.kids[c].pc.j < x.p.n)
    {
      assert KidRewound(s, r, c) && Counts(x, s, c);
    }
  }

  /** Before the parent gathers, rewinding changes nothing about the children of Collect. */
  lemma RewoundKid(x: Setup, h: History, s: Sys, r: Sys, c: nat)
    requires x.Valid() && Ok(x, h, s, r) && c < |x.lo|
    ensures KidRewound(s, r, c) && Counts(x, s, c) && JacobiProof.At(x, h, r, c) && r.kids[c].off == 0
    ensures s.parent.pc.Collect? ==> !Ending(s.kids[c].pc)
    ensures s.parent.pc.Order? && c >= s.parent.pc.i ==> !Ending(s.kids[c].pc)
    ensures !InBarrier(s.parent) && !Ending(s.kids[c].pc) ==>
              s.kids[c].pc.RecvOrder? && s.cp[c] == [] && s.pc[c] == [1]
  {
    assert KidRewound(s, r, c) && Counts(x, s, c) && JacobiProof.At(x, h, r, c);
  }

  // ----- what is left to do in the end -----

  /** Words that child c has still to write, and one for the order. */
  function KidLeft(x: Setup, c: nat, ch: Kid): nat
    requires c < |x.lo| && c < |x.hi|
  {
    var total := if x.lo[c] <= x.hi[c] then x.hi[c] - x.lo[c] + 1 else 0;
    match ch.pc
    case SendRow(j) =>
      var words := if j <= x.hi[c] then Words(x.hi[c] - j + 1, x.p.n) else 0;
      if ch.off <= words then words - ch.off else 0
    case Exited => 0
    case _ => Words(total, x.p.n) + 1
  }

  function KidsLeft(x: Setup, kids: seq<Kid>): nat
    requires |kids| <= |x.lo| && |kids| <= |x.hi|
  {
    if kids == [] then 0 else KidsLeft(x, kids[..|kids| - 1]) + KidLeft(x, |kids| - 1, kids[|kids| - 1])
  }

  function ParentLeft(x: Setup, m: Parent): nat {
    match m.pc
    case Gather(_, j) => if j <= x.p.n then x.p.n - j else 0
    case Finished => 0
    case _ => x.p.n
  }

  lemma {:induction false} KidsLeftUpdate(x: Setup, kids: seq<Kid>, c: nat, ch: Kid)
    requires c < |kids| <= |x.lo| && |kids| <= |x.hi|
    ensures KidsLeft(x, kids[c := ch]) == KidsLeft(x, kids) - KidLeft(x, c, kids[c]) + KidLeft(x, c, ch)
  {
    var n := |kids| - 1;
    if c == n {
      assert kids[c := ch][..n] == kids[..n];
    } else {
      KidsLeftUpdate(x, kids[..n], c, ch);
      assert kids[c := ch][..n] == kids[..n][c := ch];
    }
  }

  /** No run has more steps left than this. */
  ghost function Left(x: Setup, s: Sys, r: Sys): int
    requires x.Valid() && Sizes(x, s) && Sizes(x, r)
  {
    Rank(x, r) + ParentLeft(x, s.parent) + KidsLeft(x, s.kids)
  }

  // ----- a step of a child -----

  /** Only child c and its pipes change. */
  ghost predicate OnlyKid(s: Sys, s': Sys, c: nat)
  {
    && c < |s.kids| == |s'.kids| == |s.cp| == |s'.cp| == |s.pc| == |s'.pc| && s'.parent == s.parent
    && s'.kids == s.kids[c := s'.kids[c]] && s'.cp == s.cp[c := s'.cp[c]] && s'.pc == s.pc[c := s'.pc[c]]
  }

  lemma KidStepOnly(x: Setup, s: Sys, c: nat)
    requires x.Valid() && Shape(x, s) && c < |x.lo| && KidReady(x, s, c)
    ensures OnlyKid(s, KidStep(x, s, c), c)
  {
  }

  /** A child that takes the order to finish has nothing in its pipe. */
  lemma StartsEmpty(x: Setup, h: History, s: Sys, r: Sys, c: nat)
    requires x.Valid() && Ok(x, h, s, r) && Shape(x, s) && c < |x.lo| && KidReady(x, s, c) && !Ending(s.kids[c].pc)
    requires Ending(KidStep(x, s, c).kids[c].pc)
    ensures var s' := KidStep(x, s, c);
            Written(x, c, s'.kids[c]) == |s'.cp[c]| == s'.kids[c].off == Reads(x, s.parent, c) == 0
  {
    RewoundKid(x, h, s, r, c);
  }

  lemma CountedKid(x: Setup, s: Sys, s': Sys, c: nat)
    requires x.Valid() && Sizes(x, s) && Sizes(x, s') && Counted(x, s) && OnlyKid(s, s', c) && Counts(x, s', c)
    ensures Counted(x, s')
  {
    forall d | 0 <= d < |x.lo|
      ensures Counts(x, s', d)
    {
      assert Counts(x, s, d);
    }
  }

  lemma RewoundSame(x: Setup, s: Sys, s': Sys, r: Sys, c: nat)
    requires x.Valid() && Rewound(x, s, r) && Sizes(x, s') && OnlyKid(s, s', c) && s'.up == s.up && s'.down == s.down
    requires KidRewound(s', r, c)
    ensures Rewound(x, s', r)
  {
    forall d | 0 <= d < |x.lo|
      ensures KidRewound(s', r, d)
    {
      assert KidRewound(s, r, d);
    }
  }

  lemma RewoundBoth(x: Setup, s: Sys, s': Sys, r: Sys, r': Sys, c: nat)
    requires x.Valid() && Rewound(x, s, r) && Sizes(x, s') && Sizes(x, r') && OnlyKid(s, s', c) && OnlyKid(r, r', c)
    requires s'.up == r'.up && s'.down == r'.down && KidRewound(s', r', c)
    ensures Rewound(x, s', r')
  {
    forall d | 0 <= d < |x.lo|
      ensures KidRewound(s', r', d)
    {
      assert KidRewound(s, r, d);
    }
  }

  /** A child that is not ending, and not told to, does the same in the rewound state. */
  lemma SameKidStep(x: Setup, s: Sys, r: Sys, c: nat)
    requires x.Valid() && Shape(x, s) && Shape(x, r) && c < |x.lo| && KidReady(x, s, c) && Rewound(x, s, r)
    requires KidRewound(s, r, c) && !Ending(s.kids[c].pc) && (s.kids[c].pc.RecvOrder? ==> s.pc[c][0] != 1)
    ensures KidReady(x, r, c)
    ensures var s', r' := KidStep(x, s, c), KidStep(x, r, c);
            && s'.up == r'.up && s'.down == r'.down && s'.kids[c] == r'.kids[c] && s'.cp[c] == r'.cp[c]
               && s'.pc[c] == r'.pc[c]
            && !Ending(s'.kids[c].pc)
  {
  }

  lemma WorkStepOk(x: Setup, h: History, s: Sys, r: Sys, c: nat) returns (r': Sys)
    requires x.Valid() && Sequential(x, h) && Sized(x, h) && Ok(x, h, s, r) && Shape(x, s) && c < |x.lo|
    requires KidReady(x, s, c) && !Ending(s.kids[c].pc) && (s.kids[c].pc.RecvOrder? ==> s.pc[c][0] != 1)
    ensures Ok(x, h, KidStep(x, s, c), r') && Left(x, KidStep(x, s, c), r') < Left(x, s, r)
  {
    OkShape(x, h, s, r);
    RewoundKid(x, h, s, r, c);
    SameKidStep(x, s, r, c);
    var s' := KidStep(x, s, c);
    r' := KidStep(x, r, c);
    KidStepOnly(x, s, c);
    KidStepOnly(x, r, c);
    KidStepOk(x, h, r, c);
    KidDescends(x, h, r, c);
    KidsRankUpdate(x, r.kids, c, r'.kids[c]);
    KidsLeftUpdate(x, s.kids, c, s'.kids[c]);
    RewoundBoth(x, s, s', r, r', c);
    WorkCounts(x, h, s, r, s', r', c);
    CountedKid(x, s, s', c);
  }

  lemma WorkCounts(x: Setup, h: History, s: Sys, r: Sys, s': Sys, r': Sys, c: nat)
    requires x.Valid() && Ok(x, h, s, r) && Rewound(x, s', r') && Inv(x, h, r') && c < |x.lo|
    requires OnlyKid(s, s', c) && !Ending(s.kids[c].pc) && !Ending(s'.kids[c].pc)
    ensures Counts(x, s', c)
  {
    RewoundKid(x, h, s, r, c);
    assert KidRewound(s', r', c) && JacobiProof.At(x, h, r', c);
  }

  /** The order to finish: the rewound state is the same. */
  lemma FinishStepOk(x: Setup, h: History, s: Sys, r: Sys, c: nat)
    requires x.Valid() && Ok(x, h, s, r) && Shape(x, s) && c < |x.lo|
    requires s.kids[c].pc.RecvOrder? && s.pc[c] != [] && s.pc[c][0] == 1
    ensures Ok(x, h, DoRecvOrder(x, s, c), r) && Left(x, DoRecvOrder(x, s, c), r) < Left(x, s, r)
  {
    RewoundKid(x, h, s, r, c);
    var s' := DoRecvOrder(x, s, c);
    KidsLeftUpdate(x, s.kids, c, s'.kids[c]);
    assert Counts(x, s', c);
    CountedKid(x, s, s', c);
    RewoundSame(x, s, s', r, c);
  }

  /** k words more of row j, or the row given up. */
  lemma RowStep(x: Setup, s: Sys, c: nat)
    requires x.Valid() && Shape(x, s) && c < |x.lo| && s.kids[c].pc.SendRow? && KidReady(x, s, c) && Counts(x, s, c)
    ensures var s' := DoSendRow(x, s, c);
            && OnlyKid(s, s', c) && s'.up == s.up && s'.down == s.down && s'.pc == s.pc
            && Ending(s'.kids[c].pc) && s'.kids[c] == s.kids[c].(pc := s'.kids[c].pc, off := s'.kids[c].off)
            && (s'.kids[c].pc.SendRow? ==> x.lo[c] <= s'.kids[c].pc.j <= x.hi[c] && s'.kids[c].off < x.p.n)
            && |s'.cp[c]| <= x.cap
            && (!HungUp(s, c) ==> Written(x, c, s'.kids[c]) + |s.cp[c]| == Written(x, c, s.kids[c]) + |s'.cp[c]|
                                  && |s'.cp[c]| > |s.cp[c]|)
  {
    var ch := s.kids[c];
    var j := ch.pc.j;
    assert Words(j + 1 - x.lo[c], x.p.n) == Words(j - x.lo[c], x.p.n) + x.p.n;
  }

  lemma RowStepLeft(x: Setup, s: Sys, c: nat)
    requires x.Valid() && Shape(x, s) && c < |x.lo| && s.kids[c].pc.SendRow? && KidReady(x, s, c) && Counts(x, s, c)
    ensures KidLeft(x, c, DoSendRow(x, s, c).kids[c]) < KidLeft(x, c, s.kids[c])
  {
    var j := s.kids[c].pc.j;
    assert Words(x.hi[c] - j + 1, x.p.n) == Words(x.hi[c] - j, x.p.n) + x.p.n;
  }

  lemma RowStepOk(x: Setup, h: History, s: Sys, r: Sys, c: nat)
    requires x.Valid() && Ok(x, h, s, r) && Shape(x, s) && c < |x.lo| && s.kids[c].pc.SendRow? && KidReady(x, s, c)
    ensures Ok(x, h, DoSendRow(x, s, c), r) && Left(x, DoSendRow(x, s, c), r) < Left(x, s, r)
  {
    RewoundKid(x, h, s, r, c);
    RowStep(x, s, c);
    RowStepLeft(x, s, c);
    var s' := DoSendRow(x, s, c);
    KidsLeftUpdate(x, s.kids, c, s'.kids[c]);
    assert Counts(x, s', c);
    CountedKid(x, s, s', c);
    assert KidRewound(s', r, c);
    RewoundSame(x, s, s', r, c);
  }

  lemma ChildStepOk(x: Setup, h: History, s: Sys, r: Sys, c: nat) returns (r': Sys)
    requires x.Valid() && Sequential(x, h) && Sized(x, h) && Ok(x, h, s, r) && Shape(x, s) && c < |x.lo|
             && KidReady(x, s, c)
    ensures Ok(x, h, KidStep(x, s, c), r') && Left(x, KidStep(x, s, c), r') < Left(x, s, r)
  {
    r' := r;
    if s.kids[c].pc.SendRow? {
      RowStepOk(x, h, s, r, c);
    } else if s.kids[c].pc.RecvOrder? && s.pc[c][0] == 1 {
      FinishStepOk(x, h, s, r, c);
    } else {
      r' := WorkStepOk(x, h, s, r, c);
    }
  }

  // ----- a step of the parent -----

  lemma BarrierStepOk(x: Setup, h: History, s: Sys, r: Sys) returns (r': Sys)
    requires x.Valid() && Sequential(x, h) && Sized(x, h) && Ok(x, h, s, r) && Shape(x, s)
    requires InBarrier(s.parent) && ParentReady(x, s)
    ensures Ok(x, h, ParentStep(x, s), r') && Left(x, ParentStep(x, s), r') < Left(x, s, r)
  {
    OkShape(x, h, s, r);
    RewoundKid(x, h, s, r, s.parent.pc.i);
    var s' := ParentStep(x, s);
    r' := ParentStep(x, r);
    ParentStepOk(x, h, r);
    ParentDescends(x, h, r);
    forall c | 0 <= c < |x.lo|
      ensures KidRewound(s', r', c) && Counts(x, s', c)
    {
      RewoundKid(x, h, s, r, c);
    }
    assert r'.parent == RewindParent(x, s'.parent);
    assert Rewound(x, s', r');
  }

  /** A read takes at most a row. */
  lemma GatherLags(x: Setup, s: Sys, c: nat, d: nat)
    requires x.Valid() && Shape(x, s) && c < |x.lo| && Gathers(x, s.parent) && Lags(x, s, c, d)
    requires s.parent.pc.Gather? && s.cp[s.parent.pc.i] != []
    ensures Sizes(x, DoGather(x, s)) && Lags(x, DoGather(x, s), c, d)
  {
    var i := s.parent.pc.i;
    if i + 1 < |x.lo| {
      assert Adjacent(x.lo, x.hi, i);
    }
    if c == i {
      assert Words(Reads(x, s.parent, c) + 1, x.p.n) == Words(Reads(x, s.parent, c), x.p.n) + x.p.n;
    }
  }

  lemma GatherCounts(x: Setup, h: History, s: Sys, r: Sys, c: nat)
    requires x.Valid() && Ok(x, h, s, r) && Shape(x, s) && s.parent.pc.Gather? && s.cp[s.parent.pc.i] != []
             && c < |x.lo|
    ensures Sizes(x, DoGather(x, s)) && Counts(x, DoGather(x, s), c) && Gathers(x, DoGather(x, s).parent)
  {
    RewoundKid(x, h, s, r, c);
    GatherLags(x, s, c, 0);
    if s.parent.pc.i + 1 < |x.lo| {
      assert Adjacent(x.lo, x.hi, s.parent.pc.i);
    }
  }

  lemma GatherStepOk(x: Setup, h: History, s: Sys, r: Sys)
    requires x.Valid() && Ok(x, h, s, r) && Shape(x, s) && s.parent.pc.Gather? && s.cp[s.parent.pc.i] != []
    ensures Ok(x, h, DoGather(x, s), r) && Left(x, DoGather(x, s), r) < Left(x, s, r)
  {
    var s' := DoGather(x, s);
    forall c | 0 <= c < |x.lo|
      ensures KidRewound(s', r, c) && Counts(x, s', c)
    {
      RewoundKid(x, h, s, r, c);
      GatherCounts(x, h, s, r, c);
    }
    GatherCounts(x, h, s, r, s.parent.pc.i);
    if s.parent.pc.i + 1 < |x.lo| {
      assert Adjacent(x.lo, x.hi, s.parent.pc.i);
    }
  }

  // ----- every run -----

  lemma StepKeepsOk(x: Setup, h: History, s: Sys, r: Sys, w: Proc) returns (r': Sys)
    requires x.Valid() && Sequential(x, h) && Sized(x, h) && Ok(x, h, s, r) && Shape(x, s) && Ready(x, s, w)
    ensures Ok(x, h, Step(x, s, w), r') && Left(x, Step(x, s, w), r') < Left(x, s, r)
  {
    r' := r;
    match w
    case TheParent =>
      if InBarrier(s.parent) {
        r' := BarrierStepOk(x, h, s, r);
      } else {
        GatherStepOk(x, h, s, r);
      }
    case Child(c) => r' := ChildStepOk(x, h, s, r, c);
  }

  lemma StartOk(x: Setup, h: History)
    requires x.Valid() && Sequential(x, h)
    ensures Ok(x, h, Init(x), Init(x))
  {
    InitOk(x, h);
    var s := Init(x);
    forall c | 0 <= c < |x.lo|
      ensures KidRewound(s, s, c) && Counts(x, s, c)
    {
    }
  }

  lemma {:induction false} RunOk(x: Setup, h: History, ws: seq<Proc>) returns (r: Sys)
    requires x.Valid() && Sequential(x, h) && Sized(x, h) && Exec(x, ws).At?
    ensures Ok(x, h, Exec(x, ws).s, r) && Ok(x, h, Init(x), Init(x))
    ensures |ws| + Left(x, Exec(x, ws).s, r) <= Left(x, Init(x), Init(x))
  {
    StartOk(x, h);
    if ws == [] {
      r := Init(x);
    } else {
      var r0 := RunOk(x, h, ws[..|ws| - 1]);
      r := StepKeepsOk(x, h, Exec(x, ws[..|ws| - 1]).s, r0, ws[|ws| - 1]);
    }
  }

  // ----- reachable states -----

  ghost predicate Stepped(x: Setup, s: Sys, w: Proc, s': Sys)
    requires x.Valid()
  {
    Shape(x, s) && Ready(x, s, w) && s' == Step(x, s, w)
  }

  /** The states ss of the run ws. */
  ghost predicate Trace(x: Setup, ss: seq<Sys>, ws: seq<Proc>)
    requires x.Valid()
  {
    && |ss| == |ws| + 1 && ss[0] == Init(x)
    && forall i {:trigger Stepped(x, ss[i], ws[i], ss[i + 1])} :: 0 <= i < |ws| ==> Stepped(x, ss[i], ws[i], ss[i + 1])
  }

  ghost predicate Reached(x: Setup, s: Sys)
    requires x.Valid()
  {
    exists ss, ws {:trigger Trace(x, ss, ws)} :: Trace(x, ss, ws) && ss[|ws|] == s
  }

  lemma ReachedNext(x: Setup, s: Sys, w: Proc)
    requires x.Valid() && Reached(x, s) && Shape(x, s) && Ready(x, s, w)
    ensures Reached(x, Step(x, s, w))
  {
    var ss, ws :| Trace(x, ss, ws) && ss[|ws|] == s;
    var ss', ws' := ss + [Step(x, s, w)], ws + [w];
    forall i | 0 <= i < |ws'|
      ensures Stepped(x, ss'[i], ws'[i], ss'[i + 1])
    {
      assert i < |ws| ==> Stepped(x, ss[i], ws[i], ss[i + 1]);
    }
    assert Trace(x, ss', ws');
  }

  lemma RunNext(x: Setup, ws: seq<Proc>, s: Sys, w: Proc, s': Sys)
    requires x.Valid() && Exec(x, ws) == Outcome.At(s) && Stepped(x, s, w, s')
    ensures Exec(x, ws + [w]) == Outcome.At(s')
  {
    Extend(x, ws, w);
  }

  lemma TraceStart(x: Setup, ss: seq<Sys>, ws: seq<Proc>)
    requires x.Valid() && Trace(x, ss, ws)
    ensures Exec(x, ws[..0]) == Outcome.At(ss[0])
  {
    assert ws[..0] == [];
  }

  lemma TraceNext(x: Setup, ss: seq<Sys>, ws: seq<Proc>, k: nat)
    requires x.Valid() && Trace(x, ss, ws) && 0 < k <= |ws| && Exec(x, ws[..k - 1]) == Outcome.At(ss[k - 1])
    ensures Exec(x, ws[..k]) == Outcome.At(ss[k])
  {
    var i := k - 1;
    assert Stepped(x, ss[i], ws[i], ss[i + 1]);
    RunNext(x, ws[..i], ss[i], ws[i], ss[i + 1]);
    assert ws[..i] + [ws[i]] == ws[..k];
  }

  lemma {:induction false} TraceIsRun(x: Setup, ss: seq<Sys>, ws: seq<Proc>, k: nat)
    requires x.Valid() && Trace(x, ss, ws) && k <= |ws|
    ensures Exec(x, ws[..k]) == Outcome.At(ss[k])
  {
    if k == 0 {
      TraceStart(x, ss, ws);
    } else {
      TraceIsRun(x, ss, ws, k - 1);
      TraceNext(x, ss, ws, k);
    }
  }

  lemma RunTo(x: Setup, s: Sys) returns (ws: seq<Proc>)
    requires x.Valid() && Reached(x, s)
    ensures Exec(x, ws) == Outcome.At(s)
  {
    var ss;
    ss, ws :| Trace(x, ss, ws) && ss[|ws|] == s;
    TraceIsRun(x, ss, ws, |ws|);
    assert ws[..|ws|] == ws;
  }

  lemma {:induction false} RunReaches(x: Setup, ws: seq<Proc>)
    requires x.Valid() && Exec(x, ws).At?
    ensures Reached(x, Exec(x, ws).s)
  {
    if ws == [] {
      assert Trace(x, [Init(x)], []);
    } else {
      RunReaches(x, ws[..|ws| - 1]);
      ReachedNext(x, Exec(x, ws[..|ws| - 1]).s, ws[|ws| - 1]);
    }
  }

  lemma ReachedOk(x: Setup, h: History, s: Sys) returns (r: Sys)
    requires x.Valid() && Sequential(x, h) && Sized(x, h) && Reached(x, s)
    ensures Ok(x, h, s, r) && Shape(x, s)
  {
    var ws := RunTo(x, s);
    r := RunOk(x, h, ws);
    OkShape(x, h, s, r);
  }

  lemma LeftNonNegative(x: Setup, h: History, s: Sys, r: Sys)
    requires x.Valid() && Sequential(x, h) && Ok(x, h, s, r)
    ensures Left(x, s, r) >= 0
  {
    CountBound(x, h, r.parent);
    RankNonNegative(x, h, r);
  }

  /** Every run ends: no schedule has more steps than a bound fixed by the input, nor more than
      L + 1 rounds. */
  lemma EveryRunEnds(x: Setup, ws: seq<Proc>)
    requires x.Valid() && Exec(x, ws).At?
    ensures Sizes(x, Init(x)) && |ws| <= Left(x, Init(x), Init(x))
    ensures Exec(x, ws).s.parent.count <= x.p.limit + 1
  {
    var h := SequentialHistory(x);
    SequentialHistoryIs(x);
    var r := RunOk(x, h, ws);
    CountBound(x, h, r.parent);
    LeftNonNegative(x, h, Exec(x, ws).s, r);
  }

  /** A neighbour's pipe is empty when a ghost row is about to be written to it, holds the whole row
      when it is about to be read, and only the writes of results are ever caught halfway. */
  lemma GhostRowsAreWhole(x: Setup, ws: seq<Proc>, c: nat)
    requires x.Valid() && Exec(x, ws).At? && c < |x.lo|
    ensures var s := Exec(x, ws).s;
            && Shape(x, s)
            && (!Ending(s.kids[c].pc) ==> s.kids[c].off == 0)
            && (s.kids[c].pc.SendUp? && c > 0 ==> s.up[c - 1] == [])
            && (s.kids[c].pc.SendDown? && c + 1 < |x.lo| ==> s.down[c] == [])
            && (s.kids[c].pc.RecvAbove? && c > 0 && s.down[c - 1] != [] ==> |s.down[c - 1]| == x.p.n)
            && (s.kids[c].pc.RecvBelow? && c + 1 < |x.lo| && s.up[c] != [] ==> |s.up[c]| == x.p.n)
  {
    var h := SequentialHistory(x);
    SequentialHistoryIs(x);
    var r := RunOk(x, h, ws);
    OkShape(x, h, Exec(x, ws).s, r);
    RewoundKid(x, h, Exec(x, ws).s, r, c);
    Around(x, h, r, c);
    if r.kids[c].pc.SendUp? {
      SendUpOk(x, h, r, c);
    } else if r.kids[c].pc.SendDown? {
      SendDownOk(x, h, r, c);
    }
  }

  // ----- who can move -----

  lemma CollectGoesOn(x: Setup, h: History, s: Sys, r: Sys) returns (w: Proc)
    requires x.Valid() && Sized(x, h) && Ok(x, h, s, r) && Shape(x, s) && s.parent.pc.Collect?
    ensures Ready(x, s, w)
  {
    var i := s.parent.pc.i;
    w := TheParent;
    if s.cp[i] == [] {
      OkShape(x, h, s, r);
      RewoundKid(x, h, s, r, i);
      w := CollectMoves(x, h, r, i);
      if w.Child? {
        RewoundKid(x, h, s, r, w.c);
      }
    }
  }

  lemma OrderGoesOn(x: Setup, h: History, s: Sys, r: Sys)
    requires x.Valid() && Ok(x, h, s, r) && Shape(x, s) && s.parent.pc.Order?
    ensures Ready(x, s, TheParent)
  {
    OkShape(x, h, s, r);
    RewoundKid(x, h, s, r, s.parent.pc.i);
    OrderOk(x, h, r);
  }

  lemma GatherGoesOn(x: Setup, h: History, s: Sys, r: Sys)
    requires x.Valid() && Ok(x, h, s, r) && Shape(x, s) && s.parent.pc.Gather?
    ensures Ready(x, s, TheParent) || Ready(x, s, Child(s.parent.pc.i))
  {
    var i, j := s.parent.pc.i, s.parent.pc.j;
    RewoundKid(x, h, s, r, i);
    if s.cp[i] == [] && s.kids[i].pc.Exited? {
      WordsMono(j - x.lo[i] + 1, x.hi[i] - x.lo[i] + 1, x.p.n);
      assert false;
    }
  }

  /** While the parent has not finished, some process can move. */
  lemma SomeoneMoves(x: Setup, h: History, s: Sys, r: Sys) returns (w: Proc)
    requires x.Valid() && Sized(x, h) && Ok(x, h, s, r) && Shape(x, s) && !s.parent.pc.Finished?
    ensures Ready(x, s, w)
  {
    match s.parent.pc
    case Collect(_) => w := CollectGoesOn(x, h, s, r);
    case Order(_, _) =>
      w := TheParent;
      OrderGoesOn(x, h, s, r);
    case Gather(i, _) =>
      GatherGoesOn(x, h, s, r);
      w := if s.cp[i] != [] then TheParent else Child(i);
  }

  /** In every reachable state some process can move, until the parent has finished.  As every run
      ends, the parent always finishes. */
  lemma ParentNeverStuck(x: Setup, ws: seq<Proc>)
    requires x.Valid() && Exec(x, ws).At?
    ensures var s := Exec(x, ws).s;
            Shape(x, s) && (s.parent.pc.Finished? || exists w :: Ready(x, s, w))
  {
    var h := SequentialHistory(x);
    SequentialHistoryIs(x);
    var r := RunOk(x, h, ws);
    var s := Exec(x, ws).s;
    OkShape(x, h, s, r);
    if !s.parent.pc.Finished? {
      var w := SomeoneMoves(x, h, s, r);
    }
  }
}
