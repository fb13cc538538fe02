/** What every run of jacob.c computes: the sequential result.  Then what every step of the barrier
    brings nearer: its end. */
module JacobiRuns {
  import opened JacobiSpec
  import opened JacobiProtocol
  import opened JacobiProof

  datatype Outcome = Stuck | At(s: Sys)

  /** The state after the processes `ws` have each taken a step, in that order. */
  ghost function Exec(x: Setup, ws: seq<Proc>): Outcome
    requires x.Valid()
  {
    if ws == [] then Outcome.At(Init(x))
    else
      match Exec(x, ws[..|ws| - 1])
      case Stuck => Stuck
      case At(s) =>
        if Shape(x, s) && Ready(x, s, ws[|ws| - 1]) then Outcome.At(Step(x, s, ws[|ws| - 1])) else Stuck
  }

  lemma StepOk(x: Setup, h: History, s: Sys, w: Proc)
    requires x.Valid() && x.ResultsFit() && Sequential(x, h) && Sized(x, h)
    requires Inv(x, h, s) && Shape(x, s) && Ready(x, s, w)
    ensures Inv(x, h, Step(x, s, w))
  {
    match w
    case TheParent => ParentStepOk(x, h, s);
    case Child(c) => KidStepOk(x, h, s, c);
  }

  lemma {:induction false} RunInv(x: Setup, h: History, ws: seq<Proc>)
    requires x.Valid() && x.ResultsFit() && Sequential(x, h) && Sized(x, h) && Exec(x, ws).At?
    ensures Inv(x, h, Exec(x, ws).s)
  {
    if ws == [] {
      InitOk(x, h);
    } else {
      RunInv(x, h, ws[..|ws| - 1]);
      StepOk(x, h, Exec(x, ws[..|ws| - 1]).s, ws[|ws| - 1]);
    }
  }

  /** `u` is the grid after k sequential sweeps, where sweep k is the first whose largest change is
      at most E or whose number exceeds L; so k is at most L + 1. */
  ghost predicate IsResult(p: Problem, u: Grid, k: nat)
    requires p.Valid()
  {
    && u == After(p, k)
    && 1 <= k <= p.limit + 1
    && Stops(p, k - 1)
    && forall i :: 0 <= i < k - 1 ==> !Stops(p, i)
  }

  lemma FinishedResult(x: Setup, h: History, m: Parent)
    requires x.Valid() && Sequential(x, h) && ParentOk(x, h, m) && m.pc.Finished?
    ensures IsResult(x.p, m.u, m.count)
  {
    CountBound(x, h, m);
    var k := m.count;
    var g := After(x.p, k);
    BorderFixed(x.p, k);
    forall i | 0 <= i < x.p.n
      ensures m.u[i] == g[i]
    {
      assert RowIs(x, h, k, i);
    }
    assert m.u == g;
    forall i | 0 <= i < k - 1
      ensures !Stops(x.p, i)
    {
      assert StopIs(x, h, i) && !h.stops(i);
    }
    assert StopIs(x, h, k - 1);
  }

  lemma ParentOkInRun(x: Setup, h: History, ws: seq<Proc>)
    requires x.Valid() && x.ResultsFit() && Sequential(x, h) && Sized(x, h) && Exec(x, ws).At?
    ensures ParentOk(x, h, Exec(x, ws).s.parent)
  {
    RunInv(x, h, ws);
  }

  /** In every interleaving, a parent that finishes holds exactly the sequential result. */
  lemma ParallelRefinesSequential(x: Setup, ws: seq<Proc>)
    requires x.Valid() && x.ResultsFit() && Exec(x, ws).At? && Exec(x, ws).s.parent.pc.Finished?
    ensures IsResult(x.p, Exec(x, ws).s.parent.u, Exec(x, ws).s.parent.count)
  {
    var h := SequentialHistory(x);
    SequentialHistoryIs(x);
    ParentOkInRun(x, h, ws);
    FinishedResult(x, h, Exec(x, ws).s.parent);
  }

  // ----- who can move -----

  lemma KidMoves(x: Setup, s: Sys, c: nat)
    requires x.Valid() && Shape(x, s) && c < |x.lo|
    requires s.kids[c].pc.SendUp? ==> c == 0 || s.up[c - 1] == []
    requires s.kids[c].pc.SendDown? ==> c + 1 == |x.lo| || s.down[c] == []
    requires s.kids[c].pc.RecvAbove? ==> c == 0 || s.down[c - 1] != []
    requires s.kids[c].pc.RecvBelow? ==> c + 1 == |x.lo| || s.up[c] != []
    requires s.kids[c].pc.SendDiff? ==> s.cp[c] == []
    requires s.kids[c].pc.RecvOrder? ==> s.pc[c] != []
    requires s.kids[c].pc.SendRow? ==> |s.cp[c]| < x.cap
    requires !s.kids[c].pc.Exited?
    ensures Ready(x, s, Child(c))
  {
  }

  /** A child about to send, or told to go on, can move. */
  lemma SenderMoves(x: Setup, h: History, s: Sys, c: nat)
    requires x.Valid() && Sized(x, h) && Inv(x, h, s) && Shape(x, s) && c < |x.lo|
    requires var ch := s.kids[c];
             ch.pc.SendUp? || ch.pc.SendDown? || ch.pc.Sweep? || ch.pc.SendDiff? || (ch.pc.RecvOrder? && s.pc[c] != [])
    ensures Ready(x, s, Child(c))
  {
    var ch := s.kids[c];
    if ch.pc.SendUp? {
      SendUpOk(x, h, s, c);
    } else if ch.pc.SendDown? {
      SendDownOk(x, h, s, c);
    } else if ch.pc.SendDiff? {
      SendDiffOk(x, h, s, c);
    }
    KidMoves(x, s, c);
  }

  /** While the parent waits for the difference of child i, that child or a neighbour can move. */
  lemma CollectMoves(x: Setup, h: History, s: Sys, i: nat) returns (w: Proc)
    requires x.Valid() && Sized(x, h) && Inv(x, h, s) && Shape(x, s)
    requires s.parent.pc == Collect(i) && s.cp[i] == []
    ensures Ready(x, s, w)
  {
    Around(x, h, s, i);
    var ch := s.kids[i];
    w := Child(i);
    if ch.pc.RecvAbove? && i > 0 && s.down[i - 1] == [] {
      assert false;   // child i - 1 has sent its difference, so it has sent its row
    } else if ch.pc.RecvBelow? && i + 1 < |x.lo| && s.up[i] == [] {
      w := Child(i + 1);
      SenderMoves(x, h, s, i + 1);
    } else if ch.pc.RecvAbove? || ch.pc.RecvBelow? {
      KidMoves(x, s, i);
    } else {
      SenderMoves(x, h, s, i);
    }
  }

  // ----- termination -----

  function PcRank(x: Setup, c: nat, pc: Pc): int
    requires c < |x.hi|
  {
    match pc
    case SendUp => x.p.n + 10
    case SendDown => x.p.n + 9
    case RecvAbove => x.p.n + 8
    case RecvBelow => x.p.n + 7
    case Sweep => x.p.n + 6
    case SendDiff => x.p.n + 5
    case RecvOrder => x.p.n + 4
    case SendRow(j) => x.hi[c] - j + 1
    case Exited => 0
  }

  /** Steps a child can still take, at most. */
  function KidRank(x: Setup, c: nat, ch: Kid): int
    requires c < |x.hi|
  {
    (x.p.limit + 2 - ch.round) * (x.p.n + 20) + PcRank(x, c, ch.pc)
  }

  function ParentRank(x: Setup, m: Parent): int {
    var k := |x.lo|;
    (x.p.limit + 2 - m.count) * (x.p.n + 2 * k + 2)
    + match m.pc
      case Collect(i) => x.p.n + k - i
      case Order(i, _) => x.p.n + 2 * k - i
      case Gather(_, j) => x.p.n - j
      case Finished => 0
  }

  function KidsRank(x: Setup, kids: seq<Kid>): int
    requires |kids| <= |x.hi|
  {
    if kids == [] then 0
    else KidsRank(x, kids[..|kids| - 1]) + KidRank(x, |kids| - 1, kids[|kids| - 1])
  }

  function Rank(x: Setup, s: Sys): int
    requires |s.kids| <= |x.hi|
  {
    ParentRank(x, s.parent) + KidsRank(x, s.kids)
  }

  lemma {:induction false} KidsRankUpdate(x: Setup, kids: seq<Kid>, c: nat, ch: Kid)
    requires c < |kids| <= |x.hi|
    ensures KidsRank(x, kids[c := ch]) == KidsRank(x, kids) - KidRank(x, c, kids[c]) + KidRank(x, c, ch)
  {
    var n := |kids| - 1;
    if c == n {
      assert kids[c := ch][..n] == kids[..n];
    } else {
      KidsRankUpdate(x, kids[..n], c, ch);
      assert kids[c := ch][..n] == kids[..n][c := ch];
    }
  }

  lemma {:induction false} KidsRankNonNegative(x: Setup, kids: seq<Kid>)
    requires |kids| <= |x.hi| && forall c :: 0 <= c < |kids| ==> KidRank(x, c, kids[c]) >= 0
    ensures KidsRank(x, kids) >= 0
  {
    if kids != [] {
      KidsRankNonNegative(x, kids[..|kids| - 1]);
    }
  }

  lemma KidRankStep(x: Setup, c: nat, ch: Kid, ch': Kid)
    requires c < |x.hi|
    requires (ch'.round == ch.round && PcRank(x, c, ch'.pc) < PcRank(x, c, ch.pc))
             || (ch'.round == ch.round + 1 && ch.pc.RecvOrder? && ch'.pc.SendUp?)
    ensures KidRank(x, c, ch') < KidRank(x, c, ch)
  {
    var w := x.p.n + 20;
    var t := x.p.limit + 2 - ch.round;
    assert t * w == (t - 1) * w + w;
  }

  ghost predicate Descends(x: Setup, s: Sys, s': Sys, c: nat) {
    && c < |s.kids| == |s'.kids| && c < |x.hi|
    && s'.parent == s.parent && s'.kids == s.kids[c := s'.kids[c]]
    && KidRank(x, c, s'.kids[c]) < KidRank(x, c, s.kids[c])
  }

  lemma SendUpDescends(x: Setup, h: History, s: Sys, c: nat)
    requires x.Valid() && Sized(x, h) && Inv(x, h, s) && Shape(x, s) && c < |x.lo| && s.kids[c].pc.SendUp?
    ensures Descends(x, s, DoSendUp(x, s, c), c)
  {
    Around(x, h, s, c);
    SendUpOk(x, h, s, c);
    if c > 0 {
      PushAll(s.up[c - 1], x.cap, s.kids[c].u[x.lo[c]]);
    }
    KidRankStep(x, c, s.kids[c], DoSendUp(x, s, c).kids[c]);
  }

  lemma SendDownDescends(x: Setup, h: History, s: Sys, c: nat)
    requires x.Valid() && Sized(x, h) && Inv(x, h, s) && Shape(x, s) && c < |x.lo| && s.kids[c].pc.SendDown?
    ensures Descends(x, s, DoSendDown(x, s, c), c)
  {
    Around(x, h, s, c);
    SendDownOk(x, h, s, c);
    if c + 1 < |x.lo| {
      PushAll(s.down[c], x.cap, s.kids[c].u[x.hi[c]]);
    }
    KidRankStep(x, c, s.kids[c], DoSendDown(x, s, c).kids[c]);
  }

  lemma SendRowDescends(x: Setup, h: History, s: Sys, c: nat)
    requires x.Valid() && Inv(x, h, s) && Shape(x, s) && c < |x.lo| && s.kids[c].pc.SendRow?
    requires |s.cp[c]| + x.p.n <= x.cap
    ensures Descends(x, s, DoSendRow(x, s, c), c)
  {
    Around(x, h, s, c);
    var ch := s.kids[c];
    PushAll(s.cp[c], x.cap, ch.u[ch.pc.j]);
    KidRankStep(x, c, ch, DoSendRow(x, s, c).kids[c]);
  }

  lemma SweepDescends(x: Setup, s: Sys, c: nat)
    requires x.Valid() && Shape(x, s) && c < |x.lo| && s.kids[c].pc.Sweep?
    ensures Descends(x, s, DoSweep(x, s, c), c)
  {
    KidRankStep(x, c, s.kids[c], DoSweep(x, s, c).kids[c]);
  }

  lemma OtherDescends(x: Setup, s: Sys, c: nat)
    requires x.Valid() && Shape(x, s) && c < |x.lo|
    ensures s.kids[c].pc.RecvAbove? ==> Descends(x, s, DoRecvAbove(x, s, c), c)
    ensures s.kids[c].pc.RecvBelow? ==> Descends(x, s, DoRecvBelow(x, s, c), c)
    ensures s.kids[c].pc.SendDiff? ==> Descends(x, s, DoSendDiff(x, s, c), c)
  {
    var ch := s.kids[c];
    if ch.pc.RecvAbove? {
      KidRankStep(x, c, ch, DoRecvAbove(x, s, c).kids[c]);
    } else if ch.pc.RecvBelow? {
      KidRankStep(x, c, ch, DoRecvBelow(x, s, c).kids[c]);
    } else if ch.pc.SendDiff? {
      KidRankStep(x, c, ch, DoSendDiff(x, s, c).kids[c]);
    }
  }

  lemma RecvOrderDescends(x: Setup, s: Sys, c: nat)
    requires x.Valid() && Shape(x, s) && c < |x.lo| && s.kids[c].pc.RecvOrder? && s.pc[c] != []
    ensures Descends(x, s, DoRecvOrder(x, s, c), c)
  {
    KidRankStep(x, c, s.kids[c], DoRecvOrder(x, s, c).kids[c]);
  }

  lemma KidDescends(x: Setup, h: History, s: Sys, c: nat)
    requires x.Valid() && Sized(x, h)
    requires Inv(x, h, s) && Shape(x, s) && c < |x.lo| && KidReady(x, s, c)
    requires s.kids[c].pc.SendRow? ==> x.Fits(c)
    ensures Descends(x, s, KidStep(x, s, c), c)
  {
    match s.kids[c].pc
    case SendUp => SendUpDescends(x, h, s, c);
    case SendDown => SendDownDescends(x, h, s, c);
    case RecvAbove => OtherDescends(x, s, c);
    case RecvBelow => OtherDescends(x, s, c);
    case Sweep => SweepDescends(x, s, c);
    case SendDiff => OtherDescends(x, s, c);
    case RecvOrder => RecvOrderDescends(x, s, c);
    case SendRow(_) =>
      RoomForRow(x, h, s, c);
      SendRowDescends(x, h, s, c);
  }

  /** The rank of the parent falls, and the children stay. */
  ghost predicate ParentFalls(x: Setup, s: Sys, s': Sys) {
    s'.kids == s.kids && ParentRank(x, s'.parent) < ParentRank(x, s.parent)
  }

  lemma CollectFalls(x: Setup, s: Sys)
    requires x.Valid() && Shape(x, s) && s.parent.pc.Collect? && s.cp[s.parent.pc.i] != []
    ensures ParentFalls(x, s, DoCollect(x, s))
  {
    var w := x.p.n + 2 * |x.lo| + 2;
    var t := x.p.limit + 2 - s.parent.count;
    assert t * w == (t - 1) * w + w;
  }

  lemma OrderFalls(x: Setup, s: Sys)
    requires x.Valid() && Shape(x, s) && s.parent.pc.Order?
    ensures ParentFalls(x, s, DoOrder(x, s))
  {
  }

  lemma GatherFalls(x: Setup, s: Sys)
    requires x.Valid() && Shape(x, s) && s.parent.pc.Gather? && s.parent.pc.j <= x.hi[s.parent.pc.i]
    ensures ParentFalls(x, s, DoGather(x, s))
  {
    var i := s.parent.pc.i;
    if i + 1 < |x.lo| {
      assert Adjacent(x.lo, x.hi, i);
    }
  }

  lemma ParentDescends(x: Setup, h: History, s: Sys)
    requires x.Valid() && ParentOk(x, h, s.parent) && Shape(x, s) && ParentReady(x, s)
    ensures ParentFalls(x, s, ParentStep(x, s))
  {
    match s.parent.pc
    case Collect(_) => CollectFalls(x, s);
    case Order(_, _) => OrderFalls(x, s);
    case Gather(_, _) => GatherFalls(x, s);
  }

  lemma CountBound(x: Setup, h: History, m: Parent)
    requires x.Valid() && Sequential(x, h) && ParentOk(x, h, m)
    ensures m.count <= x.p.limit + 1 && Lead(m) <= x.p.limit + 1
  {
    if m.pc.Collect? && m.count > 0 {
      assert StopIs(x, h, m.count - 1) && !h.stops(m.count - 1);
    } else if m.count > 1 {
      assert StopIs(x, h, m.count - 2) && !h.stops(m.count - 2);
    }
  }

  lemma ProductNonNegative(a: int, b: int)
    requires a >= 0 && b >= 0
    ensures a * b >= 0
  {
  }

  lemma KidRankNonNegative(x: Setup, h: History, s: Sys, c: nat)
    requires x.Valid() && Inv(x, h, s) && c < |x.lo| && Lead(s.parent) <= x.p.limit + 1
    ensures KidRank(x, c, s.kids[c]) >= 0
  {
    Around(x, h, s, c);
    RoundIs(x, h, s.parent, c, s.kids[c], s.cp[c], s.pc[c]);
    ProductNonNegative(x.p.limit + 2 - s.kids[c].round, x.p.n + 20);
  }

  lemma RankNonNegative(x: Setup, h: History, s: Sys)
    requires x.Valid() && Inv(x, h, s) && Lead(s.parent) <= x.p.limit + 1 && s.parent.count <= x.p.limit + 1
    ensures Rank(x, s) >= 0
  {
    forall c | 0 <= c < |s.kids|
      ensures KidRank(x, c, s.kids[c]) >= 0
    {
      KidRankNonNegative(x, h, s, c);
    }
    KidsRankNonNegative(x, s.kids);
    ProductNonNegative(x.p.limit + 2 - s.parent.count, x.p.n + 2 * |x.lo| + 2);
  }
}
