/** When jacob.c can hang.  Each read of a pipe that holds less than a row leaves the parent behind.
    When it has fallen behind the last child by more than a pipe, it finishes with that child still
    blocked on a full pipe that the parent has left open.  That can happen exactly if the reads of the
    child's rows can lose more words than a pipe holds. */
module JacobiHang {
  import opened JacobiSpec
  import opened JacobiProtocol
  import opened JacobiProof
  import opened JacobiRuns
  import opened JacobiBarrier
  import opened JacobiLoss
  import opened JacobiProgress

  /** The rows of child c. */
  function Share(x: Setup, c: nat): nat
    requires c < |x.lo| && c < |x.hi|
  {
    if x.lo[c] <= x.hi[c] then x.hi[c] - x.lo[c] + 1 else 0
  }

  /** The words of a torn row that are in the pipe or read. */
  function TornWords(x: Setup, ch: Kid): nat { if ch.pc.SendRow? && ch.off < x.p.n then ch.off else 0 }

  // ----- the parent stays behind -----

  lemma RowStepLags(x: Setup, h: History, s: Sys, r: Sys, c: nat, d: nat)
    requires x.Valid() && Ok(x, h, s, r) && Shape(x, s) && c + 1 == |x.lo| && KidReady(x, s, c) && s.kids[c].pc.SendRow?
    requires Lags(x, s, c, d)
    ensures Sizes(x, DoSendRow(x, s, c)) && Ending(DoSendRow(x, s, c).kids[c].pc) && Lags(x, DoSendRow(x, s, c), c, d)
  {
    RewoundKid(x, h, s, r, c);
    RowStep(x, s, c);
  }

  lemma KidLags(x: Setup, h: History, s: Sys, r: Sys, e: nat, c: nat, d: nat)
    requires x.Valid() && Ok(x, h, s, r) && Shape(x, s) && e < |x.lo| && KidReady(x, s, e)
    requires c + 1 == |x.lo| && Ending(s.kids[c].pc) && Lags(x, s, c, d)
    ensures Sizes(x, KidStep(x, s, e)) && Ending(KidStep(x, s, e).kids[c].pc) && Lags(x, KidStep(x, s, e), c, d)
  {
    KidStepOnly(x, s, e);
    if e == c {
      RowStepLags(x, h, s, r, c, d);
    }
  }

  lemma StepLags(x: Setup, h: History, s: Sys, r: Sys, w: Proc, c: nat, d: nat)
    requires x.Valid() && Ok(x, h, s, r) && Shape(x, s) && Ready(x, s, w)
    requires c + 1 == |x.lo| && Ending(s.kids[c].pc) && Lags(x, s, c, d)
    ensures Sizes(x, Step(x, s, w)) && Ending(Step(x, s, w).kids[c].pc) && Lags(x, Step(x, s, w), c, d)
  {
    match w
    case Child(e) => KidLags(x, h, s, r, e, c, d);
    case TheParent =>
      if s.parent.pc.Gather? {
        GatherLags(x, s, c, d);
      } else {
        RewoundKid(x, h, s, r, c);
      }
  }

  /** Nobody can move, and a child has not exited. */
  ghost predicate Hangs(x: Setup, ws: seq<Proc>)
    requires x.Valid()
  {
    && Exec(x, ws).At? && Shape(x, Exec(x, ws).s)
    && (forall w :: !Ready(x, Exec(x, ws).s, w))
    && exists c :: 0 <= c < |x.lo| && !Exec(x, ws).s.kids[c].pc.Exited?
  }

  lemma LeftBehind(x: Setup, h: History, s: Sys, r: Sys, c: nat, d: nat)
    requires x.Valid() && Sized(x, h) && Ok(x, h, s, r) && Shape(x, s) && c + 1 == |x.lo|
    requires Ending(s.kids[c].pc) && Lags(x, s, c, d) && d > x.cap && s.parent.pc.Finished?
    ensures !s.kids[c].pc.Exited?
  {
    RewoundKid(x, h, s, r, c);
  }

  /** Once the parent is a pipe behind the last child, whatever happens next ends in a hang. */
  lemma {:induction false} HangsAtLast(x: Setup, h: History, s: Sys, r: Sys, c: nat, d: nat) returns (ws: seq<Proc>)
    requires x.Valid() && Sequential(x, h) && Sized(x, h) && Reached(x, s) && Ok(x, h, s, r)
    requires c + 1 == |x.lo| && Ending(s.kids[c].pc) && Lags(x, s, c, d) && d > x.cap
    ensures Hangs(x, ws)
    decreases Left(x, s, r)
  {
    OkShape(x, h, s, r);
    LeftNonNegative(x, h, s, r);
    if w :| Ready(x, s, w) {
      var r' := StepKeepsOk(x, h, s, r, w);
      StepLags(x, h, s, r, w, c, d);
      ReachedNext(x, s, w);
      ws := HangsAtLast(x, h, Step(x, s, w), r', c, d);
    } else {
      if !s.parent.pc.Finished? {
        var w := SomeoneMoves(x, h, s, r);
        assert false;
      }
      LeftBehind(x, h, s, r, c, d);
      ws := RunTo(x, s);
    }
  }

  // ----- how it falls behind -----

  /** The parent has read k times from child c; of its pipe `taken` words are read and a wait, and
      behind them are w words of a torn row. */
  ghost predicate Front(x: Setup, s: Sys, c: nat, k: nat, taken: nat, a: nat, w: nat)
    requires x.Valid()
  {
    && Sizes(x, s) && c < |x.lo| && k <= Share(x, c)
    && s.parent.pc == (if k < Share(x, c) then Gather(c, x.lo[c] + k)
                       else if c + 1 < |x.lo| then Gather(c + 1, x.lo[c + 1]) else Finished)
    && Ending(s.kids[c].pc) && TornWords(x, s.kids[c]) == w < x.p.n
    && |s.cp[c]| == a && Written(x, c, s.kids[c]) == taken + a
  }

  /** One write goes in to the end of the row, or fills the pipe. */
  lemma PushShape(x: Setup, s: Sys, c: nat)
    requires x.Valid() && Shape(x, s) && c < |x.lo| && s.kids[c].pc.SendRow? && |s.cp[c]| < x.cap && Counts(x, s, c)
    ensures var s', a, w := DoSendRow(x, s, c), |s.cp[c]|, s.kids[c].off;
            if a + x.p.n - w <= x.cap then |s'.cp[c]| == a + x.p.n - w && TornWords(x, s'.kids[c]) == 0
            else |s'.cp[c]| == x.cap && TornWords(x, s'.kids[c]) == w + x.cap - a
  {
  }

  /** What is written is whole rows and the words of a torn one. */
  lemma WrittenOffset(x: Setup, s: Sys, c: nat)
    requires x.Valid() && Sizes(x, s) && c < |x.lo| && Counts(x, s, c) && Ending(s.kids[c].pc)
    ensures Over(Written(x, c, s.kids[c]), x.p.n) == TornWords(x, s.kids[c]) < x.p.n
  {
    var ch := s.kids[c];
    OverRows(if ch.pc.SendRow? then ch.pc.j - x.lo[c] else Share(x, c), x.p.n, TornWords(x, ch));
  }

  lemma FrontPush(x: Setup, h: History, s: Sys, r: Sys, c: nat, k: nat, taken: nat, a: nat, w: nat)
    returns (a': nat, w': nat)
    requires x.Valid() && Ok(x, h, s, r) && Shape(x, s) && Front(x, s, c, k, taken, a, w) && k < Share(x, c)
    requires a < x.cap && taken + a < Words(Share(x, c), x.p.n)
    ensures Ready(x, s, Child(c)) && a < a' <= x.cap && Front(x, Step(x, s, Child(c)), c, k, taken, a', w')
    ensures if a + x.p.n - w <= x.cap then a' == a + x.p.n - w && w' == 0 else a' == x.cap
  {
    RewoundKid(x, h, s, r, c);
    RowStep(x, s, c);
    PushShape(x, s, c);
    a', w' := |DoSendRow(x, s, c).cp[c]|, TornWords(x, DoSendRow(x, s, c).kids[c]);
  }

  lemma FrontRead(x: Setup, h: History, s: Sys, r: Sys, c: nat, k: nat, taken: nat, a: nat, w: nat, m: nat)
    requires x.Valid() && Ok(x, h, s, r) && Shape(x, s) && Front(x, s, c, k, taken, a, w)
    requires a > 0 && k < Share(x, c) && m == (if a <= x.p.n then a else x.p.n)
    ensures Ready(x, s, TheParent) && Front(x, Step(x, s, TheParent), c, k + 1, taken + m, a - m, w)
  {
  }

  /** Such a state can be reached. */
  ghost predicate AtFront(x: Setup, s: Sys, c: nat, k: nat, taken: nat, a: nat, w: nat)
    requires x.Valid()
  {
    Reached(x, s) && Front(x, s, c, k, taken, a, w)
  }

  /** The child writes once. */
  lemma PushOnce(x: Setup, h: History, s: Sys, c: nat, k: nat, taken: nat, a: nat, w: nat)
    returns (s': Sys, a': nat, w': nat)
    requires x.Valid() && Sequential(x, h) && Sized(x, h) && AtFront(x, s, c, k, taken, a, w) && k < Share(x, c)
    requires a < x.cap && taken + a < Words(Share(x, c), x.p.n)
    ensures a < a' <= x.cap && AtFront(x, s', c, k, taken, a', w')
    ensures if a + x.p.n - w <= x.cap then a' == a + x.p.n - w && w' == 0 else a' == x.cap
  {
    var r := ReachedOk(x, h, s);
    a', w' := FrontPush(x, h, s, r, c, k, taken, a, w);
    ReachedNext(x, s, Child(c));
    s' := Step(x, s, Child(c));
  }

  /** The child writes until its pipe is full. */
  lemma {:induction false} Fill(x: Setup, h: History, s: Sys, c: nat, k: nat, taken: nat, a: nat, w: nat)
    returns (s': Sys, w': nat)
    requires x.Valid() && Sequential(x, h) && Sized(x, h) && AtFront(x, s, c, k, taken, a, w) && k < Share(x, c)
    requires a <= x.cap && taken + x.cap <= Words(Share(x, c), x.p.n)
    ensures AtFront(x, s', c, k, taken, x.cap, w')
    decreases x.cap - a
  {
    if a < x.cap {
      var s1, a1, w1 := PushOnce(x, h, s, c, k, taken, a, w);
      s', w' := Fill(x, h, s1, c, k, taken, a1, w1);
    } else {
      s', w' := s, w;
    }
  }

  lemma FrontOffset(x: Setup, h: History, s: Sys, c: nat, k: nat, taken: nat, a: nat, w: nat)
    requires x.Valid() && Sequential(x, h) && Sized(x, h) && AtFront(x, s, c, k, taken, a, w)
    ensures Over(taken + a, x.p.n) == w && taken <= Words(k, x.p.n)
  {
    var r := ReachedOk(x, h, s);
    RewoundKid(x, h, s, r, c);
    WrittenOffset(x, s, c);
  }

  /** The parent reads once. */
  lemma ReadOnce(x: Setup, h: History, s: Sys, c: nat, k: nat, taken: nat, a: nat, w: nat, m: nat) returns (s': Sys)
    requires x.Valid() && Sequential(x, h) && Sized(x, h) && AtFront(x, s, c, k, taken, a, w)
    requires a > 0 && k < Share(x, c) && m == (if a <= x.p.n then a else x.p.n)
    ensures AtFront(x, s', c, k + 1, taken + m, a - m, w)
  {
    var r := ReachedOk(x, h, s);
    FrontRead(x, h, s, r, c, k, taken, a, w, m);
    ReachedNext(x, s, TheParent);
    s' := Step(x, s, TheParent);
  }

  /** The child completes a torn row, and the parent reads the rest of it. */
  lemma RowMove(x: Setup, h: History, s: Sys, c: nat, k: nat, taken: nat, w: nat) returns (s': Sys)
    requires x.Valid() && Sequential(x, h) && Sized(x, h) && AtFront(x, s, c, k, taken, 0, w)
    requires k < Share(x, c) && w < x.p.n
    ensures AtFront(x, s', c, k + 1, taken + (x.p.n - w), 0, 0)
  {
    FrontOffset(x, h, s, c, k, taken, 0, w);
    WordsMono(k + 1, Share(x, c), x.p.n);
    var s1, a1, w1 := PushOnce(x, h, s, c, k, taken, 0, w);
    s' := ReadOnce(x, h, s1, c, k, taken, x.p.n - w, 0, x.p.n - w);
  }

  /** The child fills the pipe. */
  lemma FillMove(x: Setup, h: History, s: Sys, c: nat, k: nat, taken: nat, w: nat) returns (s': Sys)
    requires x.Valid() && Sequential(x, h) && Sized(x, h) && AtFront(x, s, c, k, taken, 0, w)
    requires k < Share(x, c) && w < x.p.n && x.cap <= Words(Share(x, c) - k, x.p.n)
    ensures AtFront(x, s', c, k, taken, x.cap, Spin(x.p.n, x.cap, w))
  {
    FrontOffset(x, h, s, c, k, taken, 0, w);
    WordsAdd(k, Share(x, c) - k, x.p.n);
    var w';
    s', w' := Fill(x, h, s, c, k, taken, 0, w);
    FrontOffset(x, h, s', c, k, taken, x.cap, w');
    SpinIs(x.p.n, x.cap, taken);
  }

  /** The parent reads what is there, and loses the rest of a row. */
  lemma ReadMove(x: Setup, h: History, s: Sys, c: nat, k: nat, taken: nat, a: nat, w: nat, lost: nat)
    returns (s': Sys, taken': nat, a': nat, lost': nat)
    requires x.Valid() && Sequential(x, h) && Sized(x, h) && AtFront(x, s, c, k, taken, a, w)
    requires a > 0 && k < Share(x, c) && w < x.p.n && taken + lost == Words(k, x.p.n)
    ensures AtFront(x, s', c, k + 1, taken', a', w) && taken' + lost' == Words(k + 1, x.p.n)
    ensures lost + Drain(x.p.n, x.cap, Share(x, c) - k, a, w)
         == lost' + Drain(x.p.n, x.cap, Share(x, c) - (k + 1), a', w)
  {
    var m := if a <= x.p.n then a else x.p.n;
    DrainRead(x.p.n, x.cap, Share(x, c) - k, a, w, m);
    s' := ReadOnce(x, h, s, c, k, taken, a, w, m);
    taken', a', lost' := taken + m, a - m, lost + x.p.n - m;
  }

  /** The parent is d words behind child c, or more. */
  ghost predicate Behind(x: Setup, s: Sys, c: nat, d: nat)
    requires x.Valid()
  {
    Reached(x, s) && Sizes(x, s) && c < |x.lo| && Ending(s.kids[c].pc) && !HungUp(s, c) && Lags(x, s, c, d)
  }

  /** A schedule that loses what the reads left can lose, from an empty pipe, d words altogether. */
  lemma {:induction false} PlayLoss(x: Setup, h: History, s: Sys, c: nat, k: nat, taken: nat, w: nat, lost: nat, d: nat)
    returns (s': Sys)
    requires x.Valid() && Sequential(x, h) && Sized(x, h) && AtFront(x, s, c, k, taken, 0, w)
    requires k <= Share(x, c) && w < x.p.n && taken + lost == Words(k, x.p.n)
    requires d == lost + MaxLoss(x.p.n, x.cap, Share(x, c) - k, w)
    ensures Behind(x, s', c, d)
    decreases Share(x, c) - k, 1
  {
    var n, rows := x.p.n, Share(x, c) - k;
    if rows == 0 {
      s' := s;
    } else if MaxLoss(n, x.cap, rows, w) == MaxLoss(n, x.cap, rows - 1, 0) + w {
      var s1 := RowMove(x, h, s, c, k, taken, w);
      s' := PlayLoss(x, h, s1, c, k + 1, taken + (n - w), 0, lost + w, d);
    } else {
      DrainBelowRows(n, x.cap, rows, x.cap, Spin(n, x.cap, w));
      var s1 := FillMove(x, h, s, c, k, taken, w);
      s' := PlayDrain(x, h, s1, c, k, taken, x.cap, Spin(n, x.cap, w), lost, d);
    }
  }

  /** The same from a pipe with a words in it. */
  lemma {:induction false} PlayDrain(x: Setup, h: History, s: Sys, c: nat, k: nat, taken: nat, a: nat, w: nat,
                                     lost: nat,
                                     d: nat)
    returns (s': Sys)
    requires x.Valid() && Sequential(x, h) && Sized(x, h) && AtFront(x, s, c, k, taken, a, w)
    requires k <= Share(x, c) && w < x.p.n && taken + lost == Words(k, x.p.n)
    requires d == lost + Drain(x.p.n, x.cap, Share(x, c) - k, a, w)
    ensures Behind(x, s', c, d)
    decreases Share(x, c) - k, if a == 0 then 2 else 0
  {
    if a == 0 {
      s' := PlayLoss(x, h, s, c, k, taken, w, lost, d);
    } else if k == Share(x, c) {
      s' := s;
    } else {
      var s1, taken1, a1, lost1 := ReadMove(x, h, s, c, k, taken, a, w, lost);
      s' := PlayDrain(x, h, s1, c, k + 1, taken1, a1, w, lost1, d);
    }
  }

  // ----- up to the last child -----

  /** The parent gathers from child i or before it, and child c has not taken its order. */
  ghost predicate Before(x: Setup, s: Sys, c: nat)
    requires x.Valid()
  {
    Sizes(x, s) && c < |x.lo| && s.parent.pc.Gather? && s.parent.pc.i <= c && !Ending(s.kids[c].pc)
  }

  lemma BeforeStep(x: Setup, h: History, s: Sys, r: Sys, c: nat) returns (w: Proc)
    requires x.Valid() && Ok(x, h, s, r) && Shape(x, s) && Before(x, s, c) && s.parent.pc.i < c
    ensures Ready(x, s, w) && Before(x, Step(x, s, w), c)
  {
    var i := s.parent.pc.i;
    GatherGoesOn(x, h, s, r);
    if s.cp[i] != [] {
      w := TheParent;
    } else {
      w := Child(i);
      KidStepOnly(x, s, i);
    }
  }

  lemma {:induction false} PassEarlier(x: Setup, h: History, s: Sys, r: Sys, c: nat) returns (s': Sys)
    requires x.Valid() && Sequential(x, h) && Sized(x, h) && Reached(x, s) && Ok(x, h, s, r) && Before(x, s, c)
    ensures Reached(x, s') && Before(x, s', c) && s'.parent.pc.i == c
    decreases Left(x, s, r)
  {
    s' := s;
    if s.parent.pc.i < c {
      OkShape(x, h, s, r);
      LeftNonNegative(x, h, s, r);
      var w := BeforeStep(x, h, s, r, c);
      var r' := StepKeepsOk(x, h, s, r, w);
      ReachedNext(x, s, w);
      s' := PassEarlier(x, h, Step(x, s, w), r', c);
    }
  }

  /** The child takes its order, with the parent in front of its first row. */
  lemma TakeOrder(x: Setup, h: History, s: Sys, c: nat) returns (s': Sys)
    requires x.Valid() && Sequential(x, h) && Sized(x, h) && Reached(x, s) && Before(x, s, c) && s.parent.pc.i == c
    ensures AtFront(x, s', c, 0, 0, 0, 0)
  {
    var r := ReachedOk(x, h, s);
    RewoundKid(x, h, s, r, c);
    ReachedNext(x, s, Child(c));
    s' := Step(x, s, Child(c));
  }

  /** A state in front of the first row of child c. */
  lemma ReachChild(x: Setup, h: History, c: nat) returns (s: Sys)
    requires x.Valid() && Sequential(x, h) && Sized(x, h) && c < |x.lo|
    ensures AtFront(x, s, c, 0, 0, 0, 0)
  {
    InitOk(x, h);
    var ws := ReachGather(x, h, []);
    RunReaches(x, ws);
    var r := ReachedOk(x, h, Exec(x, ws).s);
    s := PassEarlier(x, h, Exec(x, ws).s, r, c);
    s := TakeOrder(x, h, s, c);
  }

  // ----- no schedule loses more -----

  ghost predicate Within(x: Setup, s: Sys, c: nat)
    requires x.Valid() && Sizes(x, s) && c < |x.lo|
  {
    Ending(s.kids[c].pc) ==>
      WithinLoss(x.p.n, x.cap, Share(x, c), Reads(x, s.parent, c), Written(x, c, s.kids[c]), |s.cp[c]|,
                 TornWords(x, s.kids[c]))
  }

  lemma WithinPush(x: Setup, h: History, s: Sys, r: Sys, c: nat)
    requires x.Valid() && Ok(x, h, s, r) && Shape(x, s) && c < |x.lo| && !HungUp(s, c) && KidReady(x, s, c)
             && s.kids[c].pc.SendRow?
    requires Within(x, s, c)
    ensures Sizes(x, DoSendRow(x, s, c)) && Within(x, DoSendRow(x, s, c), c)
  {
    RewoundKid(x, h, s, r, c);
    RowStep(x, s, c);
    PushShape(x, s, c);
    RowStepOk(x, h, s, r, c);
    var s' := DoSendRow(x, s, c);
    assert Counts(x, s', c);
    WrittenOffset(x, s', c);
    PushWithin(x.p.n, x.cap, Share(x, c), Reads(x, s.parent, c), Written(x, c, s.kids[c]), |s.cp[c]|,
               TornWords(x, s.kids[c]));
  }

  /** What a read changes for child c. */
  lemma GatherEffect(x: Setup, s: Sys, c: nat)
    requires x.Valid() && Shape(x, s) && Gathers(x, s.parent) && c < |x.lo|
    requires s.parent.pc.Gather? && s.cp[s.parent.pc.i] != []
    ensures var s', a, mine := DoGather(x, s), |s.cp[c]|, s.parent.pc.i == c;
            && Sizes(x, s') && s'.kids == s.kids && (mine ==> Reads(x, s.parent, c) < Share(x, c))
            && Reads(x, s'.parent, c) == Reads(x, s.parent, c) + (if mine then 1 else 0)
            && |s'.cp[c]| == if !mine then a else if a <= x.p.n then 0 else a - x.p.n
  {
    var i := s.parent.pc.i;
    if i + 1 < |x.lo| {
      assert Adjacent(x.lo, x.hi, i);
    }
  }

  lemma WithinRead(x: Setup, h: History, s: Sys, r: Sys, c: nat)
    requires x.Valid() && Ok(x, h, s, r) && Shape(x, s) && c < |x.lo| && Within(x, s, c)
    requires s.parent.pc.Gather? && s.cp[s.parent.pc.i] != []
    ensures Sizes(x, DoGather(x, s)) && Within(x, DoGather(x, s), c)
  {
    RewoundKid(x, h, s, r, c);
    GatherEffect(x, s, c);
    if c == s.parent.pc.i && Ending(s.kids[c].pc) {
      WrittenOffset(x, s, c);
      var a := |s.cp[c]|;
      ReadWithin(x.p.n, x.cap, Share(x, c), Reads(x, s.parent, c), Written(x, c, s.kids[c]), a, TornWords(x, s.kids[c]),
                 if a <= x.p.n then a else x.p.n);
    }
  }

  /** The order to finish starts with nothing lost. */
  lemma WithinStart(x: Setup, h: History, s: Sys, r: Sys, c: nat)
    requires x.Valid() && Ok(x, h, s, r) && Shape(x, s) && c < |x.lo| && KidReady(x, s, c) && !Ending(s.kids[c].pc)
    ensures Sizes(x, KidStep(x, s, c)) && Within(x, KidStep(x, s, c), c)
  {
    KidStepOnly(x, s, c);
    StartWithin(x.p.n, x.cap, Share(x, c));
    if Ending(KidStep(x, s, c).kids[c].pc) {
      StartsEmpty(x, h, s, r, c);
    }
  }

  lemma WithinChild(x: Setup, h: History, s: Sys, r: Sys, d: nat, c: nat)
    requires x.Valid() && Ok(x, h, s, r) && Shape(x, s) && d < |x.lo| && KidReady(x, s, d)
    requires c < |x.lo| && !HungUp(s, c) && Within(x, s, c)
    ensures Sizes(x, KidStep(x, s, d)) && Within(x, KidStep(x, s, d), c)
  {
    KidStepOnly(x, s, d);
    if d == c && s.kids[c].pc.SendRow? {
      WithinPush(x, h, s, r, c);
    } else if d == c {
      WithinStart(x, h, s, r, c);
    }
  }

  lemma WithinParent(x: Setup, h: History, s: Sys, r: Sys, c: nat)
    requires x.Valid() && Ok(x, h, s, r) && Shape(x, s) && ParentReady(x, s) && c < |x.lo| && Within(x, s, c)
    ensures Sizes(x, ParentStep(x, s)) && Within(x, ParentStep(x, s), c)
  {
    RewoundKid(x, h, s, r, c);
    if s.parent.pc.Gather? {
      WithinRead(x, h, s, r, c);
    }
  }

  lemma WithinStep(x: Setup, h: History, s: Sys, r: Sys, w: Proc, c: nat)
    requires x.Valid() && Ok(x, h, s, r) && Shape(x, s) && Ready(x, s, w) && c < |x.lo|
             && (HungUp(s, c) || Within(x, s, c))
    ensures Sizes(x, Step(x, s, w)) && (HungUp(Step(x, s, w), c) || Within(x, Step(x, s, w), c))
  {
    match w
    case TheParent => WithinParent(x, h, s, r, c);
    case Child(d) =>
      KidStepOnly(x, s, d);
      if !HungUp(s, c) {
        WithinChild(x, h, s, r, d, c);
      }
  }

  lemma {:induction false} RunWithin(x: Setup, h: History, ws: seq<Proc>, c: nat)
    requires x.Valid() && Sequential(x, h) && Sized(x, h) && Exec(x, ws).At? && c < |x.lo|
    ensures Sizes(x, Exec(x, ws).s) && (HungUp(Exec(x, ws).s, c) || Within(x, Exec(x, ws).s, c))
  {
    if ws != [] {
      RunWithin(x, h, ws[..|ws| - 1], c);
      var s, w := Exec(x, ws[..|ws| - 1]).s, ws[|ws| - 1];
      var r := RunOk(x, h, ws[..|ws| - 1]);
      WithinStep(x, h, s, r, w, c);
    }
  }

  /** A finished parent leaves only the last child behind, and that by more than a pipe. */
  lemma LeftLosesAPipe(x: Setup, h: History, s: Sys, r: Sys, c: nat)
    requires x.Valid() && Ok(x, h, s, r) && Shape(x, s) && s.parent.pc.Finished? && c < |x.lo|
    requires c + 1 == |x.lo| ==> Within(x, s, c)
    ensures s.kids[c].pc.Exited? || Ready(x, s, Child(c))
            || (c + 1 == |x.lo| && MaxLoss(x.p.n, x.cap, Share(x, c), 0) > x.cap)
  {
    RewoundKid(x, h, s, r, c);
    if c + 1 == |x.lo| && s.kids[c].pc.SendRow? {
      WordsMono(s.kids[c].pc.j - x.lo[c] + 1, Share(x, c), x.p.n);
      LeftWithin(x.p.n, x.cap, Share(x, c), Written(x, c, s.kids[c]), |s.cp[c]|, TornWords(x, s.kids[c]));
    }
  }

  /** In every reachable state some process can move until all of them have finished, if the reads of
      the last child's rows cannot lose more than a pipe. */
  lemma NoDeadlock(x: Setup, ws: seq<Proc>)
    requires x.Valid() && Exec(x, ws).At?
    requires MaxLoss(x.p.n, x.cap, Share(x, |x.lo| - 1), 0) <= x.cap
    ensures var s := Exec(x, ws).s;
            && Shape(x, s)
            && ((exists w :: Ready(x, s, w))
                || (s.parent.pc.Finished? && forall c :: 0 <= c < |s.kids| ==> s.kids[c].pc.Exited?))
  {
    var h := SequentialHistory(x);
    SequentialHistoryIs(x);
    var r := RunOk(x, h, ws);
    var s := Exec(x, ws).s;
    OkShape(x, h, s, r);
    RunWithin(x, h, ws, |x.lo| - 1);
    if !s.parent.pc.Finished? {
      var w := SomeoneMoves(x, h, s, r);
    } else {
      forall c | 0 <= c < |s.kids|
        ensures s.kids[c].pc.Exited? || Ready(x, s, Child(c))
      {
        LeftLosesAPipe(x, h, s, r, c);
      }
    }
  }

  /** A schedule that hangs. */
  lemma LastChildHangs(x: Setup) returns (ws: seq<Proc>)
    requires x.Valid() && MaxLoss(x.p.n, x.cap, Share(x, |x.lo| - 1), 0) > x.cap
    ensures Hangs(x, ws)
  {
    var c := |x.lo| - 1;
    var d := MaxLoss(x.p.n, x.cap, Share(x, c), 0);
    var h := SequentialHistory(x);
    SequentialHistoryIs(x);
    var s := ReachChild(x, h, c);
    s := PlayLoss(x, h, s, c, 0, 0, 0, 0, d);
    var r := ReachedOk(x, h, s);
    ws := HangsAtLast(x, h, s, r, c, d);
  }

  /** Some run hangs if and only if the reads of the last child's rows can lose more than a pipe. */
  lemma HangsIff(x: Setup)
    requires x.Valid()
    ensures (exists ws :: Hangs(x, ws)) <==> MaxLoss(x.p.n, x.cap, Share(x, |x.lo| - 1), 0) > x.cap
  {
    if MaxLoss(x.p.n, x.cap, Share(x, |x.lo| - 1), 0) > x.cap {
      var ws := LastChildHangs(x);
    } else if ws :| Hangs(x, ws) {
      NoDeadlock(x, ws);
    }
  }

  /** A result that fits its pipe, or fills it in whole rows, loses nothing. */
  lemma FittingLoss(x: Setup, c: nat)
    requires x.Valid() && x.Fits(c)
    ensures MaxLoss(x.p.n, x.cap, Share(x, c), 0) == 0
  {
    OverIs(x.cap, x.p.n);
    if x.cap % x.p.n == 0 {
      EvenLoss(x.p.n, x.cap, Share(x, c));
    } else {
      WordsIs(Share(x, c), x.p.n);
      RoomyLoss(x.p.n, x.cap, Share(x, c));
    }
  }
}
