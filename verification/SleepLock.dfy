/** sleeplock.c with the sleep and wakeup of proc.c, step by step.

    Any number of processes use one sleep lock.  The two spinlocks, lk->lk and ptable.lock, are
    part of the state; a process that wants one waits until it is free.  The steps of different
    processes come in any order. */
module SleepLock {

  /** Where a process is. */
  datatype Pc =
    | Idle
    | WantLk          // acquiresleep: wants lk->lk
    | Testing         // has lk->lk, about to test lk->locked
    | WantPt          // sleep: has lk->lk, wants ptable.lock
    | Both            // has both
    | OnlyPt          // has released lk->lk
    | Asleep          // has released ptable.lock as well
    | Woken           // made runnable
    | Back            // running again, with ptable.lock
    | Holding         // has the sleep lock
    | WantLkToFree    // releasesleep: wants lk->lk
    | Cleared         // has lk->lk and has cleared lk->locked; wakeup: wants ptable.lock
    | Waking          // has both
    | Woke            // has released ptable.lock

  predicate HasLk(pc: Pc) { pc.Testing? || pc.WantPt? || pc.Both? || pc.Cleared? || pc.Waking? || pc.Woke? }

  predicate HasPt(pc: Pc) { pc.Both? || pc.OnlyPt? || pc.Back? || pc.Waking? }

  /** Past the last test of lk->locked before the lock is given back. */
  predicate Owns(pc: Pc) { pc.Holding? || pc.WantLkToFree? }

  /** Saw the lock taken, and waits for a wake-up. */
  predicate Waits(pc: Pc) { pc.WantPt? || pc.Both? || pc.OnlyPt? || pc.Asleep? }

  datatype Spin = Free | Held(who: nat)

  datatype Sys = Sys(lk: Spin, pt: Spin, locked: bool, owner: nat, pcs: seq<Pc>)

  /** A process takes its next step, or another one is killed. */
  datatype Step = Next(p: nat) | Kill(q: nat)

  predicate Enabled(s: Sys, t: Step) {
    match t
    case Kill(q) => q < |s.pcs| && s.pt.Free?
    case Next(p) =>
      p < |s.pcs| &&
      match s.pcs[p]
      case WantLk | WantLkToFree => s.lk.Free?
      case WantPt | Cleared | Woken => s.pt.Free?
      case Asleep => false
      case _ => true
  }

  function To(s: Sys, p: nat, pc: Pc): (s': Sys)
    requires p < |s.pcs|
  {
    s.(pcs := s.pcs[p := pc])
  }

  function WakeAll(pcs: seq<Pc>): (r: seq<Pc>)
    ensures |r| == |pcs| && forall i :: 0 <= i < |pcs| ==> r[i] == if pcs[i].Asleep? then Woken else pcs[i]
  {
    seq(|pcs|, i requires 0 <= i < |pcs| => if pcs[i].Asleep? then Woken else pcs[i])
  }

  function Do(s: Sys, t: Step): (s': Sys)
    requires Enabled(s, t)
    ensures |s'.pcs| == |s.pcs|
  {
    match t
    case Kill(q) => if s.pcs[q].Asleep? then To(s, q, Woken) else s
    case Next(p) =>
      match s.pcs[p]
      case Idle => To(s, p, WantLk)
      case WantLk => To(s, p, Testing).(lk := Held(p))
      case Testing => if s.locked then To(s, p, WantPt) else To(s, p, Holding).(lk := Free, locked := true, owner := p)
      case WantPt => To(s, p, Both).(pt := Held(p))
      case Both => To(s, p, OnlyPt).(lk := Free)
      case OnlyPt => To(s, p, Asleep).(pt := Free)
      case Woken => To(s, p, Back).(pt := Held(p))
      case Back => To(s, p, WantLk).(pt := Free)
      case Holding => To(s, p, WantLkToFree)
      case WantLkToFree => To(s, p, Cleared).(lk := Held(p), locked := false)
      case Cleared => To(s, p, Waking).(pt := Held(p))
      case Waking => s.(pcs := WakeAll(s.pcs)[p := Woke], pt := Free)
      case Woke => To(s, p, Idle).(lk := Free)
  }

  // ----- what every step keeps -----

  /** The spinlocks and the sleep lock are where the program counter of p says. */
  ghost predicate Consistent(s: Sys, p: nat)
    requires p < |s.pcs|
  {
    && (s.lk == Held(p) <==> HasLk(s.pcs[p]))
    && (s.pt == Held(p) <==> HasPt(s.pcs[p]))
    && (s.locked && s.owner == p <==> Owns(s.pcs[p]))
    && (Waits(s.pcs[p]) ==> s.locked || WakerDue(s))
    && (s.pcs[p].WantPt? || s.pcs[p].Both? ==> s.locked)
  }

  /** The process with lk->lk has cleared the lock and not yet woken the sleepers. */
  ghost predicate WakerDue(s: Sys) {
    s.lk.Held? && s.lk.who < |s.pcs| && (s.pcs[s.lk.who].Cleared? || s.pcs[s.lk.who].Waking?)
  }

  ghost predicate Inv(s: Sys) {
    && (s.lk.Held? ==> s.lk.who < |s.pcs|) && (s.pt.Held? ==> s.pt.who < |s.pcs|) && (s.locked ==> s.owner < |s.pcs|)
    && forall p {:trigger Consistent(s, p)} :: 0 <= p < |s.pcs| ==> Consistent(s, p)
  }

  lemma StepKeeps(s: Sys, t: Step)
    requires Inv(s) && Enabled(s, t)
    ensures Inv(Do(s, t))
  {
    var s' := Do(s, t);
    forall q | 0 <= q < |s'.pcs|
      ensures Consistent(s', q)
    {
      StepKeepsAt(s, t, q);
    }
    if t.Next? {
      assert Consistent(s, t.p);
    }
  }

  lemma StepKeepsAt(s: Sys, t: Step, q: nat)
    requires Inv(s) && Enabled(s, t) && q < |s.pcs|
    ensures Consistent(Do(s, t), q)
  {
    assert Consistent(s, q);
    if s.lk.Held? {
      assert Consistent(s, s.lk.who);
    }
    if t.Next? {
      assert Consistent(s, t.p);
      if q == t.p {
        StepKeepsSelf(s, q);
      } else {
        StepKeepsOther(s, t.p, q);
      }
    }
  }

  /** The process that takes the step. */
  lemma StepKeepsSelf(s: Sys, p: nat)
    requires Enabled(s, Next(p)) && Consistent(s, p) && (s.lk.Held? && s.lk.who < |s.pcs| ==> Consistent(s, s.lk.who))
    ensures Consistent(Do(s, Next(p)), p)
  {
  }

  /** Another process sees it. */
  lemma StepKeepsOther(s: Sys, p: nat, q: nat)
    requires Enabled(s, Next(p)) && q < |s.pcs| && p != q && Consistent(s, p) && Consistent(s, q)
    requires s.lk.Held? && s.lk.who < |s.pcs| ==> Consistent(s, s.lk.who)
    ensures Consistent(Do(s, Next(p)), q)
  {
  }

  // ----- whole runs -----

  function Start(n: nat): Sys { Sys(Free, Free, false, 0, seq(n, _ => Idle)) }

  datatype Run = Reached(s: Sys) | Impossible

  function Exec(n: nat, ts: seq<Step>): Run {
    if ts == [] then Reached(Start(n))
    else
      match Exec(n, ts[..|ts| - 1])
      case Reached(s) => if Enabled(s, ts[|ts| - 1]) then Reached(Do(s, ts[|ts| - 1])) else Impossible
      case Impossible => Impossible
  }

  lemma {:induction false} RunKeeps(n: nat, ts: seq<Step>)
    requires Exec(n, ts).Reached?
    ensures Inv(Exec(n, ts).s) && |Exec(n, ts).s.pcs| == n
  {
    if ts == [] {
      forall p | 0 <= p < n
        ensures Consistent(Start(n), p)
      {
      }
    } else {
      RunKeeps(n, ts[..|ts| - 1]);
      StepKeeps(Exec(n, ts[..|ts| - 1]).s, ts[|ts| - 1]);
    }
  }

  /** At most one process holds the sleep lock, in every reachable state. */
  lemma Exclusion(n: nat, ts: seq<Step>, p: nat, q: nat)
    requires Exec(n, ts).Reached? && p < n && q < n
    requires |Exec(n, ts).s.pcs| == n && Owns(Exec(n, ts).s.pcs[p]) && Owns(Exec(n, ts).s.pcs[q])
    ensures p == q
  {
    RunKeeps(n, ts);
    assert Consistent(Exec(n, ts).s, p) && Consistent(Exec(n, ts).s, q);
  }

  /** While the two spinlocks are free, a process sleeps only on a lock that is taken, and the holder
      is one of the processes. */
  lemma NoLostWakeup(n: nat, ts: seq<Step>, p: nat)
    requires Exec(n, ts).Reached? && p < n && |Exec(n, ts).s.pcs| == n
    requires Exec(n, ts).s.lk.Free? && Exec(n, ts).s.pt.Free? && Exec(n, ts).s.pcs[p].Asleep?
    ensures
      var s := Exec(n, ts).s;
      s.locked && s.owner < n && Owns(s.pcs[s.owner])
  {
    RunKeeps(n, ts);
    var s := Exec(n, ts).s;
    assert Consistent(s, p);
    assert Consistent(s, s.owner);
  }

  /** Some process can take a step unless there is none: the two spinlocks never deadlock, although
      sleep and wakeup take ptable.lock while they have lk->lk, and sleepers wait for a holder. */
  lemma NoDeadlock(n: nat, ts: seq<Step>)
    requires Exec(n, ts).Reached? && n > 0
    ensures exists p :: 0 <= p < n && Enabled(Exec(n, ts).s, Next(p))
  {
    RunKeeps(n, ts);
    var s := Exec(n, ts).s;
    if s.pt.Held? {
      assert Consistent(s, s.pt.who);
      assert Enabled(s, Next(s.pt.who));
    } else if s.lk.Held? {
      assert Consistent(s, s.lk.who);
      assert Enabled(s, Next(s.lk.who));
    } else {
      assert Consistent(s, 0);
      if s.pcs[0].Asleep? {
        assert Consistent(s, s.owner);
        assert Enabled(s, Next(s.owner));
      } else {
        assert Enabled(s, Next(0));
      }
    }
  }

  /** Process p waits for a spinlock that process q has. */
  ghost predicate SpinsOn(s: Sys, p: nat, q: nat)
    requires p < |s.pcs|
  {
    match s.pcs[p]
    case WantLk | WantLkToFree => s.lk == Held(q)
    case WantPt | Cleared | Woken => s.pt == Held(q)
    case _ => false
  }

  ghost predicate CanStep(s: Sys, p: nat) { Enabled(s, Next(p)) }

  /** Nobody is stuck: each process that does not sleep can take its next step, or waits for the spinlock of a
      process that can, or that itself waits only for the other spinlock, whose holder can. */
  lemma NobodyStuck(n: nat, ts: seq<Step>, p: nat)
    requires Exec(n, ts).Reached? && p < n && |Exec(n, ts).s.pcs| == n && !Exec(n, ts).s.pcs[p].Asleep?
    ensures
      var s := Exec(n, ts).s;
      || CanStep(s, p)
      || exists q :: 0 <= q < n && SpinsOn(s, p, q) && (CanStep(s, q)
                     || exists r :: 0 <= r < n && SpinsOn(s, q, r) && CanStep(s, r))
  {
    RunKeeps(n, ts);
    var s := Exec(n, ts).s;
    if s.pt.Held? {
      assert Consistent(s, s.pt.who) && CanStep(s, s.pt.who);
    }
    if !CanStep(s, p) && s.lk.Held? && SpinsOn(s, p, s.lk.who) {
      var q := s.lk.who;
      assert Consistent(s, q);
      assert CanStep(s, q) || (SpinsOn(s, q, s.pt.who) && CanStep(s, s.pt.who));
    }
  }

  // ----- what a call achieves -----

  /** Process p takes k steps, with nobody else in between. */
  function Alone(s: Sys, p: nat, k: nat): Run
    decreases k
  {
    if k == 0 then Reached(s)
    else if Enabled(s, Next(p)) then Alone(Do(s, Next(p)), p, k - 1)
    else Impossible
  }

  lemma AloneNext(s: Sys, p: nat, k: nat) returns (s': Sys)
    requires Enabled(s, Next(p)) && k > 0
    ensures s' == Do(s, Next(p)) && Alone(s, p, k) == Alone(s', p, k - 1)
  {
    s' := Do(s, Next(p));
  }

  /** acquiresleep with the spinlocks free: two steps later it has the lock if nobody had it, and
      otherwise five steps later it sleeps; either way both spinlocks are free again. */
  lemma AcquireAlone(s: Sys, p: nat)
    requires p < |s.pcs| && s.pcs[p].WantLk? && s.lk.Free? && s.pt.Free?
    ensures !s.locked ==> Alone(s, p, 2) == Reached(To(s, p, Holding).(locked := true, owner := p))
    ensures s.locked ==> Alone(s, p, 5) == Reached(To(s, p, Asleep))
  {
    var k := if s.locked then 5 else 2;
    var s1 := AloneNext(s, p, k);
    var s2 := AloneNext(s1, p, k - 1);
    if s.locked {
      var s3 := AloneNext(s2, p, 3);
      var s4 := AloneNext(s3, p, 2);
      var s5 := AloneNext(s4, p, 1);
      assert s5.pcs == s.pcs[p := Asleep];
    } else {
      assert s2.pcs == s.pcs[p := Holding];
    }
  }

  /** A process that was woken asks for the lock again. */
  lemma WokenAsksAgain(s: Sys, p: nat)
    requires p < |s.pcs| && s.pcs[p].Woken? && s.pt.Free?
    ensures Alone(s, p, 2) == Reached(To(s, p, WantLk))
  {
    var s1 := AloneNext(s, p, 2);
    var s2 := AloneNext(s1, p, 1);
    assert s2.pcs == s.pcs[p := WantLk];
  }

  /** releasesleep with the spinlocks free: the lock is free and every sleeper is runnable. */
  lemma ReleaseAlone(s: Sys, p: nat)
    requires p < |s.pcs| && s.pcs[p].Holding? && s.lk.Free? && s.pt.Free?
    ensures Alone(s, p, 5) == Reached(s.(pcs := WakeAll(s.pcs)[p := Idle], locked := false))
  {
    var s1 := AloneNext(s, p, 5);
    var s2 := AloneNext(s1, p, 4);
    var s3 := AloneNext(s2, p, 3);
    assert s3.pcs == s.pcs[p := Waking];
    var s4 := AloneNext(s3, p, 2);
    var s5 := AloneNext(s4, p, 1);
    assert s5.pcs == WakeAll(s.pcs)[p := Idle];
  }
}
