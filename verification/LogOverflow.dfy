/** What a commit does that is too large for the log area, and when that can happen.

    Two operations can pass log_write's check before either adds its block, so on a log area that is not
    larger than LOGSIZE a commit can have one block more than there are slots behind the header.  The last
    copy then lands on the block after the log area.  A crash before the header write leaves that block
    changed and everything else as it was: neither all of the operations nor none of them. */
module LogOverflow {
  import opened Disk
  import opened RedoLog
  import opened TxnSystem
  import R = LogReserve

  const OLD: Block := [0]
  const NEW: Block := [1]

  /** A disk with nothing in its log. */
  function Blank(l: Layout): Image { Image(seq(l.diskSize, _ => OLD), []) }

  /** Room for the run: the block after the log area is a home block, and there are logSize more behind it. */
  ghost predicate Spacious(c: Config, k: nat, first: nat) {
    && c.l.Valid() && 2 <= k <= c.nproc && 0 < c.maxOp && k * c.maxOp == c.l.logMax && 2 <= c.l.logSize
    && c.l.logStart + c.l.logSize < first && first + c.l.logSize <= c.l.diskSize
  }

  // ----- runs without a commit -----

  /** The run us leads to s and has not written a header. */
  ghost predicate RunTo(c: Config, d: Image, us: seq<Step>, s: Sys) {
    Exec(c, d, us) == At(s) && LastCommit(c, d, us) == 0
  }

  ghost predicate Reached(c: Config, d: Image, s: Sys) {
    exists us {:trigger RunTo(c, d, us, s)} :: RunTo(c, d, us, s)
  }

  lemma Go(c: Config, d: Image, s: Sys, t: Step)
    requires Reached(c, d, s) && Enabled(c, s, t) && !HeadWrite(s, t)
    ensures Reached(c, d, Do(c, s, t))
  {
    var us :| RunTo(c, d, us, s);
    assert (us + [t])[..|us|] == us;
    assert RunTo(c, d, us + [t], Do(c, s, t));
  }

  /** The system with the log space sp, between critical sections; the logged blocks are new in the cache. */
  ghost predicate Lifted(c: Config, d: Image, sp: R.Space, s: Sys) {
    && Reached(c, d, s) && s.space == sp && s.job.NoJob? && s.disk == d && s.holder == map[] && s.touched == {}
    && forall i :: 0 <= i < |sp.blocks| ==> sp.blocks[i] in s.cache && s.cache[sp.blocks[i]] == NEW
  }

  lemma LiftStart(c: Config) returns (s: Sys)
    requires c.l.Valid()
    ensures Lifted(c, Blank(c.l), R.Init(c.Space()), s)
  {
    var d := Blank(c.l);
    s := PowerOn(c, d);
    assert RunTo(c, d, [], s);
    Go(c, d, s, JobWrite);
    s := Do(c, s, JobWrite);
    assert s.disk == d;
    Go(c, d, s, JobDone);
    s := Do(c, s, JobDone);
  }

  /** The buffer of b is locked by p and changed. */
  ghost predicate Changed(c: Config, d: Image, sp: R.Space, p: nat, b: nat, s: Sys) {
    && Reached(c, d, s) && s.space == sp && s.job.NoJob? && s.disk == d && s.holder == map[b := p] && s.touched == {b}
    && b in s.cache && s.cache[b] == NEW
    && forall i :: 0 <= i < |sp.blocks| ==> sp.blocks[i] in s.cache && s.cache[sp.blocks[i]] == NEW
  }

  lemma LiftChange(c: Config, d: Image, sp: R.Space, s: Sys, p: nat, b: nat) returns (s': Sys)
    requires Lifted(c, d, sp, s) && R.Enabled(c.Space(), sp, true, R.Insert(p, b)) && c.l.Home(b)
    requires |d.blocks| == c.l.diskSize && |sp.ops| == c.nproc
    ensures Changed(c, d, sp, p, b, s')
  {
    Go(c, d, s, Lock(p, b));
    var s1 := Do(c, s, Lock(p, b));
    Go(c, d, s1, Modify(p, b, NEW));
    s' := Do(c, s1, Modify(p, b, NEW));
  }

  /** log_write of a block, with the change it logs. */
  lemma LiftInsert(c: Config, d: Image, sp: R.Space, s: Sys, p: nat, b: nat) returns (s': Sys)
    requires Changed(c, d, sp, p, b, s) && R.Enabled(c.Space(), sp, true, R.Insert(p, b))
    ensures Lifted(c, d, R.Do(c.Space(), sp, true, R.Insert(p, b)), s')
  {
    Go(c, d, s, LogWrite(p, b));
    var s1 := Do(c, s, LogWrite(p, b));
    assert s1.touched == {};
    Go(c, d, s1, Unlock(p, b));
    s' := Do(c, s1, Unlock(p, b));
    assert s'.holder == map[];
  }

  lemma LiftAdd(c: Config, d: Image, sp: R.Space, s: Sys, p: nat, b: nat) returns (s': Sys)
    requires Lifted(c, d, sp, s) && R.Enabled(c.Space(), sp, true, R.Insert(p, b)) && c.l.Home(b)
    requires |d.blocks| == c.l.diskSize && |sp.ops| == c.nproc
    ensures Lifted(c, d, R.Do(c.Space(), sp, true, R.Insert(p, b)), s')
  {
    var s1 := LiftChange(c, d, sp, s, p, b);
    s' := LiftInsert(c, d, sp, s1, p, b);
  }

  lemma LiftBegin(c: Config, d: Image, sp: R.Space, s: Sys, p: nat) returns (s': Sys)
    requires Lifted(c, d, sp, s) && R.Enabled(c.Space(), sp, true, R.Begin(p))
    ensures Lifted(c, d, R.Do(c.Space(), sp, true, R.Begin(p)), s')
  {
    Go(c, d, s, Begin(p));
    s' := Do(c, s, Begin(p));
  }

  lemma LiftCheck(c: Config, d: Image, sp: R.Space, s: Sys, p: nat) returns (s': Sys)
    requires Lifted(c, d, sp, s) && R.Enabled(c.Space(), sp, true, R.Check(p))
    ensures Lifted(c, d, R.Do(c.Space(), sp, true, R.Check(p)), s')
  {
    Go(c, d, s, Check(p));
    s' := Do(c, s, Check(p));
  }

  lemma LiftStep(c: Config, d: Image, sp: R.Space, s: Sys, t: R.Step) returns (s': Sys)
    requires Lifted(c, d, sp, s) && R.Enabled(c.Space(), sp, true, t) && |d.blocks| == c.l.diskSize
             && |sp.ops| == c.nproc
    requires t.Begin? || t.Check? || (t.Insert? && c.l.Home(t.b))
    ensures Lifted(c, d, R.Do(c.Space(), sp, true, t), s')
  {
    if t.Begin? {
      s' := LiftBegin(c, d, sp, s, t.p);
    } else if t.Check? {
      s' := LiftCheck(c, d, sp, s, t.p);
    } else {
      s' := LiftAdd(c, d, sp, s, t.p, t.b);
    }
  }

  lemma {:induction false} LiftRun(c: Config, ts: seq<R.Step>, first: nat, n: nat) returns (s: Sys)
    requires c.l.Valid() && R.Exec(c.Space(), true, ts).At? && R.Adds(ts, first, n)
    requires forall b :: first <= b < first + n ==> c.l.Home(b)
    ensures Lifted(c, Blank(c.l), R.Exec(c.Space(), true, ts).s, s)
    ensures |R.Exec(c.Space(), true, ts).s.ops| == c.nproc
  {
    if ts == [] {
      s := LiftStart(c);
    } else {
      var m := |ts| - 1;
      s := LiftRun(c, ts[..m], first, n);
      s := LiftStep(c, Blank(c.l), R.Exec(c.Space(), true, ts[..m]).s, s, ts[m]);
    }
  }

  // ----- the operations end -----

  /** A commit of the blocks hs has started. */
  ghost predicate Started(c: Config, d: Image, hs: seq<nat>, s: Sys) {
    && Reached(c, d, s) && s.space.blocks == hs && !s.space.panicked && s.holder == map[] && s.disk == d
    && s.job.Commit? && s.job.done == 0
    && forall i :: 0 <= i < |hs| ==> hs[i] in s.cache && s.cache[hs[i]] == NEW
  }

  lemma {:induction false} SomeActive(ops: seq<R.Op>) returns (p: nat)
    requires R.Outstanding(ops) > 0
    ensures p < |ops| && ops[p].Active?
  {
    var n := |ops| - 1;
    if ops[n].Active? {
      p := n;
    } else {
      p := SomeActive(ops[..n]);
    }
  }

  lemma {:induction false} EndAll(c: Config, d: Image, sp: R.Space, s: Sys) returns (s': Sys)
    requires Lifted(c, d, sp, s) && !sp.committing && !sp.panicked && R.Outstanding(sp.ops) > 0
    requires forall p :: 0 <= p < |sp.ops| && sp.ops[p].Active? ==> !sp.ops[p].checked
    ensures Started(c, d, sp.blocks, s')
    decreases R.Outstanding(sp.ops)
  {
    var p := SomeActive(sp.ops);
    R.UpdateSums(c.maxOp, sp.ops, p, R.Idle);
    Go(c, d, s, End(p));
    s' := Do(c, s, End(p));
    if !s'.space.committing {
      s' := EndAll(c, d, s'.space, s');
    }
  }

  // ----- the copies -----

  /** m of the logged blocks are copied to the blocks after the header. */
  ghost predicate Copied(c: Config, d: Image, hs: seq<nat>, m: nat, s: Sys) {
    && Reached(c, d, s) && s.space.blocks == hs && !s.space.panicked && s.holder == map[]
    && s.job.Commit? && s.job.done == m && s.disk.head == [] && |s.disk.blocks| == c.l.diskSize
    && (forall i :: 0 <= i < |hs| ==> hs[i] in s.cache && s.cache[hs[i]] == NEW)
    && forall x :: 0 <= x < c.l.diskSize ==>
         s.disk.blocks[x] == if c.l.logStart < x <= c.l.logStart + m then NEW else OLD
  }

  lemma CopyOne(c: Config, d: Image, hs: seq<nat>, m: nat, s: Sys)
    requires Copied(c, d, hs, m, s) && m < |hs| && c.l.logStart + |hs| < c.l.diskSize
    requires forall i :: 0 <= i < |hs| ==> c.l.logStart + |hs| < hs[i] < c.l.diskSize
    ensures Enabled(c, s, JobWrite) && Copied(c, d, hs, m + 1, Do(c, s, JobWrite))
  {
    Go(c, d, s, JobWrite);
  }

  lemma {:induction false} CopyAll(c: Config, d: Image, hs: seq<nat>, m: nat, s: Sys) returns (s': Sys)
    requires Copied(c, d, hs, m, s) && m <= |hs| && c.l.logStart + |hs| < c.l.diskSize
    requires forall i :: 0 <= i < |hs| ==> c.l.logStart + |hs| < hs[i] < c.l.diskSize
    ensures Copied(c, d, hs, |hs|, s')
    decreases |hs| - m
  {
    s' := s;
    if m < |hs| {
      CopyOne(c, d, hs, m, s);
      s' := CopyAll(c, d, hs, m + 1, Do(c, s, JobWrite));
    }
  }

  // ----- the crash -----

  /** The block after the log area is new, and what has been logged is not. */
  lemma CrashShowsHalf(c: Config, d: Image, hs: seq<nat>, s: Sys) returns (ts: seq<Step>)
    requires Copied(c, d, hs, c.l.logSize, s) && c.l.Valid() && c.l.logStart + c.l.logSize < c.l.diskSize
             && d == Blank(c.l)
    ensures Recovering(c, d, ts) && !ShowsLastCommit(c, d, ts)
  {
    Go(c, d, s, Crash);
    var s1 := Do(c, s, Crash);
    Go(c, d, s1, JobWrite);
    var s2 := Do(c, s1, JobWrite);
    assert s2.disk == s.disk;
    ts :| RunTo(c, d, ts, s2);
    var b := c.l.logStart + c.l.logSize;
    assert c.l.Home(b) && ts[..0] == [];
    assert Abs(c, Do(c, s2, JobDone)).current[b] == NEW;
    assert Abs(c, PowerOn(c, d)).current[b] == OLD;
  }

  /** On a log area that is not larger than LOGSIZE, recovery can show a mixture. */
  lemma OverflowBreaksAtomicity(c: Config, k: nat, first: nat) returns (ts: seq<Step>)
    requires Spacious(c, k, first) && c.l.logSize <= c.l.logMax
    ensures Recovering(c, Blank(c.l), ts) && !ShowsLastCommit(c, Blank(c.l), ts)
  {
    var n, d := c.l.logSize, Blank(c.l);
    var rs := R.TwoPastTheCheck(c.Space(), k, first);
    var sp := R.Filled(c.Space(), k, n, first);
    var s := LiftRun(c, rs, first, n);
    R.CountFilled(c.Space(), k, n, c.nproc, first);
    assert sp.ops[..c.nproc] == sp.ops;
    s := EndAll(c, d, sp, s);
    s := CopyAll(c, d, sp.blocks, 0, s);
    ts := CrashShowsHalf(c, d, sp.blocks, s);
  }

  /** Every completed recovery shows whole operations if and only if the log area is larger than LOGSIZE. */
  lemma WholeOperationsIff(c: Config, k: nat, first: nat)
    requires Spacious(c, k, first)
    ensures (forall d, ts :: Good(c.l, d) && Recovering(c, d, ts) ==> ShowsLastCommit(c, d, ts))
            <==> c.l.logSize > c.l.logMax
  {
    if c.l.logSize > c.l.logMax {
      forall d, ts | Good(c.l, d) && Recovering(c, d, ts)
        ensures ShowsLastCommit(c, d, ts)
      {
        NeverOverflows(c, d, ts);
        RecoveryShowsWholeOperations(c, d, ts);
      }
    } else {
      var ts := OverflowBreaksAtomicity(c, k, first);
      assert Good(c.l, Blank(c.l));
    }
  }
}
