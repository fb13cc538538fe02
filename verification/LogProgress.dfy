/** The log gets on: a commit that has started, and a recovery, can always take their next step, finish after a
    known number of disk writes, and leave the system as it was before with everything durable.  So an operation
    that has ended, with no other in progress, is on the disk to stay. */
module LogProgress {
  import opened Disk
  import opened RedoLog
  import opened TxnSystem
  import R = LogReserve

  // ----- the next step -----

  /** A process that holds a buffer while the log works can let go of it. */
  lemma HolderLetsGo(c: Config, s: Sys, b: nat)
    requires Inv(c, s) && s.job.Commit? && b in s.holder
    ensures Enabled(c, s, Unlock(s.holder[b], b))
  {
  }

  /** With the buffers of the logged blocks free, the log takes its next step. */
  lemma LogGoesOn(c: Config, s: Sys)
    requires Inv(c, s) && !s.job.NoJob?
    requires s.job.Commit? ==> forall i :: 0 <= i < |s.space.blocks| ==> Free(s, s.space.blocks[i])
    ensures Enabled(c, s, if JobFinished(s) then JobDone else JobWrite)
  {
    if s.job.Commit? && s.job.done < |s.space.blocks| {
      assert s.space.blocks[s.job.done] in s.dirty;
      assert !c.l.Home(c.l.logStart + 1 + s.job.done);
    }
  }

  /** In every run, with a commit or a recovery under way, the log can go on, or a process that holds one of the
      logged blocks can let go of it. */
  lemma LogNeverStuck(c: Config, d: Image, ts: seq<Step>) returns (t: Step)
    requires Good(c.l, d) && Exec(c, d, ts).At? && !Overflows(c, d, ts) && !Exec(c, d, ts).s.job.NoJob?
    ensures Enabled(c, Exec(c, d, ts).s, t)
    ensures t == JobWrite || t == JobDone || (t.Unlock? && t.b in Exec(c, d, ts).s.space.blocks)
  {
    var s := Exec(c, d, ts).s;
    RunInv(c, d, ts);
    if i :| s.job.Commit? && 0 <= i < |s.space.blocks| && !Free(s, s.space.blocks[i]) {
      var b := s.space.blocks[i];
      HolderLetsGo(c, s, b);
      t := Unlock(s.holder[b], b);
    } else {
      LogGoesOn(c, s);
      t := if JobFinished(s) then JobDone else JobWrite;
    }
  }

  /** A clean buffer that nobody holds can go, and whoever reads the block again gets what it held. */
  lemma EvictionUnseen(c: Config, s: Sys, p: nat, b: nat)
    requires Inv(c, s) && !s.job.Recovery? && !s.space.panicked && p < c.nproc
    requires c.l.Home(b) && b in s.cache && b !in s.dirty && Free(s, b)
    ensures Enabled(c, s, Evict(b))
    ensures var s1 := Do(c, s, Evict(b));
            && Enabled(c, s1, Lock(p, b))
            && b in Do(c, s1, Lock(p, b)).cache && Do(c, s1, Lock(p, b)).cache[b] == s.cache[b]
  {
  }

  // ----- runs from a state -----

  ghost predicate Moves(c: Config, s: Sys, t: Step, s': Sys) { Enabled(c, s, t) && s' == Do(c, s, t) }

  /** The states ss on the way of the steps ts. */
  ghost predicate Path(c: Config, ss: seq<Sys>, ts: seq<Step>) {
    && |ss| == |ts| + 1
    && forall i {:trigger Moves(c, ss[i], ts[i], ss[i + 1])} :: 0 <= i < |ts| ==> Moves(c, ss[i], ts[i], ss[i + 1])
  }

  /** The steps ts, each enabled, lead from s to s'. */
  ghost predicate Goes(c: Config, s: Sys, ts: seq<Step>, s': Sys) {
    exists ss {:trigger Path(c, ss, ts)} :: Path(c, ss, ts) && ss[0] == s && ss[|ts|] == s'
  }

  lemma GoOne(c: Config, s: Sys, t: Step, s': Sys)
    requires Moves(c, s, t, s')
    ensures Goes(c, s, [t], s')
  {
    assert Path(c, [s, s'], [t]);
  }

  lemma GoOn(c: Config, s: Sys, ts: seq<Step>, m: Sys, us: seq<Step>, s': Sys)
    requires Goes(c, s, ts, m) && Goes(c, m, us, s')
    ensures Goes(c, s, ts + us, s')
  {
    var a :| Path(c, a, ts) && a[0] == s && a[|ts|] == m;
    var b :| Path(c, b, us) && b[0] == m && b[|us|] == s';
    var all, vs := a + b[1..], ts + us;
    forall i | 0 <= i < |vs|
      ensures Moves(c, all[i], vs[i], all[i + 1])
    {
      if i < |ts| {
        assert Moves(c, a[i], ts[i], a[i + 1]);
      } else {
        var k := i - |ts|;
        assert Moves(c, b[k], us[k], b[k + 1]);
      }
    }
    assert Path(c, all, vs);
  }

  // ----- to the end -----

  /** k disk writes and the end of the job. */
  function Finish(k: nat): seq<Step> { if k == 0 then [JobDone] else [JobWrite] + Finish(k - 1) }

  /** The disk writes that the job has still to do. */
  function WritesLeft(s: Sys): int {
    match s.job
    case NoJob => 0
    case Commit(_, _, k) => if s.space.blocks == [] then 0 else 2 * |s.space.blocks| + 2 - k
    case Recovery(base, k) => |base.head| + 1 - k
  }

  /** No operation is in progress, nothing is locked and the log is at rest. */
  ghost predicate Quiet(c: Config, s: Sys) {
    && Inv(c, s) && s.job.NoJob? && !s.space.panicked && s.holder == map[]
    && forall p :: 0 <= p < |s.space.ops| ==> s.space.ops[p].Idle?
  }

  /** The log has nothing left to do for what operations did: the two copies are the same. */
  lemma QuietIsDurable(c: Config, s: Sys)
    requires Quiet(c, s)
    ensures !s.space.committing && s.space.blocks == [] && Abs(c, s).durable == Abs(c, s).current
  {
    NoneOutstanding(s.space.ops);
    assert s.dirty == {} && s.touched == {};
    forall b | 0 <= b < c.l.diskSize && c.l.Home(b)
      ensures RecoveredAt(c.l, s.disk, b) == CurrentAt(c, s, b)
    {
    }
  }

  lemma {:induction false} NoneOutstanding(ops: seq<R.Op>)
    requires forall p :: 0 <= p < |ops| ==> ops[p].Idle?
    ensures R.Outstanding(ops) == 0
  {
    if ops != [] {
      NoneOutstanding(ops[..|ops| - 1]);
    }
  }

  /** Any process can begin an operation. */
  lemma QuietCanBegin(c: Config, s: Sys, p: nat)
    requires Quiet(c, s) && p < c.nproc && c.maxOp <= c.l.logMax
    ensures Enabled(c, s, Begin(p))
  {
    QuietIsDurable(c, s);
    NoneOutstanding(s.space.ops);
  }

  /** A commit or a recovery is under way, and nothing is locked. */
  ghost predicate Working(c: Config, s: Sys) { Inv(c, s) && !s.job.NoJob? && s.holder == map[] }

  lemma JobEnds(c: Config, s: Sys) returns (s': Sys)
    requires Working(c, s) && JobFinished(s)
    ensures Goes(c, s, [JobDone], s') && Quiet(c, s') && Abs(c, s').current == Abs(c, s).current && WritesLeft(s) == 0
  {
    LogGoesOn(c, s);
    LogStepRefines(c, s, JobDone);
    s' := Do(c, s, JobDone);
    GoOne(c, s, JobDone, s');
  }

  lemma JobWrites(c: Config, s: Sys) returns (s': Sys)
    requires Working(c, s) && !JobFinished(s)
    ensures Goes(c, s, [JobWrite], s') && Working(c, s') && 0 <= WritesLeft(s') == WritesLeft(s) - 1
    ensures Abs(c, s').current == Abs(c, s).current
  {
    LogGoesOn(c, s);
    LogStepRefines(c, s, JobWrite);
    OneFewer(c, s);
    s' := Do(c, s, JobWrite);
    GoOne(c, s, JobWrite, s');
  }

  /** Each write is one of those that are left. */
  lemma OneFewer(c: Config, s: Sys)
    requires Enabled(c, s, JobWrite) && !JobFinished(s)
    ensures 0 <= WritesLeft(Do(c, s, JobWrite)) == WritesLeft(s) - 1
    ensures !Do(c, s, JobWrite).job.NoJob? && Do(c, s, JobWrite).holder == s.holder
  {
  }

  lemma {:induction false} JobRuns(c: Config, s: Sys) returns (s': Sys)
    requires Working(c, s)
    ensures WritesLeft(s) >= 0 && Goes(c, s, Finish(WritesLeft(s)), s') && Quiet(c, s')
    ensures Abs(c, s').current == Abs(c, s).current
    decreases WritesLeft(s)
  {
    if JobFinished(s) {
      s' := JobEnds(c, s);
    } else {
      var s1 := JobWrites(c, s);
      s' := JobRuns(c, s1);
      GoOn(c, s, [JobWrite], s1, Finish(WritesLeft(s1)), s');
    }
  }

  /** With nothing locked, exactly the writes that are left and the end of the job lead to a system at rest, with
      the contents it had, now durable. */
  lemma JobCompletes(c: Config, s: Sys) returns (s': Sys)
    requires Working(c, s)
    ensures WritesLeft(s) >= 0 && Goes(c, s, Finish(WritesLeft(s)), s') && Quiet(c, s')
    ensures Abs(c, s').durable == Abs(c, s').current == Abs(c, s).current
  {
    s' := JobRuns(c, s);
    QuietIsDurable(c, s');
  }

  lemma LastEnds(c: Config, s: Sys, p: nat) returns (s': Sys)
    requires Inv(c, s) && Enabled(c, s, End(p)) && !Overflow(c, s, End(p)) && s.holder == map[]
    requires forall q :: 0 <= q < |s.space.ops| && q != p ==> s.space.ops[q].Idle?
    ensures Goes(c, s, [End(p)], s') && Working(c, s') && Abs(c, s').current == Abs(c, s).current
    ensures WritesLeft(s') == if s.space.blocks == [] then 0 else 2 * |s.space.blocks| + 2
  {
    EndRefines(c, s, p);
    NoneOutstanding(s.space.ops[p := R.Idle]);
    s' := Do(c, s, End(p));
    GoOne(c, s, End(p), s');
  }

  /** The end of the last operation in progress, with n blocks logged: 2n + 2 disk writes later (none if n is
      zero) its commit is over and the contents at that end are durable. */
  lemma EndIsDurable(c: Config, s: Sys, p: nat) returns (s': Sys)
    requires Inv(c, s) && Enabled(c, s, End(p)) && !Overflow(c, s, End(p)) && s.holder == map[]
    requires forall q :: 0 <= q < |s.space.ops| && q != p ==> s.space.ops[q].Idle?
    ensures var n := |s.space.blocks|; Goes(c, s, [End(p)] + Finish(if n == 0 then 0 else 2 * n + 2), s')
    ensures Quiet(c, s') && Abs(c, s').durable == Abs(c, s').current == Abs(c, s).current
  {
    var s1 := LastEnds(c, s, p);
    s' := JobCompletes(c, s1);
    GoOn(c, s, [End(p)], s1, Finish(WritesLeft(s1)), s');
  }

  // ----- one whole operation, whatever the others do -----

  /** Process p is inside an operation, and the reservation of others and the buffers they hold may be anything. */
  ghost predicate Inside(c: Config, s: Sys, p: nat, checked: bool) {
    && Inv(c, s) && s.job.NoJob? && !s.space.panicked && p < c.nproc
    && s.space.ops[p].Active? && s.space.ops[p].checked == checked
  }

  predicate Holds(s: Sys, p: nat, b: nat) { b in s.holder && s.holder[b] == p && b in s.cache }

  /** A process inside an operation with room left in its reservation never fills the log. */
  lemma RoomToLog(c: Config, s: Sys, p: nat)
    requires Inside(c, s, p, false) && s.space.ops[p].added < c.maxOp
    ensures |s.space.blocks| < c.l.logMax
  {
    R.SumBounds(c.maxOp, s.space.ops);
    assert R.Share(c.maxOp, s.space.ops[p]) >= 1;
  }

  lemma OpLocks(c: Config, s: Sys, p: nat, b: nat) returns (s': Sys)
    requires Inside(c, s, p, false) && c.l.Home(b) && Free(s, b)
    ensures Goes(c, s, [Lock(p, b)], s') && Inside(c, s', p, false) && Holds(s', p, b)
    ensures s'.space == s.space && s'.touched == s.touched && s'.holder == s.holder[b := p]
    ensures Abs(c, s').current == Abs(c, s).current
  {
    BufferStepRefines(c, s, Lock(p, b));
    s' := Do(c, s, Lock(p, b));
    GoOne(c, s, Lock(p, b), s');
  }

  lemma OpModifies(c: Config, s: Sys, p: nat, b: nat, data: Block) returns (s': Sys)
    requires Inside(c, s, p, false) && Holds(s, p, b)
    ensures Goes(c, s, [Modify(p, b, data)], s') && Inside(c, s', p, false) && Holds(s', p, b)
    ensures s'.space == s.space && s'.touched == s.touched + {b} && s'.holder == s.holder
    ensures b < |Abs(c, s).current| && Abs(c, s').current == Abs(c, s).current[b := data]
  {
    BufferStepRefines(c, s, Modify(p, b, data));
    s' := Do(c, s, Modify(p, b, data));
    GoOne(c, s, Modify(p, b, data), s');
  }

  lemma OpChecks(c: Config, s: Sys, p: nat, b: nat) returns (s': Sys)
    requires Inside(c, s, p, false) && Holds(s, p, b)
    requires |s.space.blocks| < c.l.logMax && |s.space.blocks| < c.l.logSize - 1
    ensures Goes(c, s, [Check(p)], s') && Inside(c, s', p, true) && Holds(s', p, b)
    ensures s'.space.ops[p].added == s.space.ops[p].added && s'.space.blocks == s.space.blocks && Others(s, s', p)
    ensures s'.touched == s.touched && s'.holder == s.holder && Abs(c, s').current == Abs(c, s).current
  {
    CheckRefines(c, s, p);
    s' := Do(c, s, Check(p));
    GoOne(c, s, Check(p), s');
  }

  lemma OpLogs(c: Config, s: Sys, p: nat, b: nat) returns (s': Sys)
    requires Inside(c, s, p, true) && Holds(s, p, b) && s.space.ops[p].added < c.maxOp
    ensures Goes(c, s, [LogWrite(p, b)], s') && Inside(c, s', p, false) && Holds(s', p, b)
    ensures Others(s, s', p)
    ensures s'.space.blocks == if b in s.space.blocks then s.space.blocks else s.space.blocks + [b]
    ensures s'.touched == s.touched - {b} && s'.holder == s.holder && Abs(c, s').current == Abs(c, s).current
  {
    LogWriteRefines(c, s, p, b);
    s' := Do(c, s, LogWrite(p, b));
    GoOne(c, s, LogWrite(p, b), s');
  }

  lemma OpUnlocks(c: Config, s: Sys, p: nat, b: nat) returns (s': Sys)
    requires Inside(c, s, p, false) && Holds(s, p, b) && b !in s.touched
    ensures Goes(c, s, [Unlock(p, b)], s') && Inside(c, s', p, false)
    ensures s'.space == s.space && s'.touched == s.touched && s'.holder == s.holder - {b}
    ensures Abs(c, s').current == Abs(c, s).current
  {
    BufferStepRefines(c, s, Unlock(p, b));
    s' := Do(c, s, Unlock(p, b));
    GoOne(c, s, Unlock(p, b), s');
  }

  /** The operations of the other processes. */
  ghost predicate Others(s: Sys, s': Sys, p: nat) {
    && |s.space.ops| == |s'.space.ops|
    && forall q :: 0 <= q < |s.space.ops| && q != p ==> s'.space.ops[q] == s.space.ops[q]
  }

  /** Process p changes block b and logs it. */
  function Change(p: nat, b: nat, data: Block): seq<Step> {
    [Lock(p, b), Modify(p, b, data)] + ([Check(p), LogWrite(p, b)] + [Unlock(p, b)])
  }

  lemma Two(c: Config, s: Sys, t: Step, m: Sys, u: Step, s': Sys)
    requires Goes(c, s, [t], m) && Goes(c, m, [u], s')
    ensures Goes(c, s, [t, u], s')
  {
    GoOn(c, s, [t], m, [u], s');
    assert [t] + [u] == [t, u];
  }

  lemma Three(c: Config, s: Sys, ts: seq<Step>, m: Sys, us: seq<Step>, n: Sys, vs: seq<Step>, s': Sys)
    requires Goes(c, s, ts, m) && Goes(c, m, us, n) && Goes(c, n, vs, s')
    ensures Goes(c, s, ts + (us + vs), s')
  {
    GoOn(c, m, us, n, vs, s');
    GoOn(c, s, ts, m, us + vs, s');
  }

  lemma GivenBack(holder: map<nat, nat>, b: nat, p: nat)
    requires b !in holder
    ensures holder[b := p] - {b} == holder
  {
  }

  lemma OpWrites(c: Config, s: Sys, p: nat, b: nat, data: Block) returns (s': Sys)
    requires Inside(c, s, p, false) && c.l.Home(b) && Free(s, b)
    ensures Goes(c, s, [Lock(p, b), Modify(p, b, data)], s') && Inside(c, s', p, false) && Holds(s', p, b)
    ensures s'.space == s.space && s'.touched == s.touched + {b} && s'.holder == s.holder[b := p]
    ensures b < |Abs(c, s).current| && Abs(c, s').current == Abs(c, s).current[b := data]
  {
    var s1 := OpLocks(c, s, p, b);
    s' := OpModifies(c, s1, p, b, data);
    Two(c, s, Lock(p, b), s1, Modify(p, b, data), s');
  }

  lemma OpRecords(c: Config, s: Sys, p: nat, b: nat) returns (s': Sys)
    requires Inside(c, s, p, false) && Holds(s, p, b)
    requires s.space.ops[p].added < c.maxOp && |s.space.blocks| < c.l.logSize - 1
    ensures Goes(c, s, [Check(p), LogWrite(p, b)], s') && Inside(c, s', p, false) && Holds(s', p, b)
    ensures Others(s, s', p)
    ensures s'.space.blocks == if b in s.space.blocks then s.space.blocks else s.space.blocks + [b]
    ensures s'.touched == s.touched - {b} && s'.holder == s.holder && Abs(c, s').current == Abs(c, s).current
  {
    RoomToLog(c, s, p);
    var s1 := OpChecks(c, s, p, b);
    s' := OpLogs(c, s1, p, b);
    Two(c, s, Check(p), s1, LogWrite(p, b), s');
  }

  /** Whatever other operations are doing, one with room left in its reservation can change any block that nobody
      holds and log it, without waiting for anyone; nothing else in the store, and no other operation, changes. */
  lemma ChangeUnhindered(c: Config, s: Sys, p: nat, b: nat, data: Block) returns (s': Sys)
    requires Inside(c, s, p, false) && s.space.ops[p].added < c.maxOp && |s.space.blocks| < c.l.logSize - 1
    requires c.l.Home(b) && Free(s, b)
    ensures Goes(c, s, Change(p, b, data), s') && Inside(c, s', p, false) && Others(s, s', p)
    ensures s'.space.blocks == if b in s.space.blocks then s.space.blocks else s.space.blocks + [b]
    ensures s'.holder == s.holder && s'.touched == s.touched - {b}
    ensures b < |Abs(c, s).current| && Abs(c, s').current == Abs(c, s).current[b := data]
  {
    var s1 := OpWrites(c, s, p, b, data);
    var s2 := OpRecords(c, s1, p, b);
    s' := OpUnlocks(c, s2, p, b);
    Three(c, s, [Lock(p, b), Modify(p, b, data)], s1, [Check(p), LogWrite(p, b)], s2, [Unlock(p, b)], s');
    GivenBack(s.holder, b, p);
  }

  lemma OpBegins(c: Config, s: Sys, p: nat) returns (s': Sys)
    requires Quiet(c, s) && p < c.nproc && c.maxOp <= c.l.logMax
    ensures Goes(c, s, [Begin(p)], s') && Inside(c, s', p, false) && s'.space.ops[p].added == 0 && Others(s, s', p)
    ensures s'.space.blocks == [] && s'.holder == map[]
    ensures Abs(c, s').current == Abs(c, s).current
  {
    QuietIsDurable(c, s);
    QuietCanBegin(c, s, p);
    BeginRefines(c, s, p);
    s' := Do(c, s, Begin(p));
    GoOne(c, s, Begin(p), s');
  }

  lemma OpEnds(c: Config, s: Sys, p: nat) returns (s': Sys)
    requires Inside(c, s, p, false) && |s.space.blocks| == 1 && 2 <= c.l.logSize && s.holder == map[]
    requires forall q :: 0 <= q < |s.space.ops| && q != p ==> s.space.ops[q].Idle?
    ensures Goes(c, s, [End(p)] + Finish(4), s') && Quiet(c, s')
    ensures Abs(c, s').durable == Abs(c, s').current == Abs(c, s).current
  {
    CommitCanStart(c, s, p);
    s' := EndIsDurable(c, s, p);
  }

  /** An operation that changes one block, and its commit. */
  function Operation(p: nat, b: nat, data: Block): seq<Step> {
    [Begin(p)] + (Change(p, b, data) + ([End(p)] + Finish(4)))
  }

  /** From a system at rest: an operation that changes one block, its commit of four disk writes, and the system is
      at rest again with the change on the disk. */
  lemma OperationReachesDisk(c: Config, s: Sys, p: nat, b: nat, data: Block) returns (s': Sys)
    requires Quiet(c, s) && p < c.nproc && 1 <= c.maxOp <= c.l.logMax && 2 <= c.l.logSize && c.l.Home(b)
    ensures Goes(c, s, Operation(p, b, data), s') && Quiet(c, s')
    ensures Abs(c, s').durable == Abs(c, s').current == Abs(c, s).current[b := data]
  {
    var s1 := OpBegins(c, s, p);
    var s2 := ChangeUnhindered(c, s1, p, b, data);
    s' := OpEnds(c, s2, p);
    GoOn(c, s1, Change(p, b, data), s2, [End(p)] + Finish(4), s');
    GoOn(c, s, [Begin(p)], s1, Change(p, b, data) + ([End(p)] + Finish(4)), s');
  }

  lemma CrashRecovers(c: Config, s: Sys) returns (ts: seq<Step>, s': Sys)
    requires Inv(c, s)
    ensures Goes(c, s, ts, s') && Quiet(c, s') && Abs(c, s').durable == Abs(c, s').current == Abs(c, s).durable
  {
    CrashOk(c, s);
    var s1 := Do(c, s, Crash);
    GoOne(c, s, Crash, s1);
    s' := JobCompletes(c, s1);
    ts := [Crash] + Finish(WritesLeft(s1));
    GoOn(c, s, [Crash], s1, Finish(WritesLeft(s1)), s');
  }

  /** After any run and a crash, recovery completes, and then any block can be changed for good. */
  lemma AlwaysUsableAgain(c: Config, d: Image, ts: seq<Step>, p: nat, b: nat, data: Block)
    returns (us: seq<Step>, s': Sys)
    requires Good(c.l, d) && Exec(c, d, ts).At? && !Overflows(c, d, ts)
    requires p < c.nproc && 1 <= c.maxOp <= c.l.logMax && 2 <= c.l.logSize && c.l.Home(b)
    ensures Goes(c, Exec(c, d, ts).s, us, s') && Quiet(c, s') && Good(c.l, Exec(c, d, ts).s.disk)
    ensures Abs(c, s').durable == Abs(c, s').current == Abs(c, Exec(c, d, ts).s).durable[b := data]
  {
    RunInv(c, d, ts);
    var us1, s1 := CrashRecovers(c, Exec(c, d, ts).s);
    s' := OperationReachesDisk(c, s1, p, b, data);
    us := us1 + Operation(p, b, data);
    GoOn(c, Exec(c, d, ts).s, us1, s1, Operation(p, b, data), s');
  }
}
