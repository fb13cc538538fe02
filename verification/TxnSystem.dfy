/** The running system: concurrent operations on a write-back cache over the redo log, with the
    commit and recovery writes interleaved one by one and a crash possible at any moment.

    The theorem is that all of this behaves like a block store with a volatile copy and a durable
    copy, where the durable copy is replaced by the volatile one only between operations. */
module TxnSystem {
  import opened Disk
  import opened RedoLog
  import R = LogReserve

  /** What the log is doing to the disk.  `base` and `vals` only record what it started from. */
  datatype Job =
    | NoJob
    | Commit(base: Image, vals: seq<Block>, done: nat)
    | Recovery(base: Image, done: nat)

  /** `cache` holds the valid buffers, `dirty` those with B_DIRTY set, `holder` the owners of the
      buffer locks, `touched` the buffers changed since they were locked and not yet logged. */
  datatype Sys = Sys(disk: Image, cache: map<nat, Block>, dirty: set<nat>, holder: map<nat, nat>,
                     touched: set<nat>, space: R.Space, job: Job)

  datatype Step =
    | Begin(p: nat)
    | Lock(p: nat, b: nat)
    | Modify(p: nat, b: nat, data: Block)
    | Check(p: nat)
    | LogWrite(p: nat, b: nat)
    | Unlock(p: nat, b: nat)
    | End(p: nat)
    | Evict(b: nat)
    | JobWrite
    | JobDone
    | Crash

  /** One more disk write done. */
  function Advance(j: Job): (r: Job)
    ensures r.NoJob? == j.NoJob? && r.Commit? == j.Commit?
  {
    match j
    case NoJob => NoJob
    case Commit(base, vals, k) => Commit(base, vals, k + 1)
    case Recovery(base, k) => Recovery(base, k + 1)
  }

  datatype Config = Config(l: Layout, nproc: nat, maxOp: nat) {
    function Space(): R.Params { R.Params(nproc, maxOp, l.logMax, l.logSize) }
  }

  /** bread hands the block to the log only when no one else holds its buffer. */
  predicate Free(s: Sys, b: nat) { b !in s.holder }

  /** The disk write the log performs next: from the cache to the log, from the log to the home
      blocks, and the two header writes. */
  function NextWrite(c: Config, s: Sys): Write
    requires !s.job.NoJob? && |s.disk.blocks| == c.l.diskSize
    requires s.job.Commit? ==>
               && s.job.done < 2 * |s.space.blocks| + 2
               && c.l.logStart + |s.space.blocks| < c.l.diskSize
               && (s.job.done < |s.space.blocks| ==> s.space.blocks[s.job.done] in s.cache)
    requires s.job.Recovery? ==> c.l.logStart + |s.job.base.head| < c.l.diskSize
  {
    match s.job
    case Commit(_, _, k) =>
      var hs := s.space.blocks;
      var n := |hs|;
      if k < n then Data(c.l.logStart + 1 + k, s.cache[hs[k]])
      else if k == n then Head(hs)
      else if k < 2 * n + 1 then Data(hs[k - n - 1], Slot(c.l, s.disk, k - n - 1))
      else Head([])
    case Recovery(base, k) =>
      if k < |base.head| then Data(base.head[k], Slot(c.l, s.disk, k)) else Head([])
  }

  predicate WriteReady(c: Config, s: Sys) {
    && |s.disk.blocks| == c.l.diskSize
    && match s.job
       case NoJob => false
       case Commit(_, _, k) =>
         var n := |s.space.blocks|;
         && n > 0 && k < 2 * n + 2 && c.l.logStart + n < c.l.diskSize
         && (forall i :: 0 <= i < n ==> s.space.blocks[i] < c.l.diskSize)
         && (k < n ==> s.space.blocks[k] in s.cache && Free(s, s.space.blocks[k]) && Free(s, c.l.logStart + 1 + k))
         && (n < k < 2 * n + 1 ==> Free(s, s.space.blocks[k - n - 1]))
       case Recovery(base, k) =>
         && k <= |base.head| && c.l.logStart + |base.head| < c.l.diskSize
         && forall i :: 0 <= i < |base.head| ==> base.head[i] < c.l.diskSize
  }

  /** bwrite of one commit write. */
  function AfterCommitWrite(s: Sys, w: Write): Sys
    requires s.job.Commit? && (w.Data? ==> w.at < |s.disk.blocks|)
  {
    var s' := s.(disk := Put(s.disk, w), job := Advance(s.job));
    if w.Data? then s'.(cache := s.cache[w.at := w.data], dirty := s.dirty - {w.at}) else s'
  }

  predicate JobFinished(s: Sys) {
    match s.job
    case NoJob => false
    case Commit(_, _, k) => s.space.blocks == [] || k == 2 * |s.space.blocks| + 2
    case Recovery(base, k) => k == |base.head| + 1
  }

  /** Clients work on home blocks, change a buffer only while they hold its lock inside an
      operation, and log it before they let go. */
  predicate Enabled(c: Config, s: Sys, t: Step) {
    var up := !s.job.Recovery? && !s.space.panicked;
    match t
    case Begin(p) => up && R.Enabled(c.Space(), s.space, false, R.Begin(p))
    case Lock(p, b) => up && p < c.nproc && c.l.Home(b) && b < |s.disk.blocks| && Free(s, b)
    case Modify(p, b, _) =>
      && up && p < |s.space.ops| && s.space.ops[p].Active?
      && b in s.holder && s.holder[b] == p && b in s.cache
    case Check(p) => up && R.Enabled(c.Space(), s.space, false, R.Check(p))
    case LogWrite(p, b) =>
      && up && R.Enabled(c.Space(), s.space, false, R.Insert(p, b))
      && b in s.holder && s.holder[b] == p && b in s.cache
    case Unlock(p, b) => up && b in s.holder && s.holder[b] == p && b !in s.touched
    case End(p) =>
      && up && R.Enabled(c.Space(), s.space, false, R.End(p))
      && (forall b :: b in s.holder ==> s.holder[b] != p)
      && (forall i :: 0 <= i < |s.space.blocks| ==> s.space.blocks[i] in s.cache)
    case Evict(b) => up && b in s.cache && b !in s.dirty && Free(s, b)
    case JobWrite => !s.space.panicked && WriteReady(c, s)
    case JobDone => !s.space.panicked && JobFinished(s)
    case Crash => true
  }

  function Do(c: Config, s: Sys, t: Step): Sys
    requires Enabled(c, s, t)
  {
    match t
    case Begin(p) => s.(space := R.Do(c.Space(), s.space, false, R.Begin(p)))
    case Lock(p, b) =>
      s.(holder := s.holder[b := p],
         cache := if b in s.cache then s.cache else s.cache[b := s.disk.blocks[b]])
    case Modify(p, b, data) => s.(cache := s.cache[b := data], touched := s.touched + {b})
    case Check(p) => s.(space := R.Do(c.Space(), s.space, false, R.Check(p)))
    case LogWrite(p, b) =>
      s.(space := R.Do(c.Space(), s.space, false, R.Insert(p, b)),
         dirty := s.dirty + {b}, touched := s.touched - {b})
    case Unlock(p, b) => s.(holder := s.holder - {b})
    case End(p) =>
      var space := R.Do(c.Space(), s.space, false, R.End(p));
      if space.committing && !space.panicked then
        var hs := space.blocks;
        s.(space := space, job := Commit(s.disk, seq(|hs|, i requires 0 <= i < |hs| => s.cache[hs[i]]), 0))
      else s.(space := space)
    case Evict(b) => s.(cache := s.cache - {b})
    case JobWrite =>
      var w := NextWrite(c, s);
      if s.job.Commit? then AfterCommitWrite(s, w)
      else s.(disk := Put(s.disk, w), job := Advance(s.job))
    case JobDone =>
      if s.job.Commit? then
        s.(space := s.space.(blocks := [], committing := false), job := NoJob)
      else s.(job := NoJob)
    case Crash =>
      Sys(s.disk, map[], {}, map[], {}, R.Init(c.Space()), Recovery(s.disk, 0))
  }

  /** end_op starts a commit of more blocks than fit behind the header of the log area. */
  predicate Overflow(c: Config, s: Sys, t: Step) { t.End? && |s.space.blocks| > c.l.logSize - 1 }

  // ----- the specification -----

  /** A block store with a durable and a volatile copy. */
  datatype Store = Store(durable: seq<Block>, current: seq<Block>, busy: set<nat>, up: bool)

  /** The write of the header that completes a commit. */
  predicate HeadWrite(s: Sys, t: Step) {
    t.JobWrite? && s.job.Commit? && s.job.done == |s.space.blocks|
  }

  /** What a step means for the store: a change of the volatile copy by an operation, the volatile copy
      made durable with no operation in progress, a crash, or nothing but who is at work. */
  predicate StoreStep(t: Step, head: bool, a: Store, a': Store) {
    match t
    case Begin(p) => a.up && p !in a.busy && a' == a.(busy := a.busy + {p})
    case Modify(p, b, data) => a.up && p in a.busy && b < |a.current| && a' == a.(current := a.current[b := data])
    case End(p) => a.up && p in a.busy && a' == a.(busy := a.busy - {p})
    case JobWrite => if head then a.up && a.busy == {} && a' == a.(durable := a.current) else a' == a
    case JobDone => a' == a.(up := true)
    case Crash => a' == Store(a.durable, a.durable, {}, false)
    case _ => a' == a
  }

  ghost function CurrentAt(c: Config, s: Sys, b: nat): Block
    requires Good(c.l, s.disk) && b < c.l.diskSize
  {
    if s.job.Recovery? then RecoveredAt(c.l, s.disk, b)
    else if b in s.cache then s.cache[b]
    else s.disk.blocks[b]
  }

  ghost function Abs(c: Config, s: Sys): (a: Store)
    requires Good(c.l, s.disk)
  {
    Store(
      seq(c.l.diskSize, b requires 0 <= b < c.l.diskSize =>
        if c.l.Home(b) then RecoveredAt(c.l, s.disk, b) else []),
      seq(c.l.diskSize, b requires 0 <= b < c.l.diskSize =>
        if c.l.Home(b) then CurrentAt(c, s, b) else []),
      set p | 0 <= p < |s.space.ops| && s.space.ops[p].Active?,
      !s.job.Recovery?)
  }

  // ----- the invariant -----

  /** A valid buffer that is neither pinned nor being changed equals the disk. */
  ghost predicate CleanMatches(s: Sys) {
    forall b :: b in s.cache && b !in s.dirty && b !in s.touched ==>
      b < |s.disk.blocks| && s.cache[b] == s.disk.blocks[b]
  }

  /** Buffers being changed are locked by an operation in progress. */
  ghost predicate TouchedHeld(c: Config, s: Sys) {
    forall b :: b in s.touched ==>
      && c.l.Home(b) && b in s.cache && b in s.holder
      && s.holder[b] < |s.space.ops| && s.space.ops[s.holder[b]].Active?
  }

  ghost predicate Keys(c: Config, s: Sys) {
    && s.dirty <= s.cache.Keys
    && (forall b :: b in s.cache ==> b < c.l.diskSize)
    && (forall b :: b in s.holder ==> c.l.Home(b))
    && (forall i :: 0 <= i < |s.space.blocks| ==> c.l.Home(s.space.blocks[i]))
  }

  /** Logged blocks stay pinned until they are installed. */
  ghost predicate Pinned(s: Sys) {
    match s.job
    case NoJob => forall b :: b in s.dirty <==> b in s.space.blocks
    case Commit(_, _, k) =>
      var hs := s.space.blocks;
      && (forall i :: 0 <= i < |hs| ==> (hs[i] in s.dirty <==> k <= |hs| + 1 + i))
      && (forall b :: b in s.dirty ==> b in hs)
    case Recovery(_, _) => true
  }

  /** How far the commit of `hs` has got on the disk. */
  ghost predicate CommitCore(l: Layout, j: Job, hs: seq<nat>, d: Image) {
    && j.Commit?
    && Good(l, j.base) && j.base.head == [] && Logged(l, hs)
    && |j.vals| == |hs|
    && j.done <= 2 * |hs| + 2 && (hs == [] ==> j.done == 0)
    && CommitShape(l, j.base, hs, j.vals, j.done, d)
  }

  /** Pinned buffers hold what is being committed. */
  ghost predicate Committing(s: Sys) {
    && s.job.Commit? && s.space.committing && s.touched == {} && |s.job.vals| == |s.space.blocks|
    && (forall i :: 0 <= i < |s.space.blocks| && s.space.blocks[i] in s.dirty && s.space.blocks[i] in s.cache ==>
          s.cache[s.space.blocks[i]] == s.job.vals[i])
  }

  /** What log.lock guarantees about the log's own bookkeeping (see LogReserve). */
  ghost predicate SpaceFacts(c: Config, sp: R.Space) {
    && |sp.ops| == c.nproc
    && |sp.blocks| <= c.l.logMax
    && Distinct(sp.blocks)
    && (sp.committing ==> forall p :: 0 <= p < |sp.ops| ==> sp.ops[p].Idle?)
  }

  ghost predicate Body(c: Config, s: Sys) {
    && Good(c.l, s.disk)
    && SpaceFacts(c, s.space)
    && Keys(c, s)
    && (!s.job.NoJob? ==> !s.space.panicked)
    && match s.job
       case Recovery(base, k) =>
         && s.cache == map[] && s.dirty == {} && s.holder == map[] && s.touched == {}
         && s.space.blocks == [] && !s.space.committing
         && (forall p :: 0 <= p < |s.space.ops| ==> s.space.ops[p].Idle?)
         && Good(c.l, base) && k <= |base.head| + 1 && RecoveryShape(c.l, base, k, s.disk)
       case NoJob =>
         && !s.space.committing && s.disk.head == []
         && CleanMatches(s) && TouchedHeld(c, s) && Pinned(s)
       case Commit(_, _, _) =>
         CleanMatches(s) && Pinned(s) && Committing(s) && CommitCore(c.l, s.job, s.space.blocks, s.disk)
  }

  ghost predicate Inv(c: Config, s: Sys) {
    R.Inv(c.Space(), false, s.space) && Body(c, s)
  }

  lemma SpaceFactsHold(c: Config, sp: R.Space)
    requires R.Inv(c.Space(), false, sp)
    ensures SpaceFacts(c, sp)
  {
    R.SumBounds(c.maxOp, sp.ops);
  }

  // ----- every step keeps it, and is a step of the store -----

  lemma SameAbs(c: Config, s: Sys, s': Sys)
    requires Good(c.l, s.disk) && Good(c.l, s'.disk)
    requires forall b :: 0 <= b < c.l.diskSize && c.l.Home(b) ==>
               RecoveredAt(c.l, s.disk, b) == RecoveredAt(c.l, s'.disk, b) && CurrentAt(c, s, b) == CurrentAt(c, s', b)
    ensures Abs(c, s).durable == Abs(c, s').durable && Abs(c, s).current == Abs(c, s').current
  {
  }

  /** A step that only changes the operations' own counters. */
  lemma OpsOk(c: Config, s: Sys, ops: seq<R.Op>, panicked: bool)
    requires Body(c, s) && !s.job.Recovery? && |ops| == |s.space.ops|
    requires forall p :: 0 <= p < |ops| ==> (s.space.ops[p].Active? ==> ops[p].Active?)
    requires s.space.committing ==> forall p :: 0 <= p < |ops| ==> ops[p].Idle?
    requires s.job.Commit? ==> !panicked
    ensures var s' := s.(space := s.space.(ops := ops, panicked := panicked));
            Body(c, s') && Abs(c, s') == Abs(c, s).(busy := set p | 0 <= p < |ops| && ops[p].Active?)
  {
    var s' := s.(space := s.space.(ops := ops, panicked := panicked));
    assert s.job.Commit? ==> Committing(s');
    SameAbs(c, s, s');
  }

  lemma BeginOk(c: Config, s: Sys, p: nat)
    requires Body(c, s) && !s.job.Recovery? && !s.space.committing && p < |s.space.ops| && s.space.ops[p].Idle?
    ensures var s' := s.(space := s.space.(ops := s.space.ops[p := R.Active(0, 0, false)]));
            Body(c, s') && StoreStep(Begin(p), false, Abs(c, s), Abs(c, s'))
  {
    var ops := s.space.ops[p := R.Active(0, 0, false)];
    OpsOk(c, s, ops, s.space.panicked);
    assert (set q | 0 <= q < |ops| && ops[q].Active?) == Abs(c, s).busy + {p};
    assert p !in Abs(c, s).busy;
  }

  lemma CheckOk(c: Config, s: Sys, p: nat, op: R.Op, panicked: bool)
    requires Body(c, s) && !s.job.Recovery? && p < |s.space.ops| && s.space.ops[p].Active? && op.Active?
    ensures var s' := s.(space := s.space.(ops := s.space.ops[p := op], panicked := panicked));
            Body(c, s') && Abs(c, s') == Abs(c, s)
  {
    var ops := s.space.ops[p := op];
    OpsOk(c, s, ops, panicked);
    assert (set q | 0 <= q < |ops| && ops[q].Active?) == Abs(c, s).busy;
  }

  lemma FetchOk(c: Config, s: Sys, b: nat)
    requires Body(c, s) && !s.job.Recovery? && c.l.Home(b) && Free(s, b) && b !in s.cache
    ensures Body(c, s.(cache := s.cache[b := s.disk.blocks[b]]))
  {
    var s' := s.(cache := s.cache[b := s.disk.blocks[b]]);
    assert CleanMatches(s');
    assert s.job.Commit? ==> Committing(s');
    assert s.job.NoJob? ==> TouchedHeld(c, s');
  }

  /** A block read from the disk has the contents it had there. */
  lemma FetchSame(c: Config, s: Sys, b: nat)
    requires Good(c.l, s.disk) && !s.job.Recovery? && c.l.Home(b) && b !in s.cache
    ensures Abs(c, s.(cache := s.cache[b := s.disk.blocks[b]])) == Abs(c, s)
  {
    SameAbs(c, s, s.(cache := s.cache[b := s.disk.blocks[b]]));
  }

  lemma HoldOk(c: Config, s: Sys, p: nat, b: nat)
    requires Body(c, s) && !s.job.Recovery? && c.l.Home(b) && Free(s, b) && b in s.cache
    ensures var s' := s.(holder := s.holder[b := p]);
            Body(c, s') && Abs(c, s') == Abs(c, s)
  {
    var s' := s.(holder := s.holder[b := p]);
    assert CleanMatches(s');
    assert s.job.Commit? ==> Committing(s');
    assert s.job.NoJob? ==> TouchedHeld(c, s');
    SameAbs(c, s, s');
  }

  lemma LockOk(c: Config, s: Sys, p: nat, b: nat)
    requires Body(c, s) && !s.job.Recovery? && c.l.Home(b) && Free(s, b)
    ensures var s' := s.(holder := s.holder[b := p],
                         cache := if b in s.cache then s.cache else s.cache[b := s.disk.blocks[b]]);
            Body(c, s') && Abs(c, s') == Abs(c, s)
  {
    if b in s.cache {
      HoldOk(c, s, p, b);
    } else {
      FetchOk(c, s, b);
      FetchSame(c, s, b);
      HoldOk(c, s.(cache := s.cache[b := s.disk.blocks[b]]), p, b);
    }
  }

  lemma UnlockOk(c: Config, s: Sys, b: nat)
    requires Body(c, s) && !s.job.Recovery? && b !in s.touched
    ensures var s' := s.(holder := s.holder - {b});
            Body(c, s') && Abs(c, s') == Abs(c, s)
  {
    var s' := s.(holder := s.holder - {b});
    assert s.job.Commit? ==> Committing(s');
    SameAbs(c, s, s');
  }

  lemma EvictOk(c: Config, s: Sys, b: nat)
    requires Body(c, s) && !s.job.Recovery? && b in s.cache && b !in s.dirty && Free(s, b)
    ensures var s' := s.(cache := s.cache - {b});
            Body(c, s') && Abs(c, s') == Abs(c, s)
  {
    var s' := s.(cache := s.cache - {b});
    assert s.job.Commit? ==> Committing(s');
    assert b !in s.touched;
    SameAbs(c, s, s');
  }

  lemma ModifyOk(c: Config, s: Sys, p: nat, b: nat, data: Block)
    requires Body(c, s) && !s.job.Recovery? && p < |s.space.ops| && s.space.ops[p].Active?
    requires b in s.holder && s.holder[b] == p && b in s.cache
    ensures var s' := s.(cache := s.cache[b := data], touched := s.touched + {b});
            Body(c, s') && StoreStep(Modify(p, b, data), false, Abs(c, s), Abs(c, s'))
  {
    var s' := s.(cache := s.cache[b := data], touched := s.touched + {b});
    assert s.job.NoJob?;
    var a, a' := Abs(c, s), Abs(c, s');
    assert a'.current == a.current[b := data];
    assert a'.durable == a.durable;
    assert p in a.busy;
  }

  lemma LogWriteOk(c: Config, s: Sys, p: nat, b: nat, op: R.Op)
    requires Body(c, s) && !s.job.Recovery? && p < |s.space.ops| && s.space.ops[p].Active? && op.Active?
    requires b in s.holder && s.holder[b] == p && b in s.cache
    requires b !in s.space.blocks ==> |s.space.blocks| < c.l.logMax
    ensures var blocks := if b in s.space.blocks then s.space.blocks else s.space.blocks + [b];
            var s' := s.(space := s.space.(blocks := blocks, ops := s.space.ops[p := op]),
                         dirty := s.dirty + {b}, touched := s.touched - {b});
            Body(c, s') && Abs(c, s') == Abs(c, s)
  {
    var blocks := if b in s.space.blocks then s.space.blocks else s.space.blocks + [b];
    var s' := s.(space := s.space.(blocks := blocks, ops := s.space.ops[p := op]),
                 dirty := s.dirty + {b}, touched := s.touched - {b});
    assert s.job.NoJob?;
    assert c.l.Home(b);
    SameAbs(c, s, s');
    assert Abs(c, s').busy == Abs(c, s).busy;
  }

  /** end_op of an operation that is not the last. */
  lemma EndOk(c: Config, s: Sys, p: nat)
    requires Body(c, s) && !s.job.Recovery? && p < |s.space.ops| && s.space.ops[p].Active?
    requires forall b :: b in s.holder ==> s.holder[b] != p
    ensures var s' := s.(space := s.space.(ops := s.space.ops[p := R.Idle]));
            Body(c, s') && s'.job.NoJob? && StoreStep(End(p), false, Abs(c, s), Abs(c, s'))
  {
    var s' := s.(space := s.space.(ops := s.space.ops[p := R.Idle]));
    assert s.job.NoJob?;
    SameAbs(c, s, s');
    assert Abs(c, s').busy == Abs(c, s).busy - {p};
    assert p in Abs(c, s).busy;
  }

  /** The commit that the last end_op starts. */
  lemma StartCommitOk(c: Config, s: Sys)
    requires Body(c, s) && s.job.NoJob?
    requires forall q :: 0 <= q < |s.space.ops| ==> s.space.ops[q].Idle?
    requires |s.space.blocks| <= c.l.logSize - 1 && !s.space.panicked
    ensures forall i :: 0 <= i < |s.space.blocks| ==> s.space.blocks[i] in s.cache
    ensures var hs := s.space.blocks;
            var s' := s.(space := s.space.(committing := true),
                         job := Commit(s.disk, seq(|hs|, i requires 0 <= i < |hs| => s.cache[hs[i]]), 0));
            Body(c, s') && Abs(c, s') == Abs(c, s)
  {
    var hs := s.space.blocks;
    assert forall i :: 0 <= i < |hs| ==> hs[i] in s.dirty;
    var vals := seq(|hs|, i requires 0 <= i < |hs| => s.cache[hs[i]]);
    var s' := s.(space := s.space.(committing := true), job := Commit(s.disk, vals, 0));
    assert s.touched == {};
    assert Committing(s') && CommitCore(c.l, s'.job, hs, s'.disk);
    SameAbs(c, s, s');
  }

  /** What the home blocks mean at each point of a commit. */
  lemma CommitMeaning(c: Config, s: Sys)
    requires Body(c, s) && s.job.Commit?
    ensures forall i :: 0 <= i < |s.space.blocks| ==> CurrentAt(c, s, s.space.blocks[i]) == s.job.vals[i]
    ensures forall b :: 0 <= b < c.l.diskSize && c.l.Home(b) && b !in s.space.blocks ==>
              CurrentAt(c, s, b) == s.job.base.blocks[b]
  {
    var hs := s.space.blocks;
    forall i | 0 <= i < |hs|
      ensures CurrentAt(c, s, hs[i]) == s.job.vals[i]
    {
      if hs[i] !in s.dirty {
        assert s.disk.blocks[hs[i]] == s.job.vals[i];
      }
    }
  }

  lemma CommitDurable(c: Config, s: Sys, b: nat)
    requires Body(c, s) && s.job.Commit? && c.l.Home(b)
    ensures RecoveredAt(c.l, s.disk, b) ==
              if s.job.done <= |s.space.blocks| then s.job.base.blocks[b] else CurrentAt(c, s, b)
  {
    CommitMeaning(c, s);
    var hs := s.space.blocks;
    var i := Find(hs, b);
    if i < |hs| {
      assert CurrentAt(c, s, hs[i]) == s.job.vals[i];
      assert s.disk.blocks[hs[i]] ==
        if |hs| + 1 + i < s.job.done then s.job.vals[i] else s.job.base.blocks[hs[i]];
      if i < s.job.done {
        assert Slot(c.l, s.disk, i) == s.job.vals[i];
      }
    }
  }

  /** The log slots hold the values by the time they are copied home. */
  lemma SlotsAreCopied(l: Layout, j: Job, hs: seq<nat>, d: Image, i: nat)
    requires CommitCore(l, j, hs, d) && i < |hs| < j.done
    ensures l.logStart + 1 + i < |d.blocks| && Slot(l, d, i) == j.vals[i]
  {
  }

  lemma CommitWriteIs(c: Config, s: Sys)
    requires CommitCore(c.l, s.job, s.space.blocks, s.disk) && Pinned(s) && Committing(s) && WriteReady(c, s)
    ensures NextWrite(c, s) == CommitWrite(c.l, s.space.blocks, s.job.vals, s.job.done)
  {
    var hs, k := s.space.blocks, s.job.done;
    if k < |hs| {
      assert hs[k] in s.dirty;
    } else if |hs| < k < 2 * |hs| + 1 {
      SlotsAreCopied(c.l, s.job, hs, s.disk, k - |hs| - 1);
    }
  }

  lemma CommitWritePins(c: Config, s: Sys, w: Write)
    requires Logged(c.l, s.space.blocks) && Pinned(s) && Committing(s) && CleanMatches(s) && Keys(c, s)
    requires s.job.done < 2 * |s.space.blocks| + 2 && |s.disk.blocks| == c.l.diskSize
    requires w == CommitWrite(c.l, s.space.blocks, s.job.vals, s.job.done)
    requires w.Data? ==> w.at < |s.disk.blocks|
    ensures var s' := AfterCommitWrite(s, w);
            Pinned(s') && Committing(s') && CleanMatches(s') && Keys(c, s')
  {
    var hs, k := s.space.blocks, s.job.done;
    var s' := AfterCommitWrite(s, w);
    forall i | 0 <= i < |hs|
      ensures hs[i] in s'.dirty <==> k + 1 <= |hs| + 1 + i
    {
      assert hs[i] in s.dirty <==> k <= |hs| + 1 + i;
      assert c.l.Home(hs[i]);
    }
  }

  lemma CommitCoreNext(l: Layout, j: Job, hs: seq<nat>, d: Image)
    requires CommitCore(l, j, hs, d) && hs != [] && j.done < 2 * |hs| + 2
    ensures var w := CommitWrite(l, hs, j.vals, j.done);
            && (w.Data? ==> w.at < |d.blocks|)
            && CommitCore(l, Advance(j), hs, Put(d, w))
            && Good(l, Put(d, w))
  {
    CommitShapeNext(l, j.base, hs, j.vals, j.done, d);
  }

  lemma CommitWriteInv(c: Config, s: Sys, w: Write)
    requires Body(c, s) && s.job.Commit? && s.space.blocks != [] && s.job.done < 2 * |s.space.blocks| + 2
    requires w == CommitWrite(c.l, s.space.blocks, s.job.vals, s.job.done)
    ensures w.Data? ==> w.at < |s.disk.blocks|
    ensures Body(c, AfterCommitWrite(s, w))
  {
    CommitCoreNext(c.l, s.job, s.space.blocks, s.disk);
    CommitWritePins(c, s, w);
  }

  lemma CommitWriteMeaning(c: Config, s: Sys, w: Write, b: nat)
    requires Body(c, s) && s.job.Commit? && c.l.Home(b)
    requires w.Data? ==> w.at < |s.disk.blocks|
    requires Body(c, AfterCommitWrite(s, w))
    ensures var s' := AfterCommitWrite(s, w);
            && CurrentAt(c, s, b) == CurrentAt(c, s', b)
            && RecoveredAt(c.l, s'.disk, b) ==
                 if s.job.done == |s.space.blocks| then CurrentAt(c, s, b) else RecoveredAt(c.l, s.disk, b)
  {
    var s' := AfterCommitWrite(s, w);
    var hs := s.space.blocks;
    CommitDurable(c, s, b);
    CommitDurable(c, s', b);
    CommitMeaning(c, s);
    CommitMeaning(c, s');
    var i := Find(hs, b);
    if i < |hs| {
      assert CurrentAt(c, s, hs[i]) == s.job.vals[i] == CurrentAt(c, s', hs[i]);
    }
  }

  /** The header write replaces the durable copy; every other write leaves both copies alone. */
  lemma CommitWriteIsStoreStep(c: Config, s: Sys, s': Sys, atHead: bool)
    requires Good(c.l, s.disk) && Good(c.l, s'.disk) && !s.job.Recovery? && !s'.job.Recovery?
    requires s'.space == s.space && forall p :: 0 <= p < |s.space.ops| ==> s.space.ops[p].Idle?
    requires forall b :: 0 <= b < c.l.diskSize && c.l.Home(b) ==>
               && CurrentAt(c, s', b) == CurrentAt(c, s, b)
               && RecoveredAt(c.l, s'.disk, b) == if atHead then CurrentAt(c, s, b) else RecoveredAt(c.l, s.disk, b)
    ensures StoreStep(JobWrite, atHead, Abs(c, s), Abs(c, s'))
  {
    var a, a' := Abs(c, s), Abs(c, s');
    assert a'.current == a.current;
    assert a.busy == a'.busy == {};
    if atHead {
      assert a'.durable == a.current;
    } else {
      assert a'.durable == a.durable;
    }
  }

  lemma CommitWriteOk(c: Config, s: Sys, w: Write)
    requires Body(c, s) && s.job.Commit? && s.space.blocks != [] && s.job.done < 2 * |s.space.blocks| + 2
    requires w == CommitWrite(c.l, s.space.blocks, s.job.vals, s.job.done)
    ensures w.Data? ==> w.at < |s.disk.blocks|
    ensures Body(c, AfterCommitWrite(s, w))
    ensures StoreStep(JobWrite, s.job.done == |s.space.blocks|, Abs(c, s), Abs(c, AfterCommitWrite(s, w)))
  {
    CommitWriteInv(c, s, w);
    forall b | 0 <= b < c.l.diskSize && c.l.Home(b) {
      CommitWriteMeaning(c, s, w, b);
    }
    CommitWriteIsStoreStep(c, s, AfterCommitWrite(s, w), s.job.done == |s.space.blocks|);
  }

  lemma RecoveryWriteOk(c: Config, s: Sys)
    requires Body(c, s) && s.job.Recovery? && s.job.done <= |s.job.base.head|
    ensures var w := RecoveryWrites(c.l, s.job.base)[s.job.done];
            && (w.Data? ==> w.at < |s.disk.blocks|)
            && NextWrite(c, s) == w
            && var s' := s.(disk := Put(s.disk, w), job := Advance(s.job));
               Body(c, s') && Abs(c, s') == Abs(c, s)
  {
    var base, k := s.job.base, s.job.done;
    var w := RecoveryWrites(c.l, base)[k];
    var s' := s.(disk := Put(s.disk, w), job := Advance(s.job));
    RecoveryShapeNext(c.l, base, k, s.disk);
    RecoveryWriteIs(c, s);
    RecoveryMeaning(c, s, s', base, k);
  }

  lemma RecoveryWriteIs(c: Config, s: Sys)
    requires |s.disk.blocks| == c.l.diskSize && s.job.Recovery? && Good(c.l, s.job.base)
    requires s.job.done <= |s.job.base.head| && RecoveryShape(c.l, s.job.base, s.job.done, s.disk)
    ensures NextWrite(c, s) == RecoveryWrites(c.l, s.job.base)[s.job.done]
  {
  }

  /** Two points of a recovery from the same disk mean the same. */
  lemma RecoveryMeaning(c: Config, s: Sys, s': Sys, base: Image, k: nat)
    requires Good(c.l, base) && k <= |base.head| && s.job.Recovery? && s'.job.Recovery? && s'.space == s.space
    requires Good(c.l, s.disk) && RecoveryShape(c.l, base, k, s.disk)
    requires Good(c.l, s'.disk) && RecoveryShape(c.l, base, k + 1, s'.disk)
    ensures Abs(c, s') == Abs(c, s)
  {
    RecoveryShapeMeaning(c.l, base, k, s.disk);
    RecoveryShapeMeaning(c.l, base, k + 1, s'.disk);
    SameAbs(c, s, s');
  }

  lemma CommitDoneOk(c: Config, s: Sys)
    requires Body(c, s) && s.job.Commit? && JobFinished(s)
    ensures var s' := s.(space := s.space.(blocks := [], committing := false), job := NoJob);
            Body(c, s') && Abs(c, s') == Abs(c, s)
  {
    var s' := s.(space := s.space.(blocks := [], committing := false), job := NoJob);
    assert forall i :: 0 <= i < |s.space.blocks| ==> s.space.blocks[i] !in s.dirty;
    assert s.dirty == {};
    SameAbs(c, s, s');
  }

  lemma RecoveryDoneOk(c: Config, s: Sys)
    requires Body(c, s) && s.job.Recovery? && JobFinished(s)
    ensures var s' := s.(job := NoJob);
            Body(c, s') && StoreStep(JobDone, false, Abs(c, s), Abs(c, s'))
  {
    var s' := s.(job := NoJob);
    RecoveryShapeMeaning(c.l, s.job.base, s.job.done, s.disk);
    SameAbs(c, s, s');
  }

  lemma CrashOk(c: Config, s: Sys)
    requires Inv(c, s)
    ensures Inv(c, Do(c, s, Crash)) && StoreStep(Crash, false, Abs(c, s), Abs(c, Do(c, s, Crash)))
  {
    var s' := Do(c, s, Crash);
    R.AllIdle(c.maxOp, c.nproc);
    var a, a' := Abs(c, s), Abs(c, s');
    assert a'.durable == a.durable;
    assert a'.current == a.durable;
    assert a'.busy == {};
  }

  lemma LogStepRefines(c: Config, s: Sys, t: Step)
    requires Inv(c, s) && Enabled(c, s, t) && (t.JobWrite? || t.JobDone?)
    ensures Inv(c, Do(c, s, t)) && StoreStep(t, HeadWrite(s, t), Abs(c, s), Abs(c, Do(c, s, t)))
  {
    if t.JobWrite? {
      if s.job.Commit? {
        CommitWriteIs(c, s);
        CommitWriteOk(c, s, NextWrite(c, s));
      } else {
        RecoveryWriteOk(c, s);
      }
    } else if s.job.Commit? {
      R.InvStep(c.Space(), false, s.space, R.Done);
      CommitDoneOk(c, s);
    } else {
      RecoveryDoneOk(c, s);
    }
  }

  /** The blocks that a commit copies are in the cache, and fit the log area if it is larger than LOGSIZE. */
  lemma CommitCanStart(c: Config, s: Sys, p: nat)
    requires Inv(c, s) && !s.job.Recovery? && R.Enabled(c.Space(), s.space, false, R.End(p))
    requires forall b :: b in s.holder ==> s.holder[b] != p
    ensures Enabled(c, s, End(p)) && (c.l.logSize > c.l.logMax ==> !Overflow(c, s, End(p)))
  {
    assert s.job.NoJob?;
    assert forall i :: 0 <= i < |s.space.blocks| ==> s.space.blocks[i] in s.dirty;
  }

  lemma EndRefines(c: Config, s: Sys, p: nat)
    requires Inv(c, s) && Enabled(c, s, End(p)) && !Overflow(c, s, End(p))
    ensures Inv(c, Do(c, s, End(p))) && StoreStep(End(p), false, Abs(c, s), Abs(c, Do(c, s, End(p))))
  {
    R.InvStep(c.Space(), false, s.space, R.End(p));
    var s' := Do(c, s, End(p));
    EndOk(c, s, p);
    if s'.job.Commit? {
      SpaceFactsHold(c, s'.space);
      StartCommitOk(c, s.(space := s.space.(ops := s.space.ops[p := R.Idle])));
    }
  }

  lemma LogWriteRefines(c: Config, s: Sys, p: nat, b: nat)
    requires Inv(c, s) && Enabled(c, s, LogWrite(p, b))
    ensures Inv(c, Do(c, s, LogWrite(p, b)))
            && StoreStep(LogWrite(p, b), false, Abs(c, s), Abs(c, Do(c, s, LogWrite(p, b))))
  {
    R.InvStep(c.Space(), false, s.space, R.Insert(p, b));
    R.SumBounds(c.maxOp, s.space.ops);
    assert b !in s.space.blocks ==> R.Share(c.maxOp, s.space.ops[p]) >= 1;
    LogWriteOk(c, s, p, b, R.Do(c.Space(), s.space, false, R.Insert(p, b)).ops[p]);
  }

  lemma BeginRefines(c: Config, s: Sys, p: nat)
    requires Inv(c, s) && Enabled(c, s, Begin(p))
    ensures Inv(c, Do(c, s, Begin(p))) && StoreStep(Begin(p), false, Abs(c, s), Abs(c, Do(c, s, Begin(p))))
  {
    R.InvStep(c.Space(), false, s.space, R.Begin(p));
    BeginOk(c, s, p);
  }

  lemma CheckRefines(c: Config, s: Sys, p: nat)
    requires Inv(c, s) && Enabled(c, s, Check(p))
    ensures Inv(c, Do(c, s, Check(p))) && StoreStep(Check(p), false, Abs(c, s), Abs(c, Do(c, s, Check(p))))
  {
    R.InvStep(c.Space(), false, s.space, R.Check(p));
    var sp := R.Do(c.Space(), s.space, false, R.Check(p));
    CheckOk(c, s, p, sp.ops[p], sp.panicked);
  }

  lemma BufferStepRefines(c: Config, s: Sys, t: Step)
    requires Inv(c, s) && Enabled(c, s, t) && (t.Lock? || t.Modify? || t.Unlock? || t.Evict?)
    ensures Inv(c, Do(c, s, t)) && StoreStep(t, false, Abs(c, s), Abs(c, Do(c, s, t)))
  {
    if t.Lock? {
      LockOk(c, s, t.p, t.b);
    } else if t.Modify? {
      ModifyOk(c, s, t.p, t.b, t.data);
    } else if t.Unlock? {
      UnlockOk(c, s, t.b);
    } else {
      EvictOk(c, s, t.b);
    }
  }

  /** Every step, from every state that satisfies the invariant, keeps it and does to the store what it
      means. */
  lemma StepRefines(c: Config, s: Sys, t: Step)
    requires Inv(c, s) && Enabled(c, s, t) && !Overflow(c, s, t)
    ensures Inv(c, Do(c, s, t)) && StoreStep(t, HeadWrite(s, t), Abs(c, s), Abs(c, Do(c, s, t)))
  {
    if t.Begin? {
      BeginRefines(c, s, t.p);
    } else if t.Check? {
      CheckRefines(c, s, t.p);
    } else if t.Lock? || t.Modify? || t.Unlock? || t.Evict? {
      BufferStepRefines(c, s, t);
    } else if t.LogWrite? {
      LogWriteRefines(c, s, t.p, t.b);
    } else if t.End? {
      EndRefines(c, s, t.p);
    } else if t.Crash? {
      CrashOk(c, s);
    } else {
      LogStepRefines(c, s, t);
    }
  }

  // ----- whole runs -----

  /** Power-on with the disk `d`: nothing cached, recovery about to start. */
  function PowerOn(c: Config, d: Image): Sys {
    Sys(d, map[], {}, map[], {}, R.Init(c.Space()), Recovery(d, 0))
  }

  datatype Outcome = Stuck | At(s: Sys)

  /** The state after the steps `ts` from power-on, if each was enabled. */
  function Exec(c: Config, d: Image, ts: seq<Step>): Outcome {
    if ts == [] then At(PowerOn(c, d))
    else
      match Exec(c, d, ts[..|ts| - 1])
      case Stuck => Stuck
      case At(s) => if Enabled(c, s, ts[|ts| - 1]) then At(Do(c, s, ts[|ts| - 1])) else Stuck
  }

  /** A commit of the run starts with more blocks than fit. */
  predicate Overflows(c: Config, d: Image, ts: seq<Step>) {
    ts != [] && var n := |ts| - 1;
                Overflows(c, d, ts[..n]) || (Exec(c, d, ts[..n]).At? && Overflow(c, Exec(c, d, ts[..n]).s, ts[n]))
  }

  /** That never happens in a log area larger than LOGSIZE. */
  lemma {:induction false} NeverOverflows(c: Config, d: Image, ts: seq<Step>)
    requires Good(c.l, d) && Exec(c, d, ts).At? && c.l.logSize > c.l.logMax
    ensures !Overflows(c, d, ts)
  {
    if ts != [] {
      NeverOverflows(c, d, ts[..|ts| - 1]);
      RunInv(c, d, ts[..|ts| - 1]);
    }
  }

  lemma {:induction false} RunInv(c: Config, d: Image, ts: seq<Step>)
    requires Good(c.l, d) && Exec(c, d, ts).At? && !Overflows(c, d, ts)
    ensures Inv(c, Exec(c, d, ts).s)
  {
    if ts == [] {
      R.AllIdle(c.maxOp, c.nproc);
      SpaceFactsHold(c, R.Init(c.Space()));
    } else {
      RunInv(c, d, ts[..|ts| - 1]);
      StepRefines(c, Exec(c, d, ts[..|ts| - 1]).s, ts[|ts| - 1]);
    }
  }

  /** Step i of the run `ts` is the write of a header that completes a commit. */
  ghost predicate Commits(c: Config, d: Image, ts: seq<Step>, i: nat) {
    i < |ts| && Exec(c, d, ts[..i]).At? && HeadWrite(Exec(c, d, ts[..i]).s, ts[i])
  }

  lemma DurableStep(c: Config, d: Image, ts: seq<Step>, n: nat)
    requires Good(c.l, d) && n + 1 == |ts| && Exec(c, d, ts).At? && !Overflows(c, d, ts)
    ensures Exec(c, d, ts[..n]).At? && Good(c.l, Exec(c, d, ts[..n]).s.disk) && Good(c.l, Exec(c, d, ts).s.disk)
    ensures var a := Abs(c, Exec(c, d, ts[..n]).s);
            && Abs(c, Exec(c, d, ts).s).durable == (if Commits(c, d, ts, n) then a.current else a.durable)
            && (Commits(c, d, ts, n) ==> a.busy == {})
  {
    RunInv(c, d, ts);
    RunInv(c, d, ts[..n]);
    StepRefines(c, Exec(c, d, ts[..n]).s, ts[n]);
  }

  /** The last commit of a run, or its start. */
  ghost function LastCommit(c: Config, d: Image, ts: seq<Step>): (j: nat)
    ensures j <= |ts|
  {
    if ts == [] then 0
    else if Commits(c, d, ts, |ts| - 1) then |ts| - 1
    else LastCommit(c, d, ts[..|ts| - 1])
  }

  lemma {:induction false} LastCommitIs(c: Config, d: Image, ts: seq<Step>, i: nat)
    requires i < |ts|
    ensures LastCommit(c, d, ts) == 0 || Commits(c, d, ts, LastCommit(c, d, ts))
    ensures Commits(c, d, ts, i) ==> i <= LastCommit(c, d, ts)
  {
    var n := |ts| - 1;
    if !Commits(c, d, ts, n) && n > 0 {
      var j := LastCommit(c, d, ts[..n]);
      LastCommitIs(c, d, ts[..n], if i < n then i else 0);
      assert ts[..n][..j] == ts[..j];
      if i < n {
        assert ts[..n][..i] == ts[..i];
      }
    }
  }

  /** Whatever has happened, crashes included, the durable copy is the volatile copy at the last commit,
      or at power-on if there was none; no operation was in progress then. */
  lemma {:induction false} DurableIsACut(c: Config, d: Image, ts: seq<Step>)
    requires Good(c.l, d) && Exec(c, d, ts).At? && !Overflows(c, d, ts)
    ensures var j := LastCommit(c, d, ts);
            && Exec(c, d, ts[..j]).At?
            && Good(c.l, Exec(c, d, ts).s.disk) && Good(c.l, Exec(c, d, ts[..j]).s.disk)
            && Abs(c, Exec(c, d, ts[..j]).s).busy == {}
            && Abs(c, Exec(c, d, ts).s).durable == Abs(c, Exec(c, d, ts[..j]).s).current
  {
    if ts == [] {
      assert ts[..0] == ts;
      RunInv(c, d, ts);
    } else {
      var n := |ts| - 1;
      DurableStep(c, d, ts, n);
      if !Commits(c, d, ts, n) {
        DurableIsACut(c, d, ts[..n]);
        var j := LastCommit(c, d, ts[..n]);
        assert ts[..n][..j] == ts[..j];
      }
    }
  }

  /** Recovery is about to complete. */
  predicate Recovering(c: Config, d: Image, ts: seq<Step>) {
    Exec(c, d, ts).At? && Exec(c, d, ts).s.job.Recovery? && Enabled(c, Exec(c, d, ts).s, JobDone)
  }

  /** What the system then shows is what it held at the last commit, when no operation was in progress. */
  ghost predicate ShowsLastCommit(c: Config, d: Image, ts: seq<Step>)
    requires Recovering(c, d, ts)
  {
    var s', j := Do(c, Exec(c, d, ts).s, JobDone), LastCommit(c, d, ts);
    && Exec(c, d, ts[..j]).At?
    && Good(c.l, s'.disk) && Good(c.l, Exec(c, d, ts[..j]).s.disk)
    && Abs(c, s').up
    && Abs(c, Exec(c, d, ts[..j]).s).busy == {}
    && Abs(c, s').current == Abs(c, Exec(c, d, ts[..j]).s).current
  }

  /** When recovery completes, the system shows the effects of whole operations only: exactly the
      contents at the last commit. */
  lemma RecoveryShowsWholeOperations(c: Config, d: Image, ts: seq<Step>)
    requires Good(c.l, d) && Recovering(c, d, ts) && !Overflows(c, d, ts)
    ensures ShowsLastCommit(c, d, ts)
  {
    var s := Exec(c, d, ts).s;
    RunInv(c, d, ts);
    DurableIsACut(c, d, ts);
    RecoveryDoneOk(c, s);
    assert Abs(c, s).current == Abs(c, s).durable;
    var s' := Do(c, s, JobDone);
    RecoveryShapeMeaning(c.l, s.job.base, s.job.done, s.disk);
    SameAbs(c, s, s');
  }

  // ----- the latest contents -----

  /** The contents of block b after a run, from its steps alone: what the last change of b wrote, unless
      there was a crash after it; then the contents at the last commit before the crash. */
  ghost function Latest(c: Config, d: Image, ts: seq<Step>, b: nat): Block
    requires Good(c.l, d) && b < c.l.diskSize
    decreases |ts|
  {
    if ts == [] then RecoveredAt(c.l, d, b)
    else
      var n := |ts| - 1;
      if ts[n].Modify? && ts[n].b == b then ts[n].data
      else if ts[n].Crash? then Latest(c, d, ts[..LastCommit(c, d, ts[..n])], b)
      else Latest(c, d, ts[..n], b)
  }

  lemma CurrentStep(c: Config, d: Image, ts: seq<Step>, n: nat, b: nat)
    requires Good(c.l, d) && n + 1 == |ts| && Exec(c, d, ts).At? && !Overflows(c, d, ts) && c.l.Home(b)
    ensures Exec(c, d, ts[..n]).At? && Good(c.l, Exec(c, d, ts[..n]).s.disk) && Good(c.l, Exec(c, d, ts).s.disk)
    ensures var a := Abs(c, Exec(c, d, ts[..n]).s);
            Abs(c, Exec(c, d, ts).s).current[b] ==
              if ts[n].Modify? && ts[n].b == b then ts[n].data
              else if ts[n].Crash? then a.durable[b] else a.current[b]
  {
    RunInv(c, d, ts);
    RunInv(c, d, ts[..n]);
    StepRefines(c, Exec(c, d, ts[..n]).s, ts[n]);
  }

  lemma {:induction false} CurrentIsLatest(c: Config, d: Image, ts: seq<Step>, b: nat)
    requires Good(c.l, d) && Exec(c, d, ts).At? && !Overflows(c, d, ts) && c.l.Home(b)
    ensures Good(c.l, Exec(c, d, ts).s.disk) && Abs(c, Exec(c, d, ts).s).current[b] == Latest(c, d, ts, b)
    decreases |ts|
  {
    if ts == [] {
      RunInv(c, d, ts);
    } else {
      var n := |ts| - 1;
      CurrentStep(c, d, ts, n, b);
      if ts[n].Crash? {
        var j := LastCommit(c, d, ts[..n]);
        DurableIsACut(c, d, ts[..n]);
        PrefixContained(c, d, ts[..n], j);
        assert ts[..n][..j] == ts[..j];
        CurrentIsLatest(c, d, ts[..j], b);
      } else {
        CurrentIsLatest(c, d, ts[..n], b);
      }
    }
  }

  lemma {:induction false} PrefixContained(c: Config, d: Image, ts: seq<Step>, j: nat)
    requires j <= |ts| && !Overflows(c, d, ts)
    ensures !Overflows(c, d, ts[..j])
    decreases |ts|
  {
    if j < |ts| {
      PrefixContained(c, d, ts[..|ts| - 1], j);
      assert ts[..|ts| - 1][..j] == ts[..j];
    } else {
      assert ts[..j] == ts;
    }
  }

  /** bread returns the latest contents, and what it returns is safe from eviction and from
      loss: clean buffers equal the disk, logged ones stay pinned until installed. */
  lemma ReadsAreCurrent(c: Config, d: Image, ts: seq<Step>, p: nat, b: nat)
    requires Good(c.l, d) && Exec(c, d, ts).At? && !Overflows(c, d, ts) && Enabled(c, Exec(c, d, ts).s, Lock(p, b))
    ensures var s := Exec(c, d, ts).s;
            var s' := Do(c, s, Lock(p, b));
            && Good(c.l, s.disk)
            && b in s'.cache && s'.cache[b] == Latest(c, d, ts, b)
            && (b in s.cache && b !in s.dirty && b !in s.touched ==> s.cache[b] == s.disk.blocks[b])
            && (s.job.NoJob? && b in s.space.blocks ==> b in s.dirty)
            && (b in s.dirty ==> !Enabled(c, s, Evict(b)))
  {
    RunInv(c, d, ts);
    CurrentIsLatest(c, d, ts, b);
  }
}
