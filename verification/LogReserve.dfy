/** Log space: begin_op, log_write and end_op of log.c as atomic steps of concurrent operations.

    The check at the top of log_write reads log.lh.n before log.lock is taken, so it is a step
    of its own, apart from the insertion it is meant to guard. */
module LogReserve {
  import opened RoundRobin

  /** nproc processes, MAXOPBLOCKS, LOGSIZE and the size of the log area (log.size). */
  datatype Params = Params(nproc: nat, maxOp: nat, logMax: nat, logSize: nat)

  /** What a process is doing: `calls` of log_write so far, `added` blocks added by them, and
      whether it stands between the check and the insertion. */
  datatype Op = Idle | Active(calls: nat, added: nat, checked: bool)

  datatype Space = Space(blocks: seq<nat>, ops: seq<Op>, committing: bool, panicked: bool)

  datatype Step = Begin(p: nat) | Check(p: nat) | Insert(p: nat, b: nat) | End(p: nat) | Done

  function Init(c: Params): Space {
    Space([], seq(c.nproc, _ => Idle), false, false)
  }

  /** log.outstanding */
  function Outstanding(ops: seq<Op>): (n: nat)
    ensures n <= |ops|
  {
    if ops == [] then 0
    else Outstanding(ops[..|ops| - 1]) + if ops[|ops| - 1].Active? then 1 else 0
  }

  /** Begin waits while a commit runs or the reservation would not fit.  A client adds at most
      MAXOPBLOCKS blocks per operation and, in a frugal run, calls log_write at most that often. */
  predicate Enabled(c: Params, s: Space, frugal: bool, t: Step) {
    && !s.panicked
    && match t
       case Begin(p) =>
         && p < |s.ops| && s.ops[p].Idle?
         && !s.committing
         && |s.blocks| + (Outstanding(s.ops) + 1) * c.maxOp <= c.logMax
       case Check(p) =>
         && p < |s.ops| && s.ops[p].Active? && !s.ops[p].checked
         && (frugal ==> s.ops[p].calls < c.maxOp)
       case Insert(p, b) =>
         && p < |s.ops| && s.ops[p].Active? && s.ops[p].checked
         && (b !in s.blocks ==> s.ops[p].added < c.maxOp)
       case End(p) =>
         p < |s.ops| && s.ops[p].Active? && !s.ops[p].checked
       case Done =>
         s.committing
  }

  function Do(c: Params, s: Space, frugal: bool, t: Step): Space
    requires Enabled(c, s, frugal, t)
  {
    match t
    case Begin(p) => s.(ops := s.ops[p := Active(0, 0, false)])
    case Check(p) =>
      if |s.blocks| >= c.logMax || |s.blocks| >= c.logSize - 1 then s.(panicked := true)
      else s.(ops := s.ops[p := s.ops[p].(calls := s.ops[p].calls + 1, checked := true)])
    case Insert(p, b) =>
      var op := s.ops[p].(checked := false);
      if b in s.blocks then s.(ops := s.ops[p := op])   // log absorption
      else s.(blocks := s.blocks + [b], ops := s.ops[p := op.(added := op.added + 1)])
    case End(p) =>
      if s.committing then s.(panicked := true)
      else
        var ops := s.ops[p := Idle];
        s.(ops := ops, committing := Outstanding(ops) == 0)
    case Done => s.(blocks := [], committing := false)
  }

  datatype Outcome = Stuck | At(s: Space)

  /** The state after the steps `ts`, in order, if each was enabled. */
  function Exec(c: Params, frugal: bool, ts: seq<Step>): Outcome {
    if ts == [] then At(Init(c))
    else
      match Exec(c, frugal, ts[..|ts| - 1])
      case Stuck => Stuck
      case At(s) =>
        if Enabled(c, s, frugal, ts[|ts| - 1]) then At(Do(c, s, frugal, ts[|ts| - 1])) else Stuck
  }

  ghost predicate Reachable(c: Params, frugal: bool, s: Space) {
    exists ts :: Exec(c, frugal, ts) == At(s)
  }

  // ----- the reservation invariant -----

  /** Blocks the operations in progress may still add. */
  function Unspent(maxOp: nat, ops: seq<Op>): int {
    if ops == [] then 0
    else
      var op := ops[|ops| - 1];
      Unspent(maxOp, ops[..|ops| - 1]) + if op.Active? then maxOp - op.added else 0
  }

  function Share(maxOp: nat, op: Op): int {
    if op.Active? then maxOp - op.added else 0
  }

  lemma {:induction false} UpdateSums(maxOp: nat, ops: seq<Op>, p: nat, op: Op)
    requires p < |ops|
    ensures Unspent(maxOp, ops[p := op]) == Unspent(maxOp, ops) - Share(maxOp, ops[p]) + Share(maxOp, op)
    ensures Outstanding(ops[p := op])
         == Outstanding(ops) - (if ops[p].Active? then 1 else 0) + (if op.Active? then 1 else 0)
  {
    var n := |ops| - 1;
    if p == n {
      assert ops[p := op][..n] == ops[..n];
    } else {
      UpdateSums(maxOp, ops[..n], p, op);
      assert ops[p := op][..n] == ops[..n][p := op];
    }
  }

  lemma {:induction false} SumBounds(maxOp: nat, ops: seq<Op>)
    requires forall p :: 0 <= p < |ops| && ops[p].Active? ==> ops[p].added <= maxOp
    ensures 0 <= Unspent(maxOp, ops) <= Outstanding(ops) * maxOp
    ensures forall p :: 0 <= p < |ops| ==> Share(maxOp, ops[p]) <= Unspent(maxOp, ops)
    ensures forall p :: 0 <= p < |ops| && ops[p].Active? ==> Outstanding(ops) >= 1
  {
    if ops != [] {
      SumBounds(maxOp, ops[..|ops| - 1]);
      forall p | 0 <= p < |ops|
        ensures Share(maxOp, ops[p]) <= Unspent(maxOp, ops)
        ensures ops[p].Active? ==> Outstanding(ops) >= 1
      {
        if p < |ops| - 1 {
          assert ops[p] == ops[..|ops| - 1][p];
        }
      }
    }
  }

  lemma {:induction false} AllIdle(maxOp: nat, n: nat)
    ensures Unspent(maxOp, seq(n, _ => Idle)) == 0 && Outstanding(seq(n, _ => Idle)) == 0
  {
    if n > 0 {
      AllIdle(maxOp, n - 1);
      assert seq(n, _ => Idle)[..n - 1] == seq(n - 1, _ => Idle);
    }
  }

  ghost predicate Inv(c: Params, frugal: bool, s: Space) {
    && |s.ops| == c.nproc
    && (forall i, j :: 0 <= i < j < |s.blocks| ==> s.blocks[i] != s.blocks[j])
    && (forall p :: 0 <= p < |s.ops| && s.ops[p].Active? ==>
          && s.ops[p].added <= c.maxOp
          && (frugal ==> s.ops[p].added + (if s.ops[p].checked then 1 else 0) <= s.ops[p].calls <= c.maxOp))
    && |s.blocks| + Unspent(c.maxOp, s.ops) <= c.logMax
    && (s.committing ==> Outstanding(s.ops) == 0)
    && (!s.committing && Outstanding(s.ops) == 0 ==> s.blocks == [])
  }

  lemma InvStep(c: Params, frugal: bool, s: Space, t: Step)
    requires Inv(c, frugal, s) && Enabled(c, s, frugal, t)
    ensures Inv(c, frugal, Do(c, s, frugal, t))
  {
    match t
    case Begin(p) => InvBegin(c, frugal, s, p);
    case Check(p) => InvCheck(c, frugal, s, p);
    case Insert(p, b) => InvInsert(c, frugal, s, p, b);
    case End(p) => InvEnd(c, frugal, s, p);
    case Done => SumBounds(c.maxOp, s.ops);
  }

  lemma InvCheck(c: Params, frugal: bool, s: Space, p: nat)
    requires Inv(c, frugal, s) && Enabled(c, s, frugal, Check(p))
    ensures Inv(c, frugal, Do(c, s, frugal, Check(p)))
  {
    UpdateSums(c.maxOp, s.ops, p, s.ops[p].(calls := s.ops[p].calls + 1, checked := true));
  }

  lemma InvEnd(c: Params, frugal: bool, s: Space, p: nat)
    requires Inv(c, frugal, s) && Enabled(c, s, frugal, End(p))
    ensures Inv(c, frugal, Do(c, s, frugal, End(p)))
  {
    SumBounds(c.maxOp, s.ops);
    UpdateSums(c.maxOp, s.ops, p, Idle);
  }

  lemma InvBegin(c: Params, frugal: bool, s: Space, p: nat)
    requires Inv(c, frugal, s) && Enabled(c, s, frugal, Begin(p))
    ensures Inv(c, frugal, Do(c, s, frugal, Begin(p)))
  {
    SumBounds(c.maxOp, s.ops);
    UpdateSums(c.maxOp, s.ops, p, Active(0, 0, false));
    assert (Outstanding(s.ops) + 1) * c.maxOp == Outstanding(s.ops) * c.maxOp + c.maxOp;
  }

  lemma InvInsert(c: Params, frugal: bool, s: Space, p: nat, b: nat)
    requires Inv(c, frugal, s) && Enabled(c, s, frugal, Insert(p, b))
    ensures Inv(c, frugal, Do(c, s, frugal, Insert(p, b)))
  {
    SumBounds(c.maxOp, s.ops);
    var op := s.ops[p].(checked := false);
    if b in s.blocks {
      UpdateSums(c.maxOp, s.ops, p, op);
    } else {
      UpdateSums(c.maxOp, s.ops, p, op.(added := op.added + 1));
    }
  }

  lemma {:induction false} InvExec(c: Params, frugal: bool, ts: seq<Step>)
    ensures Exec(c, frugal, ts).At? ==> Inv(c, frugal, Exec(c, frugal, ts).s)
  {
    if ts == [] {
      AllIdle(c.maxOp, c.nproc);
    } else {
      InvExec(c, frugal, ts[..|ts| - 1]);
      match Exec(c, frugal, ts[..|ts| - 1])
      case Stuck =>
      case At(s) =>
        if Enabled(c, s, frugal, ts[|ts| - 1]) {
          InvStep(c, frugal, s, ts[|ts| - 1]);
        }
    }
  }

  /** In every interleaving: logged blocks plus unspent reservations fit LOGSIZE, a commit runs
      only with no operation in progress, end_op never meets a running commit, and an insertion
      writes inside log.lh.block although the check that guards it holds no lock. */
  lemma ReservationHolds(c: Params, frugal: bool, s: Space, t: Step)
    requires Reachable(c, frugal, s) && Enabled(c, s, frugal, t)
    ensures |s.blocks| + Unspent(c.maxOp, s.ops) <= c.logMax
    ensures s.committing ==> forall p :: 0 <= p < |s.ops| ==> s.ops[p].Idle?
    ensures t.End? ==> !s.committing
    ensures t.Insert? && t.b !in s.blocks ==> |s.blocks| < c.logMax
  {
    var ts :| Exec(c, frugal, ts) == At(s);
    InvExec(c, frugal, ts);
    SumBounds(c.maxOp, s.ops);
    if t.Insert? && t.b !in s.blocks {
      assert Share(c.maxOp, s.ops[t.p]) >= 1;
    }
  }

  // ----- when the check is needed, and when it is enough -----

  lemma TurnHasRoom(k: nat, maxOp: nat, j: nat)
    requires k > 0 && j < k * maxOp
    ensures Turn(k, j % k, j) < maxOp
  {
    TurnIs(k, j % k, j);
    if j / k >= maxOp {
      MulMono(k, maxOp, j / k);
      assert false;
    }
  }

  /** k operations have begun and, taking turns, logged the blocks first..first+j-1. */
  function Filled(c: Params, k: nat, j: nat, first: nat): Space {
    Space(seq(j, x => first + x),
          seq(c.nproc, i => if 0 <= i < k then Active(Turn(k, i, j), Turn(k, i, j), false) else Idle),
          false, false)
  }

  /** Operations begin and add blocks from first..first+n-1. */
  predicate Adds(ts: seq<Step>, first: nat, n: nat) {
    forall i :: 0 <= i < |ts| ==>
      ts[i].Begin? || ts[i].Check? || (ts[i].Insert? && first <= ts[i].b < first + n)
  }

  lemma Extend(c: Params, frugal: bool, ts: seq<Step>, s: Space, t: Step)
    requires Exec(c, frugal, ts) == At(s) && Enabled(c, s, frugal, t)
    ensures Exec(c, frugal, ts + [t]) == At(Do(c, s, frugal, t))
  {
    assert (ts + [t])[..|ts + [t]| - 1] == ts;
  }

  lemma {:induction false} CountFilled(c: Params, k: nat, j: nat, n: nat, first: nat)
    requires n <= c.nproc
    ensures Outstanding(Filled(c, k, j, first).ops[..n]) == if n < k then n else k
  {
    if n > 0 {
      CountFilled(c, k, j, n - 1, first);
      var ops := Filled(c, k, j, first).ops;
      assert ops[..n][..n - 1] == ops[..n - 1];
    }
  }

  lemma {:induction false} ReachBegun(c: Params, k: nat, first: nat, n: nat) returns (ts: seq<Step>)
    requires k <= c.nproc && k * c.maxOp <= c.logMax
    ensures Exec(c, true, ts) == At(Filled(c, k, 0, first)) && Adds(ts, first, n)
  {
    if k == 0 {
      ts := [];
      assert Filled(c, 0, 0, first) == Init(c);
    } else {
      assert (k - 1) * c.maxOp <= k * c.maxOp;
      ts := ReachBegun(c, k - 1, first, n);
      var s := Filled(c, k - 1, 0, first);
      CountFilled(c, k - 1, 0, c.nproc, first);
      assert s.ops[..c.nproc] == s.ops;
      assert Filled(c, k, 0, first).ops == s.ops[k - 1 := Active(0, 0, false)];
      Extend(c, true, ts, s, Begin(k - 1));
      ts := ts + [Begin(k - 1)];
    }
  }

  /** The check and the insertion of one more block, by the operation whose turn it is. */
  lemma FilledNext(c: Params, k: nat, j: nat, first: nat)
    requires 0 < k <= c.nproc && k * c.maxOp == c.logMax && j < c.logMax && j + 1 < c.logSize
    ensures
      var p, s := j % k, Filled(c, k, j, first);
      && Enabled(c, s, true, Check(p))
      && var s' := Do(c, s, true, Check(p));
         Enabled(c, s', true, Insert(p, first + j))
           && Do(c, s', true, Insert(p, first + j)) == Filled(c, k, j + 1, first)
  {
    TurnHasRoom(k, c.maxOp, j);
    var p, s := j % k, Filled(c, k, j, first);
    var s'' := Do(c, Do(c, s, true, Check(p)), true, Insert(p, first + j));
    assert s''.blocks == Filled(c, k, j + 1, first).blocks;
    assert s''.ops == Filled(c, k, j + 1, first).ops;
  }

  lemma {:induction false} ReachFilled(c: Params, k: nat, j: nat, first: nat, n: nat) returns (ts: seq<Step>)
    requires 0 < k <= c.nproc && k * c.maxOp == c.logMax
    requires j <= c.logMax && j < c.logSize && j <= n
    ensures Exec(c, true, ts) == At(Filled(c, k, j, first)) && Adds(ts, first, n)
  {
    if j == 0 {
      ts := ReachBegun(c, k, first, n);
    } else {
      ts := ReachFilled(c, k, j - 1, first, n);
      var p, s := (j - 1) % k, Filled(c, k, j - 1, first);
      FilledNext(c, k, j - 1, first);
      Extend(c, true, ts, s, Check(p));
      Extend(c, true, ts + [Check(p)], Do(c, s, true, Check(p)), Insert(p, first + (j - 1)));
      ts := ts + [Check(p)] + [Insert(p, first + (j - 1))];
    }
  }

  /** log_write's check ("too big a transaction") never stops a run whose operations call
      log_write at most MAXOPBLOCKS times each, exactly when the log area is larger than LOGSIZE.
      LOGSIZE is a multiple k of MAXOPBLOCKS, as in param.h; mkfs makes the two sizes equal. */
  lemma CheckNeverPanicsIff(c: Params, k: nat)
    requires 0 < k <= c.nproc && 0 < c.maxOp && k * c.maxOp == c.logMax
    ensures (forall s :: Reachable(c, true, s) ==> !s.panicked) <==> c.logSize > c.logMax
  {
    if c.logSize > c.logMax {
      forall s | Reachable(c, true, s)
        ensures !s.panicked
      {
        var ts :| Exec(c, true, ts) == At(s);
        NoPanic(c, ts);
      }
    } else {
      var j, first, n := if c.logSize == 0 then 0 else c.logSize - 1, 0, c.logSize;
      assert c.logMax >= 1 by { assert k * c.maxOp >= 1; }
      var ts;
      if c.logSize == 0 {
        ts := ReachBegun(c, k, first, n);
      } else {
        ts := ReachFilled(c, k, j, first, n);
      }
      var s := Filled(c, k, j, first);
      TurnHasRoom(k, c.maxOp, j);
      Extend(c, true, ts, s, Check(j % k));
      var s' := Do(c, s, true, Check(j % k));
      assert s'.panicked && Reachable(c, true, s');
    }
  }

  lemma {:induction false} NoPanic(c: Params, ts: seq<Step>)
    requires c.logSize > c.logMax
    ensures Exec(c, true, ts).At? ==> !Exec(c, true, ts).s.panicked
  {
    if ts != [] {
      NoPanic(c, ts[..|ts| - 1]);
      InvExec(c, true, ts[..|ts| - 1]);
      match Exec(c, true, ts[..|ts| - 1])
      case Stuck =>
      case At(s) =>
        SumBounds(c.maxOp, s.ops);
        var t := ts[|ts| - 1];
        if Enabled(c, s, true, t) && t.Check? {
          assert Share(c.maxOp, s.ops[t.p]) >= 1;
        }
    }
  }

  /** The logged blocks always fit the log area behind its header exactly when that area is
      larger than LOGSIZE (or holds the header alone, when the check stops every operation).
      Otherwise two operations can both pass the check before either inserts. */
  lemma LogAreaSufficesIff(c: Params, k: nat)
    requires 2 <= k <= c.nproc && 0 < c.maxOp && k * c.maxOp == c.logMax && 1 <= c.logSize
    ensures (forall s :: Reachable(c, true, s) ==> |s.blocks| <= c.logSize - 1)
            <==> c.logSize > c.logMax || c.logSize == 1
  {
    if c.logSize > c.logMax || c.logSize == 1 {
      forall s | Reachable(c, true, s)
        ensures |s.blocks| <= c.logSize - 1
      {
        var ts :| Exec(c, true, ts) == At(s);
        InvExec(c, true, ts);
        SumBounds(c.maxOp, s.ops);
        if c.logSize == 1 {
          NothingLogged(c, ts);
        }
      }
    } else {
      var ts := TwoPastTheCheck(c, k, 0);
      var s := Filled(c, k, c.logSize, 0);
      assert Reachable(c, true, s) && |s.blocks| == c.logSize;
    }
  }

  lemma {:induction false} NothingLogged(c: Params, ts: seq<Step>)
    requires c.logSize == 1
    ensures Exec(c, true, ts).At? ==>
              var s := Exec(c, true, ts).s;
              s.blocks == [] && forall p :: 0 <= p < |s.ops| && s.ops[p].Active? ==> !s.ops[p].checked
  {
    if ts != [] {
      NothingLogged(c, ts[..|ts| - 1]);
    }
  }

  predicate Goes(c: Params, s: Space, t: Step, s': Space) { Enabled(c, s, true, t) && Do(c, s, true, t) == s' }

  /** Operation i takes one turn more after p's and q's turns. */
  predicate TurnsAre(k: nat, j: nat, p: nat, q: nat, i: nat) {
    Turn(k, i, j + 2) == Turn(k, i, j) + (if i == p then 1 else 0) + (if i == q then 1 else 0)
  }

  lemma TurnTaken(k: nat, j: nat, p: nat, i: nat)
    requires k > 0 && p == j % k
    ensures Turn(k, i, j + 1) == Turn(k, i, j) + if i == p then 1 else 0
  {
  }

  lemma NeighboursDiffer(k: nat, j: nat)
    requires 2 <= k
    ensures j % k != (j + 1) % k
  {
    NextTurn(k, j);
  }

  lemma NextTwoTurns(k: nat, j: nat, maxOp: nat, p: nat, q: nat)
    requires 2 <= k && j + 2 <= k * maxOp && p == j % k && q == (j + 1) % k
    ensures p != q && p < k && q < k && Turn(k, p, j) < maxOp && Turn(k, q, j) < maxOp
    ensures forall i {:trigger TurnsAre(k, j, p, q, i)} :: 0 <= i < k ==> TurnsAre(k, j, p, q, i)
  {
    NeighboursDiffer(k, j);
    TurnHasRoom(k, maxOp, j);
    TurnHasRoom(k, maxOp, j + 1);
    TurnTaken(k, j, p, q);
    forall i | 0 <= i < k
      ensures TurnsAre(k, j, p, q, i)
    {
      TurnTaken(k, j, p, i);
      TurnTaken(k, j + 1, q, i);
    }
  }

  /** The states on the way when operations p and q both check before either inserts. */
  lemma TwoInserts(c: Params, k: nat, j: nat, first: nat, p: nat, q: nat) returns (s1: Space, s2: Space, s3: Space)
    requires k <= c.nproc && j + 2 <= c.logMax && j + 2 == c.logSize && p != q && p < k && q < k
    requires Turn(k, p, j) < c.maxOp && Turn(k, q, j) < c.maxOp
    requires forall i {:trigger TurnsAre(k, j, p, q, i)} :: 0 <= i < k ==> TurnsAre(k, j, p, q, i)
    ensures Goes(c, Filled(c, k, j, first), Check(p), s1) && Goes(c, s1, Check(q), s2)
    ensures Goes(c, s2, Insert(p, first + j), s3)
    ensures Goes(c, s3, Insert(q, first + (j + 1)), Filled(c, k, j + 2, first))
  {
    s1 := Do(c, Filled(c, k, j, first), true, Check(p));
    s2 := Do(c, s1, true, Check(q));
    s3 := Do(c, s2, true, Insert(p, first + j));
    var s4, end := Do(c, s3, true, Insert(q, first + (j + 1))), Filled(c, k, j + 2, first);
    assert s4.blocks == end.blocks;
    forall i | 0 <= i < c.nproc
      ensures s4.ops[i] == end.ops[i]
    {
      assert i < k ==> TurnsAre(k, j, p, q, i);
    }
    assert s4.ops == end.ops;
  }

  /** Two operations check with one slot left, then both insert. */
  lemma TwoPastTheCheck(c: Params, k: nat, first: nat) returns (ts: seq<Step>)
    requires 2 <= k <= c.nproc && 0 < c.maxOp && k * c.maxOp == c.logMax
    requires 2 <= c.logSize <= c.logMax
    ensures Exec(c, true, ts) == At(Filled(c, k, c.logSize, first)) && Adds(ts, first, c.logSize)
  {
    var j := c.logSize - 2;
    var p, q := j % k, (j + 1) % k;
    ts := ReachFilled(c, k, j, first, c.logSize);
    NextTwoTurns(k, j, c.maxOp, p, q);
    var s1, s2, s3 := TwoInserts(c, k, j, first, p, q);
    Extend(c, true, ts, Filled(c, k, j, first), Check(p));
    ts := ts + [Check(p)];
    Extend(c, true, ts, s1, Check(q));
    ts := ts + [Check(q)];
    Extend(c, true, ts, s2, Insert(p, first + j));
    ts := ts + [Insert(p, first + j)];
    Extend(c, true, ts, s3, Insert(q, first + (j + 1)));
    ts := ts + [Insert(q, first + (j + 1))];
  }
}
