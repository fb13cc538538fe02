/** proc.c: the critical sections under ptable.lock.  Each method is one of them, from the acquire
    (or the return from sched) to the release (or the call of sched), so the calls of different
    processes come in any order and every one starts from and leaves a valid table. */
module ProcTable {
  import opened ReceiveQueue
  import opened ProcSpec

  /** How a pass of wait ends. */
  datatype WaitResult = Collected(pid: nat) | Nobody | Slept

  class Table {
    const init: nat
    var procs: seq<Proc>
    var nextpid: nat
    ghost var exited: set<nat>
    ghost var reaped: set<nat>
    ghost var asked: set<nat>   // the pids that kill has been given and found

    ghost predicate Valid()
      reads this
    {
      TableOk(procs, init) && Tracked(procs, nextpid, exited, reaped)
    }

    /** Only processes that kill was asked for are marked. */
    ghost predicate Deserved()
      reads this
    {
      Earned(procs, nextpid, asked)
    }

    /** After userinit: init in slot 0, ready to run, and the other slots free. */
    constructor (n: nat, q: ReceiveQueue.Queue)
      requires n >= 1 && q.Shaped()
      ensures Valid() && Deserved() && |procs| == n && init == 0 && nextpid == 2
      ensures forall d :: 1 <= d < n ==> procs[d].state.Unused?
    {
      init, nextpid := 0, 2;
      procs := seq(n, d => if d == 0 then Proc(Runnable, 1, NOBODY, Nothing, false, q)
                   else Proc(Unused, 0, NOBODY, Nothing, false, q));
      exited, reaped, asked := {}, {}, {};
      new;
      forall d | 0 <= d < n
        ensures ProcOk(procs, init, d)
      {
      }
    }

    /** wakeup1 */
    method Wakeup1(c: Chan)
      modifies this`procs
      ensures procs == Woken(old(procs), c) && |procs| == |old(procs)|
      ensures forall d :: 0 <= d < |procs| ==>
        && !Waiting(procs[d], c)
        && procs[d] == if Waiting(old(procs)[d], c) then old(procs)[d].(state := Runnable) else old(procs)[d]
    {
      var d := 0;
      while d < |procs|
        invariant d <= |procs| == |old(procs)|
        invariant forall i :: 0 <= i < |procs| ==>
                    procs[i] == if i < d then WakeOne(old(procs)[i], c) else old(procs)[i]
      {
        if procs[d].state.Sleeping? && procs[d].chan == c {
          procs := procs[d := procs[d].(state := Runnable)];
        }
        d := d + 1;
      }
    }

    /** wakeup */
    method Wakeup(c: Chan)
      requires Valid()
      modifies this`procs
      ensures Valid() && procs == Woken(old(procs), c) && (old(Deserved()) ==> Deserved())
    {
      WokenOk(procs, init, c);
      TrackedSame(procs, Woken(procs, c), nextpid, exited, reaped);
      Wakeup1(c);
    }

    /** sleep, up to sched: the caller holds ptable.lock. */
    method Sleep(cur: nat, c: Chan)
      requires Valid() && cur < |procs| && procs[cur].state.Running? && c.Other?
      modifies this`procs
      ensures Valid() && procs == old(procs)[cur := old(procs)[cur].(state := Sleeping, chan := c)]
      ensures old(Deserved()) ==> Deserved()
    {
      GoToSleep(cur, c);
    }

    method GoToSleep(cur: nat, c: Chan)
      requires Valid() && cur < |procs| && procs[cur].state.Running? && c != Nothing
      requires c.Wait? ==> c.p == cur && forall d :: 0 <= d < |procs| && procs[d].parent == cur ==>
                 !procs[d].state.Zombie?
      requires c.Mailbox? ==> c.p == cur && Empty(procs[cur].queue)
      modifies this`procs
      ensures Valid() && procs == old(procs)[cur := old(procs)[cur].(state := Sleeping, chan := c)]
      ensures old(Deserved()) ==> Deserved()
    {
      assert ProcOk(procs, init, cur);
      ghost var p := procs[cur].(state := Sleeping, chan := c);
      LiveChange(procs, init, cur, p);
      TrackedSame(procs, procs[cur := p], nextpid, exited, reaped);
      procs := procs[cur := procs[cur].(chan := c)];
      procs := procs[cur := procs[cur].(state := Sleeping)];
      assert procs == old(procs)[cur := p];
    }

    /** The scheduler resumes a process, which clears its channel. */
    method Resume(c: nat)
      requires Valid() && c < |procs| && procs[c].state.Runnable?
      modifies this`procs
      ensures Valid() && procs == old(procs)[c := old(procs)[c].(state := Running, chan := Nothing)]
      ensures old(Deserved()) ==> Deserved()
    {
      assert ProcOk(procs, init, c);
      LiveChange(procs, init, c, procs[c].(state := Running, chan := Nothing));
      TrackedSame(procs, procs[c := procs[c].(state := Running, chan := Nothing)], nextpid, exited, reaped);
      procs := procs[c := procs[c].(state := Running, chan := Nothing)];
    }

    /** yield */
    method Yield(cur: nat)
      requires Valid() && cur < |procs| && procs[cur].state.Running?
      modifies this`procs
      ensures Valid() && procs == old(procs)[cur := old(procs)[cur].(state := Runnable)]
      ensures old(Deserved()) ==> Deserved()
    {
      assert ProcOk(procs, init, cur);
      LiveChange(procs, init, cur, procs[cur].(state := Runnable));
      TrackedSame(procs, procs[cur := procs[cur].(state := Runnable)], nextpid, exited, reaped);
      procs := procs[cur := procs[cur].(state := Runnable)];
    }

    /** kill: the process is marked, and woken whatever it sleeps on.  The search does not look at the state of
        a slot, so that a free slot which still has the pid is marked too, and any free slot for the pid 0. */
    method Kill(pid: nat) returns (found: bool)
      requires Valid()
      modifies this`procs, this`asked
      ensures Valid() && |procs| == |old(procs)|
      ensures found <==> exists d :: 0 <= d < |procs| && old(procs)[d].pid == pid
      ensures !found ==> procs == old(procs)
      ensures found ==> exists d :: 0 <= d < |procs| && Killed(old(procs), pid, d, procs)
      ensures asked == if found then old(asked) + {pid} else old(asked)
      ensures old(Deserved()) ==> (Deserved() <==> !HitsFree(old(procs), pid))
    {
      var d := 0;
      while d < |procs|
        invariant d <= |procs| && procs == old(procs) && forall i :: 0 <= i < d ==> procs[i].pid != pid
      {
        if procs[d].pid == pid {
          assert ProcOk(procs, init, d);
          ghost var p := KilledProc(procs[d]);
          KilledOk(procs, init, d);
          TrackedSame(procs, procs[d := p], nextpid, exited, reaped);
          procs := procs[d := procs[d].(killed := true)];
          if procs[d].state.Sleeping? {
            procs := procs[d := procs[d].(state := Runnable)];
          }
          assert procs == old(procs)[d := p];
          assert Killed(old(procs), pid, d, procs);
          asked := asked + {pid};
          assert procs[d].killed && procs[d].pid == pid < nextpid;
          assert FirstWith(old(procs), pid, d);
          return true;
        }
        d := d + 1;
      }
      found := false;
    }

    // ----- fork -----

    /** allocproc, up to the release: the first free slot, with a new pid. */
    method Allocproc() returns (found: bool, np: nat)
      requires Valid() && nextpid >= 1
      modifies this`procs, this`nextpid
      ensures Valid()
      ensures found <==> exists d :: 0 <= d < |old(procs)| && old(procs)[d].state.Unused?
      ensures !found ==> unchanged(this)
      ensures found ==> np < |old(procs)| && old(procs)[np].state.Unused? && nextpid == old(nextpid) + 1
      ensures found ==> procs == old(procs)[np := old(procs)[np].(state := Embryo, pid := old(nextpid))]
      ensures found ==> forall d :: 0 <= d < |procs| ==> old(procs)[d].pid != procs[np].pid
      ensures found ==> forall d :: 0 <= d < np ==> !old(procs)[d].state.Unused?
      ensures old(Deserved()) ==> Deserved() && (found ==> procs[np].pid !in asked)
    {
      np := 0;
      while np < |procs|
        invariant np <= |procs| && unchanged(this) && forall d :: 0 <= d < np ==> !procs[d].state.Unused?
      {
        if procs[np].state.Unused? {
          assert ProcOk(procs, init, np);
          ghost var p := procs[np].(state := Embryo, pid := nextpid);
          EmbryoChange(procs, init, np, p);
          TrackedNew(procs, nextpid, exited, reaped, np, p);
          procs := procs[np := procs[np].(state := Embryo, pid := nextpid)];
          nextpid := nextpid + 1;
          return true, np;
        }
        np := np + 1;
      }
      found := false;
    }

    /** The rest of allocproc empties the queue of the new process. */
    method ResetQueue(np: nat)
      requires Valid() && np < |procs| && procs[np].state.Embryo?
      modifies this`procs
      ensures Valid()
      ensures procs == old(procs)[np := old(procs)[np].(queue := old(procs)[np].queue.(head := 0, tail := 0))]
      ensures old(Deserved()) ==> Deserved()
    {
      assert ProcOk(procs, init, np);
      ghost var p := procs[np].(queue := procs[np].queue.(head := 0, tail := 0));
      EmbryoChange(procs, init, np, p);
      TrackedSame(procs, procs[np := p], nextpid, exited, reaped);
      procs := procs[np := procs[np].(queue := procs[np].queue.(head := 0, tail := 0))];
    }

    /** Out of memory: the slot is free again, with its pid and, if kill has found it meanwhile, its mark. */
    method ForkFails(np: nat)
      requires Valid() && np < |procs| && procs[np].state.Embryo? && procs[np].parent == NOBODY
      modifies this`procs
      ensures Valid() && procs == old(procs)[np := old(procs)[np].(state := Unused)]
      ensures old(Deserved()) ==> (Deserved() <==> !old(procs)[np].killed)
    {
      assert ProcOk(procs, init, np);
      EmbryoChange(procs, init, np, procs[np].(state := Unused));
      TrackedSame(procs, procs[np := procs[np].(state := Unused)], nextpid, exited, reaped);
      procs := procs[np := procs[np].(state := Unused)];
    }

    /** fork sets the parent without the lock, while the child is still Embryo. */
    method SetParent(np: nat, cur: nat)
      requires Valid() && np < |procs| && procs[np].state.Embryo? && cur < |procs| && procs[cur].state.Running?
      modifies this`procs
      ensures Valid() && procs == old(procs)[np := old(procs)[np].(parent := cur)]
      ensures old(Deserved()) ==> Deserved()
    {
      assert ProcOk(procs, init, np);
      EmbryoChange(procs, init, np, procs[np].(parent := cur));
      TrackedSame(procs, procs[np := procs[np].(parent := cur)], nextpid, exited, reaped);
      procs := procs[np := procs[np].(parent := cur)];
    }

    /** The end of fork: the child may run. */
    method ForkRuns(np: nat)
      requires Valid() && np < |procs| && procs[np].state.Embryo? && procs[np].parent != NOBODY
      modifies this`procs
      ensures Valid() && procs == old(procs)[np := old(procs)[np].(state := Runnable)]
      ensures old(Deserved()) ==> Deserved() && (procs[np].killed ==> procs[np].pid in asked)
    {
      BornChange(procs, init, np);
      TrackedSame(procs, procs[np := procs[np].(state := Runnable)], nextpid, exited, reaped);
      procs := procs[np := procs[np].(state := Runnable)];
    }

    // ----- exit and wait -----

    /** One turn of the loop of exit: a child of cur goes to init. */
    method PassChild(cur: nat, d: nat)
      requires Valid() && d < |procs|
      modifies this`procs
      ensures Valid() && procs == Adopted(old(procs), init, cur, d) && (old(Deserved()) ==> Deserved())
    {
      if procs[d].parent == cur {
        ghost var qs := Adopted(procs, init, cur, d);
        AdoptedOk(procs, init, cur, d);
        TrackedSame(procs, qs, nextpid, exited, reaped);
        procs := procs[d := procs[d].(parent := init)];
        if procs[d].state.Zombie? {
          Wakeup1(Wait(init));
        }
        assert procs == qs;
      }
    }

    /** The loop of exit: the children of cur go to init. */
    method PassChildren(cur: nat)
      requires Valid() && cur < |procs| && procs[cur].state.Running? && cur != init
      modifies this`procs
      ensures Valid() && |procs| == |old(procs)| && procs[cur] == old(procs)[cur]
      ensures forall d :: 0 <= d < |procs| ==> Passed(old(procs)[d], procs[d], cur, init, true)
      ensures old(Deserved()) ==> Deserved()
    {
      var d := 0;
      while d < |procs|
        invariant d <= |procs| == |old(procs)| && Valid() && procs[cur] == old(procs)[cur]
        invariant forall i :: 0 <= i < |procs| ==> Passed(old(procs)[i], procs[i], cur, init, i < d)
        invariant old(Deserved()) ==> Deserved()
      {
        assert ProcOk(procs, init, cur);
        PassChild(cur, d);
        d := d + 1;
      }
    }

    /** exit; false where the source stops because init exits. */
    method Exit(cur: nat) returns (ok: bool)
      requires Valid() && cur < |procs| && procs[cur].state.Running?
      modifies this`procs, this`exited
      ensures ok <==> cur != init
      ensures !ok ==> unchanged(this)
      ensures ok ==> Valid() && |procs| == |old(procs)| && procs[cur] == old(procs)[cur].(state := Zombie)
      ensures ok ==> exited == old(exited) + {procs[cur].pid} && procs[cur].pid !in old(exited)
      ensures ok ==> forall d :: 0 <= d < |procs| ==>
                procs[d].parent == if old(procs)[d].parent == cur then init else old(procs)[d].parent
      ensures ok ==> forall d :: 0 <= d < |procs| ==>
                procs[d].pid == old(procs)[d].pid
                  && (procs[d].state.Zombie? <==> d == cur || old(procs)[d].state.Zombie?)
      ensures old(Deserved()) ==> Deserved()
    {
      if cur == init {
        return false;
      }
      assert ProcOk(procs, init, cur);
      assert Recorded(procs[cur], exited, reaped);
      ghost var parent := procs[cur].parent;
      Wakeup(Wait(procs[cur].parent));
      PassChildren(cur);
      assert procs[cur] == old(procs)[cur];
      ZombieOk(procs, init, cur);
      TrackedExit(procs, nextpid, exited, reaped, cur);
      exited := exited + {procs[cur].pid};
      procs := procs[cur := procs[cur].(state := Zombie)];
      ok := true;
    }

    /** One pass of wait: the first child that has exited is collected; without one the caller
        sleeps if it has children and has not been killed. */
    method WaitPass(cur: nat) returns (r: WaitResult)
      requires Valid() && cur < |procs| && procs[cur].state.Running?
      modifies this`procs, this`reaped
      ensures Valid()
      ensures r.Collected? <==> exists d :: 0 <= d < |old(procs)| && Collectable(old(procs), cur, d)
      ensures r.Collected? ==>
        && r.pid in exited && r.pid !in old(reaped) && reaped == old(reaped) + {r.pid}
        && exists d :: 0 <= d < |old(procs)| && Collectable(old(procs), cur, d)
                       && old(procs)[d].pid == r.pid && Freed(old(procs), d, procs)
      ensures old(Deserved()) ==> Deserved()
      ensures !r.Collected? ==> reaped == old(reaped)
      ensures r.Slept? ==> procs == old(procs)[cur := old(procs)[cur].(state := Sleeping, chan := Wait(cur))]
      ensures r.Nobody? ==> procs == old(procs)
      ensures !r.Collected? ==>
        (r.Nobody? <==> old(procs)[cur].killed || forall d :: 0 <= d < |old(procs)| ==> old(procs)[d].parent != cur)
    {
      var havekids := false;
      var d := 0;
      while d < |procs|
        invariant d <= |procs| && unchanged(this)
        invariant forall i :: 0 <= i < d ==> !Collectable(procs, cur, i)
        invariant havekids <==> exists i :: 0 <= i < d && procs[i].parent == cur
      {
        if procs[d].parent == cur {
          havekids := true;
          if procs[d].state.Zombie? {
            assert Collectable(procs, cur, d);
            assert ProcOk(procs, init, d);
            ghost var p := procs[d].(pid := 0, parent := NOBODY, killed := false, state := Unused);
            ReapChange(procs, init, d, p);
            TrackedReap(procs, nextpid, exited, reaped, d, p);
            var pid := procs[d].pid;
            reaped := reaped + {pid};
            procs := procs[d := procs[d].(pid := 0, parent := NOBODY, killed := false, state := Unused)];
            assert Freed(old(procs), d, procs);
            return Collected(pid);
          }
        }
        d := d + 1;
      }
      if !havekids || procs[cur].killed {
        return Nobody;
      }
      forall i | 0 <= i < |procs| && procs[i].parent == cur
        ensures !procs[i].state.Zombie?
      {
        assert !Collectable(procs, cur, i);
      }
      GoToSleep(cur, Wait(cur));
      r := Slept;
    }

    // ----- messages -----

    /** One turn of the loop of send_mess. */
    method Deliver(rec: nat, m: Mail, d: nat)
      requires Valid() && d < |procs| && procs[d].queue.Shaped() && procs[d].pid == rec
      modifies this`procs
      ensures Valid() && procs == Delivered(old(procs), rec, m, d) && (old(Deserved()) ==> Deserved())
    {
      DeliveredOk(procs, init, rec, m, d);
      TrackedSame(procs, Delivered(procs, rec, m, d), nextpid, exited, reaped);
      procs := procs[d := procs[d].(queue := Push(procs[d].queue, m))];
      Wakeup1(procs[d].chan);
    }

    /** send_mess: the message goes into the queue of the process with the pid, which is woken. */
    method SendMess(sender: int, rec: nat, mess: Message) returns (found: bool)
      requires Valid()
      modifies this`procs
      ensures Valid() && |procs| == |old(procs)|
      ensures found <==> exists d :: 0 <= d < |procs| && old(procs)[d].pid == rec
      ensures Served(old(procs), procs, rec, Mail(sender, mess), |procs|)
      ensures old(Deserved()) ==> Deserved()
    {
      var m := Mail(sender, mess);
      found := false;
      var d := 0;
      ghost var before := procs;
      forall i | 0 <= i < |procs|
        ensures ServedAt(before, procs, rec, m, 0, i)
      {
      }
      while d < |procs|
        invariant d <= |procs| == |before| && Valid() && Served(before, procs, rec, m, d)
        invariant found <==> exists i :: 0 <= i < d && before[i].pid == rec
        invariant old(Deserved()) ==> Deserved()
      {
        assert ProcOk(procs, init, d) && ServedAt(before, procs, rec, m, d, d);
        ServedNext(before, procs, rec, m, d);
        if procs[d].pid == rec {
          Deliver(rec, m, d);
          found := true;
        }
        d := d + 1;
      }
    }

    /** One pass of recv_mess: the oldest message, or sleep. */
    method RecvPass(cur: nat) returns (got: bool, m: Message)
      requires Valid() && cur < |procs| && procs[cur].state.Running?
      modifies this`procs
      ensures Valid() && |procs| == |old(procs)| && old(procs)[cur].queue.Shaped()
      ensures got <==> !Empty(old(procs)[cur].queue)
      ensures got ==> m == First(old(procs)[cur].queue).message
      ensures procs == old(procs)[cur :=
        if got then old(procs)[cur].(queue := Pop(old(procs)[cur].queue))
        else old(procs)[cur].(state := Sleeping, chan := Mailbox(cur))]
      ensures old(Deserved()) ==> Deserved()
    {
      assert ProcOk(procs, init, cur);
      if procs[cur].queue.head == procs[cur].queue.tail {
        GoToSleep(cur, Mailbox(cur));
        return false, [];
      }
      m := First(procs[cur].queue).message;
      ghost var p := procs[cur].(queue := Pop(procs[cur].queue));
      LiveChange(procs, init, cur, p);
      TrackedSame(procs, procs[cur := p], nextpid, exited, reaped);
      procs := procs[cur := procs[cur].(queue := Pop(procs[cur].queue))];
      got := true;
    }

    // ----- a process that is killed though nobody asked -----

    /** kill(0) marks the first free slot that has never been used or has been collected, and the process that
        fork makes in it is born killed: it has a pid that kill was never given. */
    method BornKilled(cur: nat, k: nat)
      requires Valid() && Deserved() && nextpid >= 1 && cur < |procs| && procs[cur].state.Running?
      requires k < |procs| && procs[k].state.Unused? && procs[k].pid == 0
      requires forall i :: 0 <= i < k ==> !procs[i].state.Unused? && procs[i].pid != 0
      modifies this`procs, this`nextpid, this`asked
      ensures Valid() && k < |procs| && procs[k].state.Runnable? && procs[k].killed && procs[k].pid !in asked
    {
      var found := Kill(0);
      assert FirstWith(old(procs), 0, k);
      var ok, np := Allocproc();
      ResetQueue(np);
      SetParent(np, cur);
      ForkRuns(np);
    }
  }

  /** q is p with another parent if it had cur, and is at most woken. */
  ghost predicate Passed(p: Proc, q: Proc, cur: nat, init: nat, done: bool) {
    && q.parent == (if done && p.parent == cur then init else p.parent)
    && q.pid == p.pid && q.killed == p.killed && (q.state.Zombie? <==> p.state.Zombie?)
    && (q.state.Sleeping? ==> p.state.Sleeping? && q.chan == p.chan)
  }

  /** Process d is a zombie child of cur. */
  ghost predicate Collectable(ps: seq<Proc>, cur: nat, d: nat)
    requires d < |ps|
  {
    ps[d].parent == cur && ps[d].state.Zombie?
  }

  /** Slot d is free, with nothing left of the process but its queue, and the other slots are as they were. */
  ghost predicate Freed(ps: seq<Proc>, d: nat, qs: seq<Proc>) {
    && d < |ps| == |qs| && (forall i :: 0 <= i < |ps| && i != d ==> qs[i] == ps[i])
    && qs[d].state.Unused? && qs[d].pid == 0 && qs[d].parent == NOBODY && !qs[d].killed && qs[d].queue == ps[d].queue
  }

  function KilledProc(p: Proc): Proc {
    if p.state.Sleeping? then p.(killed := true, state := Runnable) else p.(killed := true)
  }

  ghost predicate FirstWith(ps: seq<Proc>, pid: nat, d: nat) {
    d < |ps| && ps[d].pid == pid && forall i :: 0 <= i < d ==> ps[i].pid != pid
  }

  /** The first slot with the pid is free. */
  ghost predicate HitsFree(ps: seq<Proc>, pid: nat) {
    exists d: nat :: FirstWith(ps, pid, d) && ps[d].state.Unused?
  }

  /** The first slot with the pid is marked and does not sleep; it stays what it was but that a sleeper may run,
      and the other slots are as they were. */
  ghost predicate Killed(ps: seq<Proc>, pid: nat, d: nat, qs: seq<Proc>) {
    && FirstWith(ps, pid, d) && |qs| == |ps| && (forall i :: 0 <= i < |ps| && i != d ==> qs[i] == ps[i])
    && qs[d].killed && !qs[d].state.Sleeping?
    && (if ps[d].state.Sleeping? then qs[d].state.Runnable? else qs[d].state == ps[d].state)
    && qs[d].pid == pid && qs[d].parent == ps[d].parent && qs[d].chan == ps[d].chan && qs[d].queue == ps[d].queue
  }

  lemma KilledOk(ps: seq<Proc>, init: nat, d: nat)
    requires TableOk(ps, init) && d < |ps|
    ensures TableOk(ps[d := KilledProc(ps[d])], init)
  {
    var r := ps[d := KilledProc(ps[d])];
    forall c | 0 <= c < |ps|
      ensures ProcOk(r, init, c)
    {
      assert ProcOk(ps, init, c);
    }
  }
}
