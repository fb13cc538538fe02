/** The process table of proc.c as a value, and what every critical section keeps of it. */
module ProcSpec {
  import opened ReceiveQueue

  datatype State = Unused | Embryo | Sleeping | Runnable | Running | Zombie

  /** What a process sleeps on: itself, in wait; its receive queue; or something else. */
  datatype Chan = Nothing | Wait(p: nat) | Mailbox(p: nat) | Other(c: nat)

  const NOBODY: int := -1

  datatype Proc = Proc(state: State, pid: nat, parent: int, chan: Chan, killed: bool, queue: ReceiveQueue.Queue)

  /** A process that has not exited. */
  predicate Alive(p: Proc) { p.state.Sleeping? || p.state.Runnable? || p.state.Running? }

  predicate Waiting(p: Proc, c: Chan) { p.state.Sleeping? && p.chan == c }

  /** The parent of process d is alive; a process other than init that ran has a parent; a parent
      asleep in wait has no child to collect; a process asleep on its queue has no message. */
  ghost predicate ProcOk(ps: seq<Proc>, init: nat, d: nat)
    requires d < |ps|
  {
    var p := ps[d];
    && p.queue.Shaped()
    && (p.parent != NOBODY ==> 0 <= p.parent < |ps| && p.parent != d && Alive(ps[p.parent]))
    && (p.state.Unused? ==> p.parent == NOBODY)
    && (Alive(p) && d != init ==> p.parent != NOBODY)
    && (p.state.Zombie? ==> p.parent != NOBODY && !Waiting(ps[p.parent], Wait(p.parent)))
    && (p.state.Sleeping? ==> p.chan != Nothing)
    && (p.state.Sleeping? && p.chan.Wait? ==> p.chan.p == d)
    && (p.state.Sleeping? && p.chan.Mailbox? ==> p.chan.p == d && Empty(p.queue))
  }

  ghost predicate TableOk(ps: seq<Proc>, init: nat) {
    && init < |ps| && Alive(ps[init]) && ps[init].parent == NOBODY
    && forall d {:trigger ProcOk(ps, init, d)} :: 0 <= d < |ps| ==> ProcOk(ps, init, d)
  }

  /** What this means for the processes that sleep and for the parents. */
  lemma TableMeaning(ps: seq<Proc>, init: nat, c: nat, d: nat)
    requires TableOk(ps, init) && c < |ps| && d < |ps|
    ensures ps[d].parent == c ==> Alive(ps[c])
    ensures Waiting(ps[c], Wait(c)) && ps[d].parent == c ==> !ps[d].state.Zombie?
    ensures Waiting(ps[c], Mailbox(c)) ==> Empty(ps[c].queue)
    ensures ps[d].state.Zombie? ==> 0 <= ps[d].parent < |ps| && Alive(ps[ps[d].parent])
  {
    assert ProcOk(ps, init, c) && ProcOk(ps, init, d);
  }

  // ----- wakeup1 -----

  function WakeOne(p: Proc, c: Chan): Proc {
    if Waiting(p, c) then p.(state := Runnable) else p
  }

  function Woken(ps: seq<Proc>, c: Chan): (r: seq<Proc>)
    ensures |r| == |ps| && forall d :: 0 <= d < |ps| ==> r[d] == WakeOne(ps[d], c)
  {
    seq(|ps|, d requires 0 <= d < |ps| => WakeOne(ps[d], c))
  }

  lemma WokenOk(ps: seq<Proc>, init: nat, c: Chan)
    requires TableOk(ps, init)
    ensures TableOk(Woken(ps, c), init)
  {
    var r := Woken(ps, c);
    forall d | 0 <= d < |ps|
      ensures ProcOk(r, init, d)
    {
      assert ProcOk(ps, init, d);
    }
  }

  // ----- one slot changes -----

  /** Slot c is a living process before and after, and sleeps on nothing it should not. */
  lemma LiveChange(ps: seq<Proc>, init: nat, c: nat, p: Proc)
    requires TableOk(ps, init) && c < |ps| && Alive(ps[c]) && Alive(p) && p.parent == ps[c].parent && p.queue.Shaped()
    requires p.state.Sleeping? ==> p.chan != Nothing
    requires p.state.Sleeping? && p.chan.Wait? ==>
      p.chan.p == c && forall d :: 0 <= d < |ps| && ps[d].parent == c ==> !ps[d].state.Zombie?
    requires p.state.Sleeping? && p.chan.Mailbox? ==> p.chan.p == c && Empty(p.queue)
    ensures TableOk(ps[c := p], init)
  {
    var r := ps[c := p];
    assert ProcOk(ps, init, c);
    forall d | 0 <= d < |ps|
      ensures ProcOk(r, init, d)
    {
      assert ProcOk(ps, init, d);
    }
  }

  /** Slot c, which is nobody's parent, becomes Embryo, or free again. */
  lemma EmbryoChange(ps: seq<Proc>, init: nat, c: nat, p: Proc)
    requires TableOk(ps, init) && c < |ps| && c != init && (ps[c].state.Unused? || ps[c].state.Embryo?)
             && p.queue.Shaped()
    requires p.state.Embryo? || p.state.Unused?
    requires p.parent != NOBODY ==> 0 <= p.parent < |ps| && p.parent != c && Alive(ps[p.parent]) && p.state.Embryo?
    ensures TableOk(ps[c := p], init)
  {
    var r := ps[c := p];
    forall d | 0 <= d < |ps|
      ensures ProcOk(r, init, d)
    {
      assert ProcOk(ps, init, d);
    }
  }

  /** A new process with a parent starts to run. */
  lemma BornChange(ps: seq<Proc>, init: nat, c: nat)
    requires TableOk(ps, init) && c < |ps| && ps[c].state.Embryo? && ps[c].parent != NOBODY
    ensures TableOk(ps[c := ps[c].(state := Runnable)], init)
  {
    var r := ps[c := ps[c].(state := Runnable)];
    forall d | 0 <= d < |ps|
      ensures ProcOk(r, init, d)
    {
      assert ProcOk(ps, init, d);
    }
  }

  /** The parent takes a zombie's slot back. */
  lemma ReapChange(ps: seq<Proc>, init: nat, c: nat, p: Proc)
    requires TableOk(ps, init) && c < |ps| && ps[c].state.Zombie? && p.state.Unused? && p.parent == NOBODY
             && p.queue.Shaped()
    ensures TableOk(ps[c := p], init)
  {
    var r := ps[c := p];
    forall d | 0 <= d < |ps|
      ensures ProcOk(r, init, d)
    {
      assert ProcOk(ps, init, d);
    }
  }

  // ----- exit -----

  /** One turn of the loop of exit: a child of cur goes to init, which is woken for a zombie. */
  function Adopted(ps: seq<Proc>, init: nat, cur: nat, d: nat): (r: seq<Proc>)
    requires d < |ps|
    ensures |r| == |ps|
  {
    if ps[d].parent != cur then ps
    else
      var qs := ps[d := ps[d].(parent := init)];
      if ps[d].state.Zombie? then Woken(qs, Wait(init)) else qs
  }

  lemma AdoptedOk(ps: seq<Proc>, init: nat, cur: nat, d: nat)
    requires TableOk(ps, init) && d < |ps| && d != init
    ensures TableOk(Adopted(ps, init, cur, d), init)
  {
    var r := Adopted(ps, init, cur, d);
    forall c | 0 <= c < |ps|
      ensures ProcOk(r, init, c)
    {
      assert ProcOk(ps, init, c);
    }
  }

  /** A living process with no children, whose parent is not asleep in wait, becomes a zombie. */
  lemma ZombieOk(ps: seq<Proc>, init: nat, cur: nat)
    requires TableOk(ps, init) && cur < |ps| && cur != init && Alive(ps[cur])
    requires forall d :: 0 <= d < |ps| ==> ps[d].parent != cur
    requires ps[cur].parent >= 0 ==> ps[cur].parent < |ps| && !Waiting(ps[ps[cur].parent], Wait(ps[cur].parent))
    ensures TableOk(ps[cur := ps[cur].(state := Zombie)], init)
  {
    var r := ps[cur := ps[cur].(state := Zombie)];
    assert ProcOk(ps, init, cur);
    forall d | 0 <= d < |ps|
      ensures ProcOk(r, init, d)
    {
      assert ProcOk(ps, init, d);
    }
  }

  // ----- send_mess -----

  /** One turn of the loop of send_mess. */
  function Delivered(ps: seq<Proc>, rec: nat, m: Mail, d: nat): (r: seq<Proc>)
    requires d < |ps| && ps[d].queue.Shaped()
    ensures |r| == |ps|
  {
    if ps[d].pid != rec then ps
    else Woken(ps[d := ps[d].(queue := Push(ps[d].queue, m))], ps[d].chan)
  }

  lemma DeliveredOk(ps: seq<Proc>, init: nat, rec: nat, m: Mail, d: nat)
    requires TableOk(ps, init) && d < |ps| && ps[d].queue.Shaped()
    ensures TableOk(Delivered(ps, rec, m, d), init)
  {
    var r := Delivered(ps, rec, m, d);
    forall c | 0 <= c < |ps|
      ensures ProcOk(r, init, c)
    {
      assert ProcOk(ps, init, c);
    }
  }

  /** At most woken. */
  ghost predicate Roused(p: Proc, q: Proc) {
    q == p || (p.state.Sleeping? && q == p.(state := Runnable))
  }

  /** The message is in the queue if the pid is meant, and the process is at most woken. */
  ghost predicate Received(p: Proc, rec: nat, m: Mail, q: Proc) {
    if p.pid == rec then p.queue.Shaped() && Roused(p.(queue := Push(p.queue, m)), q) else Roused(p, q)
  }

  /** After the slots before n: those have been served, the others at most woken. */
  ghost predicate ServedAt(ps: seq<Proc>, qs: seq<Proc>, rec: nat, m: Mail, n: nat, i: nat)
    requires i < |ps| == |qs|
  {
    if i < n then Received(ps[i], rec, m, qs[i]) && (ps[i].pid == rec ==> !Waiting(qs[i], Mailbox(i)))
    else Roused(ps[i], qs[i])
  }

  ghost predicate Served(ps: seq<Proc>, qs: seq<Proc>, rec: nat, m: Mail, n: nat) {
    |ps| == |qs| && forall i {:trigger ServedAt(ps, qs, rec, m, n, i)} :: 0 <= i < |ps| ==>
        ServedAt(ps, qs, rec, m, n, i)
  }

  lemma ServedNext(ps: seq<Proc>, qs: seq<Proc>, rec: nat, m: Mail, n: nat)
    requires Served(ps, qs, rec, m, n) && n < |ps| && qs[n].queue.Shaped()
    ensures Served(ps, Delivered(qs, rec, m, n), rec, m, n + 1)
  {
    var rs, n' := Delivered(qs, rec, m, n), n + 1;
    forall i | 0 <= i < |ps|
      ensures ServedAt(ps, rs, rec, m, n', i)
    {
      assert ServedAt(ps, qs, rec, m, n, i);
    }
  }

  // ----- pids, and which have exited and been collected -----

  /** No two slots have the same pid, except 0. */
  ghost predicate PidsDiffer(ps: seq<Proc>, nextpid: nat) {
    && (forall d :: 0 <= d < |ps| ==> ps[d].pid < nextpid)
    && forall c, d :: 0 <= c < d < |ps| && ps[c].pid != 0 ==> ps[c].pid != ps[d].pid
  }

  /** A zombie has exited and has not been collected; a process that lives has not exited. */
  ghost predicate Recorded(p: Proc, exited: set<nat>, reaped: set<nat>) {
    && (p.state.Zombie? ==> p.pid != 0 && p.pid in exited && p.pid !in reaped)
    && (Alive(p) || p.state.Embryo? ==> p.pid != 0 && p.pid !in exited)
  }

  ghost predicate Tracked(ps: seq<Proc>, nextpid: nat, exited: set<nat>, reaped: set<nat>) {
    && PidsDiffer(ps, nextpid) && reaped <= exited && (forall x :: x in exited ==> x < nextpid)
    && forall d :: 0 <= d < |ps| ==> Recorded(ps[d], exited, reaped)
  }

  /** A marked slot is not free, and kill was given its pid. */
  ghost predicate Earned(ps: seq<Proc>, nextpid: nat, asked: set<nat>) {
    && (forall x :: x in asked ==> x < nextpid)
    && forall d :: 0 <= d < |ps| && ps[d].killed ==> !ps[d].state.Unused? && ps[d].pid in asked
  }

  /** The same process, as far as its record goes. */
  ghost predicate SameRecord(p: Proc, q: Proc) {
    p.pid == q.pid && (Alive(p) || p.state.Embryo? <== Alive(q) || q.state.Embryo?)
      && (q.state.Zombie? ==> p.state.Zombie?)
  }

  lemma TrackedSame(ps: seq<Proc>, qs: seq<Proc>, nextpid: nat, exited: set<nat>, reaped: set<nat>)
    requires Tracked(ps, nextpid, exited, reaped) && |qs| == |ps|
    requires forall d :: 0 <= d < |ps| ==> SameRecord(ps[d], qs[d])
    ensures Tracked(qs, nextpid, exited, reaped)
  {
    forall d | 0 <= d < |qs|
      ensures Recorded(qs[d], exited, reaped) && qs[d].pid < nextpid
    {
      assert Recorded(ps[d], exited, reaped) && SameRecord(ps[d], qs[d]);
    }
    forall c, d | 0 <= c < d < |qs| && qs[c].pid != 0
      ensures qs[c].pid != qs[d].pid
    {
      assert SameRecord(ps[c], qs[c]) && SameRecord(ps[d], qs[d]);
    }
  }

  /** A free slot gets the next pid. */
  lemma TrackedNew(ps: seq<Proc>, nextpid: nat, exited: set<nat>, reaped: set<nat>, c: nat, p: Proc)
    requires Tracked(ps, nextpid, exited, reaped) && c < |ps| && ps[c].state.Unused? && nextpid >= 1
    requires p.state.Embryo? && p.pid == nextpid
    ensures Tracked(ps[c := p], nextpid + 1, exited, reaped)
  {
  }

  lemma TrackedExit(ps: seq<Proc>, nextpid: nat, exited: set<nat>, reaped: set<nat>, c: nat)
    requires Tracked(ps, nextpid, exited, reaped) && c < |ps| && Alive(ps[c])
    ensures Tracked(ps[c := ps[c].(state := Zombie)], nextpid, exited + {ps[c].pid}, reaped)
  {
    var qs := ps[c := ps[c].(state := Zombie)];
    assert Recorded(ps[c], exited, reaped);
    forall d | 0 <= d < |qs|
      ensures Recorded(qs[d], exited + {ps[c].pid}, reaped)
    {
      assert Recorded(ps[d], exited, reaped);
    }
  }

  lemma TrackedReap(ps: seq<Proc>, nextpid: nat, exited: set<nat>, reaped: set<nat>, c: nat, p: Proc)
    requires Tracked(ps, nextpid, exited, reaped) && c < |ps| && ps[c].state.Zombie? && p.state.Unused? && p.pid == 0
    ensures ps[c].pid in exited && ps[c].pid !in reaped && Tracked(ps[c := p], nextpid, exited, reaped + {ps[c].pid})
  {
    var qs := ps[c := p];
    assert Recorded(ps[c], exited, reaped);
    forall d | 0 <= d < |qs|
      ensures Recorded(qs[d], exited, reaped + {ps[c].pid})
    {
      assert Recorded(ps[d], exited, reaped);
    }
  }
}
