/** pipe.c: a bounded byte stream between processes.

    pipewrite and piperead give up the lock only inside sleep, so one call is a sequence of
    critical sections, each running from the start of the call or a wake-up to a return or the
    next sleep.  A section is one method here. */
module PipeStream {
  const PIPESIZE: nat := 2048
  const WRAP: nat := 0x1_0000_0000

  type Byte = bv8

  /** Everything ever written and read, and which ends are open. */
  datatype Stream = Stream(sent: seq<Byte>, got: seq<Byte>, readOpen: bool, writeOpen: bool) {
    ghost predicate Valid() {
      got <= sent && |sent| - |got| <= PIPESIZE
    }

    function Free(): nat
      requires Valid()
    {
      PIPESIZE - (|sent| - |got|)
    }
  }

  /** How a critical section ends. */
  datatype Outcome = Returned(count: nat) | Failed | Slept

  function Min(a: nat, b: nat): nat { if a <= b then a else b }

  /** pipewrite from byte `start` of `addr` gets as far as there is room. */
  function WrittenTo(s: Stream, addr: seq<Byte>, start: nat): (i: nat)
    requires s.Valid() && start <= |addr|
    ensures start <= i <= |addr|
  {
    Min(|addr|, start + s.Free())
  }

  function AfterWrite(s: Stream, addr: seq<Byte>, start: nat): (s': Stream)
    requires s.Valid() && start <= |addr|
    ensures s'.Valid()
  {
    s.(sent := s.sent + addr[start..WrittenTo(s, addr, start)])
  }

  function WriteOutcome(s: Stream, addr: seq<Byte>, start: nat, killed: bool): Outcome
    requires s.Valid() && start <= |addr|
  {
    if WrittenTo(s, addr, start) == |addr| then Returned(|addr|)
    else if !s.readOpen || killed then Failed else Slept
  }

  /** piperead waits while nothing is there and more may come. */
  predicate MustWait(s: Stream) {
    |s.got| == |s.sent| && s.writeOpen
  }

  function AfterRead(s: Stream, n: nat): (s': Stream)
    requires s.Valid()
    ensures s'.Valid() && s'.sent == s.sent
  {
    s.(got := s.sent[..|s.got| + Min(n, |s.sent| - |s.got|)])
  }

  function ReadOutcome(s: Stream, n: nat, killed: bool): Outcome
    requires s.Valid()
  {
    if MustWait(s) then (if killed then Failed else Slept) else Returned(Min(n, |s.sent| - |s.got|))
  }

  function Closed(s: Stream, writable: bool): Stream {
    if writable then s.(writeOpen := false) else s.(readOpen := false)
  }

  class Pipe {
    const data: array<Byte>
    var nread: nat
    var nwrite: nat
    var readOpen: bool
    var writeOpen: bool
    ghost var sent: seq<Byte>
    ghost var got: seq<Byte>

    ghost function View(): Stream
      reads this
    {
      Stream(sent, got, readOpen, writeOpen)
    }

    /** The counters hold the lengths of the two streams, modulo 2^32. */
    ghost predicate Counters()
      reads this
    {
      nwrite == |sent| % WRAP && nread == |got| % WRAP
    }

    /** What is written and not read is in the ring. */
    ghost predicate Ring()
      reads this, data
    {
      data.Length == PIPESIZE && forall k :: |got| <= k < |sent| ==> data[k % PIPESIZE] == sent[k]
    }

    ghost predicate Valid()
      reads this, data
    {
      View().Valid() && Counters() && Ring()
    }

    /** pipealloc */
    constructor ()
      ensures Valid() && fresh(data) && View() == Stream([], [], true, true)
    {
      data := new Byte[PIPESIZE];
      nread, nwrite, readOpen, writeOpen := 0, 0, true, true;
      sent, got := [], [];
    }

    /** The full test compares the wrapped counters. */
    method IsFull() returns (b: bool)
      requires Valid()
      ensures b <==> View().Free() == 0
    {
      b := nwrite == (nread + PIPESIZE) % WRAP;
      FullTest(|sent|, |got|);
    }

    method IsEmpty() returns (b: bool)
      requires Valid()
      ensures b <==> |got| == |sent|
    {
      b := nread == nwrite;
      EmptyTest(|sent|, |got|);
    }

    /** p->data[p->nwrite++ % PIPESIZE] = b */
    method Put(b: Byte)
      requires Valid() && View().Free() > 0
      modifies this`nwrite, this`sent, data
      ensures Valid() && sent == old(sent) + [b]
    {
      Index(|sent|);
      var at := nwrite % PIPESIZE;
      data[at] := b;
      sent := sent + [b];
      nwrite := (nwrite + 1) % WRAP;
      Next(|sent| - 1);
      forall k | |got| <= k < |sent|
        ensures data[k % PIPESIZE] == sent[k]
      {
        if k < |sent| - 1 {
          SlotsDiffer(k, |sent| - 1);
        }
      }
    }

    /** p->data[p->nread++ % PIPESIZE] */
    method Take() returns (b: Byte)
      requires Valid() && |got| < |sent|
      modifies this`nread, this`got
      ensures Valid() && b == sent[|old(got)|] && got == old(got) + [b]
    {
      Index(|got|);
      b := data[nread % PIPESIZE];
      got := got + [b];
      nread := (nread + 1) % WRAP;
      Next(|got| - 1);
    }

    /** One critical section of pipewrite. */
    method Write(addr: seq<Byte>, start: nat, killed: bool) returns (i: nat, r: Outcome)
      requires Valid() && start <= |addr|
      modifies this`nwrite, this`sent, data
      ensures Valid()
      ensures i == WrittenTo(old(View()), addr, start) && r == WriteOutcome(old(View()), addr, start, killed)
      ensures View() == AfterWrite(old(View()), addr, start)
    {
      i := start;
      ghost var room := View().Free();
      while i < |addr|
        invariant start <= i <= |addr| && i - start <= room
        invariant Valid()
        invariant sent == old(sent) + addr[start..i]
      {
        var full := IsFull();
        if full {
          r := if !readOpen || killed then Failed else Slept;
          return;
        }
        Put(addr[i]);
        i := i + 1;
      }
      r := Returned(|addr|);
    }

    /** One critical section of piperead. */
    method Read(n: nat, killed: bool) returns (bytes: seq<Byte>, r: Outcome)
      requires Valid()
      modifies this`nread, this`got
      ensures Valid()
      ensures r == ReadOutcome(old(View()), n, killed) && View() == AfterRead(old(View()), n)
      ensures got == old(got) + bytes
    {
      bytes := [];
      var empty := IsEmpty();
      if empty && writeOpen {
        r := if killed then Failed else Slept;
        return;
      }
      var i := 0;
      while i < n
        invariant i <= n && i == |bytes|
        invariant Valid() && |old(got)| + i <= |sent|
        invariant bytes == sent[|old(got)|..|old(got)| + i]
        invariant got == old(got) + bytes == sent[..|old(got)| + i]
      {
        empty := IsEmpty();
        if empty {
          break;
        }
        var b := Take();
        bytes := bytes + [b];
        i := i + 1;
      }
      r := Returned(i);
    }

    /** pipeclose: both ends closed is when the page is given back. */
    method Close(writable: bool) returns (freed: bool)
      requires Valid()
      modifies this`readOpen, this`writeOpen
      ensures Valid() && View() == Closed(old(View()), writable)
      ensures freed <==> !readOpen && !writeOpen
    {
      if writable {
        writeOpen := false;
      } else {
        readOpen := false;
      }
      freed := !readOpen && !writeOpen;
    }
  }

  // ----- the wrapped counters -----

  /** PIPESIZE divides 2^32, so the wrapped counter and the true one name the same slot. */
  lemma Index(k: nat)
    ensures k % WRAP % PIPESIZE == k % PIPESIZE
  {
  }

  lemma Next(k: nat)
    ensures (k % WRAP + 1) % WRAP == (k + 1) % WRAP
  {
  }

  lemma FullTest(w: nat, r: nat)
    requires r <= w <= r + PIPESIZE
    ensures w % WRAP == (r % WRAP + PIPESIZE) % WRAP <==> w == r + PIPESIZE
  {
  }

  lemma EmptyTest(w: nat, r: nat)
    requires r <= w <= r + PIPESIZE
    ensures r % WRAP == w % WRAP <==> r == w
  {
  }

  lemma SlotsDiffer(j: nat, k: nat)
    requires j < k < j + PIPESIZE
    ensures j % PIPESIZE != k % PIPESIZE
  {
  }

  // ----- what a section promises -----

  /** A write that fits is in the stream, whole and in one piece, after one section. */
  lemma FittingWriteIsWhole(s: Stream, addr: seq<Byte>, killed: bool)
    requires s.Valid() && |addr| <= s.Free()
    ensures AfterWrite(s, addr, 0).sent == s.sent + addr
    ensures WriteOutcome(s, addr, 0, killed) == Returned(|addr|)
  {
    assert addr[0..|addr|] == addr;
  }

  /** piperead returns 0 for n > 0 exactly at the end of a closed stream. */
  lemma ZeroMeansEnd(s: Stream, n: nat, killed: bool)
    requires s.Valid() && n > 0
    ensures ReadOutcome(s, n, killed) == Returned(0) <==> !s.writeOpen && s.got == s.sent
  {
    assert s.got == s.sent[..|s.got|];
  }

  // ----- processes at the two ends -----

  /** A process inside pipewrite: what it was given, and how much of it is in the stream. */
  datatype Call = Call(addr: seq<Byte>, done: nat)

  /** The stream, who put each byte there, the processes asleep on &nread and on &nwrite, the calls
      of pipewrite under way, and what each process put there in calls that ended. */
  datatype Ends = Ends(s: Stream, owner: seq<nat>, readers: set<nat>, writers: set<nat>,
                       calls: map<nat, Call>, ended: map<nat, seq<Byte>>)

  datatype Event =
    | Begin(pid: nat, addr: seq<Byte>)
    | WriteSection(pid: nat, killed: bool)
    | ReadSection(pid: nat, n: nat, killed: bool)
    | CloseEnd(writable: bool)
    | Kill(pid: nat)   // makes the process runnable

  ghost predicate Shape(e: Ends) {
    && e.s.Valid() && |e.owner| == |e.s.sent|
    && forall p :: p in e.calls ==> e.calls[p].done <= |e.calls[p].addr|
  }

  /** A process holds a reference to the end it uses, so the last close comes after its calls. */
  ghost predicate Enabled(e: Ends, v: Event) {
    match v
    case Begin(pid, addr) => e.s.writeOpen && pid !in e.calls && pid !in e.readers
    case WriteSection(pid, killed) => e.s.writeOpen && pid in e.calls && pid !in e.writers
    case ReadSection(pid, n, killed) => e.s.readOpen && pid !in e.calls && pid !in e.readers
    case CloseEnd(writable) => if writable then e.calls == map[] else e.readers == {}
    case Kill(pid) => true
  }

  function Ended(e: Ends, pid: nat): seq<Byte> {
    if pid in e.ended then e.ended[pid] else []
  }

  function Repeat(pid: nat, k: nat): (r: seq<nat>)
    ensures |r| == k && forall i :: 0 <= i < k ==> r[i] == pid
  {
    seq(k, _ => pid)
  }

  /** A wake-up empties the set asleep on a channel; a section that fails wakes nobody. */
  function DoWrite(e: Ends, pid: nat, killed: bool): (e': Ends)
    requires Shape(e) && pid in e.calls
    ensures Shape(e')
  {
    var c := e.calls[pid];
    var i := WrittenTo(e.s, c.addr, c.done);
    var s' := AfterWrite(e.s, c.addr, c.done);
    var o := e.owner + Repeat(pid, i - c.done);
    match WriteOutcome(e.s, c.addr, c.done, killed)
    case Slept => Ends(s', o, {}, e.writers + {pid}, e.calls[pid := c.(done := i)], e.ended)
    case Returned(_) => Ends(s', o, {}, e.writers, e.calls - {pid}, e.ended[pid := Ended(e, pid) + c.addr[..i]])
    case Failed => Ends(s', o, e.readers, e.writers, e.calls - {pid}, e.ended[pid := Ended(e, pid) + c.addr[..i]])
  }

  function DoRead(e: Ends, pid: nat, n: nat, killed: bool): (e': Ends)
    requires Shape(e)
    ensures Shape(e')
  {
    match ReadOutcome(e.s, n, killed)
    case Slept => e.(readers := e.readers + {pid})
    case Returned(_) => e.(s := AfterRead(e.s, n), writers := {})
    case Failed => e
  }

  function Do(e: Ends, v: Event): (e': Ends)
    requires Shape(e) && Enabled(e, v)
    ensures Shape(e')
  {
    match v
    case Begin(pid, addr) => e.(calls := e.calls[pid := Call(addr, 0)])
    case WriteSection(pid, killed) => DoWrite(e, pid, killed)
    case ReadSection(pid, n, killed) => DoRead(e, pid, n, killed)
    case CloseEnd(writable) =>
      if writable then e.(s := Closed(e.s, true), readers := {}) else e.(s := Closed(e.s, false), writers := {})
    case Kill(pid) => e.(readers := e.readers - {pid}, writers := e.writers - {pid})
  }

  const NewPipe: Ends := Ends(Stream([], [], true, true), [], {}, {}, map[], map[])

  datatype Outcomes = Reached(e: Ends) | Impossible

  /** The state after a run, if each of its events could happen. */
  ghost function Exec(vs: seq<Event>): (r: Outcomes)
    ensures r.Reached? ==> Shape(r.e)
  {
    if vs == [] then Reached(NewPipe)
    else
      var r := Exec(vs[..|vs| - 1]);
      var v := vs[|vs| - 1];
      if r.Reached? && Enabled(r.e, v) then Reached(Do(r.e, v)) else Impossible
  }

  // ----- no byte is lost, repeated, reordered or changed -----

  /** The bytes of process `pid`, in stream order. */
  function Project(bytes: seq<Byte>, owner: seq<nat>, pid: nat): seq<Byte>
    requires |bytes| == |owner|
  {
    if bytes == [] then []
    else
      var k := |bytes| - 1;
      Project(bytes[..k], owner[..k], pid) + (if owner[k] == pid then [bytes[k]] else [])
  }

  lemma {:induction false} ProjectAppend(bytes: seq<Byte>, owner: seq<nat>, more: seq<Byte>, from: nat, pid: nat)
    requires |bytes| == |owner|
    ensures Project(bytes + more, owner + Repeat(from, |more|), pid)
         == Project(bytes, owner, pid) + (if from == pid then more else [])
    decreases |more|
  {
    if more == [] {
      assert bytes + more == bytes && owner + Repeat(from, 0) == owner;
    } else {
      var k := |more| - 1;
      ProjectAppend(bytes, owner, more[..k], from, pid);
      var b, o := bytes + more, owner + Repeat(from, |more|);
      assert b[..|b| - 1] == bytes + more[..k];
      assert o[..|b| - 1] == owner + Repeat(from, k);
      assert more == more[..k] + [more[k]];
    }
  }

  /** What process `pid` has handed over: its ended calls, then the part of its present call. */
  function Handed(e: Ends, pid: nat): seq<Byte>
    requires Shape(e)
  {
    Ended(e, pid) + (if pid in e.calls then e.calls[pid].addr[..e.calls[pid].done] else [])
  }

  ghost predicate Accounted(e: Ends)
    requires Shape(e)
  {
    forall pid :: Project(e.s.sent, e.owner, pid) == Handed(e, pid)
  }

  lemma WriteAccounted(e: Ends, pid: nat, killed: bool, q: nat)
    requires Shape(e) && pid in e.calls && Project(e.s.sent, e.owner, q) == Handed(e, q)
    ensures var e' := DoWrite(e, pid, killed); Project(e'.s.sent, e'.owner, q) == Handed(e', q)
  {
    var c := e.calls[pid];
    var i := WrittenTo(e.s, c.addr, c.done);
    var part := c.addr[c.done..i];
    ProjectAppend(e.s.sent, e.owner, part, pid, q);
    HandedAfterWrite(e, pid, killed, q);
  }

  lemma HandedAfterWrite(e: Ends, pid: nat, killed: bool, q: nat)
    requires Shape(e) && pid in e.calls
    ensures
      var c := e.calls[pid];
      Handed(DoWrite(e, pid, killed), q)
        == Handed(e, q) + (if pid == q then c.addr[c.done..WrittenTo(e.s, c.addr, c.done)] else [])
  {
    var c := e.calls[pid];
    var i := WrittenTo(e.s, c.addr, c.done);
    if pid == q {
      assert c.addr[..i] == c.addr[..c.done] + c.addr[c.done..i];
      assert Ended(e, pid) + c.addr[..i] == Handed(e, q) + c.addr[c.done..i];
    }
  }

  lemma StepAccounted(e: Ends, v: Event)
    requires Shape(e) && Enabled(e, v) && Accounted(e)
    ensures Accounted(Do(e, v))
  {
    var e' := Do(e, v);
    forall q
      ensures Project(e'.s.sent, e'.owner, q) == Handed(e', q)
    {
      assert Project(e.s.sent, e.owner, q) == Handed(e, q);
      match v
      case WriteSection(pid, killed) => WriteAccounted(e, pid, killed, q);
      case Begin(pid, addr) => assert Handed(e', q) == Handed(e, q);
      case ReadSection(pid, n, killed) => assert Handed(e', q) == Handed(e, q);
      case CloseEnd(writable) => assert Handed(e', q) == Handed(e, q);
      case Kill(pid) => assert Handed(e', q) == Handed(e, q);
    }
  }

  /** In every run, what is read is a prefix of what is written, at most PIPESIZE bytes are
      between, and the stream holds exactly the bytes every process handed over, in its order. */
  lemma {:induction false} StreamIsFaithful(vs: seq<Event>)
    requires Exec(vs).Reached?
    ensures
      var e := Exec(vs).e;
      && e.s.got <= e.s.sent && |e.s.sent| - |e.s.got| <= PIPESIZE
      && Accounted(e)
  {
    if vs != [] {
      StreamIsFaithful(vs[..|vs| - 1]);
      StepAccounted(Exec(vs[..|vs| - 1]).e, vs[|vs| - 1]);
    }
  }

  // ----- who sleeps, and when -----

  /** No reader sleeps while there is something to read, no writer while there is room. */
  ghost predicate NobodyForgotten(e: Ends)
    requires Shape(e)
  {
    && (e.readers != {} ==> MustWait(e.s) && e.s.readOpen)
    && (e.writers != {} ==> e.s.Free() == 0 && e.s.readOpen)
  }

  /** A killed writer fills the pipe in front of a sleeping reader and leaves. */
  ghost predicate Forgets(e: Ends, v: Event)
    requires Shape(e) && Enabled(e, v)
  {
    && v.WriteSection? && v.killed && e.readers != {}
    && |e.calls[v.pid].addr| - e.calls[v.pid].done > PIPESIZE
  }

  /** Exactly one kind of step loses a wake-up: the failing return of pipewrite comes before its
      wake-up of the readers. */
  lemma ForgetsIff(e: Ends, v: Event)
    requires Shape(e) && Enabled(e, v) && NobodyForgotten(e)
    ensures NobodyForgotten(Do(e, v)) <==> !Forgets(e, v)
  {
  }

  lemma {:induction false} NobodyForgottenInRuns(vs: seq<Event>)
    requires Exec(vs).Reached?
    requires forall k :: 0 <= k < |vs| && Exec(vs[..k]).Reached? && Enabled(Exec(vs[..k]).e, vs[k])
                         ==> !Forgets(Exec(vs[..k]).e, vs[k])
    ensures NobodyForgotten(Exec(vs).e)
  {
    if vs != [] {
      var ws := vs[..|vs| - 1];
      forall k | 0 <= k < |ws| && Exec(ws[..k]).Reached? && Enabled(Exec(ws[..k]).e, ws[k])
        ensures !Forgets(Exec(ws[..k]).e, ws[k])
      {
        assert ws[..k] == vs[..k];
      }
      NobodyForgottenInRuns(ws);
      ForgetsIff(Exec(ws).e, vs[|vs| - 1]);
    }
  }

  ghost predicate SectionOf(v: Event, p: nat) { (v.WriteSection? || v.ReadSection?) && v.pid == p }

  predicate Asleep(e: Ends, p: nat) { p in e.readers || p in e.writers }

  /** A process is in one call at a time, on an open end, and sleeps only inside it. */
  ghost predicate OneCall(e: Ends) {
    && e.writers <= e.calls.Keys && e.readers !! e.calls.Keys
    && (e.calls.Keys != {} ==> e.s.writeOpen) && (e.readers != {} ==> e.s.readOpen)
  }

  /** A process falls asleep only in a section of its own in which it is not killed, and then in front of a pipe
      that is full, or empty with a writer left; a killed process returns instead. */
  lemma FallsAsleepIff(e: Ends, v: Event, p: nat)
    requires Shape(e) && Enabled(e, v) && OneCall(e)
    ensures OneCall(Do(e, v))
    ensures SectionOf(v, p) ==> !Asleep(e, p)
    ensures !Asleep(e, p) ==> (Asleep(Do(e, v), p) <==>
              && SectionOf(v, p) && !v.killed
              && if v.ReadSection? then e.s.got == e.s.sent && e.s.writeOpen
                 else e.s.readOpen && |e.calls[p].addr| - e.calls[p].done > e.s.Free())
  {
  }

  /** The last section of v that process p ran was section k. */
  ghost predicate LastSection(vs: seq<Event>, p: nat, k: nat) {
    k < |vs| && SectionOf(vs[k], p) && forall j :: k < j < |vs| ==> !SectionOf(vs[j], p)
  }

  lemma PrefixReached(vs: seq<Event>, n: nat)
    requires Exec(vs).Reached? && n + 1 == |vs|
    ensures Exec(vs[..n]).Reached?
  {
  }

  lemma StaysLast(vs: seq<Event>, n: nat, p: nat, k: nat)
    requires n + 1 == |vs| && !SectionOf(vs[n], p)
    ensures LastSection(vs[..n], p, k) ==> LastSection(vs, p, k)
  {
  }

  lemma SleeperLastStep(vs: seq<Event>, n: nat, p: nat)
    requires Exec(vs).Reached? && n + 1 == |vs| && Exec(vs[..n]).Reached? && OneCall(Exec(vs[..n]).e)
    ensures OneCall(Exec(vs).e)
    ensures Asleep(Exec(vs).e, p) ==> if SectionOf(vs[n], p) then !vs[n].killed else Asleep(Exec(vs[..n]).e, p)
  {
    FallsAsleepIff(Exec(vs[..n]).e, vs[n], p);
  }

  /** In every run, whoever sleeps was not killed when it last ran. */
  lemma {:induction false} NoKilledSleeper(vs: seq<Event>, p: nat) returns (k: nat)
    requires Exec(vs).Reached?
    ensures OneCall(Exec(vs).e)
    ensures Asleep(Exec(vs).e, p) ==> LastSection(vs, p, k) && !vs[k].killed
  {
    k := 0;
    if vs != [] {
      var n := |vs| - 1;
      PrefixReached(vs, n);
      k := NoKilledSleeper(vs[..n], p);
      SleeperLastStep(vs, n, p);
      if SectionOf(vs[n], p) {
        k := n;
      } else {
        StaysLast(vs, n, p, k);
      }
    }
  }

  // ----- both ends get on -----

  /** Process p is in no call on the pipe. */
  ghost predicate Outside(e: Ends, p: nat) { p !in e.calls && p !in e.readers && p !in e.writers }

  /** In any state, a write that fits and a read of another process, one after the other, both return: the writer
      has its whole buffer in the stream and the reader has the oldest n bytes, or all there are. */
  lemma WriteThenRead(e: Ends, w: nat, addr: seq<Byte>, r: nat, n: nat)
    requires Shape(e) && e.s.readOpen && e.s.writeOpen && Outside(e, w) && Outside(e, r) && w != r
    requires 0 < |addr| <= e.s.Free()
    ensures Enabled(e, Begin(w, addr))
    ensures var e1 := Do(e, Begin(w, addr));
            Enabled(e1, WriteSection(w, false)) && WriteOutcome(e1.s, addr, 0, false) == Returned(|addr|)
    ensures var e2 := Do(Do(e, Begin(w, addr)), WriteSection(w, false));
            && Enabled(e2, ReadSection(r, n, false)) && ReadOutcome(e2.s, n, false).Returned?
            && var e3 := Do(e2, ReadSection(r, n, false));
               && e3.s.sent == e.s.sent + addr
               && e3.s.got == e3.s.sent[..|e.s.got| + Min(n, |e.s.sent| - |e.s.got| + |addr|)]
               && Outside(e3, w) && Outside(e3, r) && e3.readers == e3.writers == {}
  {
    FittingWriteIsWhole(e.s, addr, false);
  }

  /** In every run, a process asleep in the pipe that is killed can run at once and is then out of the pipe: a
      reader fails unless there is something to read after all, a writer fails or has written everything. */
  lemma KilledLeaves(vs: seq<Event>, p: nat, n: nat)
    requires Exec(vs).Reached? && Asleep(Exec(vs).e, p)
    ensures
      var e := Exec(vs).e;
      var e1 := Do(e, Kill(p));
      var v := if p in e.readers then ReadSection(p, n, true) else WriteSection(p, true);
      Enabled(e1, v) && Outside(Do(e1, v), p) && (MustWait(e.s) && p in e.readers ==> Do(e1, v) == e1)
  {
    var k := NoKilledSleeper(vs, p);
  }

  /** A run that ends with a reader asleep in front of a full pipe. */
  lemma AForgottenReader(addr: seq<Byte>)
    requires |addr| == PIPESIZE + 1
    ensures
      var r := Exec([ReadSection(1, 1, false), Begin(2, addr), WriteSection(2, true)]);
      r.Reached? && 1 in r.e.readers && r.e.s.Free() == 0
  {
    var vs := [ReadSection(1, 1, false), Begin(2, addr), WriteSection(2, true)];
    assert vs[..2] == [ReadSection(1, 1, false), Begin(2, addr)];
    assert vs[..2][..1] == [ReadSection(1, 1, false)];
    assert vs[..2][..1][..0] == [];
    assert Exec(vs[..2][..1]) == Reached(Do(NewPipe, vs[0]));
    assert Exec(vs[..2]) == Reached(Do(Do(NewPipe, vs[0]), vs[1]));
  }
}
