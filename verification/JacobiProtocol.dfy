/** jacob.c as it runs: a parent and k children that exchange rows over bounded pipes.

    Pipes carry 4-byte words.  A write puts in as many words as fit and stays blocked with the
    rest; a read takes what is there, up to what it asked for, and goes on even if that is less.
    One step is one pipe operation (or one local computation) of one process, and the steps of
    different processes interleave in any order. */
module JacobiProtocol {
  import opened JacobiSpec

  datatype Pc =
    | SendUp | SendDown | RecvAbove | RecvBelow | Sweep | SendDiff | RecvOrder
    | SendRow(j: nat) | Exited

  /** A child process; `off` words of its current write are already in the pipe.  `round` counts
      the orders to carry on it has received (it is not a variable of the program). */
  datatype Kid = Kid(u: Grid, pc: Pc, off: nat, diff: real, round: nat)

  datatype ParentPc = Collect(i: nat) | Order(i: nat, done: bool) | Gather(i: nat, j: nat) | Finished

  datatype Parent = Parent(u: Grid, pc: ParentPc, diffs: seq<real>, count: nat)

  /** up[c] runs from child c+1 to c, down[c] from c to c+1, cp[c] to and pc[c] from the parent. */
  datatype Sys = Sys(parent: Parent, kids: seq<Kid>, up: seq<seq<real>>, down: seq<seq<real>>,
                     cp: seq<seq<real>>, pc: seq<seq<int>>)

  /** The problem, the rows of each child, and the capacity of a pipe in words. */
  datatype Setup = Setup(p: Problem, lo: seq<nat>, hi: seq<nat>, cap: nat) {
    ghost predicate Valid() {
      p.Valid() && Division(p.n, lo, hi) && p.n <= cap
    }

    /** The result of child c fits a pipe, or rows fill a pipe without a remainder. */
    ghost predicate Fits(c: nat) {
      c < |lo| && c < |hi| && ((hi[c] - lo[c] + 1) * p.n <= cap || (p.n > 0 && cap % p.n == 0))
    }

    ghost predicate ResultsFit() {
      forall c :: 0 <= c < |lo| ==> Fits(c)
    }
  }

  datatype Proc = TheParent | Child(c: nat)

  // ----- pipes -----

  function Push<T>(q: seq<T>, cap: nat, data: seq<T>, off: nat): (seq<T>, nat) {
    var room := if |q| < cap then cap - |q| else 0;
    var rest := if off < |data| then |data| - off else 0;
    var k := if rest <= room then rest else room;
    if off <= |data| then (q + data[off..off + k], off + k) else (q, off)
  }

  function Pull<T>(q: seq<T>, n: nat): (r: (seq<T>, seq<T>))
    ensures r.0 + r.1 == q && |r.0| <= n
  {
    var k := if |q| <= n then |q| else n;
    (q[..k], q[k..])
  }

  /** The row after a read of `got` into it. */
  function Into(row: Row, got: seq<real>): (r: Row)
    requires |got| <= |row|
    ensures |r| == |row|
  {
    got + row[|got|..]
  }

  // ----- steps of a child -----

  /** What makes every step well defined. */
  ghost predicate Shape(x: Setup, s: Sys) {
    var k := |x.lo|;
    && |s.kids| == |s.cp| == |s.pc| == k && |s.up| == |s.down| == k - 1
    && |s.parent.diffs| == k && x.p.Square(s.parent.u)
    && (forall c :: 0 <= c < k ==> x.p.Square(s.kids[c].u) && (s.kids[c].pc.SendRow? ==> s.kids[c].pc.j < x.p.n))
    && match s.parent.pc
       case Collect(i) => i < k
       case Order(i, _) => i < k
       case Gather(i, j) => i < k && j < x.p.n
       case Finished => true
  }

  /** The child goes on to `next` once its write of a row is complete. */
  function Wrote(x: Setup, ch: Kid, off: nat, next: Pc): Kid {
    if off == x.p.n then ch.(pc := next, off := 0) else ch.(off := off)
  }

  /** The parent that has its rows closes its ends of the pipes of all children but the last. */
  predicate HungUp(s: Sys, c: nat) { s.parent.pc.Finished? && c + 1 < |s.kids| }

  ghost predicate KidReady(x: Setup, s: Sys, c: nat)
    requires x.Valid() && Shape(x, s) && c < |s.kids|
  {
    match s.kids[c].pc
    case SendUp => c > 0 ==> |s.up[c - 1]| < x.cap
    case SendDown => c + 1 < |s.kids| ==> |s.down[c]| < x.cap
    case RecvAbove => c > 0 ==> s.down[c - 1] != []
    case RecvBelow => c + 1 < |s.kids| ==> s.up[c] != []
    case Sweep => true
    case SendDiff => |s.cp[c]| < x.cap
    case RecvOrder => s.pc[c] != []
    case SendRow(_) => |s.cp[c]| < x.cap || HungUp(s, c)
    case Exited => false
  }

  ghost function DoSendUp(x: Setup, s: Sys, c: nat): Sys
    requires x.Valid() && Shape(x, s) && c < |s.kids|
  {
    var ch := s.kids[c];
    if c == 0 then s.(kids := s.kids[c := ch.(pc := SendDown)])
    else
      var r := Push(s.up[c - 1], x.cap, ch.u[x.lo[c]], ch.off);
      s.(kids := s.kids[c := Wrote(x, ch, r.1, SendDown)], up := s.up[c - 1 := r.0])
  }

  ghost function DoSendDown(x: Setup, s: Sys, c: nat): Sys
    requires x.Valid() && Shape(x, s) && c < |s.kids|
  {
    var ch := s.kids[c];
    if c + 1 == |s.kids| then s.(kids := s.kids[c := ch.(pc := RecvAbove)])
    else
      var r := Push(s.down[c], x.cap, ch.u[x.hi[c]], ch.off);
      s.(kids := s.kids[c := Wrote(x, ch, r.1, RecvAbove)], down := s.down[c := r.0])
  }

  ghost function DoRecvAbove(x: Setup, s: Sys, c: nat): Sys
    requires x.Valid() && Shape(x, s) && c < |s.kids|
  {
    var ch := s.kids[c];
    if c == 0 then s.(kids := s.kids[c := ch.(pc := RecvBelow)])
    else
      var r := Pull(s.down[c - 1], x.p.n);
      var i := x.lo[c] - 1;
      s.(kids := s.kids[c := ch.(pc := RecvBelow, u := ch.u[i := Into(ch.u[i], r.0)])],
         down := s.down[c - 1 := r.1])
  }

  ghost function DoRecvBelow(x: Setup, s: Sys, c: nat): Sys
    requires x.Valid() && Shape(x, s) && c < |s.kids|
  {
    var ch := s.kids[c];
    if c + 1 == |s.kids| then s.(kids := s.kids[c := ch.(pc := Sweep)])
    else
      var r := Pull(s.up[c], x.p.n);
      var i := x.hi[c] + 1;
      s.(kids := s.kids[c := ch.(pc := Sweep, u := ch.u[i := Into(ch.u[i], r.0)])],
         up := s.up[c := r.1])
  }

  ghost function DoSweep(x: Setup, s: Sys, c: nat): Sys
    requires x.Valid() && Shape(x, s) && c < |s.kids|
  {
    var ch := s.kids[c];
    s.(kids := s.kids[c := ch.(pc := SendDiff, u := SweepRows(x.p, ch.u, x.lo[c], x.hi[c]),
                               diff := RowsDiff(x.p, ch.u, x.lo[c], x.hi[c]))])
  }

  ghost function DoSendDiff(x: Setup, s: Sys, c: nat): Sys
    requires x.Valid() && Shape(x, s) && c < |s.kids|
  {
    var ch := s.kids[c];
    s.(kids := s.kids[c := ch.(pc := RecvOrder)], cp := s.cp[c := s.cp[c] + [ch.diff]])
  }

  ghost function DoRecvOrder(x: Setup, s: Sys, c: nat): Sys
    requires x.Valid() && Shape(x, s) && c < |s.kids| && s.pc[c] != []
  {
    var ch := s.kids[c];
    var next := if s.pc[c][0] == 1 then ch.(pc := SendRow(x.lo[c]))
                else ch.(pc := SendUp, round := ch.round + 1);
    s.(kids := s.kids[c := next], pc := s.pc[c := s.pc[c][1..]])
  }

  /** A write into a full pipe that nobody will read fails, and the child goes on to the next row. */
  ghost function DoSendRow(x: Setup, s: Sys, c: nat): Sys
    requires x.Valid() && Shape(x, s) && c < |s.kids| && s.kids[c].pc.SendRow?
  {
    var ch := s.kids[c];
    var j := ch.pc.j;
    var next := if j < x.hi[c] then SendRow(j + 1) else Exited;
    if |s.cp[c]| >= x.cap then s.(kids := s.kids[c := ch.(pc := next, off := 0)])
    else
      var r := Push(s.cp[c], x.cap, ch.u[j], ch.off);
      s.(kids := s.kids[c := Wrote(x, ch, r.1, next)], cp := s.cp[c := r.0])
  }

  ghost function KidStep(x: Setup, s: Sys, c: nat): Sys
    requires x.Valid() && Shape(x, s) && c < |s.kids| && KidReady(x, s, c)
  {
    match s.kids[c].pc
    case SendUp => DoSendUp(x, s, c)
    case SendDown => DoSendDown(x, s, c)
    case RecvAbove => DoRecvAbove(x, s, c)
    case RecvBelow => DoRecvBelow(x, s, c)
    case Sweep => DoSweep(x, s, c)
    case SendDiff => DoSendDiff(x, s, c)
    case RecvOrder => DoRecvOrder(x, s, c)
    case SendRow(_) => DoSendRow(x, s, c)
  }

  // ----- steps of the parent -----

  ghost predicate ParentReady(x: Setup, s: Sys)
    requires x.Valid() && Shape(x, s)
  {
    match s.parent.pc
    case Collect(i) => s.cp[i] != []
    case Order(i, _) => |s.pc[i]| < x.cap
    case Gather(i, _) => s.cp[i] != []
    case Finished => false
  }

  ghost function DoCollect(x: Setup, s: Sys): Sys
    requires x.Valid() && Shape(x, s) && s.parent.pc.Collect? && s.cp[s.parent.pc.i] != []
  {
    var m := s.parent;
    var i := m.pc.i;
    var diffs := m.diffs[i := s.cp[i][0]];
    s.(cp := s.cp[i := s.cp[i][1..]],
       parent := if i + 1 < |x.lo| then m.(diffs := diffs, pc := Collect(i + 1))
                 else m.(diffs := diffs, count := m.count + 1,
                         pc := Order(0, MaxOf(diffs) <= x.p.e || m.count + 1 > x.p.limit)))
  }

  ghost function DoOrder(x: Setup, s: Sys): Sys
    requires x.Valid() && Shape(x, s) && s.parent.pc.Order?
  {
    var m := s.parent;
    var i, done := m.pc.i, m.pc.done;
    s.(pc := s.pc[i := s.pc[i] + [if done then 1 else 0]],
       parent := m.(pc := if i + 1 < |x.lo| then Order(i + 1, done)
                          else if done then Gather(0, x.lo[0]) else Collect(0)))
  }

  ghost function DoGather(x: Setup, s: Sys): Sys
    requires x.Valid() && Shape(x, s) && s.parent.pc.Gather?
  {
    var m := s.parent;
    var i, j := m.pc.i, m.pc.j;
    var r := Pull(s.cp[i], x.p.n);
    s.(cp := s.cp[i := r.1],
       parent := m.(u := m.u[j := Into(m.u[j], r.0)],
                    pc := if j < x.hi[i] then Gather(i, j + 1)
                          else if i + 1 < |x.lo| then Gather(i + 1, x.lo[i + 1]) else Finished))
  }

  ghost function ParentStep(x: Setup, s: Sys): Sys
    requires x.Valid() && Shape(x, s) && ParentReady(x, s)
  {
    match s.parent.pc
    case Collect(_) => DoCollect(x, s)
    case Order(_, _) => DoOrder(x, s)
    case Gather(_, _) => DoGather(x, s)
  }

  ghost predicate Ready(x: Setup, s: Sys, w: Proc)
    requires x.Valid() && Shape(x, s)
  {
    match w
    case TheParent => ParentReady(x, s)
    case Child(c) => c < |s.kids| && KidReady(x, s, c)
  }

  ghost function Step(x: Setup, s: Sys, w: Proc): Sys
    requires x.Valid() && Shape(x, s) && Ready(x, s, w)
  {
    match w
    case TheParent => ParentStep(x, s)
    case Child(c) => KidStep(x, s, c)
  }

  ghost function Init(x: Setup): Sys
    requires x.Valid()
  {
    var k := |x.lo|;
    Sys(Parent(x.p.g0, Collect(0), seq(k, _ => 0.0), 0),
        seq(k, _ => Kid(x.p.g0, SendUp, 0, 0.0, 0)),
        seq(k - 1, _ => []), seq(k - 1, _ => []), seq(k, _ => []), seq(k, _ => []))
  }
}
