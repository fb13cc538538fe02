/** The parallel program refines the sequential one: an invariant of every reachable state ties
    each process and each pipe to the sequential run.

    The sequential run appears here only as a table (History): row i after k sweeps, the change
    of child c's rows in sweep k + 1, and whether the program stops after it. */
module JacobiProof {
  import opened JacobiSpec
  import opened JacobiProtocol
  import RoundRobin

  datatype History = History(row: (nat, nat) -> Row, change: (nat, nat) -> real, stops: nat -> bool)

  ghost predicate Sized(x: Setup, h: History) {
    forall k: nat, i: nat :: i < x.p.n ==> |h.row(k, i)| == x.p.n
  }

  // ----- the invariant -----

  /** Rows exchanged so far, each way, and sweeps done. */
  function SentUp(ch: Kid): nat { ch.round + if ch.pc.SendUp? then 0 else 1 }

  function SentDown(ch: Kid): nat { ch.round + if ch.pc.SendUp? || ch.pc.SendDown? then 0 else 1 }

  function GotAbove(ch: Kid): nat {
    ch.round + if ch.pc.SendUp? || ch.pc.SendDown? || ch.pc.RecvAbove? then 0 else 1
  }

  function GotBelow(ch: Kid): nat {
    ch.round + if ch.pc.SendUp? || ch.pc.SendDown? || ch.pc.RecvAbove? || ch.pc.RecvBelow? then 0 else 1
  }

  predicate Exchanging(pc: Pc) {
    pc.SendUp? || pc.SendDown? || pc.RecvAbove? || pc.RecvBelow? || pc.Sweep?
  }

  function Swept(ch: Kid): nat { ch.round + if Exchanging(ch.pc) then 0 else 1 }

  /** The child's own rows are those of the sequential program, and so are its ghost rows once
      they have arrived. */
  ghost predicate Data(x: Setup, h: History, c: nat, ch: Kid)
    requires x.Valid() && c < |x.lo|
  {
    var p, lo, hi := x.p, x.lo[c], x.hi[c];
    && p.Square(ch.u) && ch.off == 0
    && (forall i :: lo <= i <= hi ==> ch.u[i] == h.row(Swept(ch), i))
    && (c == 0 ==> ch.u[0] == p.g0[0])
    && (c == |x.lo| - 1 ==> ch.u[p.n - 1] == p.g0[p.n - 1])
    && (c > 0 && (ch.pc.RecvBelow? || ch.pc.Sweep?) ==> ch.u[lo - 1] == h.row(ch.round, lo - 1))
    && (c < |x.lo| - 1 && ch.pc.Sweep? ==> ch.u[hi + 1] == h.row(ch.round, hi + 1))
    && (ch.pc.SendDiff? ==> ch.diff == h.change(c, ch.round))
    && (ch.pc.SendRow? ==> lo <= ch.pc.j <= hi)
  }

  /** A neighbour pipe is empty or holds exactly the one row its reader waits for. */
  ghost predicate Link(h: History, row: nat, q: seq<real>, sent: nat, got: nat) {
    (sent == got && q == []) || (sent == got + 1 && q == h.row(got, row))
  }

  ghost predicate Links(x: Setup, h: History, c: nat, up: seq<real>, down: seq<real>, a: Kid, b: Kid)
    requires x.Valid() && c + 1 < |x.lo|
  {
    && Link(h, x.hi[c], down, SentDown(a), GotAbove(b))
    && Link(h, x.lo[c + 1], up, SentUp(b), GotBelow(a))
  }

  /** In round r, the difference in the pipe exactly while the child waits for its order. */
  ghost predicate Fresh(h: History, c: nat, r: nat, ch: Kid, cp: seq<real>, pc: seq<int>) {
    && ch.round == r && pc == []
    && (((Exchanging(ch.pc) || ch.pc.SendDiff?) && cp == [])
        || (ch.pc.RecvOrder? && cp == [h.change(c, r)]))
  }

  /** Waits for its order in round r; its difference is read. */
  ghost predicate Told(r: int, ch: Kid, cp: seq<real>, pc: seq<int>, orders: seq<int>) {
    ch.round == r && ch.pc.RecvOrder? && cp == [] && pc == orders
  }

  /** Rows a..b-1 after k sweeps, end to end. */
  ghost function Rows(h: History, k: nat, a: nat, b: nat): seq<real>
    decreases b
  {
    if a >= b then [] else Rows(h, k, a, b - 1) + h.row(k, b - 1)
  }

  /** Ordered to finish after k sweeps, with rows from j on not yet read by the parent. */
  ghost predicate Sending(x: Setup, h: History, c: nat, k: nat, j: nat, ch: Kid, cp: seq<real>, pc: seq<int>)
    requires x.Valid() && c < |x.lo|
  {
    && ch.round + 1 == k && pc == []
    && ((ch.pc.SendRow? && j <= ch.pc.j <= x.hi[c] && cp == Rows(h, k, j, ch.pc.j))
        || (ch.pc.Exited? && j <= x.hi[c] + 1 && cp == Rows(h, k, j, x.hi[c] + 1)))
  }

  ghost predicate Finishing(x: Setup, h: History, c: nat, k: nat, ch: Kid, cp: seq<real>, pc: seq<int>)
    requires x.Valid() && c < |x.lo|
  {
    Told(k - 1, ch, cp, pc, [1]) || Sending(x, h, c, k, x.lo[c], ch, cp, pc)
  }

  /** How child c stands towards the parent. */
  ghost predicate Status(x: Setup, h: History, m: Parent, c: nat, ch: Kid, cp: seq<real>, pc: seq<int>)
    requires x.Valid() && c < |x.lo| == |m.diffs|
  {
    match m.pc
    case Collect(i) =>
      if c < i then Told(m.count, ch, cp, pc, []) && m.diffs[c] == h.change(c, m.count)
      else Fresh(h, c, m.count, ch, cp, pc) || Told(m.count - 1, ch, cp, pc, [0])
    case Order(i, done) =>
      if c >= i then Told(m.count - 1, ch, cp, pc, [])
      else if done then Finishing(x, h, c, m.count, ch, cp, pc)
      else Told(m.count - 1, ch, cp, pc, [0]) || Fresh(h, c, m.count, ch, cp, pc)
    case Gather(i, j) =>
      if c < i then Sending(x, h, c, m.count, x.hi[c] + 1, ch, cp, pc)
      else if c > i || j == x.lo[c] then Finishing(x, h, c, m.count, ch, cp, pc)
      else Sending(x, h, c, m.count, j, ch, cp, pc)
    case Finished =>
      Sending(x, h, c, m.count, x.hi[c] + 1, ch, cp, pc)
  }

  ghost predicate KidOk(x: Setup, h: History, m: Parent, c: nat, ch: Kid, cp: seq<real>, pc: seq<int>)
    requires x.Valid() && c < |x.lo| == |m.diffs|
  {
    Data(x, h, c, ch) && Status(x, h, m, c, ch, cp, pc)
  }

  /** The program has not been asked to stop before sweep k. */
  ghost predicate GoesOn(h: History, k: nat) {
    forall i: nat :: i < k ==> !h.stops(i)
  }

  ghost predicate ParentOk(x: Setup, h: History, m: Parent)
    requires x.Valid()
  {
    var p := x.p;
    && |m.diffs| == |x.lo| && p.Square(m.u)
    && m.u[0] == p.g0[0] && m.u[p.n - 1] == p.g0[p.n - 1]
    && (!m.pc.Collect? ==> m.count > 0 && GoesOn(h, m.count - 1))
    && match m.pc
       case Collect(i) => i < |x.lo| && GoesOn(h, m.count)
       case Order(i, done) => i < |x.lo| && (done <==> h.stops(m.count - 1))
       case Gather(i, j) =>
         && i < |x.lo| && x.lo[i] <= j <= x.hi[i] && h.stops(m.count - 1)
         && (forall r :: 1 <= r < j ==> m.u[r] == h.row(m.count, r))
       case Finished =>
         && h.stops(m.count - 1)
         && (forall r :: 1 <= r < p.n - 1 ==> m.u[r] == h.row(m.count, r))
  }

  ghost predicate Sizes(x: Setup, s: Sys) {
    |s.kids| == |s.cp| == |s.pc| == |x.lo| && |s.up| == |s.down| == |x.lo| - 1 && |s.parent.diffs| == |x.lo|
  }

  /** The invariant at child c. */
  ghost predicate At(x: Setup, h: History, s: Sys, c: nat)
    requires x.Valid() && Sizes(x, s) && c < |x.lo|
  {
    KidOk(x, h, s.parent, c, s.kids[c], s.cp[c], s.pc[c])
  }

  /** The invariant between child c and the next. */
  ghost predicate Between(x: Setup, h: History, s: Sys, c: nat)
    requires x.Valid() && Sizes(x, s) && c + 1 < |x.lo|
  {
    Links(x, h, c, s.up[c], s.down[c], s.kids[c], s.kids[c + 1])
  }

  ghost predicate Inv(x: Setup, h: History, s: Sys)
    requires x.Valid()
  {
    && Sizes(x, s)
    && ParentOk(x, h, s.parent)
    && (forall c :: 0 <= c < |x.lo| ==> At(x, h, s, c))
    && (forall c :: 0 <= c < |x.lo| - 1 ==> Between(x, h, s, c))
  }

  lemma InvShape(x: Setup, h: History, s: Sys)
    requires x.Valid() && Inv(x, h, s)
    ensures Shape(x, s)
  {
    forall c | 0 <= c < |x.lo|
      ensures x.p.Square(s.kids[c].u) && (s.kids[c].pc.SendRow? ==> s.kids[c].pc.j < x.p.n)
    {
      assert At(x, h, s, c);
    }
  }

  // ----- pipes -----

  lemma PushAll<T>(q: seq<T>, cap: nat, data: seq<T>)
    requires |q| + |data| <= cap
    ensures Push(q, cap, data, 0) == (q + data, |data|)
  {
    assert data[0..|data|] == data;
  }

  lemma PullAll<T>(q: seq<T>)
    ensures Pull(q, |q|) == (q, [])
  {
    assert q[..|q|] == q;
  }


  lemma {:induction false} RowsLength(x: Setup, h: History, k: nat, a: nat, b: nat)
    requires Sized(x, h) && a <= b <= x.p.n
    ensures |Rows(h, k, a, b)| == (b - a) * x.p.n
    decreases b
  {
    if a < b {
      RowsLength(x, h, k, a, b - 1);
      assert (b - a) * x.p.n == (b - 1 - a) * x.p.n + x.p.n;
    }
  }

  lemma {:induction false} RowsFront(h: History, k: nat, a: nat, b: nat)
    requires a < b
    ensures Rows(h, k, a, b) == h.row(k, a) + Rows(h, k, a + 1, b)
    decreases b
  {
    if a + 1 < b {
      RowsFront(h, k, a, b - 1);
    }
  }

  lemma OneMoreRow(n: nat, m: nat, total: nat, cap: nat)
    requires n > 0 && m < total && m * n < cap && (total * n <= cap || cap % n == 0)
    ensures m * n + n <= cap
  {
    assert (m + 1) * n == m * n + n;
    if total * n <= cap {
      RoundRobin.MulMono(n, m + 1, total);
    } else {
      var q := cap / n;
      assert cap == q * n;
      if q <= m {
        RoundRobin.MulMono(n, q, m);
        assert false;
      }
      RoundRobin.MulMono(n, m + 1, q);
    }
  }

  /** A finishing child whose pipe is not full has room for its whole next row. */
  lemma SendingFits(x: Setup, h: History, c: nat, k: nat, from: nat, j: nat)
    requires x.Valid() && x.Fits(c) && Sized(x, h) && x.lo[c] <= from <= j <= x.hi[c]
    requires |Rows(h, k, from, j)| < x.cap
    ensures |Rows(h, k, from, j)| + x.p.n <= x.cap
  {
    RowsLength(x, h, k, from, j);
    OneMoreRow(x.p.n, j - from, x.hi[c] - x.lo[c] + 1, x.cap);
  }

  // ----- the barrier keeps the children within one round -----

  /** The round of the children that are ahead. */
  ghost function Lead(m: Parent): int {
    match m.pc
    case Collect(_) => m.count
    case Order(_, done) => if done then m.count - 1 else m.count
    case Gather(_, _) => m.count - 1
    case Finished => m.count - 1
  }

  lemma RoundIs(x: Setup, h: History, m: Parent, c: nat, ch: Kid, cp: seq<real>, pc: seq<int>)
    requires x.Valid() && c < |x.lo| == |m.diffs| && Status(x, h, m, c, ch, cp, pc)
    ensures ch.round == Lead(m) || (ch.round == Lead(m) - 1 && ch.pc.RecvOrder?)
    ensures Exchanging(ch.pc) ==> ch.round == Lead(m) && Fresh(h, c, ch.round, ch, cp, pc)
  {
  }

  /** A child that exchanges rows finds its neighbours in the same round, or one behind and
      about to be told to go on. */
  lemma Skew(x: Setup, h: History, s: Sys, c: nat, d: nat)
    requires x.Valid() && Sizes(x, s) && c < |x.lo| && d < |x.lo| && At(x, h, s, c) && At(x, h, s, d)
    requires Exchanging(s.kids[c].pc)
    ensures GotBelow(s.kids[d]) >= s.kids[c].round && GotAbove(s.kids[d]) >= s.kids[c].round
  {
    RoundIs(x, h, s.parent, c, s.kids[c], s.cp[c], s.pc[c]);
    RoundIs(x, h, s.parent, d, s.kids[d], s.cp[d], s.pc[d]);
  }

  /** A child in the middle of a round may move on within it. */
  lemma FreshMoves(x: Setup, h: History, m: Parent, c: nat, ch: Kid, ch': Kid, cp: seq<real>, pc: seq<int>)
    requires x.Valid() && c < |x.lo| == |m.diffs| && Status(x, h, m, c, ch, cp, pc)
    requires Exchanging(ch.pc) && ch'.round == ch.round && (Exchanging(ch'.pc) || ch'.pc.SendDiff?)
    ensures Status(x, h, m, c, ch', cp, pc)
  {
  }

  // ----- steps of a child -----

  lemma KidFrame(x: Setup, h: History, s: Sys, s': Sys, c: nat)
    requires x.Valid() && Inv(x, h, s) && c < |x.lo| && s'.parent == s.parent && Sizes(x, s')
    requires forall d :: 0 <= d < |x.lo| && d != c ==>
               s'.kids[d] == s.kids[d] && s'.cp[d] == s.cp[d] && s'.pc[d] == s.pc[d]
    requires forall d :: 0 <= d < |x.lo| - 1 && d != c && d + 1 != c ==> s'.up[d] == s.up[d] && s'.down[d] == s.down[d]
    requires At(x, h, s', c)
    requires c > 0 ==> Between(x, h, s', c - 1)
    requires c + 1 < |x.lo| ==> Between(x, h, s', c)
    ensures Inv(x, h, s')
  {
    forall d | 0 <= d < |x.lo|
      ensures At(x, h, s', d)
    {
      assert At(x, h, s, d);
    }
    forall d | 0 <= d < |x.lo| - 1
      ensures Between(x, h, s', d)
    {
      assert Between(x, h, s, d);
    }
  }

  /** The facts about one child and its two pairs of neighbour pipes. */
  lemma Around(x: Setup, h: History, s: Sys, c: nat)
    requires x.Valid() && Inv(x, h, s) && c < |x.lo|
    ensures At(x, h, s, c)
    ensures c > 0 ==> At(x, h, s, c - 1) && Between(x, h, s, c - 1)
    ensures c + 1 < |x.lo| ==> At(x, h, s, c + 1) && Between(x, h, s, c)
  {
  }

  /** A move within the exchange: the child becomes ch', its four neighbour pipes as given. */
  lemma Moved(x: Setup, h: History, s: Sys, c: nat, ch: Kid, up: seq<seq<real>>, down: seq<seq<real>>)
    requires x.Valid() && Inv(x, h, s) && c < |x.lo| && |up| == |down| == |x.lo| - 1
    requires Exchanging(s.kids[c].pc) && Exchanging(ch.pc) && ch.round == s.kids[c].round && Data(x, h, c, ch)
    requires forall d :: 0 <= d < |x.lo| - 1 && d != c && d + 1 != c ==> up[d] == s.up[d] && down[d] == s.down[d]
    requires c > 0 ==> Links(x, h, c - 1, up[c - 1], down[c - 1], s.kids[c - 1], ch)
    requires c + 1 < |x.lo| ==> Links(x, h, c, up[c], down[c], ch, s.kids[c + 1])
    ensures Inv(x, h, s.(kids := s.kids[c := ch], up := up, down := down))
  {
    Around(x, h, s, c);
    FreshMoves(x, h, s.parent, c, s.kids[c], ch, s.cp[c], s.pc[c]);
    KidFrame(x, h, s, s.(kids := s.kids[c := ch], up := up, down := down), c);
  }

  /** A child that has sent a row still has its own rows. */
  lemma SentData(x: Setup, h: History, c: nat, ch: Kid, pc: Pc)
    requires x.Valid() && c < |x.lo| && Data(x, h, c, ch) && Exchanging(ch.pc)
    requires pc.SendDown? || pc.RecvAbove?
    ensures Data(x, h, c, ch.(pc := pc, off := 0))
  {
  }

  /** Child c sends its first row up to a, the child above. */
  lemma SentUpLinks(x: Setup, h: History, c: nat, up: seq<real>, down: seq<real>, a: Kid, ch: Kid)
    requires x.Valid() && 0 < c < |x.lo| && Links(x, h, c - 1, up, down, a, ch) && Data(x, h, c, ch) && ch.pc.SendUp?
    requires GotBelow(a) >= ch.round
    ensures up == [] && Links(x, h, c - 1, ch.u[x.lo[c]], down, a, ch.(pc := SendDown, off := 0))
  {
  }

  /** Child c sends its last row down to b, the child below. */
  lemma SentDownLinks(x: Setup, h: History, c: nat, up: seq<real>, down: seq<real>, ch: Kid, b: Kid)
    requires x.Valid() && c + 1 < |x.lo| && Links(x, h, c, up, down, ch, b) && Data(x, h, c, ch) && ch.pc.SendDown?
    requires GotAbove(b) >= ch.round
    ensures down == [] && Links(x, h, c, up, ch.u[x.hi[c]], ch.(pc := RecvAbove, off := 0), b)
  {
  }

  /** The other pair of pipes does not see the send. */
  lemma SameLinks(x: Setup, h: History, c: nat, up: seq<real>, down: seq<real>, a: Kid, b: Kid, a': Kid, b': Kid)
    requires x.Valid() && c + 1 < |x.lo| && Links(x, h, c, up, down, a, b)
    requires SentDown(a') == SentDown(a) && GotBelow(a') == GotBelow(a) && SentUp(b') == SentUp(b)
             && GotAbove(b') == GotAbove(b)
    ensures Links(x, h, c, up, down, a', b')
  {
  }

  // What the four steps of an exchange do when the row goes through whole.

  lemma SendUpStep(x: Setup, s: Sys, c: nat, row: Row)
    requires x.Valid() && Shape(x, s) && 0 < c < |x.lo| && s.kids[c].off == 0 && s.up[c - 1] == []
             && row == s.kids[c].u[x.lo[c]]
    ensures DoSendUp(x, s, c) == s.(kids := s.kids[c := s.kids[c].(pc := SendDown, off := 0)], up := s.up[c - 1 := row])
  {
    PushAll(s.up[c - 1], x.cap, row);
    assert s.up[c - 1] + row == row;
  }

  lemma SendDownStep(x: Setup, s: Sys, c: nat, row: Row)
    requires x.Valid() && Shape(x, s) && c + 1 < |x.lo| && s.kids[c].off == 0 && s.down[c] == []
             && row == s.kids[c].u[x.hi[c]]
    ensures DoSendDown(x, s, c) == s.(kids := s.kids[c := s.kids[c].(pc := RecvAbove, off := 0)],
                                      down := s.down[c := row])
  {
    PushAll(s.down[c], x.cap, row);
    assert s.down[c] + row == row;
  }

  lemma RecvAboveStep(x: Setup, s: Sys, c: nat, row: Row)
    requires x.Valid() && Shape(x, s) && 0 < c < |x.lo| && row == s.down[c - 1] && |row| == x.p.n
    ensures
      var ch, i := s.kids[c], x.lo[c] - 1;
      DoRecvAbove(x, s, c) == s.(kids := s.kids[c := ch.(pc := RecvBelow, u := ch.u[i := row])],
                                 down := s.down[c - 1 := []])
  {
    PullAll(row);
    assert Into(s.kids[c].u[x.lo[c] - 1], row) == row;
  }

  lemma RecvBelowStep(x: Setup, s: Sys, c: nat, row: Row)
    requires x.Valid() && Shape(x, s) && c + 1 < |x.lo| && row == s.up[c] && |row| == x.p.n
    ensures
      var ch, i := s.kids[c], x.hi[c] + 1;
      DoRecvBelow(x, s, c) == s.(kids := s.kids[c := ch.(pc := Sweep, u := ch.u[i := row])], up := s.up[c := []])
  {
    PullAll(row);
    assert Into(s.kids[c].u[x.hi[c] + 1], row) == row;
  }

  lemma SendUpOk(x: Setup, h: History, s: Sys, c: nat)
    requires x.Valid() && Sized(x, h) && Inv(x, h, s) && Shape(x, s) && c < |x.lo| && s.kids[c].pc.SendUp?
    ensures c > 0 ==> s.up[c - 1] == []
    ensures Inv(x, h, DoSendUp(x, s, c))
  {
    if c == 0 {
      Around(x, h, s, c);
      var ch := s.kids[c];
      SentData(x, h, c, ch, SendDown);
      if c + 1 < |x.lo| {
        SameLinks(x, h, c, s.up[c], s.down[c], ch, s.kids[c + 1], ch.(pc := SendDown), s.kids[c + 1]);
      }
      Moved(x, h, s, c, ch.(pc := SendDown), s.up, s.down);
    } else {
      SendRowUp(x, h, s, c);
    }
  }

  lemma RowUpFits(x: Setup, h: History, s: Sys, c: nat, row: Row, ch': Kid)
    requires x.Valid() && Inv(x, h, s) && 0 < c < |x.lo| && s.kids[c].pc.SendUp? && x.p.Square(s.kids[c].u)
    requires ch' == s.kids[c].(pc := SendDown, off := 0) && row == s.kids[c].u[x.lo[c]]
    ensures s.up[c - 1] == [] && s.kids[c].off == 0 && Data(x, h, c, ch')
    ensures Links(x, h, c - 1, row, s.down[c - 1], s.kids[c - 1], ch')
    ensures c + 1 < |x.lo| ==> Links(x, h, c, s.up[c], s.down[c], ch', s.kids[c + 1])
  {
    Around(x, h, s, c);
    SentData(x, h, c, s.kids[c], SendDown);
    if c + 1 < |x.lo| {
      SameLinks(x, h, c, s.up[c], s.down[c], s.kids[c], s.kids[c + 1], ch', s.kids[c + 1]);
    }
    Skew(x, h, s, c, c - 1);
    SentUpLinks(x, h, c, s.up[c - 1], s.down[c - 1], s.kids[c - 1], s.kids[c]);
  }

  lemma SendRowUp(x: Setup, h: History, s: Sys, c: nat)
    requires x.Valid() && Inv(x, h, s) && Shape(x, s) && 0 < c < |x.lo| && s.kids[c].pc.SendUp?
    ensures s.up[c - 1] == []
    ensures Inv(x, h, DoSendUp(x, s, c))
  {
    var ch := s.kids[c];
    var ch', row := ch.(pc := SendDown, off := 0), ch.u[x.lo[c]];
    RowUpFits(x, h, s, c, row, ch');
    SendUpStep(x, s, c, row);
    Moved(x, h, s, c, ch', s.up[c - 1 := row], s.down);
  }

  lemma SendDownOk(x: Setup, h: History, s: Sys, c: nat)
    requires x.Valid() && Sized(x, h) && Inv(x, h, s) && Shape(x, s) && c < |x.lo| && s.kids[c].pc.SendDown?
    ensures c + 1 < |x.lo| ==> s.down[c] == []
    ensures Inv(x, h, DoSendDown(x, s, c))
  {
    if c + 1 == |x.lo| {
      Around(x, h, s, c);
      var ch := s.kids[c];
      SentData(x, h, c, ch, RecvAbove);
      if c > 0 {
        SameLinks(x, h, c - 1, s.up[c - 1], s.down[c - 1], s.kids[c - 1], ch, s.kids[c - 1], ch.(pc := RecvAbove));
      }
      Moved(x, h, s, c, ch.(pc := RecvAbove), s.up, s.down);
    } else {
      SendRowDown(x, h, s, c);
    }
  }

  lemma RowDownFits(x: Setup, h: History, s: Sys, c: nat, row: Row, ch': Kid)
    requires x.Valid() && Inv(x, h, s) && c + 1 < |x.lo| && s.kids[c].pc.SendDown? && x.p.Square(s.kids[c].u)
    requires ch' == s.kids[c].(pc := RecvAbove, off := 0) && row == s.kids[c].u[x.hi[c]]
    ensures s.down[c] == [] && s.kids[c].off == 0 && Data(x, h, c, ch')
    ensures Links(x, h, c, s.up[c], row, ch', s.kids[c + 1])
    ensures c > 0 ==> Links(x, h, c - 1, s.up[c - 1], s.down[c - 1], s.kids[c - 1], ch')
  {
    Around(x, h, s, c);
    SentData(x, h, c, s.kids[c], RecvAbove);
    if c > 0 {
      SameLinks(x, h, c - 1, s.up[c - 1], s.down[c - 1], s.kids[c - 1], s.kids[c], s.kids[c - 1], ch');
    }
    Skew(x, h, s, c, c + 1);
    SentDownLinks(x, h, c, s.up[c], s.down[c], s.kids[c], s.kids[c + 1]);
  }

  lemma SendRowDown(x: Setup, h: History, s: Sys, c: nat)
    requires x.Valid() && Inv(x, h, s) && Shape(x, s) && c + 1 < |x.lo| && s.kids[c].pc.SendDown?
    ensures s.down[c] == []
    ensures Inv(x, h, DoSendDown(x, s, c))
  {
    var ch := s.kids[c];
    var ch', row := ch.(pc := RecvAbove, off := 0), ch.u[x.hi[c]];
    RowDownFits(x, h, s, c, row, ch');
    SendDownStep(x, s, c, row);
    Moved(x, h, s, c, ch', s.up, s.down[c := row]);
  }

  /** The row from above has arrived. */
  lemma AboveArrived(x: Setup, h: History, c: nat, ch: Kid, row: Row)
    requires x.Valid() && 0 < c < |x.lo| && Data(x, h, c, ch) && ch.pc.RecvAbove?
    requires |row| == x.p.n && row == h.row(ch.round, x.lo[c] - 1)
    ensures Data(x, h, c, ch.(pc := RecvBelow, u := ch.u[x.lo[c] - 1 := row]))
  {
  }

  lemma AboveLinks(x: Setup, h: History, c: nat, up: seq<real>, down: seq<real>, a: Kid, ch: Kid, u: Grid)
    requires x.Valid() && Sized(x, h) && 0 < c < |x.lo| && Links(x, h, c - 1, up, down, a, ch) && ch.pc.RecvAbove?
             && down != []
    ensures down == h.row(ch.round, x.lo[c] - 1) && |down| == x.p.n
    ensures Links(x, h, c - 1, up, [], a, ch.(pc := RecvBelow, u := u))
  {
    assert Adjacent(x.lo, x.hi, c - 1);
  }

  lemma RecvAboveOk(x: Setup, h: History, s: Sys, c: nat)
    requires x.Valid() && Sized(x, h) && Inv(x, h, s) && Shape(x, s) && c < |x.lo| && s.kids[c].pc.RecvAbove?
    requires c > 0 ==> s.down[c - 1] != []
    ensures Inv(x, h, DoRecvAbove(x, s, c))
  {
    if c == 0 {
      Around(x, h, s, c);
      var ch := s.kids[c];
      var ch' := ch.(pc := RecvBelow);
      if c + 1 < |x.lo| {
        SameLinks(x, h, c, s.up[c], s.down[c], ch, s.kids[c + 1], ch', s.kids[c + 1]);
      }
      Moved(x, h, s, c, ch', s.up, s.down);
    } else {
      RecvRowAbove(x, h, s, c);
    }
  }

  lemma RowAboveFits(x: Setup, h: History, s: Sys, c: nat, row: Row, ch': Kid)
    requires x.Valid() && Sized(x, h) && Inv(x, h, s) && 0 < c < |x.lo| && s.kids[c].pc.RecvAbove?
    requires row == s.down[c - 1] != [] && x.p.Square(s.kids[c].u)
    requires ch' == s.kids[c].(pc := RecvBelow, u := s.kids[c].u[x.lo[c] - 1 := row])
    ensures |row| == x.p.n && Data(x, h, c, ch')
    ensures Links(x, h, c - 1, s.up[c - 1], [], s.kids[c - 1], ch')
    ensures c + 1 < |x.lo| ==> Links(x, h, c, s.up[c], s.down[c], ch', s.kids[c + 1])
  {
    Around(x, h, s, c);
    AboveLinks(x, h, c, s.up[c - 1], row, s.kids[c - 1], s.kids[c], ch'.u);
    AboveArrived(x, h, c, s.kids[c], row);
    if c + 1 < |x.lo| {
      SameLinks(x, h, c, s.up[c], s.down[c], s.kids[c], s.kids[c + 1], ch', s.kids[c + 1]);
    }
  }

  lemma RecvRowAbove(x: Setup, h: History, s: Sys, c: nat)
    requires x.Valid() && Sized(x, h) && Inv(x, h, s) && Shape(x, s) && 0 < c < |x.lo| && s.kids[c].pc.RecvAbove?
    requires s.down[c - 1] != []
    ensures Inv(x, h, DoRecvAbove(x, s, c))
  {
    var ch, i, row := s.kids[c], x.lo[c] - 1, s.down[c - 1];
    var ch' := ch.(pc := RecvBelow, u := ch.u[i := row]);
    RowAboveFits(x, h, s, c, row, ch');
    RecvAboveStep(x, s, c, row);
    Moved(x, h, s, c, ch', s.up, s.down[c - 1 := []]);
  }

  lemma BelowArrived(x: Setup, h: History, c: nat, ch: Kid, row: Row)
    requires x.Valid() && c + 1 < |x.lo| && Data(x, h, c, ch) && ch.pc.RecvBelow?
    requires |row| == x.p.n && row == h.row(ch.round, x.hi[c] + 1)
    ensures Data(x, h, c, ch.(pc := Sweep, u := ch.u[x.hi[c] + 1 := row]))
  {
  }

  lemma BelowLinks(x: Setup, h: History, c: nat, up: seq<real>, down: seq<real>, ch: Kid, b: Kid, u: Grid)
    requires x.Valid() && Sized(x, h) && c + 1 < |x.lo| && Links(x, h, c, up, down, ch, b) && ch.pc.RecvBelow?
             && up != []
    ensures up == h.row(ch.round, x.hi[c] + 1) && |up| == x.p.n
    ensures Links(x, h, c, [], down, ch.(pc := Sweep, u := u), b)
  {
    assert Adjacent(x.lo, x.hi, c);
  }

  lemma RecvBelowOk(x: Setup, h: History, s: Sys, c: nat)
    requires x.Valid() && Sized(x, h) && Inv(x, h, s) && Shape(x, s) && c < |x.lo| && s.kids[c].pc.RecvBelow?
    requires c + 1 < |x.lo| ==> s.up[c] != []
    ensures Inv(x, h, DoRecvBelow(x, s, c))
  {
    if c + 1 == |x.lo| {
      Around(x, h, s, c);
      var ch := s.kids[c];
      var ch' := ch.(pc := Sweep);
      if c > 0 {
        SameLinks(x, h, c - 1, s.up[c - 1], s.down[c - 1], s.kids[c - 1], ch, s.kids[c - 1], ch');
      }
      Moved(x, h, s, c, ch', s.up, s.down);
    } else {
      RecvRowBelow(x, h, s, c);
    }
  }

  lemma RowBelowFits(x: Setup, h: History, s: Sys, c: nat, row: Row, ch': Kid)
    requires x.Valid() && Sized(x, h) && Inv(x, h, s) && c + 1 < |x.lo| && s.kids[c].pc.RecvBelow?
    requires row == s.up[c] != [] && x.p.Square(s.kids[c].u)
    requires ch' == s.kids[c].(pc := Sweep, u := s.kids[c].u[x.hi[c] + 1 := row])
    ensures |row| == x.p.n && Data(x, h, c, ch')
    ensures Links(x, h, c, [], s.down[c], ch', s.kids[c + 1])
    ensures c > 0 ==> Links(x, h, c - 1, s.up[c - 1], s.down[c - 1], s.kids[c - 1], ch')
  {
    Around(x, h, s, c);
    BelowLinks(x, h, c, row, s.down[c], s.kids[c], s.kids[c + 1], ch'.u);
    BelowArrived(x, h, c, s.kids[c], row);
    if c > 0 {
      SameLinks(x, h, c - 1, s.up[c - 1], s.down[c - 1], s.kids[c - 1], s.kids[c], s.kids[c - 1], ch');
    }
  }

  lemma RecvRowBelow(x: Setup, h: History, s: Sys, c: nat)
    requires x.Valid() && Sized(x, h) && Inv(x, h, s) && Shape(x, s) && c + 1 < |x.lo| && s.kids[c].pc.RecvBelow?
    requires s.up[c] != []
    ensures Inv(x, h, DoRecvBelow(x, s, c))
  {
    var ch, i, row := s.kids[c], x.hi[c] + 1, s.up[c];
    var ch' := ch.(pc := Sweep, u := ch.u[i := row]);
    RowBelowFits(x, h, s, c, row, ch');
    RecvBelowStep(x, s, c, row);
    Moved(x, h, s, c, ch', s.up[c := []], s.down);
  }

  ghost predicate RowIs(x: Setup, h: History, k: nat, i: nat)
    requires x.Valid() && i < x.p.n
  {
    h.row(k, i) == After(x.p, k)[i]
  }

  ghost predicate ChangeFrom(x: Setup, h: History, c: nat, k: nat, g: Grid)
    requires x.Valid() && c < |x.lo| && x.p.Square(g)
  {
    h.change(c, k) == RowsDiff(x.p, g, x.lo[c], x.hi[c])
  }

  ghost predicate ChangeIs(x: Setup, h: History, c: nat, k: nat)
    requires x.Valid() && c < |x.lo|
  {
    ChangeFrom(x, h, c, k, After(x.p, k))
  }

  ghost predicate StopIs(x: Setup, h: History, k: nat)
    requires x.Valid()
  {
    h.stops(k) <==> Stops(x.p, k)
  }

  /** `h` is what the sequential program does. */
  ghost predicate Sequential(x: Setup, h: History)
    requires x.Valid()
  {
    && (forall k: nat, i: nat {:trigger RowIs(x, h, k, i)} :: i < x.p.n ==> RowIs(x, h, k, i))
    && (forall c: nat, k: nat {:trigger ChangeIs(x, h, c, k)} :: c < |x.lo| ==> ChangeIs(x, h, c, k))
    && (forall k: nat {:trigger StopIs(x, h, k)} :: StopIs(x, h, k))
  }

  /** Before its sweep a child holds the sequential grid `g` around its rows. */
  lemma Neighbourhood(x: Setup, h: History, c: nat, ch: Kid, g: Grid)
    requires x.Valid() && c < |x.lo| && Data(x, h, c, ch) && ch.pc.Sweep? && x.p.Square(g)
    requires IsRound(h, ch.round, x.p.n, g)
    requires g[0] == x.p.g0[0] && g[x.p.n - 1] == x.p.g0[x.p.n - 1]
    ensures forall i :: x.lo[c] - 1 <= i <= x.hi[c] + 1 ==> ch.u[i] == g[i]
  {
  }

  lemma SweptRows(p: Problem, u: Grid, g: Grid, lo: nat, hi: nat)
    requires p.n >= 3 && p.Square(u) && p.Square(g) && 1 <= lo <= hi < p.n - 1
    requires forall i :: lo - 1 <= i <= hi + 1 ==> u[i] == g[i]
    ensures forall i :: lo <= i <= hi ==> SweepRows(p, u, lo, hi)[i] == SweepRows(p, g, 1, p.n - 2)[i]
  {
    forall i | lo <= i <= hi
      ensures SweepRows(p, u, lo, hi)[i] == SweepRows(p, g, 1, p.n - 2)[i]
    {
      SweepLocal(p, u, g, lo, hi, i);
    }
  }

  /** g is the grid after k sweeps. */
  ghost predicate IsRound(h: History, k: nat, n: nat, g: Grid) {
    |g| == n && forall i: nat {:trigger h.row(k, i)} :: i < n ==> g[i] == h.row(k, i)
  }

  /** Sweep r + 1 of the sequential program starts from the grid g. */
  ghost predicate SweepFrom(x: Setup, h: History, c: nat, r: nat, g: Grid)
    requires x.Valid() && c < |x.lo|
  {
    && x.p.Square(g) && g[0] == x.p.g0[0] && g[x.p.n - 1] == x.p.g0[x.p.n - 1]
    && IsRound(h, r, x.p.n, g) && IsRound(h, r + 1, x.p.n, SweepRows(x.p, g, 1, x.p.n - 2))
    && RowsDiff(x.p, g, x.lo[c], x.hi[c]) == h.change(c, r)
  }

  lemma SequentialRows(x: Setup, h: History, k: nat, g: Grid)
    requires x.Valid() && Sequential(x, h) && g == After(x.p, k)
    ensures IsRound(h, k, x.p.n, g)
  {
    forall i: nat | i < x.p.n
      ensures g[i] == h.row(k, i)
    {
      assert RowIs(x, h, k, i);
    }
  }

  lemma SequentialSweep(x: Setup, h: History, c: nat, r: nat)
    requires x.Valid() && Sequential(x, h) && c < |x.lo|
    ensures SweepFrom(x, h, c, r, After(x.p, r))
  {
    BorderFixed(x.p, r);
    SequentialRows(x, h, r, After(x.p, r));
    SequentialRows(x, h, r + 1, SweepRows(x.p, After(x.p, r), 1, x.p.n - 2));
    assert ChangeIs(x, h, c, r);
  }

  lemma SweepData(x: Setup, h: History, c: nat, ch: Kid, g: Grid)
    requires x.Valid() && c < |x.lo| && Data(x, h, c, ch) && ch.pc.Sweep? && SweepFrom(x, h, c, ch.round, g)
    ensures forall i :: x.lo[c] <= i <= x.hi[c] ==> SweepRows(x.p, ch.u, x.lo[c], x.hi[c])[i] == h.row(ch.round + 1, i)
    ensures RowsDiff(x.p, ch.u, x.lo[c], x.hi[c]) == h.change(c, ch.round)
  {
    var p, lo, hi := x.p, x.lo[c], x.hi[c];
    Neighbourhood(x, h, c, ch, g);
    RowsDiffLocal(p, ch.u, g, lo, hi);
    SweptRows(p, ch.u, g, lo, hi);
  }

  /** What the child computes. */
  lemma SweptAsSequential(x: Setup, h: History, c: nat, ch: Kid) returns (u: Grid, diff: real)
    requires x.Valid() && Sequential(x, h) && c < |x.lo| && Data(x, h, c, ch) && ch.pc.Sweep?
    ensures u == SweepRows(x.p, ch.u, x.lo[c], x.hi[c]) && diff == RowsDiff(x.p, ch.u, x.lo[c], x.hi[c])
    ensures x.p.Square(u) && u[0] == ch.u[0] && u[x.p.n - 1] == ch.u[x.p.n - 1]
    ensures forall i :: x.lo[c] <= i <= x.hi[c] ==> u[i] == h.row(ch.round + 1, i)
    ensures diff == h.change(c, ch.round)
  {
    SequentialSweep(x, h, c, ch.round);
    SweepData(x, h, c, ch, After(x.p, ch.round));
    u, diff := SweepRows(x.p, ch.u, x.lo[c], x.hi[c]), RowsDiff(x.p, ch.u, x.lo[c], x.hi[c]);
  }

  /** Stated on any rows and difference, so that the sweep itself stays out of the frame. */
  lemma SweptOk(x: Setup, h: History, s: Sys, c: nat, u: Grid, diff: real)
    requires x.Valid() && Inv(x, h, s) && Shape(x, s) && c < |x.lo| && s.kids[c].pc.Sweep?
    requires x.p.Square(u) && u[0] == s.kids[c].u[0] && u[x.p.n - 1] == s.kids[c].u[x.p.n - 1]
    requires forall i :: x.lo[c] <= i <= x.hi[c] ==> u[i] == h.row(s.kids[c].round + 1, i)
    requires diff == h.change(c, s.kids[c].round)
    ensures Inv(x, h, s.(kids := s.kids[c := s.kids[c].(pc := SendDiff, u := u, diff := diff)]))
  {
    var ch := s.kids[c];
    var s' := s.(kids := s.kids[c := ch.(pc := SendDiff, u := u, diff := diff)]);
    assert At(x, h, s, c);
    FreshMoves(x, h, s.parent, c, ch, s'.kids[c], s.cp[c], s.pc[c]);
    if c > 0 {
      assert Between(x, h, s, c - 1);
      assert Between(x, h, s', c - 1);
    }
    if c + 1 < |x.lo| {
      assert Between(x, h, s, c);
      assert Between(x, h, s', c);
    }
    KidFrame(x, h, s, s', c);
  }

  lemma SweepOk(x: Setup, h: History, s: Sys, c: nat)
    requires x.Valid() && Sequential(x, h) && Inv(x, h, s) && Shape(x, s) && c < |x.lo| && s.kids[c].pc.Sweep?
    ensures Inv(x, h, DoSweep(x, s, c))
  {
    assert At(x, h, s, c);
    var u, diff := SweptAsSequential(x, h, c, s.kids[c]);
    assert DoSweep(x, s, c) == s.(kids := s.kids[c := s.kids[c].(pc := SendDiff, u := u, diff := diff)]);
    SweptOk(x, h, s, c, u, diff);
  }

  /** A step that leaves the exchange with the neighbours as it is. */
  lemma SameExchange(x: Setup, h: History, s: Sys, s': Sys, c: nat)
    requires x.Valid() && Inv(x, h, s) && c < |x.lo| && s'.parent == s.parent && Sizes(x, s')
    requires s'.up == s.up && s'.down == s.down
    requires forall d :: 0 <= d < |x.lo| && d != c ==>
               s'.kids[d] == s.kids[d] && s'.cp[d] == s.cp[d] && s'.pc[d] == s.pc[d]
    requires SentUp(s'.kids[c]) == SentUp(s.kids[c]) && SentDown(s'.kids[c]) == SentDown(s.kids[c])
    requires GotAbove(s'.kids[c]) == GotAbove(s.kids[c]) && GotBelow(s'.kids[c]) == GotBelow(s.kids[c])
    requires At(x, h, s', c)
    ensures Inv(x, h, s')
  {
    if c > 0 {
      assert Between(x, h, s, c - 1);
      assert Between(x, h, s', c - 1);
    }
    if c + 1 < |x.lo| {
      assert Between(x, h, s, c);
      assert Between(x, h, s', c);
    }
    KidFrame(x, h, s, s', c);
  }

  lemma DiffSent(x: Setup, h: History, m: Parent, c: nat, ch: Kid, cp: seq<real>, pc: seq<int>)
    requires x.Valid() && c < |x.lo| == |m.diffs| && KidOk(x, h, m, c, ch, cp, pc) && ch.pc.SendDiff?
    ensures cp == [] && KidOk(x, h, m, c, ch.(pc := RecvOrder), [ch.diff], pc)
  {
  }

  lemma SendDiffOk(x: Setup, h: History, s: Sys, c: nat)
    requires x.Valid() && Inv(x, h, s) && Shape(x, s) && c < |x.lo| && s.kids[c].pc.SendDiff?
    ensures s.cp[c] == []
    ensures Inv(x, h, DoSendDiff(x, s, c))
  {
    assert At(x, h, s, c);
    DiffSent(x, h, s.parent, c, s.kids[c], s.cp[c], s.pc[c]);
    assert s.cp[c] + [s.kids[c].diff] == [s.kids[c].diff];
    SameExchange(x, h, s, DoSendDiff(x, s, c), c);
  }

  lemma OrderTaken(x: Setup, h: History, m: Parent, c: nat, ch: Kid, cp: seq<real>, pc: seq<int>)
    requires x.Valid() && c < |x.lo| == |m.diffs| && KidOk(x, h, m, c, ch, cp, pc) && ch.pc.RecvOrder? && pc != []
    ensures var next := if pc[0] == 1 then ch.(pc := SendRow(x.lo[c])) else ch.(pc := SendUp, round := ch.round + 1);
            KidOk(x, h, m, c, next, cp, pc[1..])
  {
    assert pc == [pc[0]] && pc[1..] == [];
  }

  lemma RecvOrderOk(x: Setup, h: History, s: Sys, c: nat)
    requires x.Valid() && Inv(x, h, s) && Shape(x, s) && c < |x.lo| && s.kids[c].pc.RecvOrder? && s.pc[c] != []
    ensures Inv(x, h, DoRecvOrder(x, s, c))
  {
    assert At(x, h, s, c);
    OrderTaken(x, h, s.parent, c, s.kids[c], s.cp[c], s.pc[c]);
    var s' := DoRecvOrder(x, s, c);
    assert At(x, h, s', c);
    SameExchange(x, h, s, s', c);
  }

  /** A finishing child has put its rows from some point on into its pipe. */
  lemma SendingFrom(x: Setup, h: History, m: Parent, c: nat, ch: Kid, cp: seq<real>, pc: seq<int>) returns (from: nat)
    requires x.Valid() && c < |x.lo| && ParentOk(x, h, m) && Status(x, h, m, c, ch, cp, pc) && ch.pc.SendRow?
    ensures x.lo[c] <= from && Sending(x, h, c, m.count, from, ch, cp, pc)
  {
    from := if m.pc.Gather? && m.pc.i == c then m.pc.j else x.lo[c];
  }

  lemma RoomForRow(x: Setup, h: History, s: Sys, c: nat)
    requires x.Valid() && c < |x.lo| && x.Fits(c) && Sized(x, h) && Inv(x, h, s)
    requires s.kids[c].pc.SendRow? && (|s.cp[c]| < x.cap || HungUp(s, c))
    ensures |s.cp[c]| + x.p.n <= x.cap
  {
    assert At(x, h, s, c);
    var from := SendingFrom(x, h, s.parent, c, s.kids[c], s.cp[c], s.pc[c]);
    SendingFits(x, h, c, s.parent.count, from, s.kids[c].pc.j);
  }

  lemma RowSent(x: Setup, h: History, m: Parent, c: nat, ch: Kid, cp: seq<real>, pc: seq<int>)
    requires x.Valid() && c < |x.lo| && ParentOk(x, h, m) && KidOk(x, h, m, c, ch, cp, pc) && ch.pc.SendRow?
    ensures var j := ch.pc.j;
            KidOk(x, h, m, c, ch.(pc := if j < x.hi[c] then SendRow(j + 1) else Exited), cp + ch.u[j], pc)
  {
    assert ch.u[ch.pc.j] == h.row(Swept(ch), ch.pc.j);
    var from := SendingFrom(x, h, m, c, ch, cp, pc);
  }

  lemma SendRowOk(x: Setup, h: History, s: Sys, c: nat)
    requires x.Valid() && Inv(x, h, s) && Shape(x, s) && c < |x.lo| && s.kids[c].pc.SendRow?
    requires |s.cp[c]| + x.p.n <= x.cap
    ensures Inv(x, h, DoSendRow(x, s, c))
  {
    assert At(x, h, s, c);
    var ch := s.kids[c];
    RowSent(x, h, s.parent, c, ch, s.cp[c], s.pc[c]);
    PushAll(s.cp[c], x.cap, ch.u[ch.pc.j]);
    SameExchange(x, h, s, DoSendRow(x, s, c), c);
  }

  // ----- steps of the parent -----

  lemma ParentFrame(x: Setup, h: History, s: Sys, s': Sys)
    requires x.Valid() && Inv(x, h, s) && s'.kids == s.kids && s'.up == s.up && s'.down == s.down
    requires Sizes(x, s') && ParentOk(x, h, s'.parent)
    requires forall d :: 0 <= d < |x.lo| ==> Status(x, h, s'.parent, d, s.kids[d], s'.cp[d], s'.pc[d])
    ensures Inv(x, h, s')
  {
    forall d | 0 <= d < |x.lo|
      ensures At(x, h, s', d)
    {
      assert At(x, h, s, d);
    }
    forall d | 0 <= d < |x.lo| - 1
      ensures Between(x, h, s', d)
    {
      assert Between(x, h, s, d);
    }
  }

  lemma DiffsAre(x: Setup, h: History, ds: seq<real>, k: nat, g: Grid)
    requires x.Valid() && |ds| == |x.lo| && x.p.Square(g)
    requires forall d :: 0 <= d < |ds| ==> ds[d] == h.change(d, k)
    requires forall c {:trigger ChangeFrom(x, h, c, k, g)} :: 0 <= c < |x.lo| ==> ChangeFrom(x, h, c, k, g)
    ensures MaxOf(ds) == RowsDiff(x.p, g, 1, x.p.n - 2)
  {
    forall d | 0 <= d < |ds|
      ensures ds[d] == RowsDiff(x.p, g, x.lo[d], x.hi[d])
    {
      assert ChangeFrom(x, h, d, k, g);
    }
    MaxOfAll(x.p, g, x.lo, x.hi, ds);
  }

  lemma SequentialChanges(x: Setup, h: History, k: nat, g: Grid)
    requires x.Valid() && Sequential(x, h) && g == After(x.p, k)
    ensures forall c {:trigger ChangeFrom(x, h, c, k, g)} :: 0 <= c < |x.lo| ==> ChangeFrom(x, h, c, k, g)
  {
    forall c | 0 <= c < |x.lo|
      ensures ChangeFrom(x, h, c, k, g)
    {
      assert ChangeIs(x, h, c, k);
    }
  }

  lemma ParentMaximum(x: Setup, h: History, ds: seq<real>, k: nat)
    requires x.Valid() && Sequential(x, h) && |ds| == |x.lo|
    requires forall d :: 0 <= d < |ds| ==> ds[d] == h.change(d, k)
    ensures MaxOf(ds) <= x.p.e || k + 1 > x.p.limit <==> h.stops(k)
  {
    SequentialChanges(x, h, k, After(x.p, k));
    DiffsAre(x, h, ds, k, After(x.p, k));
    assert StopIs(x, h, k);
  }

  lemma CollectOk(x: Setup, h: History, s: Sys, m': Parent)
    requires x.Valid() && Inv(x, h, s) && s.parent.pc.Collect? && s.cp[s.parent.pc.i] != []
    requires var m := s.parent; var i := m.pc.i; var diffs := m.diffs[i := s.cp[i][0]];
             if i + 1 < |x.lo| then m' == m.(diffs := diffs, pc := Collect(i + 1))
             else m' == m.(diffs := diffs, count := m.count + 1, pc := Order(0, h.stops(m.count)))
    ensures Inv(x, h, s.(cp := s.cp[s.parent.pc.i := s.cp[s.parent.pc.i][1..]], parent := m'))
  {
    var m := s.parent;
    var i := m.pc.i;
    var s' := s.(cp := s.cp[i := s.cp[i][1..]], parent := m');
    assert At(x, h, s, i);
    assert s.cp[i] == [h.change(i, m.count)];
    forall d | 0 <= d < |x.lo|
      ensures Status(x, h, m', d, s.kids[d], s'.cp[d], s'.pc[d])
    {
      assert At(x, h, s, d);
    }
    ParentFrame(x, h, s, s');
  }

  /** The last difference read makes the parent's decision the sequential one. */
  lemma Decision(x: Setup, h: History, s: Sys)
    requires x.Valid() && Sequential(x, h) && Inv(x, h, s) && s.parent.pc.Collect? && s.cp[s.parent.pc.i] != []
    requires s.parent.pc.i + 1 == |x.lo|
    ensures var m := s.parent;
            MaxOf(m.diffs[m.pc.i := s.cp[m.pc.i][0]]) <= x.p.e || m.count + 1 > x.p.limit <==> h.stops(m.count)
  {
    var m := s.parent;
    var i := m.pc.i;
    assert At(x, h, s, i);
    var diffs := m.diffs[i := s.cp[i][0]];
    forall d | 0 <= d < |x.lo|
      ensures diffs[d] == h.change(d, m.count)
    {
      assert At(x, h, s, d);
    }
    ParentMaximum(x, h, diffs, m.count);
  }

  lemma OrderOk(x: Setup, h: History, s: Sys)
    requires x.Valid() && Inv(x, h, s) && Shape(x, s) && s.parent.pc.Order?
    ensures s.pc[s.parent.pc.i] == []
    ensures Inv(x, h, DoOrder(x, s))
  {
    var m := s.parent;
    var i := m.pc.i;
    assert At(x, h, s, i);
    assert s.pc[i] == [];
    var s' := DoOrder(x, s);
    forall d | 0 <= d < |x.lo|
      ensures Status(x, h, s'.parent, d, s.kids[d], s'.cp[d], s'.pc[d])
    {
      assert At(x, h, s, d);
    }
    ParentFrame(x, h, s, s');
  }

  lemma RowTaken(x: Setup, h: History, c: nat, k: nat, j: nat, ch: Kid, cp: seq<real>, pc: seq<int>)
    requires x.Valid() && Sized(x, h) && c < |x.lo| && j <= x.hi[c] && cp != [] && Sending(x, h, c, k, j, ch, cp, pc)
    ensures Pull(cp, x.p.n).0 == h.row(k, j)
    ensures Sending(x, h, c, k, j + 1, ch, Pull(cp, x.p.n).1, pc)
  {
    var b := if ch.pc.SendRow? then ch.pc.j else x.hi[c] + 1;
    assert j < b;
    RowsFront(h, k, j, b);
    assert Pull(cp, x.p.n) == (h.row(k, j), Rows(h, k, j + 1, b));
  }

  lemma GatherParent(x: Setup, h: History, m: Parent, row: Row)
    requires x.Valid() && ParentOk(x, h, m) && m.pc.Gather? && |row| == x.p.n && row == h.row(m.count, m.pc.j)
    ensures ParentOk(x, h, m.(u := m.u[m.pc.j := row],
                              pc := if m.pc.j < x.hi[m.pc.i] then Gather(m.pc.i, m.pc.j + 1)
                                    else if m.pc.i + 1 < |x.lo| then Gather(m.pc.i + 1, x.lo[m.pc.i + 1])
                                    else Finished))
  {
    if m.pc.i + 1 < |x.lo| {
      assert Adjacent(x.lo, x.hi, m.pc.i);
    }
  }

  lemma GatherOk(x: Setup, h: History, s: Sys)
    requires x.Valid() && Sized(x, h) && Inv(x, h, s) && Shape(x, s)
    requires s.parent.pc.Gather? && s.cp[s.parent.pc.i] != []
    ensures Inv(x, h, DoGather(x, s))
  {
    var m := s.parent;
    var i, j := m.pc.i, m.pc.j;
    var s' := DoGather(x, s);
    assert At(x, h, s, i);
    RowTaken(x, h, i, m.count, j, s.kids[i], s.cp[i], s.pc[i]);
    var row := h.row(m.count, j);
    assert Into(m.u[j], row) == row;
    GatherParent(x, h, m, row);
    forall d | 0 <= d < |x.lo|
      ensures Status(x, h, s'.parent, d, s.kids[d], s'.cp[d], s'.pc[d])
    {
      assert At(x, h, s, d);
    }
    ParentFrame(x, h, s, s');
  }

  // ----- every run -----

  lemma InitOk(x: Setup, h: History)
    requires x.Valid() && Sequential(x, h)
    ensures Inv(x, h, Init(x))
  {
    var s := Init(x);
    SequentialRows(x, h, 0, x.p.g0);
    forall c | 0 <= c < |x.lo|
      ensures At(x, h, s, c)
    {
    }
  }

  lemma KidStepOk(x: Setup, h: History, s: Sys, c: nat)
    requires x.Valid() && Sequential(x, h) && Sized(x, h)
    requires Inv(x, h, s) && Shape(x, s) && c < |x.lo| && KidReady(x, s, c)
    requires s.kids[c].pc.SendRow? ==> x.Fits(c)
    ensures Inv(x, h, KidStep(x, s, c))
  {
    match s.kids[c].pc
    case SendUp => SendUpOk(x, h, s, c);
    case SendDown => SendDownOk(x, h, s, c);
    case RecvAbove => RecvAboveOk(x, h, s, c);
    case RecvBelow => RecvBelowOk(x, h, s, c);
    case Sweep => SweepOk(x, h, s, c);
    case SendDiff => SendDiffOk(x, h, s, c);
    case RecvOrder => RecvOrderOk(x, h, s, c);
    case SendRow(_) =>
      RoomForRow(x, h, s, c);
      SendRowOk(x, h, s, c);
  }

  lemma ParentStepOk(x: Setup, h: History, s: Sys)
    requires x.Valid() && Sequential(x, h) && Sized(x, h)
    requires Inv(x, h, s) && Shape(x, s) && ParentReady(x, s)
    ensures Inv(x, h, ParentStep(x, s))
  {
    match s.parent.pc
    case Collect(i) =>
      if i + 1 == |x.lo| {
        Decision(x, h, s);
      }
      CollectOk(x, h, s, DoCollect(x, s).parent);
    case Order(_, _) => OrderOk(x, h, s);
    case Gather(_, _) => GatherOk(x, h, s);
  }

  ghost function SequentialHistory(x: Setup): (h: History)
    requires x.Valid()
  {
    var p, lo, hi := x.p, x.lo, x.hi;
    History((k: nat, i: nat) => if p.Valid() && i < p.n then After(p, k)[i] else [],
            (c: nat, k: nat) =>
              if p.Valid() && Division(p.n, lo, hi) && c < |lo| then RowsDiff(p, After(p, k), lo[c], hi[c]) else 0.0,
            (k: nat) => p.Valid() && Stops(p, k))
  }

  lemma SequentialHistoryIs(x: Setup)
    requires x.Valid()
    ensures Sequential(x, SequentialHistory(x)) && Sized(x, SequentialHistory(x))
  {
    var h := SequentialHistory(x);
    forall k: nat, i: nat | i < x.p.n
      ensures RowIs(x, h, k, i) && |h.row(k, i)| == x.p.n
    {
      assert h.row(k, i) == After(x.p, k)[i];
    }
    forall c: nat, k: nat | c < |x.lo|
      ensures ChangeIs(x, h, c, k)
    {
    }
    forall k: nat
      ensures StopIs(x, h, k)
    {
    }
  }
}
