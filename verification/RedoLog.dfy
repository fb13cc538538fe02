/** What the redo log of log.c writes, and what a crash can leave behind.

    A transaction is a list of distinct home blocks `hs` with their new contents `vs`.
    Committing it is one fixed list of block writes; recovery is another.  The theorems
    are about every prefix of those lists, that is, about a crash at every point. */
module RedoLog {
  import opened Disk

  /** The disk geometry the log needs: the disk's size, log.start, log.size and LOGSIZE. */
  datatype Layout = Layout(diskSize: nat, logStart: nat, logSize: nat, logMax: nat) {
    ghost predicate Valid() {
      1 <= logSize && logStart + logSize <= diskSize
    }

    /** A block outside the log area. */
    predicate Home(b: nat) {
      b < diskSize && !(logStart <= b < logStart + logSize)
    }
  }

  ghost predicate Distinct(s: seq<nat>) {
    forall i, j :: 0 <= i < j < |s| ==> s[i] != s[j]
  }

  /** A transaction that fits the header and the log area. */
  ghost predicate Logged(l: Layout, hs: seq<nat>) {
    && Distinct(hs)
    && |hs| <= l.logMax
    && |hs| <= l.logSize - 1
    && forall i :: 0 <= i < |hs| ==> l.Home(hs[i])
  }

  /** A disk the log can have produced. */
  ghost predicate Good(l: Layout, d: Image) {
    l.Valid() && |d.blocks| == l.diskSize && Logged(l, d.head)
  }

  // ----- what the home blocks mean -----

  function Find(hs: seq<nat>, b: nat): (i: nat)
    ensures i <= |hs|
    ensures i < |hs| ==> hs[i] == b
    ensures i == |hs| <==> b !in hs
  {
    if hs == [] then 0
    else if hs[0] == b then 0
    else 1 + Find(hs[1..], b)
  }

  /** Log block i, behind the header. */
  function Slot(l: Layout, d: Image, i: nat): Block
    requires l.logStart + 1 + i < |d.blocks|
  {
    d.blocks[l.logStart + 1 + i]
  }

  /** What block b holds once the disk `d` has been recovered. */
  ghost function RecoveredAt(l: Layout, d: Image, b: nat): Block
    requires Good(l, d) && b < l.diskSize
  {
    var i := Find(d.head, b);
    if i < |d.head| then Slot(l, d, i) else d.blocks[b]
  }

  /** The home blocks of `d` are those of `m`. */
  ghost predicate SameHome(l: Layout, d: Image, m: seq<Block>) {
    && |d.blocks| == |m| == l.diskSize
    && forall b :: 0 <= b < l.diskSize && l.Home(b) ==> d.blocks[b] == m[b]
  }

  /** Recovery would make the home blocks of `d` those of `m`. */
  ghost predicate Recovers(l: Layout, d: Image, m: seq<Block>)
    requires Good(l, d)
  {
    && |m| == l.diskSize
    && forall b :: 0 <= b < l.diskSize && l.Home(b) ==> RecoveredAt(l, d, b) == m[b]
  }

  /** `m` is `d` with the transaction carried out. */
  ghost predicate Updated(d: seq<Block>, hs: seq<nat>, vs: seq<Block>, m: seq<Block>) {
    && |hs| == |vs| && |m| == |d|
    && (forall i :: 0 <= i < |hs| ==> hs[i] < |m| && m[hs[i]] == vs[i])
    && (forall b :: 0 <= b < |m| && b !in hs ==> m[b] == d[b])
  }

  // ----- the writes of commit and of recovery -----

  /** commit: the copies into the log, the header, the home blocks, the empty header. */
  function CommitWrite(l: Layout, hs: seq<nat>, vs: seq<Block>, k: nat): Write
    requires |hs| == |vs| && k < 2 * |hs| + 2
  {
    if k < |hs| then Data(l.logStart + 1 + k, vs[k])
    else if k == |hs| then Head(hs)
    else if k < 2 * |hs| + 1 then Data(hs[k - |hs| - 1], vs[k - |hs| - 1])
    else Head([])
  }

  function CommitWrites(l: Layout, hs: seq<nat>, vs: seq<Block>): (r: seq<Write>)
    requires |hs| == |vs|
    ensures |r| == if hs == [] then 0 else 2 * |hs| + 2
  {
    if hs == [] then []
    else seq(2 * |hs| + 2, k requires 0 <= k < 2 * |hs| + 2 => CommitWrite(l, hs, vs, k))
  }

  /** recover_from_log: the home blocks from the log, then the empty header. */
  ghost function RecoveryWrites(l: Layout, d: Image): (r: seq<Write>)
    requires Good(l, d)
    ensures |r| == |d.head| + 1
  {
    seq(|d.head| + 1, k requires 0 <= k < |d.head| + 1 =>
      if k < |d.head| then Data(d.head[k], Slot(l, d, k)) else Head([]))
  }

  // ----- crash atomicity of commit -----

  /** The disk after k writes of the commit of (hs, vs) on `d`. */
  ghost predicate CommitShape(l: Layout, d: Image, hs: seq<nat>, vs: seq<Block>, k: nat, r: Image) {
    var n := |hs|;
    && |vs| == n && |r.blocks| == |d.blocks| == l.diskSize && l.logStart + n < l.diskSize
    && r.head == (if n < k < 2 * n + 2 then hs else [])
    && (forall i :: 0 <= i < n && i < k ==> Slot(l, r, i) == vs[i])
    && (forall b :: 0 <= b < l.diskSize && l.Home(b) && b !in hs ==> r.blocks[b] == d.blocks[b])
    && (forall i :: 0 <= i < n && hs[i] < l.diskSize ==>
          r.blocks[hs[i]] == if n + 1 + i < k then vs[i] else d.blocks[hs[i]])
  }

  lemma CommitShapeNext(l: Layout, d: Image, hs: seq<nat>, vs: seq<Block>, k: nat, p: Image)
    requires Good(l, d) && Logged(l, hs) && hs != [] && k < 2 * |hs| + 2
    requires CommitShape(l, d, hs, vs, k, p)
    ensures var w := CommitWrite(l, hs, vs, k);
            && (w.Data? ==> w.at < |p.blocks|)
            && CommitShape(l, d, hs, vs, k + 1, Put(p, w))
  {
    var r := Put(p, CommitWrite(l, hs, vs, k));
    forall i | 0 <= i < |hs| && i < k + 1
      ensures Slot(l, r, i) == vs[i]
    {
      if i < k {
        assert Slot(l, p, i) == vs[i];
      }
    }
  }

  lemma {:induction false} CommitPrefix(l: Layout, d: Image, hs: seq<nat>, vs: seq<Block>, k: nat)
    requires Good(l, d) && d.head == [] && Logged(l, hs) && |vs| == |hs|
    requires k <= |CommitWrites(l, hs, vs)|
    ensures InRange(d, CommitWrites(l, hs, vs))
    ensures CommitShape(l, d, hs, vs, k, Apply(d, CommitWrites(l, hs, vs)[..k]))
  {
    if k == 0 {
      assert CommitWrites(l, hs, vs)[..0] == [];
    } else {
      CommitPrefix(l, d, hs, vs, k - 1);
      ApplyNext(d, CommitWrites(l, hs, vs), k - 1);
      CommitShapeNext(l, d, hs, vs, k - 1, Apply(d, CommitWrites(l, hs, vs)[..k - 1]));
    }
  }

  lemma CommitShapeMeaning(l: Layout, d: Image, hs: seq<nat>, vs: seq<Block>, m: seq<Block>, k: nat, r: Image)
    requires Good(l, d) && d.head == [] && Logged(l, hs) && Updated(d.blocks, hs, vs, m)
    requires CommitShape(l, d, hs, vs, k, r)
    ensures Good(l, r)
    ensures Recovers(l, r, if k <= |hs| then d.blocks else m)
    ensures 2 * |hs| + 1 < k || hs == [] ==> r.head == [] && SameHome(l, r, m)
  {
    forall b | 0 <= b < l.diskSize && l.Home(b)
      ensures RecoveredAt(l, r, b) == (if k <= |hs| then d.blocks else m)[b]
      ensures 2 * |hs| + 1 < k || hs == [] ==> r.blocks[b] == m[b]
    {
      var i := Find(hs, b);
      if i < |hs| {
        assert r.blocks[hs[i]] == if |hs| + 1 + i < k then vs[i] else d.blocks[hs[i]];
        assert m[hs[i]] == vs[i];
        if i < k {
          assert Slot(l, r, i) == vs[i];
        }
      }
    }
  }

  /** After any number k of commit's writes, recovery would see all the old home blocks or
      all the new ones: the new ones exactly when the header write landed. */
  lemma CrashInCommit(l: Layout, d: Image, hs: seq<nat>, vs: seq<Block>, m: seq<Block>, k: nat)
    requires Good(l, d) && d.head == [] && Logged(l, hs) && Updated(d.blocks, hs, vs, m)
    requires k <= |CommitWrites(l, hs, vs)|
    ensures InRange(d, CommitWrites(l, hs, vs))
    ensures var r := Apply(d, CommitWrites(l, hs, vs)[..k]);
            && Good(l, r)
            && Recovers(l, r, if k <= |hs| then d.blocks else m)
            && (k == |CommitWrites(l, hs, vs)| ==> r.head == [] && SameHome(l, r, m))
  {
    CommitPrefix(l, d, hs, vs, k);
    CommitShapeMeaning(l, d, hs, vs, m, k, Apply(d, CommitWrites(l, hs, vs)[..k]));
  }

  // ----- recovery -----

  /** The disk after k writes of the recovery of `d`. */
  ghost predicate RecoveryShape(l: Layout, d: Image, k: nat, r: Image)
    requires Good(l, d)
  {
    var n := |d.head|;
    && |r.blocks| == l.diskSize
    && r.head == (if k <= n then d.head else [])
    && (forall i :: 0 <= i < n ==> Slot(l, r, i) == Slot(l, d, i))
    && (forall b :: 0 <= b < l.diskSize && l.Home(b) && b !in d.head ==> r.blocks[b] == d.blocks[b])
    && (forall i :: 0 <= i < n ==>
          r.blocks[d.head[i]] == if i < k then Slot(l, d, i) else d.blocks[d.head[i]])
  }

  lemma RecoveryShapeNext(l: Layout, d: Image, k: nat, p: Image)
    requires Good(l, d) && k <= |d.head| && RecoveryShape(l, d, k, p)
    ensures k < |d.head| ==> Slot(l, p, k) == Slot(l, d, k)
    ensures RecoveryShape(l, d, k + 1, Put(p, RecoveryWrites(l, d)[k]))
  {
    var r := Put(p, RecoveryWrites(l, d)[k]);
    forall i | 0 <= i < |d.head|
      ensures Slot(l, r, i) == Slot(l, d, i)
    {
      assert Slot(l, p, i) == Slot(l, d, i);
    }
  }

  lemma {:induction false} RecoveryPrefix(l: Layout, d: Image, k: nat)
    requires Good(l, d) && k <= |RecoveryWrites(l, d)|
    ensures InRange(d, RecoveryWrites(l, d))
    ensures RecoveryShape(l, d, k, Apply(d, RecoveryWrites(l, d)[..k]))
  {
    if k == 0 {
      assert RecoveryWrites(l, d)[..0] == [];
    } else {
      RecoveryPrefix(l, d, k - 1);
      ApplyNext(d, RecoveryWrites(l, d), k - 1);
      RecoveryShapeNext(l, d, k - 1, Apply(d, RecoveryWrites(l, d)[..k - 1]));
    }
  }

  lemma RecoveryShapeMeaning(l: Layout, d: Image, k: nat, r: Image)
    requires Good(l, d) && RecoveryShape(l, d, k, r)
    ensures Good(l, r)
    ensures forall b :: 0 <= b < l.diskSize && l.Home(b) ==> RecoveredAt(l, r, b) == RecoveredAt(l, d, b)
    ensures |d.head| < k ==> forall b :: 0 <= b < l.diskSize && l.Home(b) ==> r.blocks[b] == RecoveredAt(l, d, b)
  {
    forall b | 0 <= b < l.diskSize && l.Home(b)
      ensures RecoveredAt(l, r, b) == RecoveredAt(l, d, b)
      ensures |d.head| < k ==> r.blocks[b] == RecoveredAt(l, d, b)
    {
      var i := Find(d.head, b);
      if i < |d.head| {
        assert Slot(l, r, i) == Slot(l, d, i);
        assert r.blocks[d.head[i]] == if i < k then Slot(l, d, i) else d.blocks[d.head[i]];
      }
    }
  }

  /** A recovery cut short after k writes leaves a disk that means the same; a completed one
      leaves the home blocks in place and an empty log. */
  lemma CrashInRecovery(l: Layout, d: Image, m: seq<Block>, k: nat)
    requires Good(l, d) && Recovers(l, d, m) && k <= |RecoveryWrites(l, d)|
    ensures InRange(d, RecoveryWrites(l, d))
    ensures var r := Apply(d, RecoveryWrites(l, d)[..k]);
            && Good(l, r)
            && Recovers(l, r, m)
            && (k == |RecoveryWrites(l, d)| ==> r.head == [] && SameHome(l, r, m))
  {
    RecoveryPrefix(l, d, k);
    RecoveryShapeMeaning(l, d, k, Apply(d, RecoveryWrites(l, d)[..k]));
  }

  /** `r` is reached from `d` by recovery attempts cut short after ks[0], ks[1], ... writes. */
  ghost predicate Interrupted(l: Layout, d: Image, ks: seq<nat>, r: Image)
    decreases |ks|
  {
    if ks == [] then r == d
    else
      && Good(l, d)
      && ks[0] <= |RecoveryWrites(l, d)|
      && InRange(d, RecoveryWrites(l, d))
      && Interrupted(l, Apply(d, RecoveryWrites(l, d)[..ks[0]]), ks[1..], r)
  }

  lemma {:induction false} InterruptedKeepsMeaning(l: Layout, d: Image, ks: seq<nat>, r: Image, m: seq<Block>)
    requires Good(l, d) && Recovers(l, d, m) && Interrupted(l, d, ks, r)
    ensures Good(l, r) && Recovers(l, r, m)
    decreases |ks|
  {
    if ks != [] {
      CrashInRecovery(l, d, m, ks[0]);
      InterruptedKeepsMeaning(l, Apply(d, RecoveryWrites(l, d)[..ks[0]]), ks[1..], r, m);
    }
  }

  /** The whole law: a crash after any k writes of a commit, then any number of interrupted
      recoveries, then one completed recovery, leaves exactly the old home blocks if the header
      write had not landed and exactly the new ones if it had, with an empty log. */
  lemma CrashAtomicity(l: Layout, d: Image, hs: seq<nat>, vs: seq<Block>, m: seq<Block>, k: nat,
                       ks: seq<nat>, r: Image)
    requires Good(l, d) && d.head == [] && Logged(l, hs) && Updated(d.blocks, hs, vs, m)
    requires k <= |CommitWrites(l, hs, vs)| && InRange(d, CommitWrites(l, hs, vs))
    requires Interrupted(l, Apply(d, CommitWrites(l, hs, vs)[..k]), ks, r)
    ensures Good(l, r) && InRange(r, RecoveryWrites(l, r))
    ensures var final := Apply(r, RecoveryWrites(l, r));
            final.head == [] && SameHome(l, final, if k <= |hs| then d.blocks else m)
  {
    var meaning := if k <= |hs| then d.blocks else m;
    CrashInCommit(l, d, hs, vs, m, k);
    InterruptedKeepsMeaning(l, Apply(d, CommitWrites(l, hs, vs)[..k]), ks, r, meaning);
    var rw := RecoveryWrites(l, r);
    CrashInRecovery(l, r, meaning, |rw|);
    assert rw[..|rw|] == rw;
  }
}
