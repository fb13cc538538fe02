/** The loops of log.c over the buffer cache and the disk, proved to issue exactly the block
    writes that RedoLog reasons about, in that order. */
module LogDevice {
  import opened Disk
  import opened RedoLog

  /** BSIZE / sizeof(uint) */
  const BWORDS: nat := 128

  /** The list recorded by a header block: a count, then that many block numbers. */
  function DecodeHead(w: Block): seq<nat> {
    if |w| > 0 && 0 <= w[0] < |w| then
      seq(w[0], i requires 0 <= i < w[0] => if w[1 + i] >= 0 then w[1 + i] as nat else 0)
    else []
  }

  function CopyWrites(l: Layout, vs: seq<Block>): (r: seq<Write>)
    ensures |r| == |vs|
  {
    seq(|vs|, i requires 0 <= i < |vs| => Data(l.logStart + 1 + i, vs[i]))
  }

  function InstallWrites(hs: seq<nat>, vs: seq<Block>): (r: seq<Write>)
    requires |hs| == |vs|
    ensures |r| == |hs|
  {
    seq(|hs|, i requires 0 <= i < |hs| => Data(hs[i], vs[i]))
  }

  /** A block of the log's own, behind the header: Bwrite reports it as Data. */
  lemma CommitWritesAre(l: Layout, hs: seq<nat>, vs: seq<Block>)
    requires |hs| == |vs| > 0
    ensures CommitWrites(l, hs, vs) == CopyWrites(l, vs) + [Head(hs)] + InstallWrites(hs, vs) + [Head([])]
  {
  }

  /** The log blocks that the header names. */
  ghost function Slots(l: Layout, d: Image): (vs: seq<Block>)
    requires Good(l, d)
    ensures |vs| == |d.head| && forall i :: 0 <= i < |vs| ==> vs[i] == Slot(l, d, i)
  {
    seq(|d.head|, i requires 0 <= i < |d.head| => Slot(l, d, i))
  }

  lemma RecoveryWritesAre(l: Layout, d: Image)
    requires Good(l, d)
    ensures RecoveryWrites(l, d) == InstallWrites(d.head, Slots(l, d)) + [Head([])]
  {
  }

  lemma Regroup(ws: seq<Write>, a: seq<Write>, b: seq<Write>, c: seq<Write>, d: seq<Write>)
    ensures ws + a + b + c + d == ws + (a + b + c + d)
  {
  }

  /** k of the writes ws have been issued after the writes before. */
  ghost predicate Issued(before: seq<Write>, ws: seq<Write>, k: nat, after: seq<Write>) {
    k <= |ws| && after == before + ws[..k]
  }

  lemma OneMore(before: seq<Write>, ws: seq<Write>, k: nat, after: seq<Write>)
    requires k < |ws| && after == before + ws[..k] + [ws[k]]
    ensures Issued(before, ws, k + 1, after)
  {
    assert ws[..k + 1] == ws[..k] + [ws[k]];
  }

  lemma AllIssued(before: seq<Write>, ws: seq<Write>, after: seq<Write>)
    requires Issued(before, ws, |ws|, after)
    ensures after == before + ws
  {
    assert ws[..|ws|] == ws;
  }

  /** The writes ws turn the disk d into r. */
  ghost predicate Replayed(d: Image, ws: seq<Write>, r: Image) { InRange(d, ws) && r == Apply(d, ws) }

  lemma ReplayOne(start: Image, ws: seq<Write>, d: Image, w: Write, r: Image)
    requires Replayed(start, ws, d) && (w.Data? ==> w.at < |d.blocks|) && r == Put(d, w)
    ensures Replayed(start, ws + [w], r)
  {
    ApplyOne(start, ws, w);
  }

  lemma Replay(start: Image, ws: seq<Write>, more: seq<Write>, d: Image, r: Image)
    requires Replayed(start, ws, d) && Replayed(start, ws + more, r)
    ensures Replayed(d, more, r)
  {
    ApplyAppend(start, ws, more);
  }

  class Log {
    const l: Layout
    var disk: seq<Block>
    var cache: map<nat, Block>   // valid buffers
    var dirty: set<nat>          // buffers with B_DIRTY set
    var n: nat                   // log.lh.n
    const block: array<nat>      // log.lh.block
    ghost const start: Image     // the disk at first
    ghost var writes: seq<Write> // every bwrite so far

    /** The disk is what the writes have made of it. */
    ghost predicate Traced()
      reads this`disk, this`writes
    {
      l.logStart < |disk| && Replayed(start, writes, View())
    }

    ghost predicate Valid()
      reads this, block
    {
      && l.Valid() && l.logMax + 1 < BWORDS && block.Length == l.logMax
      && n <= l.logMax
      && |disk| == l.diskSize
      && (forall i :: 0 <= i < |disk| ==> |disk[i]| == BWORDS)
      && (forall b :: b in cache ==> b < l.diskSize && |cache[b]| == BWORDS && (b !in dirty ==> cache[b] == disk[b]))
      && (forall b :: b in dirty ==> b in cache && l.Home(b))
      && Traced()
    }

    /** The disk with its header block decoded. */
    ghost function View(): Image
      reads this`disk
      requires l.logStart < |disk|
    {
      Image(disk[l.logStart := []], DecodeHead(disk[l.logStart]))
    }

    /** What initlog finds: any disk, with any header, and nothing cached or logged. */
    constructor (l: Layout, disk: seq<Block>)
      requires l.Valid() && l.logMax + 1 < BWORDS && |disk| == l.diskSize
      requires forall i :: 0 <= i < |disk| ==> |disk[i]| == BWORDS
      ensures Valid() && fresh(block) && this.l == l && this.disk == disk
      ensures cache == map[] && dirty == {} && n == 0 && writes == []
    {
      this.l, this.disk, cache, dirty, n := l, disk, map[], {}, 0;
      block := new nat[l.logMax];
      start, writes := Image(disk[l.logStart := []], DecodeHead(disk[l.logStart])), [];
    }

    /** The blocks of the current transaction. */
    ghost function Blocks(): seq<nat>
      reads this, block
      requires n <= block.Length
    {
      block[..n]
    }

    /** The latest contents of block b. */
    ghost function Contents(b: nat): Block
      reads this
      requires b < |disk|
    {
      if b in cache then cache[b] else disk[b]
    }

    /** The i-th block of the log area, behind the header. */
    ghost function LogBlock(i: nat): Block
      reads this
      requires l.logStart + 1 + i < |disk|
    {
      disk[l.logStart + 1 + i]
    }

    /** The first k log blocks hold vs. */
    ghost predicate Copied(vs: seq<Block>, k: nat)
      reads this
    {
      && k <= |vs| && l.logStart + k < |disk|
      && forall i :: 0 <= i < k ==> LogBlock(i) == vs[i]
    }

    /** The logged blocks are home blocks with the contents vs. */
    ghost predicate Holds(vs: seq<Block>)
      reads this, block
    {
      && |vs| == n <= block.Length
      && forall i :: 0 <= i < n ==> l.Home(block[i]) && block[i] < |disk| && Contents(block[i]) == vs[i]
    }

    /** bread */
    method Bread(b: nat) returns (data: Block)
      requires Valid() && b < l.diskSize
      modifies this`cache
      ensures Valid()
      ensures data == old(Contents(b)) && |data| == BWORDS
      ensures forall x :: 0 <= x < |disk| ==> Contents(x) == old(Contents(x))
    {
      if b !in cache {
        cache := cache[b := disk[b]];
      }
      data := cache[b];
    }

    /** bwrite of a buffer that now holds `data` */
    method Bwrite(b: nat, data: Block)
      requires Valid() && b < l.diskSize && |data| == BWORDS
      modifies this`disk, this`cache, this`dirty, this`writes
      ensures Valid()
      ensures disk == old(disk)[b := data] && dirty == old(dirty) - {b}
      ensures forall x :: 0 <= x < |disk| ==> Contents(x) == if x == b then data else old(Contents(x))
      ensures var w := if b == l.logStart then Head(DecodeHead(data)) else Data(b, data);
              && writes == old(writes) + [w]
              && (w.Data? ==> w.at < |old(View()).blocks|)
              && View() == Put(old(View()), w)
    {
      ghost var w := if b == l.logStart then Head(DecodeHead(data)) else Data(b, data);
      disk := disk[b := data];
      cache := cache[b := data];
      dirty := dirty - {b};
      writes := writes + [w];
      assert View().blocks == (if b == l.logStart then old(View()).blocks else old(View()).blocks[b := data]);
      ReplayOne(start, old(writes), old(View()), w, View());
    }

    method WriteHead()
      requires Valid()
      modifies this`disk, this`cache, this`dirty, this`writes
      ensures Valid() && dirty == old(dirty)
      ensures writes == old(writes) + [Head(Blocks())]
      ensures |disk| == |old(disk)|
      ensures forall i :: 0 <= i < l.logSize - 1 ==> LogBlock(i) == old(LogBlock(i))
    {
      var hb := Bread(l.logStart);
      hb := hb[0 := n];
      for i := 0 to n
        invariant |hb| == BWORDS && hb[0] == n
        invariant forall k :: 0 <= k < i ==> hb[1 + k] == block[k]
      {
        hb := hb[1 + i := block[i]];
      }
      assert DecodeHead(hb) == block[..n];
      Bwrite(l.logStart, hb);
    }

    /** One round of write_log. */
    method CopyOne(tail: nat)
      requires Valid() && tail < n && l.logStart + 1 + tail < l.logStart + l.logSize && l.Home(block[tail])
      modifies this`disk, this`cache, this`dirty, this`writes
      ensures Valid() && dirty == old(dirty)
      ensures |disk| == |old(disk)| && LogBlock(tail) == old(Contents(block[tail]))
      ensures forall i :: 0 <= i < n && i != tail && l.logStart + 1 + i < |disk| ==> LogBlock(i) == old(LogBlock(i))
      ensures writes == old(writes) + [Data(l.logStart + 1 + tail, old(Contents(block[tail])))]
      ensures forall x :: 0 <= x < |disk| && l.Home(x) ==> Contents(x) == old(Contents(x))
    {
      var to := Bread(l.logStart + tail + 1);
      var from := Bread(block[tail]);
      Bwrite(l.logStart + tail + 1, from);
    }

    /** The same, with the slots before it. */
    method CopyNext(tail: nat, ghost vs: seq<Block>)
      requires Valid() && tail < n <= l.logSize - 1 && Holds(vs) && Copied(vs, tail)
      modifies this`disk, this`cache, this`dirty, this`writes
      ensures Valid() && dirty == old(dirty) && Holds(vs) && Copied(vs, tail + 1)
      ensures writes == old(writes) + [Data(l.logStart + 1 + tail, vs[tail])]
    {
      CopyOne(tail);
    }

    /** Copies the cached contents `vs` of the logged blocks into the log. */
    method WriteLog(ghost vs: seq<Block>)
      requires Valid() && n <= l.logSize - 1 && |vs| == n
      requires Holds(vs)
      modifies this`disk, this`cache, this`dirty, this`writes
      ensures Valid() && dirty == old(dirty)
      ensures writes == old(writes) + CopyWrites(l, vs)
      ensures Copied(vs, n)
    {
      ghost var ws := CopyWrites(l, vs);
      var tail := 0;
      while tail < n
        invariant tail <= n && Valid() && dirty == old(dirty)
        invariant Issued(old(writes), ws, tail, writes) && Copied(vs, tail) && Holds(vs)
      {
        CopyNext(tail, vs);
        OneMore(old(writes), ws, tail, writes);
        tail := tail + 1;
      }
      AllIssued(old(writes), ws, writes);
    }

    /** One round of install_trans. */
    method InstallOne(tail: nat)
      requires Valid() && tail < n && l.logStart + 1 + tail < l.logStart + l.logSize && l.Home(block[tail])
      modifies this`disk, this`cache, this`dirty, this`writes
      ensures Valid() && dirty == old(dirty) - {block[tail]}
      ensures |disk| == |old(disk)|
      ensures forall i :: 0 <= i < l.logSize - 1 ==> LogBlock(i) == old(LogBlock(i))
      ensures writes == old(writes) + [Data(block[tail], old(LogBlock(tail)))]
    {
      var lbuf := Bread(l.logStart + tail + 1);
      var dbuf := Bread(block[tail]);
      Bwrite(block[tail], lbuf);
    }

    /** Copies the log blocks `vs` to their home locations. */
    method InstallTrans(ghost vs: seq<Block>)
      requires Valid() && n <= l.logSize - 1 && |vs| == n
      requires Copied(vs, n) && forall i :: 0 <= i < n ==> l.Home(block[i])
      modifies this`disk, this`cache, this`dirty, this`writes
      ensures Valid()
      ensures forall b :: b in dirty <==> b in old(dirty) && b !in Blocks()
      ensures writes == old(writes) + InstallWrites(Blocks(), vs)
    {
      ghost var ws := InstallWrites(Blocks(), vs);
      var tail := 0;
      while tail < n
        invariant tail <= n && Valid()
        invariant forall b :: b in dirty <==> b in old(dirty) && b !in block[..tail]
        invariant Issued(old(writes), ws, tail, writes) && Copied(vs, n)
      {
        InstallOne(tail);
        OneMore(old(writes), ws, tail, writes);
        assert block[..tail + 1] == block[..tail] + [block[tail]];
        tail := tail + 1;
      }
      AllIssued(old(writes), ws, writes);
    }

    /** The first half of commit, up to the header. */
    method LogTransaction(ghost vs: seq<Block>)
      requires Valid() && n <= l.logSize - 1 && Holds(vs)
      modifies this`disk, this`cache, this`dirty, this`writes
      ensures Valid() && dirty == old(dirty) && Copied(vs, n)
      ensures writes == old(writes) + CopyWrites(l, vs) + [Head(Blocks())]
    {
      WriteLog(vs);
      WriteHead();
    }

    /** The second half, and all of recovery: the home blocks, and the empty header. */
    method InstallAndClear(ghost vs: seq<Block>)
      requires Valid() && n <= l.logSize - 1 && |vs| == n
      requires Copied(vs, n) && forall i :: 0 <= i < n ==> l.Home(block[i])
      modifies this`disk, this`cache, this`dirty, this`writes, this`n
      ensures Valid() && n == 0
      ensures forall b :: b in dirty <==> b in old(dirty) && b !in old(Blocks())
      ensures writes == old(writes) + InstallWrites(old(Blocks()), vs) + [Head([])]
    {
      InstallTrans(vs);
      n := 0;
      WriteHead();
      assert Blocks() == [];
    }

    /** commit issues exactly the writes of RedoLog.CommitWrites, so that CrashAtomicity speaks of
        every point at which it can be cut short. */
    method Commit(ghost vs: seq<Block>)
      requires Valid() && Logged(l, Blocks()) && Holds(vs)
      modifies this`disk, this`cache, this`dirty, this`writes, this`n
      ensures Valid() && n == 0
      ensures writes == old(writes) + CommitWrites(l, old(Blocks()), vs)
      ensures Replayed(old(View()), CommitWrites(l, old(Blocks()), vs), View())
      ensures forall b :: b in dirty <==> b in old(dirty) && b !in old(Blocks())
    {
      ghost var hs, ws := Blocks(), writes;
      if n > 0 {
        LogTransaction(vs);
        InstallAndClear(vs);
        CommitWritesAre(l, hs, vs);
        Regroup(ws, CopyWrites(l, vs), [Head(hs)], InstallWrites(hs, vs), [Head([])]);
      }
      assert writes == ws + CommitWrites(l, hs, vs);
      Replay(start, ws, CommitWrites(l, hs, vs), old(View()), View());
    }

    /** Reads the header from the disk. */
    method ReadHead()
      requires Valid() && Good(l, View())
      modifies this`cache, this`n, block
      ensures Valid()
      ensures Blocks() == View().head
    {
      var lh := Bread(l.logStart);
      assert lh == disk[l.logStart];
      var hs := DecodeHead(lh);
      n := |hs|;
      for i := 0 to n
        invariant Valid() && n == |hs|
        invariant forall k :: 0 <= k < i ==> block[k] == hs[k]
      {
        block[i] := hs[i];
      }
      assert block[..n] == hs;
    }

    /** recover_from_log issues exactly the writes of RedoLog.RecoveryWrites. */
    method RecoverFromLog()
      requires Valid() && Good(l, View()) && dirty == {}
      modifies this`disk, this`cache, this`dirty, this`writes, this`n, block
      ensures Valid() && n == 0
      ensures writes == old(writes) + RecoveryWrites(l, old(View()))
      ensures Replayed(old(View()), RecoveryWrites(l, old(View())), View())
    {
      ghost var d, ws := View(), writes;
      ReadHead();
      ghost var vs := Slots(l, d);
      assert Copied(vs, n) by {
        assert forall i :: 0 <= i < n ==> LogBlock(i) == Slot(l, d, i);
      }
      InstallAndClear(vs);
      RecoveryWritesAre(l, d);
      assert writes == ws + RecoveryWrites(l, d);
      Replay(start, ws, RecoveryWrites(l, d), d, View());
    }

    /** log_write: false is the panic at its head. */
    method LogWrite(b: nat) returns (ok: bool)
      requires Valid() && b in cache && l.Home(b)
      modifies this`n, this`dirty, block
      ensures !ok <==> old(n) >= l.logMax || old(n) >= l.logSize - 1
      ensures ok ==>
                && Valid()
                && Blocks() == (if b in old(Blocks()) then old(Blocks()) else old(Blocks()) + [b])
                && dirty == old(dirty) + {b}
                && cache == old(cache) && disk == old(disk)
      ensures !ok ==> n == old(n) && dirty == old(dirty) && block[..] == old(block[..])
    {
      if n >= l.logMax || n >= l.logSize - 1 {
        return false;
      }
      var i := 0;
      while i < n && block[i] != b
        invariant i <= n
        invariant forall k :: 0 <= k < i ==> block[k] != b
      {
        i := i + 1;
      }
      block[i] := b;
      if i == n {
        n := n + 1;
      }
      dirty := dirty + {b};
      ok := true;
    }
  }
}
