/** fs.c and file.c over a flat store of blocks: the block allocator, the map from a file's blocks to
    the disk, reading, writing and truncating files, and the blocks each call logs.

    A block is kept both as bytes and as the words it holds when it is an indirect block; no block
    is used both ways.  A bit of the bitmap is a bool. */
module FileSystem {
  import opened BlockOwnership
  import opened FileContent
  import opened SetSizes

  const BPB: nat := 4096
  const IPB: nat := 8

  /** A uint holds less than this. */
  const UINTS: nat := 0x1_0000_0000

  datatype Dinode = Dinode(kind: nat, nlink: nat, size: nat, addrs: seq<nat>)

  function ZeroBytes(): (z: seq<Byte>)
    ensures |z| == BSIZE && forall k :: 0 <= k < BSIZE ==> z[k] == 0
  {
    seq(BSIZE, _ => 0)
  }

  class Files {
    const meta: nat         // the blocks before the data blocks
    const bmapstart: nat
    const inodestart: nat
    var used: seq<bool>
    var bytes: map<nat, seq<Byte>>
    var table: Table
    var addrs: Addrs        // the fields of the cached inodes
    var sizes: seq<nat>
    var kinds: seq<nat>     // 0 is a free inode
    var nlinks: seq<nat>
    var refs: seq<nat>
    var valid: seq<bool>
    var disk: seq<Dinode>   // the inodes on disk
    ghost var own: map<nat, Place>
    ghost var logged: set<nat>

    /** What every operation keeps throughout. */
    ghost predicate Core()
      reads this`used, this`bytes, this`table, this`addrs, this`own
    {
      && Owned(addrs, table, own) && BitsExact(used, meta, own)
      && Full(own, bytes)
    }

    /** A disk of `size` blocks with n inodes and no files. */
    constructor (meta: nat, size: nat, n: nat, bmapstart: nat, inodestart: nat)
      requires 1 <= meta <= size
      ensures Valid() && |addrs| == n && |used| == size && own == map[]
      ensures forall i :: 0 <= i < n ==> FileOk(i) && File(i) == []
    {
      this.meta, this.bmapstart, this.inodestart := meta, bmapstart, inodestart;
      used := seq(size, b => b < meta);
      bytes, table := map[], map[];
      addrs, sizes := seq(n, _ => seq(NDIRECT + 1, _ => 0)), seq(n, _ => 0);
      kinds, nlinks, refs, valid := seq(n, _ => 0), seq(n, _ => 0), seq(n, _ => 0), seq(n, _ => false);
      disk := seq(n, _ => Dinode(0, 0, 0, seq(NDIRECT + 1, _ => 0)));
      own, logged := map[], {};
      new;
      forall i, k | 0 <= i < n && 0 <= k < SLOTS
        ensures At(addrs, table, i, k) == 0
      {
      }
      forall i, k | 0 <= i < n && 0 <= k < SLOTS
        ensures Placed(addrs, table, own, i, k) && PresentAt(addrs, table, i, k, 0)
      {
      }
    }

    function Bblock(b: nat): nat { bmapstart + b / BPB }

    function Iblock(i: nat): nat { inodestart + i / IPB }

    /** balloc: the lowest free block, zeroed; false when there is none and the kernel stops. */
    method Balloc() returns (ok: bool, b: nat)
      modifies this`used, this`bytes, this`table, this`logged
      ensures ok <==> exists c :: 0 <= c < |old(used)| && !old(used)[c]
      ensures !ok ==> unchanged(this)
      ensures ok ==> b < |old(used)| && !old(used)[b] && forall c :: 0 <= c < b ==> old(used)[c]
      ensures ok ==> used == old(used)[b := true] && bytes == old(bytes)[b := ZeroBytes()]
      ensures ok ==> table == old(table)[b := Zeros()] && logged == old(logged) + {Bblock(b), b}
    {
      b := 0;
      while b < |used|
        invariant unchanged(this)
        invariant forall c :: 0 <= c < b && c < |used| ==> used[c]
      {
        var bi := 0;
        while bi < BPB && b + bi < |used|
          invariant unchanged(this) && bi <= BPB
          invariant forall c :: 0 <= c < b + bi && c < |used| ==> used[c]
        {
          if !used[b + bi] {
            b := b + bi;
            used := used[b := true];
            logged := logged + {Bblock(b)};
            Bzero(b);
            return true, b;
          }
          bi := bi + 1;
        }
        b := b + BPB;
      }
      ok := false;
    }

    method Bzero(b: nat)
      modifies this`bytes, this`table, this`logged
      ensures bytes == old(bytes)[b := ZeroBytes()] && table == old(table)[b := Zeros()] && logged == old(logged) + {b}
    {
      bytes := bytes[b := ZeroBytes()];
      table := table[b := Zeros()];
      logged := logged + {b};
    }

    /** One of the NDIRECT + 1 addresses of the inode, with a block for it if it has none. */
    method Address(i: nat, k: nat) returns (ok: bool, addr: nat)
      requires Core() && i < |addrs| && k <= NDIRECT
      modifies this`used, this`bytes, this`table, this`addrs, this`own, this`logged
      ensures ok ==> Core() && Kept(old(addrs), old(table), addrs, table, i, k)
      ensures ok ==> addr == At(addrs, table, i, k) != 0 && SameOwned(old(own), old(bytes), bytes)
                     && old(own.Keys) <= own.Keys
      ensures old(addrs[i][k]) != 0 ==> ok && unchanged(this)
      ensures old(addrs[i][k]) == 0 ==> (ok <==> FreeBits(old(used)) > 0)
      ensures ok && old(addrs[i][k]) == 0 ==> FreeBits(used) + 1 == FreeBits(old(used))
      ensures ok && old(addrs[i][k]) == 0 ==> logged == old(logged) + {Bblock(addr), addr}
    {
      KeptSame(addrs, table, i, k);
      ok, addr := true, addrs[i][k];
      if addr == 0 {
        ok, addr := Balloc();
        if !ok {
          NoFreeBits(used);
          return;
        }
        FreeBitsTaken(old(used), addr);
        BitsTaken(old(used), meta, own, addr, Place(i, k));
        DirectOwned(addrs, old(table), own, i, k, addr);
        DirectKept(addrs, old(table), own, i, k, addr);
        addrs := WithAddr(addrs, i, k, addr);
        own := own[addr := Place(i, k)];
      }
    }

    /** Entry j of the indirect block of the inode, with a block for it if it has none. */
    method IndirectEntry(i: nat, j: nat) returns (ok: bool, addr: nat)
      requires Core() && i < |addrs| && j < NINDIRECT && addrs[i][NDIRECT] != 0
      modifies this`used, this`bytes, this`table, this`own, this`logged
      ensures ok ==> Core() && Kept(old(addrs), old(table), addrs, table, i, NDIRECT + 1 + j)
      ensures ok ==> addr == At(addrs, table, i, NDIRECT + 1 + j) != 0 && SameOwned(old(own), old(bytes), bytes)
                     && old(own.Keys) <= own.Keys
      ensures old(At(addrs, table, i, NDIRECT + 1 + j)) != 0 ==> ok && unchanged(this)
      ensures old(At(addrs, table, i, NDIRECT + 1 + j)) == 0 ==> (ok <==> FreeBits(old(used)) > 0)
      ensures ok && old(At(addrs, table, i, NDIRECT + 1 + j)) == 0 ==> FreeBits(used) + 1 == FreeBits(old(used))
      ensures ok && old(At(addrs, table, i, NDIRECT + 1 + j)) == 0 ==>
        logged == old(logged) + {Bblock(addr), addr, addrs[i][NDIRECT]}
    {
      KeptSame(addrs, table, i, NDIRECT + 1 + j);
      var t := addrs[i][NDIRECT];
      assert Placed(addrs, table, own, i, NDIRECT) && Backed(addrs, table, own, t);
      ok, addr := true, table[t][j];
      if addr == 0 {
        ok, addr := Balloc();
        if !ok {
          NoFreeBits(used);
          return;
        }
        FreeBitsTaken(old(used), addr);
        BitsTaken(old(used), meta, own, addr, Place(i, NDIRECT + 1 + j));
        EntryOwned(addrs, old(table), own, i, t, j, addr);
        EntryKept(addrs, old(table), own, i, t, j, addr);
        var a: seq<nat> := table[t];
        a := a[j := addr];
        table := table[t := a];
        own := own[addr := Place(i, NDIRECT + 1 + j)];
        logged := logged + {t};
      }
    }

    /** The blocks that mapping block bn of file i logs. */
    ghost function MapLog(i: nat, bn: nat, hadIndirect: bool, addr: nat): set<nat>
      requires Inodes(addrs) && i < |addrs|
      reads this`addrs
    {
      var t := addrs[i][NDIRECT];
      {Bblock(addr), addr} + if bn < NDIRECT then {} else if hadIndirect then {t} else {Bblock(t), t}
    }

    /** The blocks that mapping block bn of file i allocates. */
    ghost function MapCost(i: nat, bn: nat): nat
      requires Inodes(addrs) && i < |addrs| && bn < MAXFILE
      reads this`addrs, this`table
    {
      (if At(addrs, table, i, DataSlot(bn)) == 0 then 1 else 0)
      + (if bn >= NDIRECT && At(addrs, table, i, NDIRECT) == 0 then 1 else 0)
    }

    /** bmap: the block for block bn of file i, allocated if there is none; false when the kernel stops. */
    method Bmap(i: nat, bn: nat) returns (ok: bool, addr: nat)
      requires Core() && i < |addrs|
      modifies this`used, this`bytes, this`table, this`addrs, this`own, this`logged
      ensures bn >= MAXFILE ==> !ok
      ensures ok ==> Core() && Kept(old(addrs), old(table), addrs, table, i, DataSlot(bn))
      ensures ok ==> addr == At(addrs, table, i, DataSlot(bn)) != 0 && SameOwned(old(own), old(bytes), bytes)
                     && old(own.Keys) <= own.Keys
      ensures bn < MAXFILE && old(At(addrs, table, i, DataSlot(bn))) != 0 ==> ok && unchanged(this)
      ensures bn < MAXFILE ==> (ok <==> FreeBits(old(used)) >= old(MapCost(i, bn)))
      ensures ok ==> FreeBits(used) + old(MapCost(i, bn)) == FreeBits(old(used))
      ensures ok && old(At(addrs, table, i, DataSlot(bn))) == 0 ==>
        logged == old(logged) + MapLog(i, bn, old(addrs[i][NDIRECT]) != 0, addr)
    {
      if bn < NDIRECT {
        ok, addr := Address(i, bn);
        return;
      }
      if bn - NDIRECT < NINDIRECT {
        ok, addr := Address(i, NDIRECT);
        if ok {
          ghost var addrs1, table1 := addrs, table;
          assert KeptAt(old(addrs), old(table), addrs1, table1, i, NDIRECT, i, bn + 1);
          ok, addr := IndirectEntry(i, bn - NDIRECT);
          if ok {
            KeptBoth(old(addrs), old(table), addrs1, table1, addrs, table, i, bn + 1);
          }
        }
        return;
      }
      ok, addr := false, 0;
    }

    // ----- files -----

    ghost predicate Shaped()
      reads this`used, this`bytes, this`table, this`addrs, this`own, this`sizes, this`kinds, this`nlinks, this`disk
    {
      Core() && |sizes| == |kinds| == |nlinks| == |addrs| == |disk|
    }

    /** The inode on disk is the one in memory. */
    predicate OnDisk(j: nat)
      requires j < |sizes| == |kinds| == |nlinks| == |addrs| == |disk|
      reads this`addrs, this`sizes, this`kinds, this`nlinks, this`disk
    {
      disk[j] == Dinode(kinds[j], nlinks[j], sizes[j], addrs[j])
    }

    /** File j has exactly the blocks it needs, and its inode on disk is up to date. */
    ghost predicate FileOk(j: nat)
      requires Inodes(addrs) && |sizes| == |kinds| == |nlinks| == |addrs| == |disk| && j < |addrs|
      reads this`addrs, this`table, this`sizes, this`kinds, this`nlinks, this`disk
    {
      sizes[j] <= MAXBYTES && Exact(addrs, table, j, sizes[j]) && OnDisk(j)
    }

    ghost predicate Valid()
      reads this`used, this`bytes, this`table, this`addrs, this`own, this`sizes, this`kinds, this`nlinks, this`disk
    {
      Shaped() && forall j {:trigger FileOk(j)} :: 0 <= j < |addrs| ==> FileOk(j)
    }

    /** File i is being written, and has the blocks of len bytes. */
    ghost predicate Writing(i: nat, len: nat)
      reads this`used, this`bytes, this`table, this`addrs, this`own, this`sizes, this`kinds, this`nlinks, this`disk
    {
      && Shaped() && i < |addrs| && sizes[i] <= MAXBYTES && len <= MAXBYTES && Exact(addrs, table, i, len)
      && forall j {:trigger FileOk(j)} :: 0 <= j < |addrs| && j != i ==> FileOk(j)
    }

    ghost function Data(j: nat, len: nat): seq<Byte>
      requires Inodes(addrs) && j < |addrs| && len <= MAXBYTES
      reads this`bytes, this`addrs, this`table
    {
      Content(bytes, addrs, table, j, len)
    }

    /** The bytes of a file. */
    ghost function File(j: nat): seq<Byte>
      requires Inodes(addrs) && |sizes| == |addrs| && j < |addrs| && sizes[j] <= MAXBYTES
      reads this`bytes, this`addrs, this`table, this`sizes
    {
      Content(bytes, addrs, table, j, sizes[j])
    }

    /** What mapping a block of a growing file costs, in terms of the lengths. */
    lemma CostOfMap(i: nat, off: nat, e: nat)
      requires Inodes(addrs) && i < |addrs| && |sizes| == |addrs| && Exact(addrs, table, i, MaxNat(sizes[i], off))
      requires off <= sizes[i] || off % BSIZE == 0
      requires off < e <= MAXBYTES && e <= (off / BSIZE + 1) * BSIZE
      ensures off / BSIZE < MAXFILE
      ensures MapCost(i, off / BSIZE) + BlocksFor(MaxNat(sizes[i], off)) == BlocksFor(MaxNat(sizes[i], e))
    {
      var len := MaxNat(sizes[i], off);
      BlocksGrow(sizes[i], off, e);
      assert PresentAt(addrs, table, i, DataSlot(off / BSIZE), len) && PresentAt(addrs, table, i, NDIRECT, len);
    }

    /** The block for the bytes off..e-1 of file i is there, and no file has changed. */
    method MapForWrite(i: nat, off: nat, e: nat) returns (ok: bool, b: nat)
      requires i < |addrs| && |sizes| == |addrs| && Writing(i, MaxNat(sizes[i], off))
      requires off <= sizes[i] || off % BSIZE == 0
      requires off < e <= MAXBYTES && e <= (off / BSIZE + 1) * BSIZE
      modifies this`used, this`bytes, this`table, this`addrs, this`own, this`logged
      ensures ok ==> |addrs| == old(|addrs|) && Writing(i, MaxNat(sizes[i], e))
                     && b == At(addrs, table, i, DataSlot(off / BSIZE)) != 0 && b in own
      ensures ok ==> Data(i, MaxNat(sizes[i], off)) == old(Data(i, MaxNat(sizes[i], off)))
      ensures ok ==> forall j :: 0 <= j < |addrs| && j != i ==> FileOk(j) && File(j) == old(File(j))
      ensures off / BSIZE * BSIZE < MaxNat(sizes[i], off) ==> ok && unchanged(this)
      ensures ok && off / BSIZE * BSIZE >= MaxNat(sizes[i], off) ==>
        logged == old(logged) + MapLog(i, off / BSIZE, old(addrs[i][NDIRECT]) != 0, b)
      ensures ok && old(addrs[i][NDIRECT]) != 0 ==> addrs[i][NDIRECT] == old(addrs[i][NDIRECT])
      ensures ok <==> FreeBits(old(used)) + BlocksFor(MaxNat(sizes[i], off)) >= BlocksFor(MaxNat(sizes[i], e))
      ensures ok ==>
        FreeBits(used) + BlocksFor(MaxNat(sizes[i], e)) == FreeBits(old(used)) + BlocksFor(MaxNat(sizes[i], off))
    {
      assert off / BSIZE < MAXFILE;
      ghost var size := sizes[i];
      assert PresentAt(addrs, table, i, DataSlot(off / BSIZE), MaxNat(size, off));
      CostOfMap(i, off, e);
      ok, b := Bmap(i, off / BSIZE);
      if !ok {
        return;
      }
      assert Placed(addrs, table, own, i, DataSlot(off / BSIZE));
      assert KeptAt(old(addrs), old(table), addrs, table, i, DataSlot(off / BSIZE), i, NDIRECT);
      ExactGrow(old(addrs), old(table), addrs, table, i, size, off, e);
      ContentKept(old(bytes), old(addrs), old(table), old(own), bytes, addrs, table, i, DataSlot(off / BSIZE), i,
                  MaxNat(size, off));
      forall j | 0 <= j < |addrs| && j != i
        ensures FileOk(j) && File(j) == old(File(j))
      {
        assert old(FileOk(j));
        ExactKept(old(addrs), old(table), addrs, table, i, DataSlot(off / BSIZE), j, sizes[j]);
        ContentKept(old(bytes), old(addrs), old(table), old(own), bytes, addrs, table, i, DataSlot(off / BSIZE), j,
                    sizes[j]);
      }
    }

    /** One turn of the loop of writei: the part of a write that falls into one block. */
    method WriteChunk(i: nat, off: nat, part: seq<Byte>) returns (ok: bool, b: nat)
      requires i < |addrs| && |sizes| == |addrs| && Writing(i, MaxNat(sizes[i], off))
      requires off <= sizes[i] || off % BSIZE == 0
      requires 1 <= |part| <= BSIZE - off % BSIZE && off + |part| <= MAXBYTES
      modifies this`used, this`bytes, this`table, this`addrs, this`own, this`logged
      ensures ok ==> |addrs| == old(|addrs|) && Writing(i, MaxNat(sizes[i], off + |part|))
      ensures ok ==> Data(i, MaxNat(sizes[i], off + |part|))
                     == Overwrite(old(Data(i, MaxNat(sizes[i], off))), off, part)
      ensures ok ==> forall j :: 0 <= j < |addrs| && j != i ==> FileOk(j) && File(j) == old(File(j))
      ensures off / BSIZE * BSIZE < MaxNat(sizes[i], off) ==>
        ok && addrs == old(addrs) && table == old(table) && own == old(own) && logged == old(logged) + {b}
      ensures ok && off / BSIZE * BSIZE >= MaxNat(sizes[i], off) ==>
        logged == old(logged) + MapLog(i, off / BSIZE, old(addrs[i][NDIRECT]) != 0, b)
      ensures ok && old(addrs[i][NDIRECT]) != 0 ==> addrs[i][NDIRECT] == old(addrs[i][NDIRECT])
      ensures ok <==>
        FreeBits(old(used)) + BlocksFor(MaxNat(sizes[i], off)) >= BlocksFor(MaxNat(sizes[i], off + |part|))
      ensures ok ==>
        FreeBits(used) + BlocksFor(MaxNat(sizes[i], off + |part|))
        == FreeBits(old(used)) + BlocksFor(MaxNat(sizes[i], off))
    {
      ok, b := MapForWrite(i, off, off + |part|);
      if !ok {
        return;
      }
      SpliceBlock(i, off, part, b);
    }

    /** memmove into the block, and log_write. */
    method SpliceBlock(i: nat, off: nat, part: seq<Byte>, b: nat)
      requires i < |addrs| && |sizes| == |addrs| && off + |part| <= MAXBYTES && off < MAXBYTES
      requires Writing(i, MaxNat(sizes[i], off + |part|)) && |part| <= BSIZE - off % BSIZE
      requires b == At(addrs, table, i, DataSlot(off / BSIZE)) != 0 && b in own
      modifies this`bytes, this`logged
      ensures Writing(i, MaxNat(sizes[i], off + |part|)) && logged == old(logged) + {b}
      ensures Data(i, MaxNat(sizes[i], off + |part|)) == Overwrite(old(Data(i, MaxNat(sizes[i], off))), off, part)
      ensures forall j :: 0 <= j < |addrs| && j != i ==> FileOk(j) && File(j) == old(File(j))
    {
      ContentSpliced(bytes, addrs, table, own, i, off, part, b, sizes[i], MaxNat(sizes[i], off + |part|));
      forall j | 0 <= j < |addrs| && j != i
        ensures FileOk(j) && Content(bytes[b := Spliced(bytes[b], off % BSIZE, part)], addrs, table, j, sizes[j])
                == File(j)
      {
        assert FileOk(j);
        ContentOther(bytes, addrs, table, own, i, off, part, b, j, sizes[j]);
      }
      bytes := bytes[b := Spliced(bytes[b], off % BSIZE, part)];
      logged := logged + {b};
      forall j | 0 <= j < |addrs| && j != i
        ensures FileOk(j)
      {
        assert old(FileOk(j));
      }
    }

    // ----- how many blocks a write logs -----

    ghost function IndirectBlocks(t: nat): set<nat> {
      if t == 0 then {} else {t, Bblock(t)}
    }

    /** File i has the blocks of len bytes, which are `data`, and `since` then allows for c data and a bitmap blocks. */
    ghost predicate Stage(i: nat, len: nat, data: seq<Byte>, since: set<nat>, c: nat, a: nat)
      reads this`used, this`bytes, this`table, this`addrs, this`own, this`sizes, this`kinds, this`nlinks, this`disk,
            this`logged
    {
      && Writing(i, len) && Data(i, len) == data
      && LoggedAtMost(logged, since, IndirectBlocks(addrs[i][NDIRECT]), c, a)
    }

    /** One turn, up to byte e, from the bytes `before` to the bytes `after`, with its share of the log: c' and a'
        allow for one more block. */
    method WriteTurn(i: nat, off: nat, part: seq<Byte>, ghost e: nat, ghost before: seq<Byte>, ghost after: seq<Byte>,
                     ghost since: set<nat>, ghost c: nat, ghost a: nat, ghost c': nat, ghost a': nat)
      returns (ok: bool)
      requires i < |sizes| && Stage(i, MaxNat(sizes[i], off), before, since, c, a)
      requires off <= sizes[i] || off % BSIZE == 0
      requires 1 <= |part| <= BSIZE - off % BSIZE && off + |part| == e <= MAXBYTES
      requires off <= |before| && after == Overwrite(before, off, part)
      requires c' == c + 1 && a' >= if Missing(sizes[i], off) then a + 1 else a
      modifies this`used, this`bytes, this`table, this`addrs, this`own, this`logged
      ensures ok ==> |addrs| == old(|addrs|) && Stage(i, MaxNat(sizes[i], e), after, since, c', a')
      ensures ok ==> forall j :: 0 <= j < |addrs| && j != i ==> FileOk(j) && File(j) == old(File(j))
      ensures !Missing(sizes[i], off) ==> ok && addrs == old(addrs)
      ensures ok <==> FreeBits(old(used)) + BlocksFor(MaxNat(sizes[i], off)) >= BlocksFor(MaxNat(sizes[i], e))
      ensures ok ==>
        FreeBits(used) + BlocksFor(MaxNat(sizes[i], e)) == FreeBits(old(used)) + BlocksFor(MaxNat(sizes[i], off))
    {
      ghost var ind := IndirectBlocks(addrs[i][NDIRECT]);
      ghost var b;
      ok, b := WriteChunk(i, off, part);
      if !ok {
        return;
      }
      if !Missing(sizes[i], off) {
        LogExisting(old(logged), since, ind, c, a, b);
        LogMore(logged, since, ind, c', a, a');
      } else {
        ghost var t := addrs[i][NDIRECT];
        ghost var more := MapLog(i, off / BSIZE, old(addrs[i][NDIRECT]) != 0, b);
        assert PresentAt(addrs, table, i, NDIRECT, MaxNat(sizes[i], e));
        assert more <= {Bblock(b), b} + IndirectBlocks(t);
        LogNew(old(logged), since, ind, IndirectBlocks(t), c, a, b, Bblock(b), more);
        LogMore(logged, since, IndirectBlocks(t), c', a + 1, a');
      }
    }

    /** The first tot bytes of src are in file i, which held `file`, from off0 on. */
    ghost predicate Progress(i: nat, file: seq<Byte>, off0: nat, src: seq<Byte>, tot: nat, since: set<nat>)
      reads this`used, this`bytes, this`table, this`addrs, this`own, this`sizes, this`kinds, this`nlinks, this`disk,
            this`logged
    {
      && i < |sizes| && Span(|file|, off0, |src|, tot) && |file| == sizes[i]
      && Stage(i, MaxNat(sizes[i], off0 + tot), Overwrite(file, off0, src[..tot]), since,
               Turns(off0, off0 + tot), NewTurns(off0, off0 + tot))
    }

    /** Nothing is written yet. */
    lemma NoProgress(i: nat, src: seq<Byte>, off0: nat)
      requires Valid() && i < |addrs| && FileOk(i) && off0 <= sizes[i] && off0 + |src| <= MAXBYTES
      ensures Progress(i, File(i), off0, src, 0, logged)
    {
      assert LogSplit(logged, logged, IndirectBlocks(addrs[i][NDIRECT]), {}, {});
      assert Overwrite(File(i), off0, src[..0]) == File(i);
    }

    method WriteStep(i: nat, src: seq<Byte>, off0: nat, tot: nat, ghost file: seq<Byte>, ghost since: set<nat>)
      returns (ok: bool, next: nat)
      requires Progress(i, file, off0, src, tot, since) && tot < |src|
      modifies this`used, this`bytes, this`table, this`addrs, this`own, this`logged
      ensures tot < next <= |src| && (ok ==> Progress(i, file, off0, src, next, since))
      ensures ok ==> |addrs| == old(|addrs|) && forall j :: 0 <= j < |addrs| && j != i ==>
                FileOk(j) && File(j) == old(File(j))
      ensures ok && off0 + next <= sizes[i] ==> addrs == old(addrs)
      ensures ok <==>
        FreeBits(old(used)) + BlocksFor(MaxNat(sizes[i], off0 + tot)) >= BlocksFor(MaxNat(sizes[i], off0 + next))
      ensures ok ==>
        FreeBits(used) + BlocksFor(MaxNat(sizes[i], off0 + next))
        == FreeBits(old(used)) + BlocksFor(MaxNat(sizes[i], off0 + tot))
    {
      var off := off0 + tot;
      next := TurnTo(|src|, off0, tot);
      TurnFacts(sizes[i], off0, |src|, tot);
      ghost var before, after := Overwrite(file, off0, src[..tot]), Overwrite(file, off0, src[..next]);
      OverwriteNext(file, off0, src, tot, next);
      ok := WriteTurn(i, off, src[tot..next], off0 + next, before, after, since, Turns(off0, off), NewTurns(off0, off),
                      Turns(off0, off0 + next), NewTurns(off0, off0 + next));
    }

    /** The loop of writei. */
    method WriteAll(i: nat, src: seq<Byte>, off0: nat) returns (ok: bool)
      requires Valid() && i < |addrs| && FileOk(i) && off0 <= sizes[i] && off0 + |src| <= MAXBYTES
      modifies this`used, this`bytes, this`table, this`addrs, this`own, this`logged
      ensures ok ==> |addrs| == old(|addrs|) && Progress(i, old(File(i)), off0, src, |src|, old(logged))
      ensures ok ==> forall j :: 0 <= j < |addrs| && j != i ==> FileOk(j) && File(j) == old(File(j))
      ensures ok && off0 + |src| <= sizes[i] ==> addrs[i] == old(addrs[i])
      ensures ok <==> FreeBits(old(used)) + BlocksFor(sizes[i]) >= BlocksFor(MaxNat(sizes[i], off0 + |src|))
      ensures ok ==>
        FreeBits(used) + BlocksFor(MaxNat(sizes[i], off0 + |src|)) == FreeBits(old(used)) + BlocksFor(sizes[i])
    {
      var tot := 0;
      ghost var file, since := File(i), logged;
      NoProgress(i, src, off0);
      while tot < |src|
        invariant tot <= |src| && |addrs| == old(|addrs|)
        invariant Progress(i, file, off0, src, tot, since)
        invariant forall j :: 0 <= j < |addrs| && j != i ==> FileOk(j) && File(j) == old(File(j))
        invariant off0 + tot <= sizes[i] ==> addrs[i] == old(addrs[i])
        invariant FreeBits(used) + BlocksFor(MaxNat(sizes[i], off0 + tot)) == FreeBits(old(used)) + BlocksFor(sizes[i])
      {
        ok, tot := WriteStep(i, src, off0, tot, file, since);
        if !ok {
          MoreBlocks(MaxNat(sizes[i], off0 + tot), MaxNat(sizes[i], off0 + |src|));
          return;
        }
      }
      ok := true;
    }

    /** iupdate: the inode on disk is the one in memory. */
    method Iupdate(i: nat)
      requires i < |sizes| == |kinds| == |nlinks| == |addrs| == |disk|
      modifies this`disk, this`logged
      ensures |disk| == |old(disk)| && OnDisk(i) && logged == old(logged) + {Iblock(i)}
      ensures forall j :: 0 <= j < |disk| && j != i ==> disk[j] == old(disk)[j]
    {
      disk := disk[i := Dinode(kinds[i], nlinks[i], sizes[i], addrs[i])];
      logged := logged + {Iblock(i)};
    }

    /** What writei refuses, in the source's unsigned arithmetic. */
    predicate Refuses(size: nat, off: nat, n: nat) {
      off > size || (off + n) % UINTS < off || (off + n) % UINTS > MAXBYTES
    }

    /** The blocks that file i has and those that are free. */
    ghost function Account(i: nat): nat
      requires i < |sizes|
      reads this`used, this`sizes
    {
      FreeBits(used) + BlocksFor(sizes[i])
    }

    /** The disk has the blocks that file i lacks for a write of n bytes at off. */
    ghost predicate RoomFor(i: nat, off: nat, n: nat)
      requires i < |sizes|
      reads this`used, this`sizes
    {
      Account(i) >= BlocksFor(MaxNat(sizes[i], off + n))
    }

    /** writei on a regular file.  false: the disk is full and the kernel stops. */
    method Writei(i: nat, src: seq<Byte>, off: nat) returns (ok: bool, r: int)
      requires Valid() && i < |addrs| && FileOk(i) && off < UINTS && |src| < UINTS
      modifies this`used, this`bytes, this`table, this`addrs, this`own, this`logged, this`sizes, this`disk
      ensures Refuses(old(sizes[i]), off, |src|) ==> ok && r == -1 && unchanged(this)
      ensures ok && !Refuses(old(sizes[i]), off, |src|) ==>
        && r == |src| && Valid() && |addrs| == old(|addrs|) && FileOk(i) && off <= old(sizes[i])
        && File(i) == Overwrite(old(File(i)), off, src)
        && WriteLogged(i, off, |src|, old(logged))
        && Account(i) == old(Account(i))
      ensures ok <==> Refuses(old(sizes[i]), off, |src|) || old(RoomFor(i, off, |src|))
      ensures ok ==> forall j :: 0 <= j < |addrs| == old(|addrs|) && j != i ==>
                FileOk(j) && old(FileOk(j)) && File(j) == old(File(j))
    {
      var n := |src|;
      if off > sizes[i] || (off + n) % UINTS < off {
        return true, -1;
      }
      if (off + n) % UINTS > MAXBYTES {
        return true, -1;
      }
      assert off + n <= MAXBYTES;
      ok := WriteAll(i, src, off);
      if !ok {
        return false, 0;
      }
      r := n;
      Finish(i, off + n, n > 0, old(File(i)), off, src, old(logged));
    }

    /** The blocks that a write of n bytes at off logged: those of LoggedAtMost, and the inode. */
    ghost predicate WriteLogged(i: nat, off: nat, n: nat, since: set<nat>)
      requires Inodes(addrs) && i < |addrs|
      reads this`addrs, this`logged
    {
      LoggedAtMost(logged, since, IndirectBlocks(addrs[i][NDIRECT]) + {Iblock(i)}, Turns(off, off + n),
                   NewTurns(off, off + n))
    }

    /** The end of writei: a longer file has its inode written. */
    method Finish(i: nat, off: nat, some: bool, ghost file: seq<Byte>, ghost off0: nat, ghost src: seq<Byte>,
                  ghost since: set<nat>)
      requires Progress(i, file, off0, src, |src|, since) && off == off0 + |src| && some == (|src| > 0)
      requires off <= sizes[i] ==> OnDisk(i)
      modifies this`logged, this`sizes, this`disk
      ensures Valid() && FileOk(i) && File(i) == Overwrite(file, off0, src) && |sizes| == old(|sizes|)
      ensures WriteLogged(i, off0, |src|, since)
      ensures forall j :: 0 <= j < |addrs| && j != i ==> FileOk(j) && old(FileOk(j)) && File(j) == old(File(j))
    {
      assert src[..|src|] == src;
      LogWider(logged, since, IndirectBlocks(addrs[i][NDIRECT]), Iblock(i), Turns(off0, off), NewTurns(off0, off));
      if some && off > sizes[i] {
        sizes := sizes[i := off];
        Iupdate(i);
      }
      forall j | 0 <= j < |addrs| && j != i
        ensures FileOk(j)
      {
        assert old(FileOk(j));
      }
    }

    /** readi on a regular file: a slice of its bytes, and no block is allocated. */
    method Readi(i: nat, off0: nat, n0: nat) returns (r: int, dst: seq<Byte>)
      requires Valid() && i < |addrs| && FileOk(i) && off0 < UINTS && n0 < UINTS
      modifies this`used, this`bytes, this`table, this`addrs, this`own, this`logged
      ensures unchanged(this)
      ensures r == -1 <==> off0 > sizes[i] || (off0 + n0) % UINTS < off0
      ensures r != -1 ==> dst == File(i)[off0..if off0 + n0 > sizes[i] then sizes[i] else off0 + n0] && r == |dst|
    {
      dst := [];
      if off0 > sizes[i] || (off0 + n0) % UINTS < off0 {
        return -1, [];
      }
      var n := if off0 + n0 > sizes[i] then sizes[i] - off0 else n0;
      var tot := 0;
      while tot < n
        invariant tot <= n && unchanged(this) && dst == File(i)[off0..off0 + tot]
      {
        var part := ReadChunk(i, off0 + tot, n - tot);
        dst := dst + part;
        tot := tot + |part|;
      }
      r := n;
    }

    /** One turn of the loop of readi: what the block of byte off has of the next n bytes. */
    method ReadChunk(i: nat, off: nat, n: nat) returns (part: seq<Byte>)
      requires Valid() && i < |addrs| && FileOk(i) && n >= 1 && off + n <= sizes[i]
      modifies this`used, this`bytes, this`table, this`addrs, this`own, this`logged
      ensures unchanged(this) && 1 <= |part| <= n && part == File(i)[off..off + |part|]
    {
      var m := if n < BSIZE - off % BSIZE then n else BSIZE - off % BSIZE;
      ByteHasBlock(addrs, table, i, sizes[i], off);
      assert Placed(addrs, table, own, i, DataSlot(off / BSIZE));
      var ok, b := Bmap(i, off / BSIZE);
      ReadPart(bytes, addrs, table, i, sizes[i], off, m, b);
      part := bytes[b][off % BSIZE..off % BSIZE + m];
    }

    /** bfree; false where the source stops with "freeing free block". */
    method Bfree(b: nat) returns (ok: bool)
      requires b < |used|
      modifies this`used, this`logged
      ensures ok <==> old(used[b])
      ensures ok ==> used == old(used)[b := false] && logged == old(logged) + {Bblock(b)}
    {
      if !used[b] {
        return false;
      }
      used := used[b := false];
      logged := logged + {Bblock(b)};
      ok := true;
    }

    /** `own` has lost blocks of inode i only. */
    ghost predicate OnlyLost(i: nat, own0: map<nat, Place>)
      reads this`own
    {
      && (forall b :: b in own ==> b in own0 && own[b] == own0[b])
      && (forall b :: b in own0 && own0[b].ino != i ==> b in own)
    }

    /** The first loop of itrunc: the direct blocks. */
    method TruncDirect(i: nat)
      requires Core() && i < |addrs|
      modifies this`used, this`addrs, this`own, this`logged
      ensures Core() && |addrs| == old(|addrs|) && |used| == old(|used|) && OnlyLost(i, old(own))
      ensures forall j :: 0 <= j < |addrs| && j != i ==> addrs[j] == old(addrs)[j]
      ensures forall k :: 0 <= k < NDIRECT ==> addrs[i][k] == 0
      ensures addrs[i][NDIRECT] == old(addrs[i][NDIRECT])
    {
      for k := 0 to NDIRECT
        invariant Core() && |addrs| == old(|addrs|) && |used| == old(|used|) && OnlyLost(i, old(own))
        invariant forall j :: 0 <= j < |addrs| && j != i ==> addrs[j] == old(addrs)[j]
        invariant forall x :: 0 <= x < k ==> addrs[i][x] == 0
        invariant addrs[i][NDIRECT] == old(addrs[i][NDIRECT])
      {
        if addrs[i][k] != 0 {
          ClearDirect(addrs, table, own, i, k);
          BitsFreed(used, meta, own, addrs[i][k]);
          var ok := Bfree(addrs[i][k]);
          assert ok;
          own := own - {addrs[i][k]};
          addrs := WithAddr(addrs, i, k, 0);
        }
      }
    }

    /** The second part of itrunc: the entries of the indirect block, then the block. */
    method TruncIndirect(i: nat)
      requires Core() && i < |addrs| && addrs[i][NDIRECT] != 0
      modifies this`used, this`addrs, this`own, this`logged
      ensures Core() && addrs == WithAddr(old(addrs), i, NDIRECT, 0) && |used| == old(|used|) && OnlyLost(i, old(own))
    {
      var t := addrs[i][NDIRECT];
      ClearIndirect(addrs, table, own, i);
      ghost var own0 := own;
      assert Spared(own, i, 0) == own;
      for j := 0 to NINDIRECT
        invariant addrs == old(addrs) && |used| == old(|used|) && own == Spared(own0, i, j)
                  && BitsExact(used, meta, own)
      {
        SparedNext(addrs, table, own0, i, j);
        if table[t][j] != 0 {
          BitsFreed(used, meta, own, table[t][j]);
          var ok := Bfree(table[t][j]);
          assert ok;
          own := own - {table[t][j]};
        }
      }
      BitsFreed(used, meta, own, t);
      var ok := Bfree(t);
      assert ok;
      own := own - {t};
      addrs := WithAddr(addrs, i, NDIRECT, 0);
    }

    /** The blocks of file i, and no others, went back. */
    ghost predicate Emptied(i: nat, own0: map<nat, Place>, used0: seq<bool>)
      reads this`own, this`used
    {
      && |used| == |used0| && OnlyLost(i, own0) && (forall b :: b in own ==> own[b].ino != i)
      && forall b :: 0 <= b < |used| ==> (used[b] <==> used0[b] && !(b in own0 && own0[b].ino == i))
    }

    /** itrunc */
    method Itrunc(i: nat)
      requires Valid() && i < |addrs| && FileOk(i)
      modifies this`used, this`addrs, this`own, this`logged, this`sizes, this`disk
      ensures Valid() && |addrs| == old(|addrs|) && FileOk(i) && File(i) == [] && Emptied(i, old(own), old(used))
      ensures forall j :: 0 <= j < |addrs| && j != i ==> FileOk(j) && old(FileOk(j)) && File(j) == old(File(j))
    {
      FreeAll(i);
      sizes := sizes[i := 0];
      Iupdate(i);
      forall k | 0 <= k < SLOTS
        ensures PresentAt(addrs, table, i, k, 0)
      {
      }
      forall j | 0 <= j < |addrs| && j != i
        ensures FileOk(j) && old(FileOk(j)) && File(j) == old(File(j))
      {
        assert old(FileOk(j));
        RowKept(bytes, old(addrs), addrs, table, j, sizes[j]);
      }
    }

    method FreeAll(i: nat)
      requires Core() && i < |addrs|
      modifies this`used, this`addrs, this`own, this`logged
      ensures Core() && |addrs| == old(|addrs|) && Emptied(i, old(own), old(used))
      ensures forall j :: 0 <= j < |addrs| && j != i ==> addrs[j] == old(addrs)[j]
      ensures forall k :: 0 <= k <= NDIRECT ==> addrs[i][k] == 0
    {
      TruncDirect(i);
      if addrs[i][NDIRECT] != 0 {
        TruncIndirect(i);
      }
      EmptyOwnsNothing(addrs, table, own, i);
    }

    /** The inode is freed with its blocks. */
    method FreeInode(i: nat)
      requires Valid() && i < |addrs| && FileOk(i)
      modifies this`used, this`addrs, this`own, this`logged, this`sizes, this`kinds, this`disk
      ensures Valid() && |addrs| == old(|addrs|) && FileOk(i) && File(i) == [] && Emptied(i, old(own), old(used))
      ensures kinds == old(kinds)[i := 0]
      ensures forall j :: 0 <= j < |addrs| && j != i ==> FileOk(j) && old(FileOk(j)) && File(j) == old(File(j))
    {
      Itrunc(i);
      label Emptied:
      kinds := kinds[i := 0];
      Iupdate(i);
      forall j | 0 <= j < |addrs| && j != i
        ensures FileOk(j) && old(FileOk(j)) && File(j) == old(File(j))
      {
        assert old@Emptied(FileOk(j));
      }
    }

    /** iput: the last reference to a file without links frees the file. */
    method Iput(i: nat)
      requires Valid() && i < |addrs| == |refs| == |valid| && FileOk(i) && refs[i] >= 1
      modifies this
      ensures Valid() && |addrs| == old(|addrs|) && FileOk(i) && refs == old(refs)[i := old(refs[i]) - 1]
      ensures forall j :: 0 <= j < |addrs| && j != i ==> FileOk(j) && old(FileOk(j)) && File(j) == old(File(j))
      ensures if old(valid[i] && nlinks[i] == 0 && refs[i] == 1)
              then File(i) == [] && kinds[i] == 0 && Emptied(i, old(own), old(used))
              else File(i) == old(File(i)) && kinds == old(kinds) && own == old(own) && used == old(used)
    {
      if valid[i] && nlinks[i] == 0 {
        if refs[i] == 1 {
          FreeInode(i);
          valid := valid[i := false];
        }
      }
      refs := refs[i := refs[i] - 1];
    }

    /** begin_op, writei, end_op: one transaction of filewrite, which logs at most MAXOPBLOCKS blocks. */
    method WriteOp(i: nat, src: seq<Byte>, off: nat) returns (ok: bool, r: int)
      requires Valid() && i < |addrs| && FileOk(i) && off < UINTS && |src| <= MAXWRITE
      modifies this`used, this`bytes, this`table, this`addrs, this`own, this`logged, this`sizes, this`disk
      ensures ok ==> Valid() && |addrs| == old(|addrs|) && FileOk(i) && |logged| <= MAXOPBLOCKS
      ensures ok ==> r == if off > old(sizes[i]) || off + |src| > MAXBYTES then -1 else |src|
      ensures ok && r == -1 ==> File(i) == old(File(i))
      ensures ok <==> off > old(sizes[i]) || off + |src| > MAXBYTES || old(RoomFor(i, off, |src|))
      ensures ok ==> Account(i) == old(Account(i))
      ensures ok && r != -1 ==> off <= old(sizes[i]) && File(i) == Overwrite(old(File(i)), off, src)
      ensures ok ==> forall j :: 0 <= j < |addrs| && j != i ==> FileOk(j) && old(FileOk(j)) && File(j) == old(File(j))
    {
      logged := {};
      ok, r := Writei(i, src, off);
      if ok && r != -1 {
        ChunkTurns(off, |src|);
        IndirectSize(IndirectBlocks(addrs[i][NDIRECT]), Iblock(i));
        LogSize(logged, IndirectBlocks(addrs[i][NDIRECT]) + {Iblock(i)}, Turns(off, off + |src|),
                NewTurns(off, off + |src|));
      }
    }

    /** The first done bytes of data are in file i, which held `file`, from off0 on. */
    ghost predicate Sent(i: nat, file: seq<Byte>, off0: nat, data: seq<Byte>, done: nat)
      reads this`used, this`bytes, this`table, this`addrs, this`own, this`sizes, this`kinds, this`nlinks, this`disk
    {
      && Valid() && i < |addrs| && FileOk(i) && done <= |data|
      && if off0 <= |file| then File(i) == Overwrite(file, off0, data[..done]) else done == 0 && File(i) == file
    }

    method FilewriteStep(i: nat, data: seq<Byte>, off0: nat, done: nat, ghost file: seq<Byte>)
      returns (ok: bool, next: nat)
      requires Sent(i, file, off0, data, done) && done < |data| && off0 < UINTS
      modifies this`used, this`bytes, this`table, this`addrs, this`own, this`logged, this`sizes, this`disk
      ensures ok ==> Sent(i, file, off0, data, next) && |addrs| == old(|addrs|) && done <= next
                     && |logged| <= MAXOPBLOCKS
      ensures ok ==> next == if NextRefused(|file|, off0, |data|, done) then done else PieceTo(|data|, done)
      ensures ok <==> NextRefused(|file|, off0, |data|, done)
                      || old(Account(i)) >= BlocksFor(MaxNat(|file|, off0 + PieceTo(|data|, done)))
      ensures ok ==> Account(i) == old(Account(i))
      ensures ok ==> forall j :: 0 <= j < |addrs| && j != i ==> FileOk(j) && old(FileOk(j)) && File(j) == old(File(j))
    {
      assert done > 0 ==> off0 + done <= |File(i)| <= MAXBYTES;
      next := PieceTo(|data|, done);
      var r;
      ok, r := WriteOp(i, data[done..next], off0 + done);
      if ok && r >= 0 {
        OverwriteNext(file, off0, data, done, next);
      } else {
        next := done;
      }
    }

    /** filewrite on an inode: the data goes out in transactions of at most MAXWRITE bytes.
        `done` is the number of bytes that were written, from off0 on. */
    method Filewrite(i: nat, data: seq<Byte>, off0: nat) returns (ok: bool, r: int, done: nat, ghost ops: seq<set<nat>>)
      requires Valid() && i < |addrs| && FileOk(i) && off0 < UINTS
      modifies this`used, this`bytes, this`table, this`addrs, this`own, this`logged, this`sizes, this`disk
      ensures ok ==> Sent(i, old(File(i)), off0, data, done) && |addrs| == old(|addrs|)
      ensures ok ==> r == if done == |data| then |data| else -1
      ensures ok ==> done == if off0 > old(sizes[i]) then 0 else Reach(off0, |data|)
      ensures ok <==> off0 > old(sizes[i])
                      || old(Account(i)) >= BlocksFor(MaxNat(old(sizes[i]), off0 + Reach(off0, |data|)))
      ensures ok ==> forall j :: 0 <= j < |addrs| && j != i ==> FileOk(j) && old(FileOk(j)) && File(j) == old(File(j))
      ensures forall k :: 0 <= k < |ops| ==> |ops[k]| <= MAXOPBLOCKS
    {
      done, ops, ok, r := 0, [], true, 0;
      ghost var file := File(i);
      assert data[..0] == [] && (off0 <= |file| ==> Overwrite(file, off0, []) == file);
      while done < |data|
        invariant Sent(i, file, off0, data, done) && |addrs| == old(|addrs|) && ok
        invariant Account(i) == old(Account(i)) && (off0 > |file| ==> done == 0)
        invariant off0 <= |file| ==> PieceEnd(off0, |data|, done)
        invariant forall j :: 0 <= j < |addrs| && j != i ==> FileOk(j) && old(FileOk(j)) && File(j) == old(File(j))
        invariant forall k :: 0 <= k < |ops| ==> |ops[k]| <= MAXOPBLOCKS
      {
        var last := done;
        if off0 <= |file| {
          PieceReach(off0, |data|, done);
        }
        ok, done := FilewriteStep(i, data, off0, done, file);
        if !ok {
          MoreBlocks(MaxNat(|file|, off0 + PieceTo(|data|, last)), MaxNat(|file|, off0 + Reach(off0, |data|)));
          return;
        }
        ops := ops + [logged];
        if done == last {
          break;
        }
      }
      r := if done == |data| then |data| else -1;
    }
  }

  // ----- counting what is logged -----

  /** What has been logged since the set `since`: at most c data blocks, a bitmap blocks for new data
      blocks, and the blocks `ind`. */
  ghost predicate LoggedAtMost(logged: set<nat>, since: set<nat>, ind: set<nat>, c: nat, a: nat) {
    exists datas, maps {:trigger LogSplit(logged, since, ind, datas, maps)} ::
        LogSplit(logged, since, ind, datas, maps) && |datas| <= c && |maps| <= a
  }

  ghost predicate LogSplit(logged: set<nat>, since: set<nat>, ind: set<nat>, datas: set<nat>, maps: set<nat>) {
    forall x :: x in logged ==> x in since || x in datas || x in maps || x in ind
  }

  lemma LogExisting(logged: set<nat>, since: set<nat>, ind: set<nat>, c: nat, a: nat, b: nat)
    requires LoggedAtMost(logged, since, ind, c, a)
    ensures LoggedAtMost(logged + {b}, since, ind, c + 1, a)
    ensures LoggedAtMost(logged + {b}, since, ind, c + 1, a + 1)
  {
    var datas, maps :| LogSplit(logged, since, ind, datas, maps) && |datas| <= c && |maps| <= a;
    OneMore(datas, b);
    assert LogSplit(logged + {b}, since, ind, datas + {b}, maps);
  }

  lemma LogNew(logged: set<nat>, since: set<nat>, ind: set<nat>, ind': set<nat>, c: nat, a: nat, b: nat, m: nat,
               more: set<nat>)
    requires LoggedAtMost(logged, since, ind, c, a) && ind <= ind' && more <= {m, b} + ind'
    ensures LoggedAtMost(logged + more, since, ind', c + 1, a + 1)
  {
    var datas, maps :| LogSplit(logged, since, ind, datas, maps) && |datas| <= c && |maps| <= a;
    OneMore(datas, b);
    OneMore(maps, m);
    assert LogSplit(logged + more, since, ind', datas + {b}, maps + {m});
  }

  lemma LogMore(logged: set<nat>, since: set<nat>, ind: set<nat>, c: nat, a: nat, a': nat)
    requires LoggedAtMost(logged, since, ind, c, a) && a <= a'
    ensures LoggedAtMost(logged, since, ind, c, a')
  {
    var datas, maps :| LogSplit(logged, since, ind, datas, maps) && |datas| <= c && |maps| <= a;
    assert LogSplit(logged, since, ind, datas, maps) && |maps| <= a';
  }

  lemma LogWider(logged: set<nat>, since: set<nat>, ind: set<nat>, x: nat, c: nat, a: nat)
    requires LoggedAtMost(logged, since, ind, c, a)
    ensures LoggedAtMost(logged, since, ind + {x}, c, a) && LoggedAtMost(logged + {x}, since, ind + {x}, c, a)
  {
    var datas, maps :| LogSplit(logged, since, ind, datas, maps) && |datas| <= c && |maps| <= a;
    assert LogSplit(logged, since, ind + {x}, datas, maps);
    assert LogSplit(logged + {x}, since, ind + {x}, datas, maps);
  }

  lemma IndirectSize(ind: set<nat>, x: nat)
    requires |ind| <= 2
    ensures |ind + {x}| <= 3
  {
    OneMore(ind, x);
  }

  /** A transaction that started with an empty log. */
  lemma LogSize(logged: set<nat>, ind: set<nat>, c: nat, a: nat)
    requires LoggedAtMost(logged, {}, ind, c, a) && |ind| <= 3
    ensures |logged| <= c + a + 3
  {
    var datas, maps :| LogSplit(logged, {}, ind, datas, maps) && |datas| <= c && |maps| <= a;
    UnionSize(datas, maps);
    UnionSize(datas + maps, ind);
    assert logged <= datas + maps + ind;
    SubsetSize(logged, datas + maps + ind);
  }

  // ----- the turns of a write -----

  /** The blocks that the bytes first..off-1 of a file touch. */
  function Turns(first: nat, off: nat): nat {
    if off <= first then 0 else (off - 1) / BSIZE - first / BSIZE + 1
  }

  /** Those that a write there may find missing: not the one that a byte before first lies in. */
  function NewTurns(first: nat, off: nat): nat {
    if off <= first then 0 else (off - 1) / BSIZE - first / BSIZE + if first % BSIZE == 0 then 1 else 0
  }

  /** The block of byte off is beyond the blocks of a file written up to off. */
  predicate Missing(size: nat, off: nat) { off / BSIZE * BSIZE >= MaxNat(size, off) }

  /** A write of n bytes from off0 on, of which tot are done: it stops early only at the end of a block. */
  predicate Span(size: nat, off0: nat, n: nat, tot: nat) {
    tot <= n && off0 <= size && off0 + n <= MAXBYTES && (0 < tot < n ==> (off0 + tot) % BSIZE == 0)
  }

  /** A turn from byte off to byte e. */
  lemma OneTurn(first: nat, off: nat, e: nat, size: nat)
    requires first <= off < e <= (off / BSIZE + 1) * BSIZE && first <= size && (off == first || off % BSIZE == 0)
    ensures e == (off / BSIZE + 1) * BSIZE ==> e % BSIZE == 0
    ensures Turns(first, e) == Turns(first, off) + 1
    ensures NewTurns(first, e) >= NewTurns(first, off) + if Missing(size, off) then 1 else 0
    ensures e <= size ==> !Missing(size, off)
  {
  }

  /** How far the turn goes that starts with tot of n bytes done. */
  function TurnTo(n: nat, off0: nat, tot: nat): (next: nat)
    requires tot < n
    ensures tot < next <= n
  {
    var off := off0 + tot;
    tot + if n - tot < BSIZE - off % BSIZE then n - tot else BSIZE - off % BSIZE
  }

  lemma TurnFacts(size: nat, off0: nat, n: nat, tot: nat)
    requires Span(size, off0, n, tot) && tot < n
    ensures var next, off := TurnTo(n, off0, tot), off0 + tot;
            && Span(size, off0, n, next) && (off <= size || off % BSIZE == 0) && next - tot <= BSIZE - off % BSIZE
            && Turns(off0, off0 + next) == Turns(off0, off) + 1
            && NewTurns(off0, off0 + next) >= NewTurns(off0, off) + (if Missing(size, off) then 1 else 0)
            && (off0 + next <= size ==> !Missing(size, off))
  {
    OneTurn(off0, off0 + tot, off0 + TurnTo(n, off0, tot), size);
  }

  /** file.c's largest write in one transaction. */
  const MAXOPBLOCKS: nat := 10
  const MAXWRITE: nat := (MAXOPBLOCKS - 1 - 1 - 2) / 2 * 512

  /** How far the transaction of filewrite goes that starts with `done` of n bytes written. */
  function PieceTo(n: nat, done: nat): (next: nat)
    requires done < n
    ensures done < next <= n
  {
    if n - done > MAXWRITE then done + MAXWRITE else n
  }

  /** Its writei is refused. */
  predicate NextRefused(size: nat, off0: nat, n: nat, done: nat)
    requires done < n
  {
    off0 > size || off0 + PieceTo(n, done) > MAXBYTES
  }

  /** The bytes that filewrite writes of n: all of them, or as many whole transactions as a file can take. */
  function Reach(off0: nat, n: nat): nat {
    if off0 + n <= MAXBYTES then n else if off0 <= MAXBYTES then (MAXBYTES - off0) / MAXWRITE * MAXWRITE else 0
  }

  predicate PieceEnd(off0: nat, n: nat, done: nat) {
    done <= Reach(off0, n) && (done == n || done % MAXWRITE == 0)
  }

  lemma PieceReach(off0: nat, n: nat, done: nat)
    requires done < n && off0 <= MAXBYTES && PieceEnd(off0, n, done)
    ensures if off0 + PieceTo(n, done) > MAXBYTES then done == Reach(off0, n) else PieceEnd(off0, n, PieceTo(n, done))
  {
    var q, a := done / 1536, (MAXBYTES - off0) / 1536;
    assert done == q * 1536 && a * 1536 <= MAXBYTES - off0 < (a + 1) * 1536;
    assert off0 + n > MAXBYTES ==> Reach(off0, n) == a * 1536;
    assert (q + 1) * 1536 == done + 1536 && (q + 1) * 1536 % 1536 == 0;
  }

  lemma ChunkTurns(off: nat, n: nat)
    requires n <= MAXWRITE
    ensures Turns(off, off + n) + NewTurns(off, off + n) + 2 + 1 <= MAXOPBLOCKS
  {
  }
}
