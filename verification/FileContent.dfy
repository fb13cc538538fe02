/** The bytes of a file, and the blocks a file of a given length has. */
module FileContent {
  import opened BlockOwnership

  type Byte = bv8
  type Blocks = map<nat, seq<Byte>>

  const MAXBYTES: nat := MAXFILE * BSIZE

  /** Byte o of file i. */
  ghost function ByteAt(bytes: Blocks, addrs: Addrs, table: Table, i: nat, o: nat): Byte
    requires Inodes(addrs) && i < |addrs| && o < MAXBYTES
  {
    var b := At(addrs, table, i, DataSlot(o / BSIZE));
    if b in bytes && |bytes[b]| == BSIZE then bytes[b][o % BSIZE] else 0
  }

  /** The first len bytes of file i. */
  ghost function Content(bytes: Blocks, addrs: Addrs, table: Table, i: nat, len: nat): (s: seq<Byte>)
    requires Inodes(addrs) && i < |addrs| && len <= MAXBYTES
    ensures |s| == len
  {
    seq(len, o requires 0 <= o < len => ByteAt(bytes, addrs, table, i, o))
  }

  /** What a write of d at off makes of a file: bytes replaced, and added at the end. */
  function Overwrite(s: seq<Byte>, off: nat, d: seq<Byte>): (r: seq<Byte>)
    requires off <= |s|
    ensures |r| == if off + |d| > |s| then off + |d| else |s|
  {
    s[..off] + d + if off + |d| > |s| then [] else s[off + |d|..]
  }

  /** What was written is read back, and the rest is as it was. */
  lemma OverwriteReadsBack(s: seq<Byte>, off: nat, d: seq<Byte>)
    requires off <= |s|
    ensures var r := Overwrite(s, off, d);
            && r[off..off + |d|] == d && r[..off] == s[..off]
            && (off + |d| <= |s| ==> r[off + |d|..] == s[off + |d|..])
  {
  }

  // ----- which blocks a file of len bytes has -----

  predicate Needs(k: nat, len: nat) { (if k <= NDIRECT then k else k - 1) * BSIZE < len }

  ghost predicate PresentAt(addrs: Addrs, table: Table, i: nat, k: nat, len: nat)
    requires Inodes(addrs) && i < |addrs| && k < SLOTS
  {
    At(addrs, table, i, k) != 0 <==> Needs(k, len)
  }

  /** File i has exactly the blocks that len bytes need: no hole below and nothing above. */
  ghost predicate Exact(addrs: Addrs, table: Table, i: nat, len: nat)
    requires Inodes(addrs) && i < |addrs|
  {
    forall k {:trigger PresentAt(addrs, table, i, k, len)} :: 0 <= k < SLOTS ==> PresentAt(addrs, table, i, k, len)
  }

  /** A byte of the file lies in a block of the file. */
  lemma ByteHasBlock(addrs: Addrs, table: Table, i: nat, len: nat, o: nat)
    requires Inodes(addrs) && i < |addrs| && Exact(addrs, table, i, len) && o < len <= MAXBYTES
    ensures DataSlot(o / BSIZE) < SLOTS && At(addrs, table, i, DataSlot(o / BSIZE)) != 0
  {
    assert PresentAt(addrs, table, i, DataSlot(o / BSIZE), len);
  }

  function MaxNat(a: nat, b: nat): nat { if a >= b then a else b }

  /** The blocks that len bytes fill, the last one perhaps in part. */
  function DataBlocks(len: nat): nat { if len == 0 then 0 else if len <= BSIZE then 1 else DataBlocks(len - BSIZE) + 1 }

  lemma {:induction false} DataBlocksIs(len: nat)
    ensures DataBlocks(len) == (len + BSIZE - 1) / BSIZE
  {
    if len > BSIZE {
      DataBlocksIs(len - BSIZE);
    }
  }

  /** The blocks that a file of len bytes has: those of its bytes, and the indirect block if there are more than
      NDIRECT of them. */
  function BlocksFor(len: nat): nat {
    var n := DataBlocks(len);
    if n > NDIRECT then n + 1 else n
  }

  /** They are the first slots of the inode. */
  lemma NeedsIff(k: nat, len: nat)
    requires len <= MAXBYTES
    ensures Needs(k, len) <==> k < BlocksFor(len)
    ensures BlocksFor(len) <= SLOTS
  {
    DataBlocksIs(len);
  }

  /** The blocks in the first m slots of file i. */
  ghost function BlocksBelow(own: map<nat, Place>, i: nat, m: nat): set<nat> {
    set b | b in own && own[b].ino == i && own[b].slot < m
  }

  lemma {:induction false} CountBelow(addrs: Addrs, table: Table, own: map<nat, Place>, i: nat, len: nat, m: nat)
    requires Owned(addrs, table, own) && i < |addrs| && Exact(addrs, table, i, len) && len <= MAXBYTES
    requires m <= BlocksFor(len)
    ensures |BlocksBelow(own, i, m)| == m
    decreases m
  {
    if m > 0 {
      var k := m - 1;
      NeedsIff(k, len);
      CountBelow(addrs, table, own, i, len, k);
      var b := At(addrs, table, i, k);
      assert PresentAt(addrs, table, i, k, len) && Placed(addrs, table, own, i, k);
      forall c | c in own && own[c] == Place(i, k)
        ensures c == b
      {
        assert Backed(addrs, table, own, c);
      }
      assert BlocksBelow(own, i, m) == BlocksBelow(own, i, k) + {b};
    }
  }

  /** A file of len bytes owns exactly that many blocks. */
  lemma FileOwns(addrs: Addrs, table: Table, own: map<nat, Place>, i: nat, len: nat)
    requires Owned(addrs, table, own) && i < |addrs| && Exact(addrs, table, i, len) && len <= MAXBYTES
    ensures |set b | b in own && own[b].ino == i| == BlocksFor(len)
  {
    CountBelow(addrs, table, own, i, len, BlocksFor(len));
    forall b | b in own && own[b].ino == i
      ensures own[b].slot < BlocksFor(len)
    {
      assert Backed(addrs, table, own, b) && PresentAt(addrs, table, i, own[b].slot, len);
      NeedsIff(own[b].slot, len);
    }
    assert (set b | b in own && own[b].ino == i) == BlocksBelow(own, i, BlocksFor(len));
  }

  lemma MoreBlocks(len: nat, more: nat)
    requires len <= more
    ensures BlocksFor(len) <= BlocksFor(more)
  {
    DataBlocksIs(len);
    DataBlocksIs(more);
  }

  /** The blocks that writing up to e inside one block takes. */
  lemma BlocksGrow(size: nat, off: nat, e: nat)
    requires off <= size || off % BSIZE == 0
    requires off < e <= (off / BSIZE + 1) * BSIZE
    ensures var bn, len := off / BSIZE, MaxNat(size, off);
            BlocksFor(MaxNat(size, e)) == BlocksFor(len) + (if Needs(DataSlot(bn), len) then 0 else 1)
                                          + (if bn < NDIRECT || Needs(NDIRECT, len) then 0 else 1)
  {
    DataBlocksIs(MaxNat(size, off));
    DataBlocksIs(MaxNat(size, e));
  }

  /** Writing up to e inside block bn needs that block, its indirect block, and no other new one. */
  lemma NeedsGrow(k: nat, size: nat, off: nat, e: nat)
    requires off <= size || off % BSIZE == 0
    requires off < e <= (off / BSIZE + 1) * BSIZE
    ensures
      var bn := off / BSIZE;
      Needs(k, MaxNat(size, e)) <==>
        Needs(k, MaxNat(size, off)) || k == DataSlot(bn) || (k == NDIRECT && bn >= NDIRECT)
  {
  }

  lemma ExactGrow(addrs: Addrs, table: Table, addrs': Addrs, table': Table, i: nat, size: nat, off: nat, e: nat)
    requires off < MAXBYTES && (off <= size || off % BSIZE == 0) && off < e <= (off / BSIZE + 1) * BSIZE
    requires Kept(addrs, table, addrs', table', i, DataSlot(off / BSIZE)) && i < |addrs|
    requires Exact(addrs, table, i, MaxNat(size, off))
    requires At(addrs', table', i, DataSlot(off / BSIZE)) != 0
    requires off / BSIZE >= NDIRECT ==> At(addrs', table', i, NDIRECT) != 0
    ensures Exact(addrs', table', i, MaxNat(size, e))
  {
    var bn := off / BSIZE;
    forall k | 0 <= k < SLOTS
      ensures PresentAt(addrs', table', i, k, MaxNat(size, e))
    {
      NeedsGrow(k, size, off, e);
      assert PresentAt(addrs, table, i, k, MaxNat(size, off));
      assert KeptAt(addrs, table, addrs', table', i, DataSlot(bn), i, k);
    }
  }

  lemma ExactKept(addrs: Addrs, table: Table, addrs': Addrs, table': Table, i: nat, slot: nat, j: nat, len: nat)
    requires Kept(addrs, table, addrs', table', i, slot) && j < |addrs| && j != i && Exact(addrs, table, j, len)
    ensures Exact(addrs', table', j, len)
  {
    forall k | 0 <= k < SLOTS
      ensures PresentAt(addrs', table', j, k, len)
    {
      assert PresentAt(addrs, table, j, k, len);
      assert KeptAt(addrs, table, addrs', table', i, slot, j, k);
    }
  }

  // ----- what changes the bytes of a file -----

  ghost predicate SameOwned(own: map<nat, Place>, bytes: Blocks, bytes': Blocks) {
    forall b :: b in own && b in bytes ==> b in bytes' && bytes'[b] == bytes[b]
  }

  /** Allocation changes no byte of any file. */
  lemma BytesKept(bytes: Blocks, addrs: Addrs, table: Table, own: map<nat, Place>,
                  bytes': Blocks, addrs': Addrs, table': Table, i: nat, slot: nat, j: nat, o: nat)
    requires Owned(addrs, table, own) && Kept(addrs, table, addrs', table', i, slot) && SameOwned(own, bytes, bytes')
    requires forall b :: b in own ==> b in bytes && |bytes[b]| == BSIZE
    requires j < |addrs| && o < MAXBYTES && At(addrs, table, j, DataSlot(o / BSIZE)) != 0
    ensures ByteAt(bytes', addrs', table', j, o) == ByteAt(bytes, addrs, table, j, o)
  {
    assert KeptAt(addrs, table, addrs', table', i, slot, j, DataSlot(o / BSIZE));
    assert Placed(addrs, table, own, j, DataSlot(o / BSIZE));
  }

  /** part copied into the block d at j. */
  function Spliced(d: seq<Byte>, j: nat, part: seq<Byte>): (r: seq<Byte>)
    requires j + |part| <= |d|
    ensures |r| == |d|
    ensures forall x :: 0 <= x < |d| ==> r[x] == if j <= x < j + |part| then part[x - j] else d[x]
  {
    d[..j] + part + d[j + |part|..]
  }

  lemma InChunk(off: nat, m: nat, o: nat)
    requires m <= BSIZE - off % BSIZE
    ensures off <= o < off + m <==> o / BSIZE == off / BSIZE && off % BSIZE <= o % BSIZE < off % BSIZE + m
    ensures off <= o < off + m ==> o % BSIZE - off % BSIZE == o - off
  {
  }

  /** Copying into a block of file i changes those bytes of file i, and no others. */
  lemma BytesSpliced(bytes: Blocks, addrs: Addrs, table: Table, own: map<nat, Place>, i: nat, off: nat, part: seq<Byte>,
                     b: nat, j: nat, o: nat)
    requires Owned(addrs, table, own) && (forall b :: b in own ==> b in bytes && |bytes[b]| == BSIZE)
    requires i < |addrs| && off < MAXBYTES && |part| <= BSIZE - off % BSIZE
    requires b == At(addrs, table, i, DataSlot(off / BSIZE)) != 0 && b in bytes && |bytes[b]| == BSIZE
    requires j < |addrs| && o < MAXBYTES && At(addrs, table, j, DataSlot(o / BSIZE)) != 0
    ensures ByteAt(bytes[b := Spliced(bytes[b], off % BSIZE, part)], addrs, table, j, o)
         == if j == i && off <= o < off + |part| then part[o - off] else ByteAt(bytes, addrs, table, j, o)
  {
    InChunk(off, |part|, o);
    assert Placed(addrs, table, own, i, DataSlot(off / BSIZE)) && Placed(addrs, table, own, j, DataSlot(o / BSIZE));
  }

  // ----- the same for whole files -----

  ghost predicate Full(own: map<nat, Place>, bytes: Blocks) {
    forall b :: b in own ==> b in bytes && |bytes[b]| == BSIZE
  }

  lemma ContentKept(bytes: Blocks, addrs: Addrs, table: Table, own: map<nat, Place>,
                    bytes': Blocks, addrs': Addrs, table': Table, i: nat, slot: nat, j: nat, len: nat)
    requires Owned(addrs, table, own) && Kept(addrs, table, addrs', table', i, slot)
    requires SameOwned(own, bytes, bytes') && Full(own, bytes)
    requires j < |addrs| && len <= MAXBYTES && Exact(addrs, table, j, len)
    ensures Content(bytes', addrs', table', j, len) == Content(bytes, addrs, table, j, len)
  {
    var c, c' := Content(bytes, addrs, table, j, len), Content(bytes', addrs', table', j, len);
    forall o | 0 <= o < len
      ensures c'[o] == c[o]
    {
      ByteHasBlock(addrs, table, j, len, o);
      BytesKept(bytes, addrs, table, own, bytes', addrs', table', i, slot, j, o);
    }
  }

  lemma ContentOther(bytes: Blocks, addrs: Addrs, table: Table, own: map<nat, Place>, i: nat, off: nat, part: seq<Byte>,
                     b: nat, j: nat, len: nat)
    requires Owned(addrs, table, own) && Full(own, bytes)
    requires i < |addrs| && off < MAXBYTES && |part| <= BSIZE - off % BSIZE
    requires b == At(addrs, table, i, DataSlot(off / BSIZE)) != 0 && b in bytes && |bytes[b]| == BSIZE
    requires j < |addrs| && j != i && len <= MAXBYTES && Exact(addrs, table, j, len)
    ensures Content(bytes[b := Spliced(bytes[b], off % BSIZE, part)], addrs, table, j, len)
         == Content(bytes, addrs, table, j, len)
  {
    var bytes' := bytes[b := Spliced(bytes[b], off % BSIZE, part)];
    var c, c' := Content(bytes, addrs, table, j, len), Content(bytes', addrs, table, j, len);
    forall o | 0 <= o < len
      ensures c'[o] == c[o]
    {
      ByteHasBlock(addrs, table, j, len, o);
      BytesSpliced(bytes, addrs, table, own, i, off, part, b, j, o);
    }
  }

  lemma ContentSpliced(bytes: Blocks, addrs: Addrs, table: Table, own: map<nat, Place>, i: nat, off: nat,
                       part: seq<Byte>,
                       b: nat, size: nat, len: nat)
    requires Owned(addrs, table, own) && Full(own, bytes)
    requires i < |addrs| && off < MAXBYTES && |part| <= BSIZE - off % BSIZE
    requires b == At(addrs, table, i, DataSlot(off / BSIZE)) != 0 && b in bytes && |bytes[b]| == BSIZE
    requires size <= MAXBYTES && len == MaxNat(size, off + |part|) <= MAXBYTES && Exact(addrs, table, i, len)
    ensures Content(bytes[b := Spliced(bytes[b], off % BSIZE, part)], addrs, table, i, len)
         == Overwrite(Content(bytes, addrs, table, i, MaxNat(size, off)), off, part)
  {
    var bytes' := bytes[b := Spliced(bytes[b], off % BSIZE, part)];
    var c, c' := Content(bytes, addrs, table, i, MaxNat(size, off)), Content(bytes', addrs, table, i, len);
    forall o | 0 <= o < len
      ensures c'[o] == Overwrite(c, off, part)[o]
    {
      ByteHasBlock(addrs, table, i, len, o);
      BytesSpliced(bytes, addrs, table, own, i, off, part, b, i, o);
    }
  }

  /** Two writes in a row are one. */
  lemma OverwriteNext(s: seq<Byte>, off: nat, src: seq<Byte>, tot: nat, next: nat)
    requires off <= |s| && tot <= next <= |src|
    ensures Overwrite(Overwrite(s, off, src[..tot]), off + tot, src[tot..next]) == Overwrite(s, off, src[..next])
  {
    assert src[..next] == src[..tot] + src[tot..next];
  }

  /** A file depends on its own inode. */
  lemma RowKept(bytes: Blocks, addrs: Addrs, addrs': Addrs, table: Table, j: nat, len: nat)
    requires Inodes(addrs) && Inodes(addrs') && j < |addrs| == |addrs'| && addrs'[j] == addrs[j] && len <= MAXBYTES
    ensures Exact(addrs', table, j, len) <==> Exact(addrs, table, j, len)
    ensures Content(bytes, addrs', table, j, len) == Content(bytes, addrs, table, j, len)
  {
    forall k | 0 <= k < SLOTS
      ensures PresentAt(addrs', table, j, k, len) <==> PresentAt(addrs, table, j, k, len)
    {
    }
    var c, c' := Content(bytes, addrs, table, j, len), Content(bytes, addrs', table, j, len);
    forall o | 0 <= o < len
      ensures c'[o] == c[o]
    {
    }
  }

  /** Part of a file inside one block. */
  lemma ReadPart(bytes: Blocks, addrs: Addrs, table: Table, i: nat, len: nat, off: nat, m: nat, b: nat)
    requires Inodes(addrs) && i < |addrs| && off + m <= len <= MAXBYTES && off < MAXBYTES && m <= BSIZE - off % BSIZE
    requires b == At(addrs, table, i, DataSlot(off / BSIZE)) && b in bytes && |bytes[b]| == BSIZE
    ensures Content(bytes, addrs, table, i, len)[off..off + m] == bytes[b][off % BSIZE..off % BSIZE + m]
  {
    var l, r := Content(bytes, addrs, table, i, len)[off..off + m], bytes[b][off % BSIZE..off % BSIZE + m];
    forall x | 0 <= x < m
      ensures l[x] == r[x]
    {
      InChunk(off, m, off + x);
    }
  }
}
