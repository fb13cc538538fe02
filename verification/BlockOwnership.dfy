/** Which block belongs to which file, in fs.c.

    An inode has NDIRECT + 1 addresses.  The last one, if not 0, is a block of NINDIRECT further
    addresses.  A place is one of these slots of an inode: 0..11 direct, 12 the indirect block, and
    13 + j entry j of the indirect block. */
module BlockOwnership {

  const BSIZE: nat := 512
  const NDIRECT: nat := 12
  const NINDIRECT: nat := 128
  const MAXFILE: nat := 140
  const SLOTS: nat := 141

  datatype Place = Place(ino: nat, slot: nat)

  /** The slot of the block number bn of a file. */
  function DataSlot(bn: nat): nat { if bn < NDIRECT then bn else bn + 1 }

  type Addrs = seq<seq<nat>>
  type Table = map<nat, seq<nat>>

  ghost predicate Inodes(addrs: Addrs) {
    forall i :: 0 <= i < |addrs| ==> |addrs[i]| == NDIRECT + 1
  }

  /** The address in a slot; 0 is none. */
  ghost function At(addrs: Addrs, table: Table, i: nat, k: nat): nat
    requires Inodes(addrs) && i < |addrs| && k < SLOTS
  {
    if k <= NDIRECT then addrs[i][k] else Entry(table, addrs[i][NDIRECT], k - NDIRECT - 1)
  }

  /** Entry j of the indirect block t. */
  ghost function Entry(table: Table, t: nat, j: nat): nat {
    if t != 0 && t in table && j < |table[t]| then table[t][j] else 0
  }

  /** The block in slot (i, k), if any, is owned by that slot. */
  ghost predicate Placed(addrs: Addrs, table: Table, own: map<nat, Place>, i: nat, k: nat)
    requires Inodes(addrs) && i < |addrs| && k < SLOTS
  {
    var b := At(addrs, table, i, k);
    b != 0 ==> b in own && own[b] == Place(i, k)
  }

  /** An owned block is in the slot that owns it, and an owned indirect block has its entries. */
  ghost predicate Backed(addrs: Addrs, table: Table, own: map<nat, Place>, b: nat)
    requires Inodes(addrs) && b in own
  {
    && b != 0 && own[b].ino < |addrs| && own[b].slot < SLOTS
    && At(addrs, table, own[b].ino, own[b].slot) == b
    && (own[b].slot == NDIRECT ==> b in table && |table[b]| == NINDIRECT)
  }

  /** Each owned block is referenced from exactly one slot of exactly one inode. */
  ghost predicate Owned(addrs: Addrs, table: Table, own: map<nat, Place>) {
    && Inodes(addrs)
    && (forall i, k {:trigger Placed(addrs, table, own, i, k)} ::
          0 <= i < |addrs| && 0 <= k < SLOTS ==> Placed(addrs, table, own, i, k))
    && (forall b {:trigger Backed(addrs, table, own, b)} :: b in own ==> Backed(addrs, table, own, b))
  }

  /** The bit of a block is set exactly if it is metadata or owned. */
  ghost predicate BitsExact(used: seq<bool>, meta: nat, own: map<nat, Place>) {
    && 1 <= meta
    && (forall b :: 0 <= b < |used| ==> (used[b] <==> b < meta || b in own))
    && (forall b :: b in own ==> meta <= b < |used|)
  }

  /** The number of clear bits. */
  function FreeBits(used: seq<bool>): nat {
    if used == [] then 0 else FreeBits(used[..|used| - 1]) + if used[|used| - 1] then 0 else 1
  }

  lemma {:induction false} FreeBitsTaken(used: seq<bool>, b: nat)
    requires b < |used| && !used[b]
    ensures FreeBits(used) == FreeBits(used[b := true]) + 1
  {
    var n := |used| - 1;
    if b == n {
      assert used[b := true][..n] == used[..n];
    } else {
      FreeBitsTaken(used[..n], b);
      assert used[b := true][..n] == used[..n][b := true];
    }
  }

  lemma {:induction false} NoFreeBits(used: seq<bool>)
    requires forall b :: 0 <= b < |used| ==> used[b]
    ensures FreeBits(used) == 0
  {
    if used != [] {
      NoFreeBits(used[..|used| - 1]);
    }
  }

  lemma {:induction false} CountBits(used: seq<bool>)
    ensures FreeBits(used) + |set b | 0 <= b < |used| && used[b]| == |used|
  {
    if used != [] {
      var n := |used| - 1;
      CountBits(used[..n]);
      var was := set b | 0 <= b < |used[..n]| && used[..n][b];
      assert (set b | 0 <= b < |used| && used[b]) == if used[n] then was + {n} else was;
    }
  }

  function Below(n: nat): (r: set<nat>)
    ensures |r| == n && forall b :: b in r <==> 0 <= b < n
  {
    if n == 0 then {} else Below(n - 1) + {n - 1}
  }

  /** Every block is metadata, clear, or owned by one slot of one inode. */
  lemma BlocksConserved(used: seq<bool>, meta: nat, own: map<nat, Place>)
    requires BitsExact(used, meta, own) && meta <= |used|
    ensures meta + FreeBits(used) + |own.Keys| == |used|
  {
    CountBits(used);
    assert (set b | 0 <= b < |used| && used[b]) == Below(meta) + own.Keys;
    assert Below(meta) !! own.Keys;
  }

  function Zeros(): (z: seq<nat>)
    ensures |z| == NINDIRECT && forall j :: 0 <= j < NINDIRECT ==> z[j] == 0
  {
    seq(NINDIRECT, _ => 0)
  }

  function WithAddr(addrs: Addrs, i: nat, k: nat, b: nat): (r: Addrs)
    requires i < |addrs| && k < |addrs[i]|
  {
    var a: seq<nat> := addrs[i];
    var a': seq<nat> := a[k := b];
    addrs[i := a']
  }

  /** A zeroed block b is entry j of the indirect block t. */
  function WithEntry(table: Table, t: nat, j: nat, b: nat): (r: Table)
    requires t in table && j < |table[t]|
  {
    table[b := Zeros()][t := table[t][j := b]]
  }

  // ----- a slot of the inode gets a new block -----

  lemma DirectAt(addrs: Addrs, table: Table, own: map<nat, Place>, i: nat, k: nat, b: nat, i': nat, k': nat)
    requires Owned(addrs, table, own) && i < |addrs| && k <= NDIRECT && b != 0 && b !in own && addrs[i][k] == 0
    requires i' < |addrs| && k' < SLOTS && Placed(addrs, table, own, i', NDIRECT)
    ensures
      At(WithAddr(addrs, i, k, b), table[b := Zeros()], i', k')
        == if i' == i && k' == k then b else At(addrs, table, i', k')
  {
  }

  lemma DirectOwned(addrs: Addrs, table: Table, own: map<nat, Place>, i: nat, k: nat, b: nat)
    requires Owned(addrs, table, own) && i < |addrs| && k <= NDIRECT && b != 0 && b !in own && addrs[i][k] == 0
    ensures Owned(WithAddr(addrs, i, k, b), table[b := Zeros()], own[b := Place(i, k)])
  {
    var addrs', table', own' := WithAddr(addrs, i, k, b), table[b := Zeros()], own[b := Place(i, k)];
    forall i', k' | 0 <= i' < |addrs'| && 0 <= k' < SLOTS
      ensures Placed(addrs', table', own', i', k')
    {
      assert Placed(addrs, table, own, i', k') && Placed(addrs, table, own, i', NDIRECT);
      DirectAt(addrs, table, own, i, k, b, i', k');
    }
    forall c | c in own'
      ensures Backed(addrs', table', own', c)
    {
      if c != b {
        assert Backed(addrs, table, own, c) && Placed(addrs, table, own, own[c].ino, NDIRECT);
        DirectAt(addrs, table, own, i, k, b, own[c].ino, own[c].slot);
      }
    }
  }

  // ----- an entry of the indirect block gets a new block -----

  lemma EntryAt(addrs: Addrs, table: Table, own: map<nat, Place>, i: nat, t: nat, j: nat, b: nat, i': nat, k': nat)
    requires Owned(addrs, table, own) && i < |addrs| && t == addrs[i][NDIRECT] && t in own && j < NINDIRECT
    requires Backed(addrs, table, own, t) && own[t] == Place(i, NDIRECT) && b != 0 && b !in own
    requires i' < |addrs| && k' < SLOTS && Placed(addrs, table, own, i', NDIRECT)
    ensures
      At(addrs, WithEntry(table, t, j, b), i', k')
        == if i' == i && k' == NDIRECT + 1 + j then b else At(addrs, table, i', k')
  {
  }

  lemma EntryOwned(addrs: Addrs, table: Table, own: map<nat, Place>, i: nat, t: nat, j: nat, b: nat)
    requires Owned(addrs, table, own) && i < |addrs| && t == addrs[i][NDIRECT] && t in own && j < NINDIRECT
    requires Backed(addrs, table, own, t) && own[t] == Place(i, NDIRECT) && b != 0 && b !in own && table[t][j] == 0
    ensures Owned(addrs, WithEntry(table, t, j, b), own[b := Place(i, NDIRECT + 1 + j)])
  {
    var table', own' := WithEntry(table, t, j, b), own[b := Place(i, NDIRECT + 1 + j)];
    forall i', k' | 0 <= i' < |addrs| && 0 <= k' < SLOTS
      ensures Placed(addrs, table', own', i', k')
    {
      assert Placed(addrs, table, own, i', k') && Placed(addrs, table, own, i', NDIRECT);
      EntryAt(addrs, table, own, i, t, j, b, i', k');
    }
    forall c | c in own'
      ensures Backed(addrs, table', own', c)
    {
      if c != b {
        assert Backed(addrs, table, own, c) && Placed(addrs, table, own, own[c].ino, NDIRECT);
        EntryAt(addrs, table, own, i, t, j, b, own[c].ino, own[c].slot);
      }
    }
  }

  // ----- what an allocation leaves alone -----

  /** Slot (i', k') is as before, or it was empty and is slot k of inode i or its indirect block. */
  ghost predicate KeptAt(addrs: Addrs, table: Table, addrs': Addrs, table': Table, i: nat, k: nat, i': nat, k': nat)
    requires Inodes(addrs) && Inodes(addrs') && |addrs| == |addrs'| && i' < |addrs| && k' < SLOTS
  {
    || At(addrs', table', i', k') == At(addrs, table, i', k')
    || (At(addrs, table, i', k') == 0 && i' == i && (k' == k || (k' == NDIRECT && k > NDIRECT)))
  }

  ghost predicate Kept(addrs: Addrs, table: Table, addrs': Addrs, table': Table, i: nat, k: nat) {
    && Inodes(addrs) && Inodes(addrs') && |addrs| == |addrs'|
    && (forall j :: 0 <= j < |addrs| && j != i ==> addrs'[j] == addrs[j])
    && forall i', k' {:trigger KeptAt(addrs, table, addrs', table', i, k, i', k')} ::
         0 <= i' < |addrs| && 0 <= k' < SLOTS ==> KeptAt(addrs, table, addrs', table', i, k, i', k')
  }

  lemma DirectKept(addrs: Addrs, table: Table, own: map<nat, Place>, i: nat, k: nat, b: nat)
    requires Owned(addrs, table, own) && i < |addrs| && k <= NDIRECT && b != 0 && b !in own && addrs[i][k] == 0
    ensures Kept(addrs, table, WithAddr(addrs, i, k, b), table[b := Zeros()], i, k)
  {
    var addrs', table' := WithAddr(addrs, i, k, b), table[b := Zeros()];
    forall i', k' | 0 <= i' < |addrs| && 0 <= k' < SLOTS
      ensures KeptAt(addrs, table, addrs', table', i, k, i', k')
    {
      assert Placed(addrs, table, own, i', NDIRECT);
      DirectAt(addrs, table, own, i, k, b, i', k');
    }
  }

  lemma EntryKept(addrs: Addrs, table: Table, own: map<nat, Place>, i: nat, t: nat, j: nat, b: nat)
    requires Owned(addrs, table, own) && i < |addrs| && t == addrs[i][NDIRECT] && t in own && j < NINDIRECT
    requires Backed(addrs, table, own, t) && own[t] == Place(i, NDIRECT) && b != 0 && b !in own && table[t][j] == 0
    ensures Kept(addrs, table, addrs, WithEntry(table, t, j, b), i, NDIRECT + 1 + j)
  {
    var table', slot := WithEntry(table, t, j, b), NDIRECT + 1 + j;
    forall i', k' | 0 <= i' < |addrs| && 0 <= k' < SLOTS
      ensures KeptAt(addrs, table, addrs, table', i, slot, i', k')
    {
      assert Placed(addrs, table, own, i', NDIRECT);
      EntryAt(addrs, table, own, i, t, j, b, i', k');
    }
  }

  lemma KeptBoth(addrs: Addrs, table: Table, addrs1: Addrs, table1: Table, addrs2: Addrs, table2: Table, i: nat, k: nat)
    requires Kept(addrs, table, addrs1, table1, i, NDIRECT) && Kept(addrs1, table1, addrs2, table2, i, k) && k > NDIRECT
    ensures Kept(addrs, table, addrs2, table2, i, k)
  {
    forall i', k' | 0 <= i' < |addrs| && 0 <= k' < SLOTS
      ensures KeptAt(addrs, table, addrs2, table2, i, k, i', k')
    {
      assert KeptAt(addrs, table, addrs1, table1, i, NDIRECT, i', k')
             && KeptAt(addrs1, table1, addrs2, table2, i, k, i', k');
    }
  }

  lemma KeptSame(addrs: Addrs, table: Table, i: nat, k: nat)
    requires Inodes(addrs)
    ensures Kept(addrs, table, addrs, table, i, k)
  {
    forall i', k' | 0 <= i' < |addrs| && 0 <= k' < SLOTS
      ensures KeptAt(addrs, table, addrs, table, i, k, i', k')
    {
    }
  }

  /** The block after b is taken. */
  lemma BitsTaken(used: seq<bool>, meta: nat, own: map<nat, Place>, b: nat, p: Place)
    requires BitsExact(used, meta, own) && b < |used| && !used[b]
    ensures b != 0 && b !in own && BitsExact(used[b := true], meta, own[b := p])
  {
  }

  // ----- a slot gives its block back -----

  lemma BitsFreed(used: seq<bool>, meta: nat, own: map<nat, Place>, b: nat)
    requires BitsExact(used, meta, own) && b in own
    ensures b < |used| && used[b] && BitsExact(used[b := false], meta, own - {b})
  {
  }

  lemma ClearDirect(addrs: Addrs, table: Table, own: map<nat, Place>, i: nat, k: nat)
    requires Owned(addrs, table, own) && i < |addrs| && k < NDIRECT && addrs[i][k] != 0
    ensures addrs[i][k] in own && own[addrs[i][k]] == Place(i, k)
    ensures Owned(WithAddr(addrs, i, k, 0), table, own - {addrs[i][k]})
  {
    var b := addrs[i][k];
    assert Placed(addrs, table, own, i, k);
    var addrs', own' := WithAddr(addrs, i, k, 0), own - {b};
    forall i', k' | 0 <= i' < |addrs'| && 0 <= k' < SLOTS
      ensures Placed(addrs', table, own', i', k')
    {
      assert Placed(addrs, table, own, i', k');
    }
    forall c | c in own'
      ensures Backed(addrs', table, own', c)
    {
      assert Backed(addrs, table, own, c);
    }
  }

  /** `own` without the first j entries of the indirect block of inode i. */
  ghost function Spared(own: map<nat, Place>, i: nat, j: nat): (r: map<nat, Place>)
    ensures forall b :: b in r <==> b in own && !(own[b].ino == i && NDIRECT < own[b].slot <= NDIRECT + j)
    ensures forall b :: b in r ==> r[b] == own[b]
  {
    map b | b in own && !(own[b].ino == i && NDIRECT < own[b].slot <= NDIRECT + j) :: own[b]
  }

  lemma SparedNext(addrs: Addrs, table: Table, own: map<nat, Place>, i: nat, j: nat)
    requires Owned(addrs, table, own) && i < |addrs| && j < NINDIRECT
    ensures
      var b := At(addrs, table, i, NDIRECT + 1 + j);
      && (b == 0 ==> Spared(own, i, j + 1) == Spared(own, i, j))
      && (b != 0 ==> b in Spared(own, i, j) && Spared(own, i, j + 1) == Spared(own, i, j) - {b})
  {
    var b := At(addrs, table, i, NDIRECT + 1 + j);
    assert Placed(addrs, table, own, i, NDIRECT + 1 + j);
    forall c | c in own && own[c] == Place(i, NDIRECT + 1 + j)
      ensures c == b != 0
    {
      assert Backed(addrs, table, own, c);
    }
  }

  /** An inode without its indirect block has none of the entries either. */
  lemma ClearIndirect(addrs: Addrs, table: Table, own: map<nat, Place>, i: nat)
    requires Owned(addrs, table, own) && i < |addrs| && addrs[i][NDIRECT] != 0
    ensures
      var t := addrs[i][NDIRECT];
      && t in own && own[t] == Place(i, NDIRECT) && t in table && |table[t]| == NINDIRECT
      && t in Spared(own, i, NINDIRECT)
      && Owned(WithAddr(addrs, i, NDIRECT, 0), table, Spared(own, i, NINDIRECT) - {t})
  {
    var t := addrs[i][NDIRECT];
    assert Placed(addrs, table, own, i, NDIRECT) && Backed(addrs, table, own, t);
    var addrs', own' := WithAddr(addrs, i, NDIRECT, 0), Spared(own, i, NINDIRECT) - {t};
    forall i', k' | 0 <= i' < |addrs'| && 0 <= k' < SLOTS
      ensures Placed(addrs', table, own', i', k')
    {
      assert Placed(addrs, table, own, i', k');
    }
    forall c | c in own'
      ensures Backed(addrs', table, own', c)
    {
      assert Backed(addrs, table, own, c);
    }
  }

  /** An inode with no address owns nothing. */
  lemma EmptyOwnsNothing(addrs: Addrs, table: Table, own: map<nat, Place>, i: nat)
    requires Owned(addrs, table, own) && i < |addrs| && forall k :: 0 <= k <= NDIRECT ==> addrs[i][k] == 0
    ensures forall b :: b in own ==> own[b].ino != i
  {
    forall b | b in own
      ensures own[b].ino != i
    {
      assert Backed(addrs, table, own, b);
    }
  }
}
