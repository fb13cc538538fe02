/** vm.c and kalloc.c: page tables over a list of free pages. */
module PageTables {
  import opened PageOwnership

  const PGSIZE: nat := 4096
  /** PTE_W | PTE_U */
  const WRITABLE_USER: nat := 6

  type Byte = bv8

  function Filled(b: Byte): (p: seq<Byte>)
    ensures |p| == PGSIZE && forall k :: 0 <= k < PGSIZE ==> p[k] == b
  {
    seq(PGSIZE, _ => b)
  }

  /** mappages: done, no memory for a page table, or the panic "remap". */
  datatype MapResult = Mapped | NoMemory | Remap

  /** copyuvm: done, no memory, or the panic at a page of the parent that is not there. */
  datatype CopyResult = Whole | NoPages | Hole

  /** A line of kmap: npages pages of kernel memory from page v on, at the frames from `frame` on. */
  datatype Kmap = Kmap(v: nat, npages: nat, frame: nat, perm: nat)

  /** The lines are above the user part and do not overlap. */
  ghost predicate KmapOk(kmap: seq<Kmap>) {
    && (forall k :: 0 <= k < |kmap| ==> USERPAGES <= kmap[k].v && kmap[k].v + kmap[k].npages <= NPD * NPT)
    && forall j, k :: 0 <= j < k < |kmap| ==>
         kmap[j].v + kmap[j].npages <= kmap[k].v || kmap[k].v + kmap[k].npages <= kmap[j].v
  }

  /** Page v of the first k lines. */
  ghost function KernelAt(kmap: seq<Kmap>, k: nat, v: nat): Pte
    requires k <= |kmap|
  {
    if k == 0 then Absent
    else if InLine(kmap[k - 1], kmap[k - 1].npages, v) then LineAt(kmap[k - 1], v)
    else KernelAt(kmap, k - 1, v)
  }

  predicate InLine(m: Kmap, n: nat, v: nat) { m.v <= v < m.v + n }

  function LineAt(m: Kmap, v: nat): Pte
    requires m.v <= v
  {
    Present(m.frame + (v - m.v), m.perm)
  }

  lemma {:induction false} KernelAbsent(kmap: seq<Kmap>, k: nat, v: nat)
    requires k <= |kmap| && forall j :: 0 <= j < k ==> !InLine(kmap[j], kmap[j].npages, v)
    ensures KernelAt(kmap, k, v) == Absent
  {
    if k > 0 {
      KernelAbsent(kmap, k - 1, v);
    }
  }

  ghost predicate KernelLookAt(dirs: Dirs, tables: Tables, d: nat, kmap: seq<Kmap>, k: nat, n: nat, v: nat)
    requires k <= |kmap| && (k < |kmap| || n == 0)
  {
    Look(dirs, tables, d, v) == if k < |kmap| && InLine(kmap[k], n, v) then LineAt(kmap[k], v) else KernelAt(kmap, k, v)
  }

  /** Directory d maps the first k lines, n pages of the next, and nothing else. */
  ghost predicate KernelLooks(dirs: Dirs, tables: Tables, d: nat, kmap: seq<Kmap>, k: nat, n: nat)
    requires k <= |kmap| && (k < |kmap| || n == 0)
  {
    forall v {:trigger KernelLookAt(dirs, tables, d, kmap, k, n, v)} :: KernelLookAt(dirs, tables, d, kmap, k, n, v)
  }

  lemma KernelStart(dirs: Dirs, tables: Tables, d: nat, kmap: seq<Kmap>)
    requires Blank(dirs, tables, d)
    ensures KernelLooks(dirs, tables, d, kmap, 0, 0)
  {
    forall v: nat
      ensures KernelLookAt(dirs, tables, d, kmap, 0, 0, v)
    {
    }
  }

  lemma KernelPage(dirs: Dirs, tables: Tables, dirs': Dirs, tables': Tables, d: nat, kmap: seq<Kmap>, k: nat, n: nat,
                   n': nat)
    requires k < |kmap| && KernelLooks(dirs, tables, d, kmap, k, n) && n' == n + 1
    requires Put(dirs, tables, dirs', tables', d, kmap[k].v + n, LineAt(kmap[k], kmap[k].v + n))
    ensures KernelLooks(dirs', tables', d, kmap, k, n')
  {
    forall v: nat
      ensures KernelLookAt(dirs', tables', d, kmap, k, n', v)
    {
      assert KernelLookAt(dirs, tables, d, kmap, k, n, v);
      assert PutAt(dirs, tables, dirs', tables', d, kmap[k].v + n, LineAt(kmap[k], kmap[k].v + n), d, v);
    }
  }

  lemma KernelLine(dirs: Dirs, tables: Tables, d: nat, kmap: seq<Kmap>, k: nat, k': nat)
    requires k < |kmap| && KernelLooks(dirs, tables, d, kmap, k, kmap[k].npages) && k' == k + 1
    ensures KernelLooks(dirs, tables, d, kmap, k', 0)
  {
    forall v: nat
      ensures KernelLookAt(dirs, tables, d, kmap, k', 0, v)
    {
      assert KernelLookAt(dirs, tables, d, kmap, k, kmap[k].npages, v);
    }
  }

  lemma KernelFree(dirs: Dirs, tables: Tables, d: nat, kmap: seq<Kmap>, k: nat, n: nat)
    requires KmapOk(kmap) && k < |kmap| && n < kmap[k].npages && KernelLooks(dirs, tables, d, kmap, k, n)
    ensures Look(dirs, tables, d, kmap[k].v + n) == Absent
  {
    var v := kmap[k].v + n;
    assert KernelLookAt(dirs, tables, d, kmap, k, n, v);
    KernelAbsent(kmap, k, v);
  }

  lemma KernelNoUser(dirs: Dirs, tables: Tables, d: nat, kmap: seq<Kmap>)
    requires KmapOk(kmap) && KernelLooks(dirs, tables, d, kmap, |kmap|, 0)
    ensures Unmapped(dirs, tables, d, 0, USERPAGES)
  {
    forall v: nat | v < USERPAGES
      ensures Look(dirs, tables, d, v) == Absent
    {
      assert KernelLookAt(dirs, tables, d, kmap, |kmap|, 0, v);
      KernelAbsent(kmap, |kmap|, v);
    }
  }

  /** The directory entries that a line needs page tables in. */
  function LineEntries(m: Kmap): set<nat> { EntriesOf(m.v, m.v + m.npages) }

  function LineTables(es: set<nat>, m: Kmap): nat { TablesFor(es, m.v, m.v + m.npages) }

  /** Those of the first k lines. */
  function KernelEntries(kmap: seq<Kmap>, k: nat): set<nat>
    requires k <= |kmap|
  {
    if k == 0 then {} else KernelEntries(kmap, k - 1) + LineEntries(kmap[k - 1])
  }

  /** The page tables that the first k lines need. */
  function KernelTables(kmap: seq<Kmap>, k: nat): nat
    requires k <= |kmap|
  {
    if k == 0 then 0
    else KernelTables(kmap, k - 1) + LineTables(KernelEntries(kmap, k - 1), kmap[k - 1])
  }

  /** They are as many as the directory entries that the lines fall into: of all NPD, the others are missing. */
  lemma {:induction false} KernelTablesIs(kmap: seq<Kmap>, k: nat, n: nat)
    requires KmapOk(kmap) && k <= |kmap| && n == NPD
    ensures KernelTables(kmap, k) + Missing(KernelEntries(kmap, k), 0, n) == n
  {
    if k == 0 {
      MissingNone(n);
    } else {
      var m, es := kmap[k - 1], KernelEntries(kmap, k - 1);
      KernelTablesIs(kmap, k - 1, n);
      if m.npages == 0 {
        assert KernelEntries(kmap, k) == es;
      } else {
        var i, j := m.v / NPT, (m.v + m.npages - 1) / NPT + 1;
        forall x: nat
          ensures x in KernelEntries(kmap, k) <==> x in es || i <= x < j
        {
          EntriesBetween(m.v, m.v + m.npages, x);
        }
        MissingUnion(es, KernelEntries(kmap, k), i, j, n);
      }
    }
  }

  lemma {:induction false} KernelTablesMono(kmap: seq<Kmap>, k: nat, n: nat)
    requires k <= n <= |kmap|
    ensures KernelTables(kmap, k) <= KernelTables(kmap, n)
    decreases n
  {
    if k < n {
      KernelTablesMono(kmap, k, n - 1);
    }
  }

  class Memory {
    var freelist: seq<nat>
    var dirs: Dirs
    var tables: Tables
    var pages: map<nat, seq<Byte>>
    ghost var own: map<nat, Role>

    ghost predicate Valid()
      reads this`freelist, this`dirs, this`tables, this`own, this`pages
    {
      Placed(dirs, tables, own) && FreeOk(freelist, own) && Frames() <= pages.Keys
    }

    /** All the pages there are. */
    ghost function Frames(): set<nat>
      reads this`freelist, this`own
    {
      Members(freelist) + own.Keys
    }

    /** kinit: freerange puts the frames lo..hi-1 on the list, the last one first. */
    constructor (lo: nat, hi: nat)
      requires 1 <= lo <= hi
      ensures Valid() && dirs == map[] && own == map[] && forall f :: f in Frames() <==> lo <= f < hi
    {
      freelist, dirs, tables, pages, own := [], map[], map[], map[], map[];
      new;
      var p := lo;
      while p < hi
        invariant lo <= p <= hi && dirs == map[] && own == map[] && FreeOk(freelist, own)
        invariant forall f :: f in freelist <==> lo <= f < p
        invariant forall f :: f in freelist ==> f in pages
      {
        assert p !in freelist;
        assert forall i :: 0 <= i < |freelist| ==> freelist[i] in freelist;
        pages := pages[p := Filled(1)];
        freelist := [p] + freelist;
        p := p + 1;
      }
    }

    /** kalloc; 0 when nothing is free. */
    method Kalloc() returns (f: nat)
      requires Valid()
      modifies this`freelist, this`own
      ensures Valid() && Frames() == old(Frames())
      ensures f == 0 <==> old(freelist) == []
      ensures f == 0 ==> unchanged(this)
      ensures f != 0 ==> f in old(freelist) && f !in old(own) && own == old(own)[f := Loose]
      ensures f != 0 ==> old(freelist) == [f] + freelist
    {
      if freelist == [] {
        return 0;
      }
      f := freelist[0];
      FreeTaken(freelist, own);
      LoosePlaced(dirs, tables, own, f);
      freelist := freelist[1..];
      own := own[f := Loose];
    }

    /** kfree: the page is filled with junk and put on the list. */
    method Release(f: nat)
      requires FreeOk(freelist, own) && Frames() <= pages.Keys && f in own && f != 0
      modifies this`freelist, this`own, this`pages
      ensures FreeOk(freelist, own) && Frames() == old(Frames()) <= pages.Keys
      ensures own == old(own) - {f} && pages == old(pages)[f := Filled(1)] && freelist == [f] + old(freelist)
    {
      pages := pages[f := Filled(1)];
      freelist := [f] + freelist;
      own := own - {f};
    }

    /** kfree of a page that nothing refers to any more. */
    method Kfree(f: nat)
      requires Valid() && f in own && own[f] == Loose
      modifies this`freelist, this`own, this`pages
      ensures Valid() && Frames() == old(Frames()) && own == old(own) - {f} && pages == old(pages)[f := Filled(1)]
      ensures freelist == [f] + old(freelist)
    {
      assert BackOk(dirs, tables, own, f);
      GonePlaced(dirs, tables, own, f);
      Release(f);
    }

    /** walkpgdir: the page table for page v, made if `alloc`; 0 is none. */
    method Walk(d: nat, v: nat, alloc: bool) returns (t: nat)
      requires Valid() && d in dirs && v / NPT < NPD
      modifies this`freelist, this`dirs, this`tables, this`own
      ensures Valid() && Frames() == old(Frames()) && d in dirs && t == TableOf(dirs, d, v / NPT)
      ensures SameLooks(old(dirs), old(tables), dirs, tables) && dirs.Keys == old(dirs).Keys
      ensures Rest(own, d) == old(Rest(own, d)) && SameOwn(old(own), own)
      ensures !alloc || t == 0 ==> unchanged(this)
      ensures alloc && t == 0 ==> old(freelist) == []
      ensures old(TableOf(dirs, d, v / NPT)) != 0 ==> unchanged(this)
      ensures alloc ==> (t == 0 <==> |old(freelist)| < TableCost(old(Entries(dirs, d)), v))
      ensures alloc && t != 0 ==> |freelist| + TableCost(old(Entries(dirs, d)), v) == |old(freelist)|
      ensures alloc && t != 0 ==> Entries(dirs, d) == old(Entries(dirs, d)) + {v / NPT}
    {
      assert DirOk(dirs, own, d);
      forall d': nat, v': nat
        ensures SameLook(dirs, tables, dirs, tables, d', v')
      {
      }
      t := dirs[d][v / NPT];
      if t == 0 && alloc {
        t := Kalloc();
        if t == 0 {
          return;
        }
        NewTablePlaced(dirs, tables, own, d, v / NPT, t);
        NewTableSame(dirs, tables, own, d, v / NPT, t);
        NewEntry(dirs, d, v / NPT, t);
        tables := tables[t := EmptyTable()];
        dirs := WithTable(dirs, d, v / NPT, t);
        own := own[t := IsTable(d, v / NPT)];
      }
    }

    /** mappages for one page.  A user page gets a page of its own. */
    method MapOne(d: nat, v: nat, f: nat, perm: nat) returns (r: MapResult)
      requires Valid() && d in dirs && v / NPT < NPD
      requires v < USERPAGES ==> f in own && own[f] == Loose
      modifies this`freelist, this`dirs, this`tables, this`own
      ensures Valid() && Frames() == old(Frames()) && dirs.Keys == old(dirs).Keys
      ensures r.Remap? <==> old(Look(dirs, tables, d, v)).Present?
      ensures r.Remap? ==> unchanged(this)
      ensures r.NoMemory? ==> unchanged(this) && freelist == []
      ensures r.Mapped? ==> Put(old(dirs), old(tables), dirs, tables, d, v, Present(f, perm))
      ensures r.Mapped? ==> Rest(own, d) == if v < USERPAGES then old(Rest(own, d)) - {f} else old(Rest(own, d))
      ensures SameOwn(if v < USERPAGES then old(own) - {f} else old(own), own) && (f in old(own) ==> f in own)
      ensures r.NoMemory? <==> |old(freelist)| < TableCost(old(Entries(dirs, d)), v)
      ensures r.Mapped? ==> |freelist| + TableCost(old(Entries(dirs, d)), v) == |old(freelist)|
      ensures r.Mapped? ==> Entries(dirs, d) == old(Entries(dirs, d)) + {v / NPT}
    {
      var t := Walk(d, v, true);
      if t == 0 {
        return NoMemory;
      }
      assert SameLook(old(dirs), old(tables), dirs, tables, d, v) && TableOk(dirs, tables, own, d, v / NPT);
      if tables[t][v % NPT].Present? {
        return Remap;
      }
      ghost var dirs1, tables1 := dirs, tables;
      SetEntry(d, v, t, f, perm);
      SamePut(old(dirs), old(tables), dirs1, tables1, dirs, tables, d, v, Present(f, perm));
      r := Mapped;
    }

    method SetEntry(d: nat, v: nat, t: nat, f: nat, perm: nat)
      requires Valid() && d in dirs && t == TableOf(dirs, d, v / NPT) != 0 && Look(dirs, tables, d, v) == Absent
      requires v < USERPAGES ==> f in own && own[f] == Loose
      modifies this`tables, this`own
      ensures Valid() && Frames() == old(Frames()) && Put(dirs, old(tables), dirs, tables, d, v, Present(f, perm))
      ensures own == if v < USERPAGES then old(own)[f := IsPage(d, v)] else old(own)
      ensures Rest(own, d) == if v < USERPAGES then old(Rest(own, d)) - {f} else old(Rest(own, d))
    {
      assert TableOk(dirs, tables, own, d, v / NPT);
      MapPlaced(dirs, tables, own, d, v, t, f, perm);
      EntryPut(dirs, tables, own, d, v, t, Present(f, perm));
      tables := WithEntry(tables, t, v % NPT, Present(f, perm));
      if v < USERPAGES {
        RestMapped(own, d, f, v);
        own := own[f := IsPage(d, v)];
      }
    }

    /** One turn of deallocuvm where the page table exists: page v is unmapped and given back. */
    method UnmapOne(d: nat, v: nat, t: nat)
      requires Valid() && d in dirs && v < USERPAGES && t == TableOf(dirs, d, v / NPT) != 0
      modifies this`freelist, this`tables, this`own, this`pages
      ensures Valid() && Frames() == old(Frames()) && Put(dirs, old(tables), dirs, tables, d, v, Absent)
      ensures Rest(own, d) == old(Rest(own, d)) && SamePages(old(own), old(pages), own, pages)
              && own.Keys <= old(own).Keys
    {
      assert TableOk(dirs, tables, own, d, v / NPT);
      forall d': nat, v': nat
        ensures Look(dirs, tables, d, v) == Absent ==> PutAt(dirs, tables, dirs, tables, d, v, Absent, d', v')
      {
      }
      var e := tables[t][v % NPT];
      if e.Present? {
        UnmapPlaced(dirs, tables, own, d, v, t, e.frame);
        EntryPut(dirs, tables, own, d, v, t, Absent);
        own := own[e.frame := Loose];
        tables := WithEntry(tables, t, v % NPT, Absent);
        Kfree(e.frame);
      }
    }

    /** deallocuvm: the pages of newsz..oldsz-1 are unmapped; where there is no page table the loop goes
        on at the next directory entry. */
    method Deallocuvm(d: nat, oldsz: nat, newsz: nat) returns (r: nat)
      requires Valid() && d in dirs && oldsz <= USERPAGES * PGSIZE
      modifies this`freelist, this`dirs, this`tables, this`own, this`pages
      ensures Valid() && Frames() == old(Frames()) && dirs == old(dirs)
      ensures r == if newsz >= oldsz then oldsz else newsz
      ensures newsz < oldsz ==> Shrunk(old(dirs), old(tables), dirs, tables, d, PagesOf(newsz), PagesOf(oldsz))
      ensures newsz >= oldsz ==> unchanged(this)
      ensures Rest(own, d) == old(Rest(own, d)) && SamePages(old(own), old(pages), own, pages)
              && own.Keys <= old(own).Keys
    {
      if newsz >= oldsz {
        return oldsz;
      }
      var a := (newsz + PGSIZE - 1) / PGSIZE;
      ghost var lo, hi := a, PagesOf(oldsz);
      ShrunkNone(dirs, tables, d, lo);
      while a * PGSIZE < oldsz
        invariant Valid() && Frames() == old(Frames()) && dirs == old(dirs) && lo <= a
        invariant Shrunk(old(dirs), old(tables), dirs, tables, d, lo, MinNat(a, hi))
        invariant Rest(own, d) == old(Rest(own, d)) && SamePages(old(own), old(pages), own, pages)
                  && own.Keys <= old(own).Keys
      {
        InUser(a, oldsz);
        var t := Walk(d, a, false);
        if t == 0 {
          ShrunkSkip(old(dirs), old(tables), dirs, tables, d, lo, a, MinNat((a / NPT + 1) * NPT, hi));
          a := (a / NPT + 1) * NPT - 1;
        } else {
          ghost var tables1 := tables;
          UnmapOne(d, a, t);
          ShrunkOne(old(dirs), old(tables), dirs, tables1, dirs, tables, d, lo, a, a + 1);
        }
        a := a + 1;
      }
      r := newsz;
    }

    /** One turn of the loop of allocuvm: a zeroed page at v.  If there is no memory for a page table,
        the page is left loose. */
    method AllocOne(d: nat, v: nat) returns (ok: bool, mem: nat)
      requires Valid() && d in dirs && v < USERPAGES && v / NPT < NPD && Look(dirs, tables, d, v) == Absent
      modifies this`freelist, this`dirs, this`tables, this`own, this`pages
      ensures Valid() && Frames() == old(Frames()) && dirs.Keys == old(dirs).Keys
      ensures SamePages(old(own), old(pages), own, pages) && SameOwn(old(own), own) && mem !in old(own)
      ensures !ok ==> dirs == old(dirs) && tables == old(tables) && own == if mem == 0 then old(own)
                      else old(own)[mem := Loose]
      ensures ok ==> Put(old(dirs), old(tables), dirs, tables, d, v, Present(mem, WRITABLE_USER))
      ensures ok ==> mem in own && mem in pages && pages[mem] == Filled(0) && Rest(own, d) == old(Rest(own, d))
      ensures ok <==> |old(freelist)| >= 1 + TableCost(old(Entries(dirs, d)), v)
      ensures ok ==> |freelist| + 1 + TableCost(old(Entries(dirs, d)), v) == |old(freelist)|
      ensures ok ==> Entries(dirs, d) == old(Entries(dirs, d)) + {v / NPT}
    {
      mem := Kalloc();
      if mem == 0 {
        assert 0 in own ==> BackOk(dirs, tables, own, 0);
        return false, 0;
      }
      RestLoose(old(own), d, mem);
      pages := pages[mem := Filled(0)];
      var m := MapOne(d, v, mem, WRITABLE_USER);
      ok := m.Mapped?;
    }

    /** allocuvm undoes what it did: the pages so far, then the one it could not map. */
    method GiveUp(d: nat, oldsz: nat, newsz: nat, mem: nat)
      requires Valid() && d in dirs && oldsz < newsz <= USERPAGES * PGSIZE
               && (mem != 0 ==> mem in own && own[mem] == Loose)
      modifies this`freelist, this`dirs, this`tables, this`own, this`pages
      ensures Valid() && Frames() == old(Frames()) && dirs == old(dirs)
      ensures Shrunk(old(dirs), old(tables), dirs, tables, d, PagesOf(oldsz), PagesOf(newsz))
      ensures Rest(own, d) == old(Rest(own, d)) - {mem} && SamePages(old(own), old(pages), own, pages)
    {
      assert 0 in own ==> BackOk(dirs, tables, own, 0);
      var z := Deallocuvm(d, newsz, oldsz);
      if mem != 0 {
        assert mem in Rest(own, d);
        RestGone(own, d, mem);
        Kfree(mem);
      }
    }

    /** The pages from oldsz to newsz, and the page tables they lack. */
    ghost function GrowthCost(d: nat, oldsz: nat, newsz: nat): nat
      requires oldsz <= newsz
      reads this`dirs
    {
      PagesMore(oldsz, newsz);
      PagesOf(newsz) - PagesOf(oldsz) + TablesFor(Entries(dirs, d), PagesOf(oldsz), PagesOf(newsz))
    }

    /** allocuvm: the process grows from oldsz to newsz bytes, or nothing changes. */
    method Allocuvm(d: nat, oldsz: nat, newsz: nat) returns (r: nat, ghost grown: bool)
      requires Valid() && d in dirs
      requires newsz < USERPAGES * PGSIZE ==> Unmapped(dirs, tables, d, PagesOf(oldsz), PagesOf(newsz))
      modifies this`freelist, this`dirs, this`tables, this`own, this`pages
      ensures Valid() && Frames() == old(Frames()) && dirs.Keys == old(dirs).Keys
      ensures newsz >= USERPAGES * PGSIZE ==> !grown
      ensures r == if !grown then 0 else if newsz < oldsz then oldsz else newsz
      ensures grown && newsz >= oldsz ==>
        && Grown(old(dirs), old(tables), dirs, tables, d, PagesOf(oldsz), PagesOf(newsz), WRITABLE_USER)
        && ZeroPages(dirs, tables, pages, d, PagesOf(oldsz), PagesOf(newsz)) && SameOwn(old(own), own)
      ensures !grown || newsz < oldsz ==> SameLooks(old(dirs), old(tables), dirs, tables)
      ensures newsz < USERPAGES * PGSIZE ==>
        (grown <==> newsz < oldsz || |old(freelist)| >= old(GrowthCost(d, oldsz, newsz)))
      ensures grown && newsz >= oldsz ==> |freelist| + old(GrowthCost(d, oldsz, newsz)) == |old(freelist)|
      ensures Rest(own, d) == old(Rest(own, d)) && SamePages(old(own), old(pages), own, pages)
    {
      LooksSame(dirs, tables);
      if newsz >= USERPAGES * PGSIZE {
        return 0, false;
      }
      if newsz < oldsz {
        return oldsz, true;
      }
      var ok := GrowTo(d, oldsz, newsz);
      r, grown := if ok then newsz else 0, ok;
    }

    method GrowTo(d: nat, oldsz: nat, newsz: nat) returns (ok: bool)
      requires Valid() && d in dirs && oldsz <= newsz < USERPAGES * PGSIZE
      requires Unmapped(dirs, tables, d, PagesOf(oldsz), PagesOf(newsz))
      modifies this`freelist, this`dirs, this`tables, this`own, this`pages
      ensures Valid() && Frames() == old(Frames()) && dirs.Keys == old(dirs).Keys
      ensures ok ==>
        && Grown(old(dirs), old(tables), dirs, tables, d, PagesOf(oldsz), PagesOf(newsz), WRITABLE_USER)
        && ZeroPages(dirs, tables, pages, d, PagesOf(oldsz), PagesOf(newsz)) && SameOwn(old(own), own)
      ensures !ok ==> SameLooks(old(dirs), old(tables), dirs, tables)
      ensures Rest(own, d) == old(Rest(own, d)) && SamePages(old(own), old(pages), own, pages)
      ensures ok <==> |old(freelist)| >= old(GrowthCost(d, oldsz, newsz))
      ensures ok ==> |freelist| + old(GrowthCost(d, oldsz, newsz)) == |old(freelist)|
    {
      var a := PagesOf(oldsz);
      ghost var lo, hi := a, PagesOf(newsz);
      ghost var es := Entries(dirs, d);
      PagesMore(oldsz, newsz);
      SpentNothing(es, lo, |freelist|);
      GrownNone(dirs, tables, d, lo, WRITABLE_USER);
      while a * PGSIZE < newsz
        invariant Valid() && Frames() == old(Frames()) && dirs.Keys == old(dirs).Keys && lo <= a <= hi
        invariant Grown(old(dirs), old(tables), dirs, tables, d, lo, a, WRITABLE_USER)
        invariant ZeroPages(dirs, tables, pages, d, lo, a)
        invariant Spent(es, lo, a, Entries(dirs, d), |freelist| + (a - lo), |old(freelist)|)
        invariant Rest(own, d) == old(Rest(own, d)) && SamePages(old(own), old(pages), own, pages)
                  && SameOwn(old(own), own)
      {
        ghost var now, free := Entries(dirs, d), |freelist| + (a - lo);
        ok := GrowOne(d, oldsz, newsz, a, old(dirs), old(tables));
        SpentBefore(es, lo, a, now, free, |old(freelist)|, hi);
        if !ok {
          return;
        }
        SpentNext(es, lo, a, now, free, |old(freelist)|, Entries(dirs, d));
        a := a + 1;
      }
      ok := true;
    }

    /** One turn; if it fails, all the turns are undone. */
    method GrowOne(d: nat, oldsz: nat, newsz: nat, a: nat, ghost dirs0: Dirs, ghost tables0: Tables) returns (ok: bool)
      requires Valid() && d in dirs && oldsz <= newsz < USERPAGES * PGSIZE && PagesOf(oldsz) <= a && a * PGSIZE < newsz
      requires Unmapped(dirs0, tables0, d, PagesOf(oldsz), PagesOf(newsz))
      requires Grown(dirs0, tables0, dirs, tables, d, PagesOf(oldsz), a, WRITABLE_USER)
      requires ZeroPages(dirs, tables, pages, d, PagesOf(oldsz), a)
      modifies this`freelist, this`dirs, this`tables, this`own, this`pages
      ensures Valid() && Frames() == old(Frames()) && dirs.Keys == old(dirs).Keys && a + 1 <= PagesOf(newsz)
      ensures ok ==> Grown(dirs0, tables0, dirs, tables, d, PagesOf(oldsz), a + 1, WRITABLE_USER)
      ensures ok ==> ZeroPages(dirs, tables, pages, d, PagesOf(oldsz), a + 1) && SameOwn(old(own), own)
      ensures !ok ==> SameLooks(dirs0, tables0, dirs, tables)
      ensures Rest(own, d) == old(Rest(own, d)) && SamePages(old(own), old(pages), own, pages)
      ensures ok <==> |old(freelist)| >= 1 + TableCost(old(Entries(dirs, d)), a)
      ensures ok ==> |freelist| + 1 + TableCost(old(Entries(dirs, d)), a) == |old(freelist)|
      ensures ok ==> Entries(dirs, d) == old(Entries(dirs, d)) + {a / NPT}
    {
      InUser(a, newsz);
      assert GrownAt(dirs0, tables0, dirs, tables, d, PagesOf(oldsz), a, WRITABLE_USER, d, a);
      ghost var dirs1, tables1 := dirs, tables;
      var mem;
      ok, mem := AllocOne(d, a);
      if ok {
        GrownOne(dirs0, tables0, dirs1, tables1, dirs, tables, d, PagesOf(oldsz), a, mem, WRITABLE_USER, a + 1);
        ZeroOne(dirs1, tables1, old(own), old(pages), dirs, tables, own, pages, d, PagesOf(oldsz), a, mem);
      } else {
        RestLoose(old(own), d, mem);
        GiveUp(d, oldsz, newsz, mem);
        GrownShrunk(dirs0, tables0, dirs1, tables1, dirs, tables, d, PagesOf(oldsz), a, PagesOf(newsz), WRITABLE_USER);
      }
    }

    /** The loop of freevm over the page directory. */
    method FreeTables(d: nat)
      requires Valid() && d in dirs && Unmapped(dirs, tables, d, 0, USERPAGES)
      modifies this`freelist, this`own, this`pages
      ensures own == old(Spared(own, d, NPD)) && FreeOk(freelist, own)
      ensures Frames() == old(Frames()) <= pages.Keys && SamePages(old(own), old(pages), own, pages)
    {
      assert DirOk(dirs, own, d);
      ghost var own0 := own;
      assert Spared(own, d, 0) == own;
      for i := 0 to NPD
        invariant own == Spared(own0, d, i) && FreeOk(freelist, own)
        invariant Frames() == old(Frames()) <= pages.Keys && SamePages(own0, old(pages), own, pages)
      {
        SparedNext(dirs, tables, own0, d, i);
        if dirs[d][i] != 0 {
          Release(dirs[d][i]);
        }
      }
    }

    /** The rest of freevm, when no user page is left. */
    method DropDir(d: nat)
      requires Valid() && d in dirs && Unmapped(dirs, tables, d, 0, USERPAGES)
      modifies this`freelist, this`dirs, this`own, this`pages
      ensures Valid() && Frames() == old(Frames()) && dirs == old(dirs) - {d} && own == old(Rest(own, d))
      ensures OthersSame(old(dirs), tables, dirs, tables, d) && SamePages(old(own), old(pages), own, pages)
    {
      SparedAll(dirs, tables, own, d);
      RestPlaced(dirs, tables, own, d);
      assert DirOk(dirs, own, d) && BackOk(dirs, tables, own, d);
      FreeTables(d);
      Release(d);
      dirs := dirs - {d};
    }

    /** freevm: every page of the address space goes back to the free list, and no other. */
    method Freevm(d: nat)
      requires Valid() && d in dirs
      modifies this`freelist, this`dirs, this`tables, this`own, this`pages
      ensures Valid() && Frames() == old(Frames()) && dirs == old(dirs) - {d} && own == old(Rest(own, d))
      ensures OthersSame(old(dirs), old(tables), dirs, tables, d) && SamePages(old(own), old(pages), own, pages)
    {
      var z := Deallocuvm(d, USERPAGES * PGSIZE, 0);
      OthersShrunk(old(dirs), old(tables), dirs, tables, d, 0, USERPAGES);
      ghost var tables1 := tables;
      DropDir(d);
      OthersBoth(old(dirs), old(tables), old(dirs), tables1, dirs, tables, d);
    }

    /** mappages for line k of kmap. */
    method MapLine(d: nat, kmap: seq<Kmap>, k: nat) returns (ok: bool)
      requires Valid() && d in dirs && KmapOk(kmap) && k < |kmap| && KernelLooks(dirs, tables, d, kmap, k, 0)
      modifies this`freelist, this`dirs, this`tables, this`own
      ensures Valid() && Frames() == old(Frames()) && dirs.Keys == old(dirs).Keys
      ensures Rest(own, d) == old(Rest(own, d)) && SameOwn(old(own), own)
              && OthersSame(old(dirs), old(tables), dirs, tables, d)
      ensures ok ==> KernelLooks(dirs, tables, d, kmap, k + 1, 0)
      ensures ok <==> |old(freelist)| >= LineTables(old(Entries(dirs, d)), kmap[k])
      ensures ok ==> |freelist| + LineTables(old(Entries(dirs, d)), kmap[k]) == |old(freelist)|
      ensures ok ==> Entries(dirs, d) == old(Entries(dirs, d)) + LineEntries(kmap[k])
    {
      var n := 0;
      ghost var es, v := Entries(dirs, d), kmap[k].v;
      SpentNothing(es, v, |freelist|);
      SameOthers(dirs, tables, d);
      while n < kmap[k].npages
        invariant n <= kmap[k].npages && Valid() && Frames() == old(Frames()) && dirs.Keys == old(dirs).Keys
        invariant Rest(own, d) == old(Rest(own, d)) && SameOwn(old(own), own)
                  && OthersSame(old(dirs), old(tables), dirs, tables, d)
        invariant KernelLooks(dirs, tables, d, kmap, k, n)
        invariant Spent(es, v, v + n, Entries(dirs, d), |freelist|, |old(freelist)|)
      {
        ok := LineTurn(d, kmap, k, n, es, |old(freelist)|, old(dirs), old(tables));
        if !ok {
          return;
        }
        n := n + 1;
      }
      KernelLine(dirs, tables, d, kmap, k, k + 1);
      ok := true;
    }

    /** One page of a line, with what the line has cost so far. */
    method LineTurn(d: nat, kmap: seq<Kmap>, k: nat, n: nat, ghost es: set<nat>, ghost start: nat,
                    ghost dirs0: Dirs, ghost tables0: Tables) returns (ok: bool)
      requires Valid() && d in dirs && KmapOk(kmap) && k < |kmap| && n < kmap[k].npages
               && KernelLooks(dirs, tables, d, kmap, k, n)
      requires Spent(es, kmap[k].v, kmap[k].v + n, Entries(dirs, d), |freelist|, start)
      requires OthersSame(dirs0, tables0, dirs, tables, d)
      modifies this`freelist, this`dirs, this`tables, this`own
      ensures Valid() && Frames() == old(Frames()) && dirs.Keys == old(dirs).Keys
      ensures Rest(own, d) == old(Rest(own, d)) && SameOwn(old(own), own)
              && OthersSame(dirs0, tables0, dirs, tables, d)
      ensures ok ==> KernelLooks(dirs, tables, d, kmap, k, n + 1)
      ensures ok ==> Spent(es, kmap[k].v, kmap[k].v + (n + 1), Entries(dirs, d), |freelist|, start)
      ensures !ok ==> start < LineTables(es, kmap[k])
    {
      ghost var v := kmap[k].v + n;
      SpentBefore(es, kmap[k].v, v, Entries(dirs, d), |freelist|, start, kmap[k].v + kmap[k].npages);
      ok := MapLinePage(d, kmap, k, n);
      OthersBoth(dirs0, tables0, old(dirs), old(tables), dirs, tables, d);
      if ok {
        SpentNext(es, kmap[k].v, v, old(Entries(dirs, d)), |old(freelist)|, start, Entries(dirs, d));
      }
    }

    method MapLinePage(d: nat, kmap: seq<Kmap>, k: nat, n: nat) returns (ok: bool)
      requires Valid() && d in dirs && KmapOk(kmap) && k < |kmap| && n < kmap[k].npages
               && KernelLooks(dirs, tables, d, kmap, k, n)
      modifies this`freelist, this`dirs, this`tables, this`own
      ensures Valid() && Frames() == old(Frames()) && dirs.Keys == old(dirs).Keys
      ensures Rest(own, d) == old(Rest(own, d)) && SameOwn(old(own), own)
              && OthersSame(old(dirs), old(tables), dirs, tables, d)
      ensures ok ==> KernelLooks(dirs, tables, d, kmap, k, n + 1)
      ensures ok <==> |old(freelist)| >= TableCost(old(Entries(dirs, d)), kmap[k].v + n)
      ensures ok ==> |freelist| + TableCost(old(Entries(dirs, d)), kmap[k].v + n) == |old(freelist)|
      ensures ok ==> Entries(dirs, d) == old(Entries(dirs, d)) + {(kmap[k].v + n) / NPT}
    {
      var v := kmap[k].v + n;
      SameOthers(dirs, tables, d);
      KernelFree(dirs, tables, d, kmap, k, n);
      var m := MapOne(d, v, kmap[k].frame + n, kmap[k].perm);
      ok := m.Mapped?;
      if ok {
        KernelPage(old(dirs), old(tables), dirs, tables, d, kmap, k, n, n + 1);
        OthersPut(old(dirs), old(tables), old(dirs), old(tables), dirs, tables, d, v, LineAt(kmap[k], v));
      }
    }

    /** setupkvm: a page directory with the kernel's pages, or 0 and nothing changed. */
    method Setupkvm(kmap: seq<Kmap>) returns (d: nat)
      requires Valid() && KmapOk(kmap)
      modifies this`freelist, this`dirs, this`tables, this`own, this`pages
      ensures Valid() && Frames() == old(Frames()) && SamePages(old(own), old(pages), own, pages)
      ensures OldSame(old(dirs), old(tables), dirs, tables)
      ensures d == 0 ==> dirs.Keys == old(dirs).Keys && own == old(own)
      ensures d != 0 ==> d !in old(own) && dirs.Keys == old(dirs).Keys + {d} && Rest(own, d) == old(own)
      ensures d != 0 ==> KernelLooks(dirs, tables, d, kmap, |kmap|, 0) && Unmapped(dirs, tables, d, 0, USERPAGES)
      ensures d != 0 <==> |old(freelist)| >= 1 + KernelTables(kmap, |kmap|)
      ensures d != 0 ==> |freelist| + 1 + KernelTables(kmap, |kmap|) == |old(freelist)|
      ensures d != 0 ==> Entries(dirs, d) == KernelEntries(kmap, |kmap|)
    {
      d := NewDir();
      if d == 0 {
        return;
      }
      KernelStart(dirs, tables, d, kmap);
      var ok := MapKernel(d, kmap, |old(freelist)|, old(dirs), old(tables));
      OldOthers(old(dirs), old(tables), dirs, tables, d);
      if !ok {
        Undo(d, old(dirs), old(tables), old(own), old(pages));
        return 0;
      }
      KernelNoUser(dirs, tables, d, kmap);
    }

    /** The loop of setupkvm. */
    method MapKernel(d: nat, kmap: seq<Kmap>, ghost start: nat, ghost dirs0: Dirs, ghost tables0: Tables)
      returns (ok: bool)
      requires Valid() && d in dirs && KmapOk(kmap) && KernelLooks(dirs, tables, d, kmap, 0, 0)
      requires OthersSame(dirs0, tables0, dirs, tables, d) && SpentOnKernel(d, kmap, 0, start)
      modifies this`freelist, this`dirs, this`tables, this`own
      ensures Valid() && Frames() == old(Frames()) && dirs.Keys == old(dirs).Keys && Rest(own, d) == old(Rest(own, d))
      ensures OthersSame(dirs0, tables0, dirs, tables, d)
      ensures ok ==> KernelLooks(dirs, tables, d, kmap, |kmap|, 0) && SpentOnKernel(d, kmap, |kmap|, start)
      ensures !ok ==> start < 1 + KernelTables(kmap, |kmap|)
    {
      var k := 0;
      while k < |kmap|
        invariant k <= |kmap| && Valid() && Frames() == old(Frames()) && dirs.Keys == old(dirs).Keys
        invariant Rest(own, d) == old(Rest(own, d)) && OthersSame(dirs0, tables0, dirs, tables, d)
        invariant KernelLooks(dirs, tables, d, kmap, k, 0) && SpentOnKernel(d, kmap, k, start)
      {
        ok := SetupTurn(d, kmap, k, start, dirs0, tables0);
        if !ok {
          return;
        }
        k := k + 1;
      }
      ok := true;
    }

    /** With the first k lines mapped, `start` free frames have become what is left. */
    ghost predicate SpentOnKernel(d: nat, kmap: seq<Kmap>, k: nat, start: nat)
      requires k <= |kmap|
      reads this`dirs, this`freelist
    {
      Entries(dirs, d) == KernelEntries(kmap, k) && |freelist| + 1 + KernelTables(kmap, k) == start
    }

    /** One line. */
    method SetupTurn(d: nat, kmap: seq<Kmap>, k: nat, ghost start: nat, ghost dirs0: Dirs, ghost tables0: Tables)
      returns (ok: bool)
      requires Valid() && d in dirs && KmapOk(kmap) && k < |kmap| && KernelLooks(dirs, tables, d, kmap, k, 0)
      requires OthersSame(dirs0, tables0, dirs, tables, d)
      requires SpentOnKernel(d, kmap, k, start)
      modifies this`freelist, this`dirs, this`tables, this`own
      ensures Valid() && Frames() == old(Frames()) && dirs.Keys == old(dirs).Keys && Rest(own, d) == old(Rest(own, d))
      ensures OthersSame(dirs0, tables0, dirs, tables, d)
      ensures ok ==> KernelLooks(dirs, tables, d, kmap, k + 1, 0) && SpentOnKernel(d, kmap, k + 1, start)
      ensures !ok ==> start < 1 + KernelTables(kmap, |kmap|)
    {
      KernelTablesMono(kmap, k + 1, |kmap|);
      ok := MapLine(d, kmap, k);
      OthersBoth(dirs0, tables0, old(dirs), old(tables), dirs, tables, d);
    }

    /** An empty page directory; 0 when nothing is free. */
    method NewDir() returns (d: nat)
      requires Valid()
      modifies this`freelist, this`dirs, this`own
      ensures Valid() && Frames() == old(Frames())
      ensures d == 0 ==> unchanged(this) && OldSame(dirs, tables, dirs, tables)
      ensures d != 0 ==> d !in old(own) && d !in old(dirs) && dirs == old(dirs)[d := EmptyDir()]
                         && Rest(own, d) == old(own)
      ensures d != 0 ==> OthersSame(old(dirs), tables, dirs, tables, d) && Blank(dirs, tables, d)
      ensures d == 0 <==> old(freelist) == []
      ensures d != 0 ==> |freelist| + 1 == |old(freelist)| && Entries(dirs, d) == {}
    {
      d := Kalloc();
      if d == 0 {
        SameOthers(dirs, tables, 0);
        forall d': nat, v': nat
          ensures OldSameAt(dirs, tables, dirs, tables, d', v')
        {
        }
        return;
      }
      RestNewDir(old(own), old(dirs), tables, d);
      NewDirPlaced(dirs, tables, own, d);
      dirs := dirs[d := EmptyDir()];
      own := own[d := IsDir];
      assert own == old(own)[d := IsDir];
    }

    /** freevm of an address space that did not exist at the start gives back all that was taken. */
    method Undo(d: nat, ghost dirs0: Dirs, ghost tables0: Tables, ghost own0: map<nat, Role>,
                ghost pages0: map<nat, seq<Byte>>)
      requires Valid() && d in dirs && dirs.Keys == dirs0.Keys + {d} && d !in dirs0 && Rest(own, d) == own0
      requires OldSame(dirs0, tables0, dirs, tables) && SamePages(own0, pages0, own, pages)
      modifies this`freelist, this`dirs, this`tables, this`own, this`pages
      ensures Valid() && Frames() == old(Frames()) && dirs.Keys == dirs0.Keys && own == own0
      ensures OldSame(dirs0, tables0, dirs, tables) && SamePages(own0, pages0, own, pages)
    {
      Freevm(d);
      OldThenOthers(dirs0, tables0, old(dirs), old(tables), dirs, tables, d);
    }

    /** One turn of copyuvm: page v of d0 is copied to a page of its own at v of d. */
    method CopyOne(d0: nat, d: nat, v: nat) returns (r: CopyResult, ghost mem: nat)
      requires Valid() && d0 in dirs && d in dirs && d0 != d && v < USERPAGES && v / NPT < NPD
      requires Look(dirs, tables, d, v) == Absent
      modifies this`freelist, this`dirs, this`tables, this`own, this`pages
      ensures Valid() && Frames() == old(Frames()) && dirs.Keys == old(dirs).Keys && Rest(own, d) == old(Rest(own, d))
      ensures SamePages(old(own), old(pages), own, pages) && SameOwn(old(own), own)
      ensures r.Hole? <==> !old(Look(dirs, tables, d0, v)).Present?
      ensures !r.Whole? ==> dirs == old(dirs) && tables == old(tables)
      ensures r.Whole? ==> Put(old(dirs), old(tables), dirs, tables, d, v,
                               Present(mem, old(Look(dirs, tables, d0, v)).perm))
      ensures r.Whole? ==> old(Look(dirs, tables, d0, v)).frame in old(pages) && mem in pages
      ensures r.Whole? ==> pages[mem] == old(pages)[old(Look(dirs, tables, d0, v)).frame]
      ensures !r.Hole? ==> (r.Whole? <==> |old(freelist)| >= 1 + TableCost(old(Entries(dirs, d)), v))
      ensures r.Whole? ==> |freelist| + 1 + TableCost(old(Entries(dirs, d)), v) == |old(freelist)|
      ensures r.Whole? ==> Entries(dirs, d) == old(Entries(dirs, d)) + {v / NPT}
    {
      var t := Walk(d0, v, false);
      assert TableOk(dirs, tables, own, d0, v / NPT) && PageOk(dirs, tables, own, d0, v);
      mem := 0;
      if t == 0 {
        return Hole, 0;
      }
      var e := tables[t][v % NPT];
      if !e.Present? {
        return Hole, 0;
      }
      var f := Kalloc();
      mem := f;
      if f == 0 {
        return NoPages, 0;
      }
      RestLoose(old(own), d, f);
      pages := pages[f := pages[e.frame]];
      var m := MapOne(d, v, f, e.perm);
      if m.NoMemory? {
        Kfree(f);
        return NoPages, f;
      }
      r := Whole;
    }

    /** copyuvm: the child has the parent's pages, with the same contents and permissions, on pages of
        its own; or 0 and nothing is taken. */
    method Copyuvm(d0: nat, sz: nat, kmap: seq<Kmap>) returns (d: nat, r: CopyResult)
      requires Valid() && d0 in dirs && KmapOk(kmap) && sz <= USERPAGES * PGSIZE
      modifies this`freelist, this`dirs, this`tables, this`own, this`pages
      ensures Valid() && Frames() == old(Frames()) && SamePages(old(own), old(pages), own, pages)
      ensures OldSame(old(dirs), old(tables), dirs, tables) && (d != 0 <==> r.Whole?)
      ensures r.Whole? <==>
        AllMapped(old(dirs), old(tables), d0, PagesOf(sz)) && |old(freelist)| >= CopyCost(kmap, PagesOf(sz))
      ensures r.Hole? <==> exists m: nat :: m < PagesOf(sz) && FirstHole(old(dirs), old(tables), d0, m)
                                            && |old(freelist)| >= CopyCost(kmap, m)
      ensures r.NoPages? ==> dirs.Keys == old(dirs).Keys && own == old(own)
      ensures d != 0 ==> d !in old(own) && dirs.Keys == old(dirs).Keys + {d} && Rest(own, d) == old(own)
      ensures d != 0 ==> Copied(old(dirs), old(tables), old(pages), d0, dirs, tables, pages, d, kmap, PagesOf(sz))
      ensures d != 0 ==> AllMapped(old(dirs), old(tables), d0, PagesOf(sz))
    {
      assert DirOk(dirs, own, d0);
      ghost var n, es, k := PagesOf(sz), KernelEntries(kmap, |kmap|), KernelTables(kmap, |kmap|);
      d := Setupkvm(kmap);
      if d == 0 {
        return 0, NoPages;
      }
      CopyOutcomeIs(old(dirs), old(tables), d0, n, |freelist|, es);
      assert DirOk(old(dirs), old(own), d);
      CopiedNone(old(dirs), old(tables), old(pages), d0, dirs, tables, pages, d, kmap);
      r := CopyPages(d0, d, sz, kmap, old(dirs), old(tables), old(own), old(pages));
      if r.NoPages? {
        Undo(d, old(dirs), old(tables), old(own), old(pages));
      }
      if r.Whole? {
        CopiedMapped(old(dirs), old(tables), old(pages), d0, dirs, tables, pages, d, kmap, PagesOf(sz));
      } else {
        d := 0;
      }
    }

    /** The loop of copyuvm. */
    method CopyPages(d0: nat, d: nat, sz: nat, kmap: seq<Kmap>, ghost dirs0: Dirs, ghost tables0: Tables,
                     ghost own0: map<nat, Role>, ghost pages0: map<nat, seq<Byte>>) returns (r: CopyResult)
      requires Valid() && d0 in dirs && d in dirs && d0 != d && KmapOk(kmap) && sz <= USERPAGES * PGSIZE
      requires Placed(dirs0, tables0, own0) && d0 in dirs0 && d !in dirs0 && own0.Keys <= pages0.Keys
      requires dirs.Keys == dirs0.Keys + {d} && Rest(own, d) == own0
      requires SamePages(own0, pages0, own, pages) && OldSame(dirs0, tables0, dirs, tables)
      requires Copied(dirs0, tables0, pages0, d0, dirs, tables, pages, d, kmap, 0)
      modifies this`freelist, this`dirs, this`tables, this`own, this`pages
      ensures Valid() && Frames() == old(Frames()) && dirs.Keys == dirs0.Keys + {d} && Rest(own, d) == own0
      ensures SamePages(own0, pages0, own, pages) && OldSame(dirs0, tables0, dirs, tables)
      ensures r.Whole? ==> Copied(dirs0, tables0, pages0, d0, dirs, tables, pages, d, kmap, PagesOf(sz))
      ensures r == CopyOutcome(dirs0, tables0, d0, PagesOf(sz), |old(freelist)|, old(Entries(dirs, d)), 0)
    {
      var v := 0;
      ghost var es, start := Entries(dirs, d), |freelist|;
      SpentNothing(es, 0, start);
      while v * PGSIZE < sz
        invariant v <= PagesOf(sz) && Valid() && Frames() == old(Frames())
        invariant dirs.Keys == dirs0.Keys + {d} && Rest(own, d) == own0
        invariant SamePages(own0, pages0, own, pages) && OldSame(dirs0, tables0, dirs, tables)
        invariant Copied(dirs0, tables0, pages0, d0, dirs, tables, pages, d, kmap, v)
        invariant Spent(es, 0, v, Entries(dirs, d), |freelist| + v, start)
        invariant CopyOutcome(dirs0, tables0, d0, PagesOf(sz), start, es, v)
               == CopyOutcome(dirs0, tables0, d0, PagesOf(sz), start, es, 0)
      {
        r := CopyTurn(d0, d, v, sz, kmap, dirs0, tables0, own0, pages0, es, start);
        if !r.Whole? {
          return;
        }
        v := v + 1;
      }
      r := Whole;
    }

    /** One turn, with what the pages have cost so far. */
    method CopyTurn(d0: nat, d: nat, v: nat, sz: nat, kmap: seq<Kmap>, ghost dirs0: Dirs, ghost tables0: Tables,
                    ghost own0: map<nat, Role>, ghost pages0: map<nat, seq<Byte>>,
                    ghost es: set<nat>, ghost start: nat) returns (r: CopyResult)
      requires Valid() && d0 in dirs && d in dirs && d0 != d && KmapOk(kmap) && v * PGSIZE < sz <= USERPAGES * PGSIZE
      requires Placed(dirs0, tables0, own0) && d0 in dirs0 && d !in dirs0 && own0.Keys <= pages0.Keys
      requires dirs.Keys == dirs0.Keys + {d} && Rest(own, d) == own0
      requires SamePages(own0, pages0, own, pages) && OldSame(dirs0, tables0, dirs, tables)
      requires Copied(dirs0, tables0, pages0, d0, dirs, tables, pages, d, kmap, v)
      requires Spent(es, 0, v, Entries(dirs, d), |freelist| + v, start)
      modifies this`freelist, this`dirs, this`tables, this`own, this`pages
      ensures Valid() && Frames() == old(Frames()) && dirs.Keys == old(dirs).Keys && Rest(own, d) == own0
      ensures v + 1 <= PagesOf(sz) && SamePages(own0, pages0, own, pages) && OldSame(dirs0, tables0, dirs, tables)
      ensures r.Hole? <==> !MappedAt(dirs0, tables0, d0, v)
      ensures r.Whole? ==> Copied(dirs0, tables0, pages0, d0, dirs, tables, pages, d, kmap, v + 1)
      ensures r.Whole? ==> Spent(es, 0, v + 1, Entries(dirs, d), |freelist| + (v + 1), start)
      ensures r.NoPages? ==> start < v + 1 + TablesFor(es, 0, v + 1)
      ensures start >= v + TablesFor(es, 0, v)
    {
      InUser(v, sz);
      SpentBefore(es, 0, v, Entries(dirs, d), |freelist| + v, start, v + 1);
      assert CopyAt(dirs0, tables0, pages0, d0, dirs, tables, pages, d, kmap, v, v);
      assert OldSameAt(dirs0, tables0, dirs, tables, d0, v);
      KernelAbsent(kmap, |kmap|, v);
      assert PageOk(dirs0, tables0, own0, d0, v);
      ghost var dirs1, tables1, own1, pages1 := dirs, tables, own, pages;
      ghost var mem;
      r, mem := CopyOne(d0, d, v);
      if r.Whole? {
        SpentNext(es, 0, v, old(Entries(dirs, d)), |old(freelist)| + v, start, Entries(dirs, d));
        OldPut(dirs0, tables0, dirs1, tables1, dirs, tables, d, v, Present(mem, Look(dirs0, tables0, d0, v).perm));
        CopiedNext(dirs0, tables0, pages0, d0, dirs1, tables1, own1, pages1, dirs, tables, own, pages, d, kmap, v, mem);
      }
    }
  }

  // ----- copies -----

  ghost predicate MappedAt(dirs: Dirs, tables: Tables, d: nat, v: nat) { Look(dirs, tables, d, v).Present? }

  ghost predicate AllMapped(dirs: Dirs, tables: Tables, d: nat, n: nat) {
    forall v {:trigger MappedAt(dirs, tables, d, v)} :: 0 <= v < n ==> MappedAt(dirs, tables, d, v)
  }

  /** Page m is the first that is not mapped. */
  ghost predicate FirstHole(dirs: Dirs, tables: Tables, d: nat, m: nat) {
    AllMapped(dirs, tables, d, m) && !MappedAt(dirs, tables, d, m)
  }

  /** How the loop of copyuvm ends from page v on, with `start` frames free at first and page tables in es. */
  ghost function CopyOutcome(dirs: Dirs, tables: Tables, d: nat, n: nat, start: nat, es: set<nat>, v: nat): CopyResult
    decreases n - v
  {
    if v >= n then Whole
    else if !MappedAt(dirs, tables, d, v) then Hole
    else if start < PagesCost(es, v + 1) then NoPages
    else CopyOutcome(dirs, tables, d, n, start, es, v + 1)
  }

  /** m pages and their page tables. */
  ghost function PagesCost(es: set<nat>, m: nat): nat { m + TablesFor(es, 0, m) }

  lemma PagesCostMono(es: set<nat>, m: nat, n: nat)
    requires m <= n
    ensures PagesCost(es, m) <= PagesCost(es, n)
  {
    TablesMono(es, 0, m, n);
  }

  /** What the copy of an address space of m pages takes: its directory, the kernel's page tables, the pages, and
      the page tables of the pages. */
  ghost function CopyCost(kmap: seq<Kmap>, m: nat): nat {
    1 + KernelTables(kmap, |kmap|) + PagesCost(KernelEntries(kmap, |kmap|), m)
  }

  lemma {:induction false} CopyOutcomeFrom(dirs: Dirs, tables: Tables, d: nat, n: nat, start: nat, es: set<nat>, v: nat)
    requires v <= n && AllMapped(dirs, tables, d, v) && start >= PagesCost(es, v)
    ensures var r := CopyOutcome(dirs, tables, d, n, start, es, v);
            && (r.Whole? ==> AllMapped(dirs, tables, d, n) && start >= PagesCost(es, n))
            && (r.Hole? ==> exists m: nat :: m < n && FirstHole(dirs, tables, d, m) && start >= PagesCost(es, m))
            && (r.NoPages? ==> exists m: nat :: v < m <= n && AllMapped(dirs, tables, d, m) && start < PagesCost(es, m))
    decreases n - v
  {
    if v < n && MappedAt(dirs, tables, d, v) {
      assert AllMapped(dirs, tables, d, v + 1);
      if start >= PagesCost(es, v + 1) {
        CopyOutcomeFrom(dirs, tables, d, n, start, es, v + 1);
      }
    } else if v < n {
      assert FirstHole(dirs, tables, d, v);
    }
  }

  /** It copies all pages exactly if all are mapped and there are frames enough, and stops at a hole exactly if there
      are frames enough for the pages before the first one. */
  lemma CopyOutcomeIs(dirs: Dirs, tables: Tables, d: nat, n: nat, start: nat, es: set<nat>)
    ensures var r := CopyOutcome(dirs, tables, d, n, start, es, 0);
            && (r.Whole? <==> AllMapped(dirs, tables, d, n) && start >= PagesCost(es, n))
            && (r.Hole? <==> exists m: nat :: m < n && FirstHole(dirs, tables, d, m) && start >= PagesCost(es, m))
  {
    CopyOutcomeFrom(dirs, tables, d, n, start, es, 0);
    var r := CopyOutcome(dirs, tables, d, n, start, es, 0);
    if r.NoPages? {
      var m: nat :| m <= n && AllMapped(dirs, tables, d, m) && start < PagesCost(es, m);
      PagesCostMono(es, m, n);
      forall h: nat | h < n && FirstHole(dirs, tables, d, h)
        ensures start < PagesCost(es, h)
      {
        assert !MappedAt(dirs, tables, d, h);
        PagesCostMono(es, m, h);
      }
    } else if r.Hole? {
      var m: nat :| m < n && FirstHole(dirs, tables, d, m) && start >= PagesCost(es, m);
      assert !MappedAt(dirs, tables, d, m);
    }
  }

  /** Page v of d is a copy of page v of d0, if it is among the first n, and else what the kernel has there. */
  ghost predicate CopyAt(dirs0: Dirs, tables0: Tables, pages0: map<nat, seq<Byte>>, d0: nat,
                         dirs: Dirs, tables: Tables, pages: map<nat, seq<Byte>>, d: nat, kmap: seq<Kmap>, n: nat,
                         v: nat)
  {
    var e0, e := Look(dirs0, tables0, d0, v), Look(dirs, tables, d, v);
    if v < n then
      && e0.Present? && e.Present? && e.perm == e0.perm
      && e0.frame in pages0 && e.frame in pages && pages[e.frame] == pages0[e0.frame]
    else e == KernelAt(kmap, |kmap|, v)
  }

  ghost predicate Copied(dirs0: Dirs, tables0: Tables, pages0: map<nat, seq<Byte>>, d0: nat,
                         dirs: Dirs, tables: Tables, pages: map<nat, seq<Byte>>, d: nat, kmap: seq<Kmap>, n: nat)
  {
    forall v {:trigger CopyAt(dirs0, tables0, pages0, d0, dirs, tables, pages, d, kmap, n, v)} ::
      CopyAt(dirs0, tables0, pages0, d0, dirs, tables, pages, d, kmap, n, v)
  }

  lemma CopiedMapped(dirs0: Dirs, tables0: Tables, pages0: map<nat, seq<Byte>>, d0: nat,
                     dirs: Dirs, tables: Tables, pages: map<nat, seq<Byte>>, d: nat, kmap: seq<Kmap>, n: nat)
    requires Copied(dirs0, tables0, pages0, d0, dirs, tables, pages, d, kmap, n)
    ensures AllMapped(dirs0, tables0, d0, n)
  {
    forall v | 0 <= v < n
      ensures MappedAt(dirs0, tables0, d0, v)
    {
      assert CopyAt(dirs0, tables0, pages0, d0, dirs, tables, pages, d, kmap, n, v);
    }
  }

  lemma CopiedNone(dirs0: Dirs, tables0: Tables, pages0: map<nat, seq<Byte>>, d0: nat,
                   dirs: Dirs, tables: Tables, pages: map<nat, seq<Byte>>, d: nat, kmap: seq<Kmap>)
    requires KernelLooks(dirs, tables, d, kmap, |kmap|, 0)
    ensures Copied(dirs0, tables0, pages0, d0, dirs, tables, pages, d, kmap, 0)
  {
    forall v: nat
      ensures CopyAt(dirs0, tables0, pages0, d0, dirs, tables, pages, d, kmap, 0, v)
    {
      assert KernelLookAt(dirs, tables, d, kmap, |kmap|, 0, v);
    }
  }

  lemma CopiedNext(dirs0: Dirs, tables0: Tables, pages0: map<nat, seq<Byte>>, d0: nat,
                   dirs1: Dirs, tables1: Tables, own1: map<nat, Role>, pages1: map<nat, seq<Byte>>,
                   dirs: Dirs, tables: Tables, own: map<nat, Role>, pages: map<nat, seq<Byte>>, d: nat,
                   kmap: seq<Kmap>, n: nat, mem: nat)
    requires Copied(dirs0, tables0, pages0, d0, dirs1, tables1, pages1, d, kmap, n) && Placed(dirs1, tables1, own1)
             && n < USERPAGES
    requires Look(dirs0, tables0, d0, n).Present? && Look(dirs0, tables0, d0, n).frame in pages0
    requires Put(dirs1, tables1, dirs, tables, d, n, Present(mem, Look(dirs0, tables0, d0, n).perm))
    requires mem in pages && pages[mem] == pages0[Look(dirs0, tables0, d0, n).frame]
    requires SamePages(own1, pages1, own, pages) && SameOwn(own1, own)
    ensures Copied(dirs0, tables0, pages0, d0, dirs, tables, pages, d, kmap, n + 1)
  {
    var n' := n + 1;
    forall v: nat
      ensures CopyAt(dirs0, tables0, pages0, d0, dirs, tables, pages, d, kmap, n', v)
    {
      assert CopyAt(dirs0, tables0, pages0, d0, dirs1, tables1, pages1, d, kmap, n, v);
      assert PutAt(dirs1, tables1, dirs, tables, d, n, Present(mem, Look(dirs0, tables0, d0, n).perm), d, v);
      assert PageOk(dirs1, tables1, own1, d, v);
    }
  }

  lemma OldPut(dirs: Dirs, tables: Tables, dirs1: Dirs, tables1: Tables, dirs2: Dirs, tables2: Tables, d: nat, v: nat,
               e: Pte)
    requires OldSame(dirs, tables, dirs1, tables1) && Put(dirs1, tables1, dirs2, tables2, d, v, e) && d !in dirs
    ensures OldSame(dirs, tables, dirs2, tables2)
  {
    forall d': nat, v': nat
      ensures OldSameAt(dirs, tables, dirs2, tables2, d', v')
    {
      assert OldSameAt(dirs, tables, dirs1, tables1, d', v') && PutAt(dirs1, tables1, dirs2, tables2, d, v, e, d', v');
    }
  }

  lemma OldThenOthers(dirs: Dirs, tables: Tables, dirs1: Dirs, tables1: Tables, dirs2: Dirs, tables2: Tables, d: nat)
    requires OldSame(dirs, tables, dirs1, tables1) && OthersSame(dirs1, tables1, dirs2, tables2, d) && d !in dirs
    ensures OldSame(dirs, tables, dirs2, tables2)
  {
    forall d': nat, v': nat
      ensures OldSameAt(dirs, tables, dirs2, tables2, d', v')
    {
      assert OldSameAt(dirs, tables, dirs1, tables1, d', v') && OtherSame(dirs1, tables1, dirs2, tables2, d, d', v');
    }
  }

  ghost predicate OldSameAt(dirs: Dirs, tables: Tables, dirs': Dirs, tables': Tables, d: nat, v: nat) {
    d in dirs ==> Look(dirs', tables', d, v) == Look(dirs, tables, d, v)
  }

  /** The address spaces there were are as they were. */
  ghost predicate OldSame(dirs: Dirs, tables: Tables, dirs': Dirs, tables': Tables) {
    forall d, v {:trigger OldSameAt(dirs, tables, dirs', tables', d, v)} ::
             OldSameAt(dirs, tables, dirs', tables', d, v)
  }

  lemma OldOthers(dirs: Dirs, tables: Tables, dirs': Dirs, tables': Tables, d: nat)
    requires OthersSame(dirs, tables, dirs', tables', d) && d !in dirs
    ensures OldSame(dirs, tables, dirs', tables')
  {
    forall d': nat, v': nat
      ensures OldSameAt(dirs, tables, dirs', tables', d', v')
    {
      assert OtherSame(dirs, tables, dirs', tables', d, d', v');
    }
  }

  lemma SameOthers(dirs: Dirs, tables: Tables, d: nat)
    ensures OthersSame(dirs, tables, dirs, tables, d)
  {
    forall d': nat, v': nat
      ensures OtherSame(dirs, tables, dirs, tables, d, d', v')
    {
    }
  }

  lemma LooksSame(dirs: Dirs, tables: Tables)
    ensures SameLooks(dirs, tables, dirs, tables)
  {
    forall d: nat, v: nat
      ensures SameLook(dirs, tables, dirs, tables, d, v)
    {
    }
  }

  ghost predicate ZeroAt(dirs: Dirs, tables: Tables, pages: map<nat, seq<Byte>>, d: nat, v: nat) {
    var e := Look(dirs, tables, d, v);
    e.Present? && e.frame in pages && pages[e.frame] == Filled(0)
  }

  /** Pages lo..hi-1 of directory d hold zeros. */
  ghost predicate ZeroPages(dirs: Dirs, tables: Tables, pages: map<nat, seq<Byte>>, d: nat, lo: nat, hi: nat) {
    forall v {:trigger ZeroAt(dirs, tables, pages, d, v)} :: lo <= v < hi ==> ZeroAt(dirs, tables, pages, d, v)
  }

  lemma ZeroOne(dirs: Dirs, tables: Tables, own: map<nat, Role>, pages: map<nat, seq<Byte>>,
                dirs': Dirs, tables': Tables, own': map<nat, Role>, pages': map<nat, seq<Byte>>, d: nat, lo: nat,
                a: nat, f: nat)
    requires Placed(dirs, tables, own) && a < USERPAGES && ZeroPages(dirs, tables, pages, d, lo, a)
    requires Put(dirs, tables, dirs', tables', d, a, Present(f, WRITABLE_USER)) && f in pages' && pages'[f] == Filled(0)
    requires SamePages(own, pages, own', pages') && SameOwn(own, own')
    ensures ZeroPages(dirs', tables', pages', d, lo, a + 1)
  {
    forall v | lo <= v < a + 1
      ensures ZeroAt(dirs', tables', pages', d, v)
    {
      assert PutAt(dirs, tables, dirs', tables', d, a, Present(f, WRITABLE_USER), d, v);
      if v < a {
        assert ZeroAt(dirs, tables, pages, d, v) && PageOk(dirs, tables, own, d, v);
      }
    }
  }

  /** The number of pages for sz bytes. */
  function PagesOf(sz: nat): nat { (sz + PGSIZE - 1) / PGSIZE }

  lemma PagesMore(oldsz: nat, newsz: nat)
    requires oldsz <= newsz
    ensures PagesOf(oldsz) <= PagesOf(newsz)
  {
  }

  lemma InUser(a: nat, sz: nat)
    requires a * PGSIZE < sz <= USERPAGES * PGSIZE
    ensures a < PagesOf(sz) <= USERPAGES && a < USERPAGES && a / NPT < NPD
  {
  }

  /** Pages that stayed allocated were not written. */
  ghost predicate SamePages(own0: map<nat, Role>, pages0: map<nat, seq<Byte>>, own: map<nat, Role>,
                            pages: map<nat, seq<Byte>>) {
    forall f :: f in own0 && f in own && f in pages0 ==> f in pages && pages[f] == pages0[f]
  }

  /** What was allocated is for what it was. */
  ghost predicate SameOwn(own0: map<nat, Role>, own: map<nat, Role>) {
    forall f :: f in own0 ==> f in own && own[f] == own0[f]
  }
}
