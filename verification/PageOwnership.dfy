/** Who owns each physical page under the two-level page tables of vm.c.

    Addresses are page numbers: a frame number for a physical page, and for a virtual one the number
    v whose directory index is v / 1024 and whose table index is v % 1024.  Frame 0 is none. */
module PageOwnership {
  const NPD: nat := 1024
  const NPT: nat := 1024
  /** KERNBASE / PGSIZE: the user part is below, and owns the pages it maps. */
  const USERPAGES: nat := 0x8_0000

  datatype Pte = Absent | Present(frame: nat, perm: nat)

  /** The entries of the page directories and page tables, by frame. */
  type Dirs = map<nat, seq<nat>>
  type Tables = map<nat, seq<Pte>>

  /** What an allocated frame is for: a page directory, table i of directory d, user page v of
      directory d, or something else. */
  datatype Role = IsDir | IsTable(d: nat, i: nat) | IsPage(d: nat, v: nat) | Loose

  /** The page table in entry i of directory d; 0 is none. */
  ghost function TableOf(dirs: Dirs, d: nat, i: nat): nat {
    if d in dirs && i < |dirs[d]| then dirs[d][i] else 0
  }

  /** The flat map that the two levels stand for. */
  ghost function Look(dirs: Dirs, tables: Tables, d: nat, v: nat): Pte {
    var t := TableOf(dirs, d, v / NPT);
    if t != 0 && t in tables && |tables[t]| == NPT then tables[t][v % NPT] else Absent
  }

  // ----- which page tables there are, and what pages cost -----

  /** The entries of directory d that have a page table. */
  ghost function Entries(dirs: Dirs, d: nat): set<nat> { set i | 0 <= i < NPD && TableOf(dirs, d, i) != 0 }

  /** The entries of a directory that the pages lo..hi-1 fall into. */
  function EntriesOf(lo: nat, hi: nat): set<nat>
    decreases hi
  {
    if lo >= hi then {} else EntriesOf(lo, hi - 1) + {(hi - 1) / NPT}
  }

  /** They are all between the first and the last. */
  lemma {:induction false} EntriesBetween(lo: nat, hi: nat, i: nat)
    requires lo < hi
    ensures i in EntriesOf(lo, hi) <==> lo / NPT <= i <= (hi - 1) / NPT
    decreases hi
  {
    if lo < hi - 1 {
      EntriesBetween(lo, hi - 1, i);
    }
  }

  /** A page table for page v, if there is none. */
  ghost function TableCost(es: set<nat>, v: nat): nat { if v / NPT in es then 0 else 1 }

  /** How many of i..j-1 are not in es. */
  function Missing(es: set<nat>, i: nat, j: nat): nat
    decreases j
  {
    if i >= j then 0 else Missing(es, i, j - 1) + if j - 1 in es then 0 else 1
  }

  lemma {:induction false} MissingMono(es: set<nat>, i: nat, j: nat, n: nat)
    requires j <= n
    ensures Missing(es, i, j) <= Missing(es, i, n)
    decreases n
  {
    if j < n {
      MissingMono(es, i, j, n - 1);
    }
  }

  lemma {:induction false} MissingNone(n: nat)
    ensures Missing({}, 0, n) == n
  {
    if n > 0 {
      MissingNone(n - 1);
    }
  }

  /** With i..j-1 added, as many fewer are missing as were missing there. */
  lemma {:induction false} MissingUnion(es: set<nat>, more: set<nat>, i: nat, j: nat, n: nat)
    requires i <= j && forall x: nat :: x in more <==> x in es || i <= x < j
    ensures Missing(es, 0, n) == Missing(more, 0, n) + Missing(es, i, if j <= n then j else n)
  {
    if n > 0 {
      MissingUnion(es, more, i, j, n - 1);
    }
  }

  /** The page tables that the pages lo..hi-1 need: the entries of their range that are not in es. */
  function TablesFor(es: set<nat>, lo: nat, hi: nat): nat {
    if lo >= hi then 0 else Missing(es, lo / NPT, (hi - 1) / NPT + 1)
  }

  lemma TablesNext(es: set<nat>, lo: nat, a: nat, a': nat)
    requires lo <= a && a' == a + 1
    ensures TablesFor(es, lo, a') == TablesFor(es, lo, a) + TableCost(es + EntriesOf(lo, a), a)
  {
    if lo < a {
      EntriesBetween(lo, a, a / NPT);
    } else {
      assert Missing(es, a / NPT, a / NPT) == 0;
    }
  }

  lemma TablesMono(es: set<nat>, lo: nat, a: nat, hi: nat)
    requires a <= hi
    ensures TablesFor(es, lo, a) <= TablesFor(es, lo, hi)
  {
    if lo < a {
      MissingMono(es, lo / NPT, (a - 1) / NPT + 1, (hi - 1) / NPT + 1);
    }
  }

  /** With the pages lo..a-1 mapped, directory entries es have become now, and of `start` free frames `free` and
      those of the pages are left. */
  ghost predicate Spent(es: set<nat>, lo: nat, a: nat, now: set<nat>, free: int, start: int) {
    now == es + EntriesOf(lo, a) && free + TablesFor(es, lo, a) == start
  }

  lemma SpentNothing(es: set<nat>, lo: nat, start: int)
    ensures Spent(es, lo, lo, es, start, start)
  {
    assert es + EntriesOf(lo, lo) == es;
  }

  lemma SpentNext(es: set<nat>, lo: nat, a: nat, now: set<nat>, free: int, start: int, now': set<nat>)
    requires lo <= a && Spent(es, lo, a, now, free, start) && now' == now + {a / NPT}
    ensures Spent(es, lo, a + 1, now', free - TableCost(now, a), start)
  {
    TablesNext(es, lo, a, a + 1);
    assert es + EntriesOf(lo, a + 1) == es + EntriesOf(lo, a) + {a / NPT};
  }

  /** What page a costs is part of what the pages up to hi cost. */
  lemma SpentBefore(es: set<nat>, lo: nat, a: nat, now: set<nat>, free: int, start: int, hi: nat)
    requires lo <= a < hi && Spent(es, lo, a, now, free, start)
    ensures free - TableCost(now, a) >= start - TablesFor(es, lo, hi)
  {
    TablesNext(es, lo, a, a + 1);
    TablesMono(es, lo, a + 1, hi);
  }

  lemma NewEntry(dirs: Dirs, d: nat, i: nat, t: nat)
    requires d in dirs && |dirs[d]| == NPD && i < NPD && t != 0
    ensures Entries(WithTable(dirs, d, i, t), d) == Entries(dirs, d) + {i}
  {
  }

  ghost predicate DirOk(dirs: Dirs, own: map<nat, Role>, d: nat) {
    d in dirs ==> d in own && own[d] == IsDir && |dirs[d]| == NPD
  }

  ghost predicate TableOk(dirs: Dirs, tables: Tables, own: map<nat, Role>, d: nat, i: nat) {
    var t := TableOf(dirs, d, i);
    t != 0 ==> t in own && own[t] == IsTable(d, i) && t in tables && |tables[t]| == NPT
  }

  ghost predicate PageOk(dirs: Dirs, tables: Tables, own: map<nat, Role>, d: nat, v: nat) {
    var e := Look(dirs, tables, d, v);
    v < USERPAGES && e.Present? ==> e.frame in own && own[e.frame] == IsPage(d, v)
  }

  /** An owned frame is where its role says. */
  ghost predicate BackOk(dirs: Dirs, tables: Tables, own: map<nat, Role>, f: nat)
    requires f in own
  {
    f != 0 &&
    match own[f]
    case IsDir => f in dirs
    case IsTable(d, i) => i < NPD && TableOf(dirs, d, i) == f
    case IsPage(d, v) => v < USERPAGES && Look(dirs, tables, d, v).Present? && Look(dirs, tables, d, v).frame == f
    case Loose => true
  }

  /** Every page table and every user page belongs to exactly one entry. */
  ghost predicate Placed(dirs: Dirs, tables: Tables, own: map<nat, Role>) {
    && (forall d {:trigger DirOk(dirs, own, d)} :: DirOk(dirs, own, d))
    && (forall d, i {:trigger TableOk(dirs, tables, own, d, i)} :: TableOk(dirs, tables, own, d, i))
    && (forall d, v {:trigger PageOk(dirs, tables, own, d, v)} :: PageOk(dirs, tables, own, d, v))
    && (forall f {:trigger BackOk(dirs, tables, own, f)} :: f in own ==> BackOk(dirs, tables, own, f))
  }

  // ----- the free list -----

  function Members(s: seq<nat>): set<nat> { set f | f in s }

  /** No frame is free twice, or free and owned. */
  ghost predicate FreeOk(freelist: seq<nat>, own: map<nat, Role>) {
    && (forall i, j :: 0 <= i < j < |freelist| ==> freelist[i] != freelist[j])
    && forall f :: f in freelist ==> f != 0 && f !in own
  }

  lemma FreeTaken(freelist: seq<nat>, own: map<nat, Role>)
    requires FreeOk(freelist, own) && freelist != []
    ensures freelist[0] != 0 && freelist[0] !in own && FreeOk(freelist[1..], own[freelist[0] := Loose])
    ensures Members(freelist) == Members(freelist[1..]) + {freelist[0]}
  {
    var f, l := freelist[0], freelist[1..];
    assert f in freelist;
    forall g | g in l
      ensures g in freelist && g != f
    {
      var i :| 0 <= i < |l| && l[i] == g;
      assert freelist[i + 1] == g;
    }
    assert freelist == [f] + l;
  }

  // ----- a page table is added -----

  function EmptyTable(): (t: seq<Pte>)
    ensures |t| == NPT && forall j :: 0 <= j < NPT ==> t[j] == Absent
  {
    seq(NPT, _ => Absent)
  }

  function WithTable(dirs: Dirs, d: nat, i: nat, t: nat): Dirs
    requires d in dirs && i < |dirs[d]|
  {
    var a: seq<nat> := dirs[d];
    var a': seq<nat> := a[i := t];
    dirs[d := a']
  }

  /** The flat map does not change. */
  lemma NewTableLook(dirs: Dirs, tables: Tables, own: map<nat, Role>, d: nat, i: nat, t: nat, d': nat, v': nat)
    requires d in dirs && |dirs[d]| == NPD && i < NPD && dirs[d][i] == 0 && t != 0 && t in own && own[t] == Loose
    requires TableOk(dirs, tables, own, d', v' / NPT)
    ensures Look(WithTable(dirs, d, i, t), tables[t := EmptyTable()], d', v') == Look(dirs, tables, d', v')
  {
  }

  lemma NewTablePlaced(dirs: Dirs, tables: Tables, own: map<nat, Role>, d: nat, i: nat, t: nat)
    requires Placed(dirs, tables, own)
    requires d in dirs && |dirs[d]| == NPD && i < NPD && dirs[d][i] == 0 && t != 0 && t in own && own[t] == Loose
    ensures Placed(WithTable(dirs, d, i, t), tables[t := EmptyTable()], own[t := IsTable(d, i)])
  {
    var dirs', tables', own' := WithTable(dirs, d, i, t), tables[t := EmptyTable()], own[t := IsTable(d, i)];
    forall d'
      ensures DirOk(dirs', own', d')
    {
      assert DirOk(dirs, own, d');
    }
    forall d', i'
      ensures TableOk(dirs', tables', own', d', i')
    {
      assert TableOk(dirs, tables, own, d', i');
    }
    forall d': nat, v': nat
      ensures PageOk(dirs', tables', own', d', v')
    {
      assert TableOk(dirs, tables, own, d', v' / NPT) && PageOk(dirs, tables, own, d', v');
      NewTableLook(dirs, tables, own, d, i, t, d', v');
    }
    forall f | f in own'
      ensures BackOk(dirs', tables', own', f)
    {
      assert BackOk(dirs, tables, own, f);
      if own[f].IsPage? {
        assert TableOk(dirs, tables, own, own[f].d, own[f].v / NPT);
        NewTableLook(dirs, tables, own, d, i, t, own[f].d, own[f].v);
      }
    }
  }

  // ----- an entry of a page table changes -----

  function WithEntry(tables: Tables, t: nat, j: nat, e: Pte): Tables
    requires t in tables && j < |tables[t]|
  {
    tables[t := tables[t][j := e]]
  }

  lemma EntryLook(dirs: Dirs, tables: Tables, own: map<nat, Role>, d: nat, v: nat, t: nat, e: Pte, d': nat, v': nat)
    requires TableOk(dirs, tables, own, d, v / NPT) && TableOk(dirs, tables, own, d', v' / NPT)
    requires t == TableOf(dirs, d, v / NPT) != 0
    ensures t in tables && |tables[t]| == NPT
    ensures Look(dirs, WithEntry(tables, t, v % NPT, e), d', v') == if d' == d && v' == v then e
            else Look(dirs, tables, d', v')
  {
    SplitPage(v, v');
  }

  lemma SplitPage(v: nat, w: nat)
    ensures v / NPT == w / NPT && v % NPT == w % NPT <==> v == w
  {
  }

  /** A loose frame becomes user page v, which was not mapped; or kernel page v is mapped. */
  lemma MapPlaced(dirs: Dirs, tables: Tables, own: map<nat, Role>, d: nat, v: nat, t: nat, f: nat, perm: nat)
    requires Placed(dirs, tables, own) && TableOk(dirs, tables, own, d, v / NPT)
    requires t == TableOf(dirs, d, v / NPT) != 0 && Look(dirs, tables, d, v) == Absent
    requires v < USERPAGES ==> f in own && own[f] == Loose
    ensures t in tables && |tables[t]| == NPT
    ensures Placed(dirs, WithEntry(tables, t, v % NPT, Present(f, perm)), if v < USERPAGES then own[f := IsPage(d, v)]
                   else own)
  {
    var e := Present(f, perm);
    var tables', own' := WithEntry(tables, t, v % NPT, e), if v < USERPAGES then own[f := IsPage(d, v)] else own;
    forall d'
      ensures DirOk(dirs, own', d')
    {
      assert DirOk(dirs, own, d');
    }
    forall d', i'
      ensures TableOk(dirs, tables', own', d', i')
    {
      assert TableOk(dirs, tables, own, d', i');
    }
    forall d': nat, v': nat
      ensures PageOk(dirs, tables', own', d', v')
    {
      assert TableOk(dirs, tables, own, d', v' / NPT) && PageOk(dirs, tables, own, d', v');
      EntryLook(dirs, tables, own, d, v, t, e, d', v');
    }
    forall g | g in own'
      ensures BackOk(dirs, tables', own', g)
    {
      assert BackOk(dirs, tables, own, g);
      MapBack(dirs, tables, own, d, v, t, e, g, tables', own');
    }
  }

  lemma MapBack(dirs: Dirs, tables: Tables, own: map<nat, Role>, d: nat, v: nat, t: nat, e: Pte, g: nat,
                tables': Tables, own': map<nat, Role>)
    requires Placed(dirs, tables, own) && TableOk(dirs, tables, own, d, v / NPT)
    requires t == TableOf(dirs, d, v / NPT) != 0 && Look(dirs, tables, d, v) == Absent && e.Present?
    requires v < USERPAGES ==> e.frame in own && own[e.frame] == Loose
    requires t in tables && |tables[t]| == NPT && tables' == WithEntry(tables, t, v % NPT, e)
    requires own' == if v < USERPAGES then own[e.frame := IsPage(d, v)] else own
    requires g in own && BackOk(dirs, tables, own, g)
    ensures BackOk(dirs, tables', own', g)
  {
    if own'[g].IsPage? {
      assert TableOk(dirs, tables, own, own'[g].d, own'[g].v / NPT);
      EntryLook(dirs, tables, own, d, v, t, e, own'[g].d, own'[g].v);
    }
  }

  /** User page v is unmapped, and its frame is loose. */
  lemma UnmapPlaced(dirs: Dirs, tables: Tables, own: map<nat, Role>, d: nat, v: nat, t: nat, f: nat)
    requires Placed(dirs, tables, own) && TableOk(dirs, tables, own, d, v / NPT) && v < USERPAGES
    requires t == TableOf(dirs, d, v / NPT) != 0 && Look(dirs, tables, d, v).Present?
             && f == Look(dirs, tables, d, v).frame
    ensures t in tables && |tables[t]| == NPT && f in own && own[f] == IsPage(d, v) && f != 0
    ensures Placed(dirs, WithEntry(tables, t, v % NPT, Absent), own[f := Loose])
  {
    assert PageOk(dirs, tables, own, d, v) && BackOk(dirs, tables, own, f);
    var tables', own' := WithEntry(tables, t, v % NPT, Absent), own[f := Loose];
    forall d'
      ensures DirOk(dirs, own', d')
    {
      assert DirOk(dirs, own, d');
    }
    forall d', i'
      ensures TableOk(dirs, tables', own', d', i')
    {
      assert TableOk(dirs, tables, own, d', i');
    }
    forall d': nat, v': nat
      ensures PageOk(dirs, tables', own', d', v')
    {
      assert TableOk(dirs, tables, own, d', v' / NPT) && PageOk(dirs, tables, own, d', v');
      EntryLook(dirs, tables, own, d, v, t, Absent, d', v');
    }
    forall g | g in own'
      ensures BackOk(dirs, tables', own', g)
    {
      assert BackOk(dirs, tables, own, g);
      if own'[g].IsPage? {
        assert TableOk(dirs, tables, own, own[g].d, own[g].v / NPT);
        EntryLook(dirs, tables, own, d, v, t, Absent, own[g].d, own[g].v);
      }
    }
  }

  // ----- loose frames come and go -----

  lemma LoosePlaced(dirs: Dirs, tables: Tables, own: map<nat, Role>, f: nat)
    requires Placed(dirs, tables, own) && f != 0 && f !in own
    ensures Placed(dirs, tables, own[f := Loose])
  {
    var own' := own[f := Loose];
    forall d
      ensures DirOk(dirs, own', d)
    {
      assert DirOk(dirs, own, d);
    }
    forall d, i
      ensures TableOk(dirs, tables, own', d, i)
    {
      assert TableOk(dirs, tables, own, d, i);
    }
    forall d, v
      ensures PageOk(dirs, tables, own', d, v)
    {
      assert PageOk(dirs, tables, own, d, v);
    }
    forall g | g in own'
      ensures BackOk(dirs, tables, own', g)
    {
      if g != f {
        assert BackOk(dirs, tables, own, g);
      }
    }
  }

  lemma GonePlaced(dirs: Dirs, tables: Tables, own: map<nat, Role>, f: nat)
    requires Placed(dirs, tables, own) && f in own && own[f] == Loose
    ensures Placed(dirs, tables, own - {f})
  {
    var own' := own - {f};
    forall d
      ensures DirOk(dirs, own', d)
    {
      assert DirOk(dirs, own, d);
    }
    forall d, i
      ensures TableOk(dirs, tables, own', d, i)
    {
      assert TableOk(dirs, tables, own, d, i);
    }
    forall d, v
      ensures PageOk(dirs, tables, own', d, v)
    {
      assert PageOk(dirs, tables, own, d, v);
    }
    forall g | g in own'
      ensures BackOk(dirs, tables, own', g)
    {
      assert BackOk(dirs, tables, own, g);
    }
  }

  // ----- flat maps compared -----

  ghost predicate SameLook(dirs: Dirs, tables: Tables, dirs': Dirs, tables': Tables, d: nat, v: nat) {
    Look(dirs', tables', d, v) == Look(dirs, tables, d, v)
  }

  /** Every address space is as it was. */
  ghost predicate SameLooks(dirs: Dirs, tables: Tables, dirs': Dirs, tables': Tables) {
    forall d, v {:trigger SameLook(dirs, tables, dirs', tables', d, v)} :: SameLook(dirs, tables, dirs', tables', d, v)
  }

  /** Pages lo..hi-1 of directory d are mapped with the permissions, the rest is as it was. */
  ghost predicate GrownAt(dirs: Dirs, tables: Tables, dirs': Dirs, tables': Tables, d: nat, lo: nat, hi: nat,
                          perm: nat, d': nat, v': nat) {
    var e := Look(dirs', tables', d', v');
    if d' == d && lo <= v' < hi then e.Present? && e.perm == perm else e == Look(dirs, tables, d', v')
  }

  ghost predicate Grown(dirs: Dirs, tables: Tables, dirs': Dirs, tables': Tables, d: nat, lo: nat, hi: nat, perm: nat) {
    forall d', v' {:trigger GrownAt(dirs, tables, dirs', tables', d, lo, hi, perm, d', v')} ::
      GrownAt(dirs, tables, dirs', tables', d, lo, hi, perm, d', v')
  }

  /** Pages lo..hi-1 of directory d are not mapped, the rest is as it was. */
  ghost predicate ShrunkAt(dirs: Dirs, tables: Tables, dirs': Dirs, tables': Tables, d: nat, lo: nat, hi: nat, d': nat,
                           v': nat) {
    Look(dirs', tables', d', v') == if d' == d && lo <= v' < hi then Absent else Look(dirs, tables, d', v')
  }

  ghost predicate Shrunk(dirs: Dirs, tables: Tables, dirs': Dirs, tables': Tables, d: nat, lo: nat, hi: nat) {
    forall d', v' {:trigger ShrunkAt(dirs, tables, dirs', tables', d, lo, hi, d', v')} ::
      ShrunkAt(dirs, tables, dirs', tables', d, lo, hi, d', v')
  }

  ghost predicate Unmapped(dirs: Dirs, tables: Tables, d: nat, lo: nat, hi: nat) {
    forall v {:trigger Look(dirs, tables, d, v)} :: lo <= v < hi ==> Look(dirs, tables, d, v) == Absent
  }

  /** What one more page does. */
  ghost predicate PutAt(dirs: Dirs, tables: Tables, dirs': Dirs, tables': Tables, d: nat, v: nat, e: Pte, d': nat,
                        v': nat) {
    Look(dirs', tables', d', v') == if d' == d && v' == v then e else Look(dirs, tables, d', v')
  }

  ghost predicate Put(dirs: Dirs, tables: Tables, dirs': Dirs, tables': Tables, d: nat, v: nat, e: Pte) {
    forall d', v' {:trigger PutAt(dirs, tables, dirs', tables', d, v, e, d', v')} ::
      PutAt(dirs, tables, dirs', tables', d, v, e, d', v')
  }

  lemma NewTableSame(dirs: Dirs, tables: Tables, own: map<nat, Role>, d: nat, i: nat, t: nat)
    requires Placed(dirs, tables, own)
    requires d in dirs && |dirs[d]| == NPD && i < NPD && dirs[d][i] == 0 && t != 0 && t in own && own[t] == Loose
    ensures SameLooks(dirs, tables, WithTable(dirs, d, i, t), tables[t := EmptyTable()])
  {
    var dirs', tables' := WithTable(dirs, d, i, t), tables[t := EmptyTable()];
    forall d': nat, v': nat
      ensures SameLook(dirs, tables, dirs', tables', d', v')
    {
      assert TableOk(dirs, tables, own, d', v' / NPT);
      NewTableLook(dirs, tables, own, d, i, t, d', v');
    }
  }

  lemma EntryPut(dirs: Dirs, tables: Tables, own: map<nat, Role>, d: nat, v: nat, t: nat, e: Pte)
    requires Placed(dirs, tables, own) && t == TableOf(dirs, d, v / NPT) != 0
    ensures t in tables && |tables[t]| == NPT && Put(dirs, tables, dirs, WithEntry(tables, t, v % NPT, e), d, v, e)
  {
    assert TableOk(dirs, tables, own, d, v / NPT);
    var tables' := WithEntry(tables, t, v % NPT, e);
    forall d': nat, v': nat
      ensures PutAt(dirs, tables, dirs, tables', d, v, e, d', v')
    {
      assert TableOk(dirs, tables, own, d', v' / NPT);
      EntryLook(dirs, tables, own, d, v, t, e, d', v');
    }
  }

  lemma SamePut(dirs: Dirs, tables: Tables, dirs1: Dirs, tables1: Tables, dirs2: Dirs, tables2: Tables, d: nat, v: nat,
                e: Pte)
    requires SameLooks(dirs, tables, dirs1, tables1) && Put(dirs1, tables1, dirs2, tables2, d, v, e)
    ensures Put(dirs, tables, dirs2, tables2, d, v, e)
  {
    forall d': nat, v': nat
      ensures PutAt(dirs, tables, dirs2, tables2, d, v, e, d', v')
    {
      assert SameLook(dirs, tables, dirs1, tables1, d', v') && PutAt(dirs1, tables1, dirs2, tables2, d, v, e, d', v');
    }
  }

  // ----- the frames of one address space -----

  predicate OfDir(r: Role, f: nat, d: nat) {
    match r
    case IsDir => f == d
    case IsTable(d', _) => d' == d
    case IsPage(d', _) => d' == d
    case Loose => false
  }

  /** The frames that do not belong to directory d. */
  ghost function Rest(own: map<nat, Role>, d: nat): (r: map<nat, Role>)
    ensures forall f :: f in r <==> f in own && !OfDir(own[f], f, d)
    ensures forall f :: f in r ==> r[f] == own[f]
  {
    map f | f in own && !OfDir(own[f], f, d) :: own[f]
  }

  // ----- steps of the loops -----

  function MinNat(a: nat, b: nat): nat { if a <= b then a else b }

  lemma ShrunkNone(dirs: Dirs, tables: Tables, d: nat, lo: nat)
    ensures Shrunk(dirs, tables, dirs, tables, d, lo, lo)
  {
    forall d': nat, v': nat
      ensures ShrunkAt(dirs, tables, dirs, tables, d, lo, lo, d', v')
    {
    }
  }

  lemma ShrunkOne(dirs: Dirs, tables: Tables, dirs1: Dirs, tables1: Tables, dirs2: Dirs, tables2: Tables, d: nat,
                  lo: nat, a: nat, hi: nat)
    requires Shrunk(dirs, tables, dirs1, tables1, d, lo, a) && Put(dirs1, tables1, dirs2, tables2, d, a, Absent)
    requires lo <= a && hi == a + 1
    ensures Shrunk(dirs, tables, dirs2, tables2, d, lo, hi)
  {
    forall d': nat, v': nat
      ensures ShrunkAt(dirs, tables, dirs2, tables2, d, lo, hi, d', v')
    {
      assert ShrunkAt(dirs, tables, dirs1, tables1, d, lo, a, d', v')
             && PutAt(dirs1, tables1, dirs2, tables2, d, a, Absent, d', v');
    }
  }

  /** No page table: none of the pages up to the next directory entry is mapped. */
  lemma ShrunkSkip(dirs: Dirs, tables: Tables, dirs1: Dirs, tables1: Tables, d: nat, lo: nat, a: nat, hi: nat)
    requires Shrunk(dirs, tables, dirs1, tables1, d, lo, a) && TableOf(dirs1, d, a / NPT) == 0
    requires lo <= a <= hi <= (a / NPT + 1) * NPT
    ensures Shrunk(dirs, tables, dirs1, tables1, d, lo, hi)
  {
    forall d': nat, v': nat
      ensures ShrunkAt(dirs, tables, dirs1, tables1, d, lo, hi, d', v')
    {
      assert ShrunkAt(dirs, tables, dirs1, tables1, d, lo, a, d', v');
      if a <= v' < hi {
        assert v' / NPT == a / NPT;
      }
    }
  }

  lemma GrownNone(dirs: Dirs, tables: Tables, d: nat, lo: nat, perm: nat)
    ensures Grown(dirs, tables, dirs, tables, d, lo, lo, perm)
  {
    forall d': nat, v': nat
      ensures GrownAt(dirs, tables, dirs, tables, d, lo, lo, perm, d', v')
    {
    }
  }

  lemma GrownOne(dirs: Dirs, tables: Tables, dirs1: Dirs, tables1: Tables, dirs2: Dirs, tables2: Tables,
                 d: nat, lo: nat, a: nat, f: nat, perm: nat, hi: nat)
    requires Grown(dirs, tables, dirs1, tables1, d, lo, a, perm)
             && Put(dirs1, tables1, dirs2, tables2, d, a, Present(f, perm))
    requires lo <= a && hi == a + 1
    ensures Grown(dirs, tables, dirs2, tables2, d, lo, hi, perm)
  {
    forall d': nat, v': nat
      ensures GrownAt(dirs, tables, dirs2, tables2, d, lo, hi, perm, d', v')
    {
      assert GrownAt(dirs, tables, dirs1, tables1, d, lo, a, perm, d', v');
      assert PutAt(dirs1, tables1, dirs2, tables2, d, a, Present(f, perm), d', v');
    }
  }

  /** Growing part of the way and shrinking all of it back is nothing. */
  lemma GrownShrunk(dirs: Dirs, tables: Tables, dirs1: Dirs, tables1: Tables, dirs2: Dirs, tables2: Tables,
                    d: nat, lo: nat, a: nat, hi: nat, perm: nat)
    requires Unmapped(dirs, tables, d, lo, hi) && a <= hi
    requires Grown(dirs, tables, dirs1, tables1, d, lo, a, perm) && Shrunk(dirs1, tables1, dirs2, tables2, d, lo, hi)
    ensures SameLooks(dirs, tables, dirs2, tables2)
  {
    forall d': nat, v': nat
      ensures SameLook(dirs, tables, dirs2, tables2, d', v')
    {
      assert GrownAt(dirs, tables, dirs1, tables1, d, lo, a, perm, d', v')
             && ShrunkAt(dirs1, tables1, dirs2, tables2, d, lo, hi, d', v');
    }
  }

  // ----- an address space is given back -----

  /** `own` without the first i tables of directory d. */
  ghost function Spared(own: map<nat, Role>, d: nat, i: nat): (r: map<nat, Role>)
    ensures forall f :: f in r <==> f in own && !(own[f].IsTable? && own[f].d == d && own[f].i < i)
    ensures forall f :: f in r ==> r[f] == own[f]
  {
    map f | f in own && !(own[f].IsTable? && own[f].d == d && own[f].i < i) :: own[f]
  }

  lemma SparedNext(dirs: Dirs, tables: Tables, own: map<nat, Role>, d: nat, i: nat)
    requires Placed(dirs, tables, own)
    ensures
      var t := TableOf(dirs, d, i);
      && (t == 0 ==> Spared(own, d, i + 1) == Spared(own, d, i))
      && (t != 0 ==> t in Spared(own, d, i) && Spared(own, d, i + 1) == Spared(own, d, i) - {t})
  {
    var t := TableOf(dirs, d, i);
    assert TableOk(dirs, tables, own, d, i);
    forall f | f in own && own[f] == IsTable(d, i)
      ensures f == t != 0
    {
      assert BackOk(dirs, tables, own, f);
    }
  }

  /** With no user page and no table left, what remains is the rest. */
  lemma SparedAll(dirs: Dirs, tables: Tables, own: map<nat, Role>, d: nat)
    requires Placed(dirs, tables, own) && d in dirs && Unmapped(dirs, tables, d, 0, USERPAGES)
    ensures d in Spared(own, d, NPD) && Spared(own, d, NPD) - {d} == Rest(own, d)
  {
    assert DirOk(dirs, own, d);
    forall f | f in own
      ensures f in Spared(own, d, NPD) - {d} <==> f in Rest(own, d)
    {
      assert BackOk(dirs, tables, own, f);
    }
  }

  lemma RestPlaced(dirs: Dirs, tables: Tables, own: map<nat, Role>, d: nat)
    requires Placed(dirs, tables, own)
    ensures Placed(dirs - {d}, tables, Rest(own, d))
    ensures OthersSame(dirs, tables, dirs - {d}, tables, d)
  {
    var dirs', own' := dirs - {d}, Rest(own, d);
    forall d': nat, v': nat
      ensures OtherSame(dirs, tables, dirs', tables, d, d', v')
    {
    }
    forall d'
      ensures DirOk(dirs', own', d')
    {
      assert DirOk(dirs, own, d');
    }
    forall d', i'
      ensures TableOk(dirs', tables, own', d', i')
    {
      assert TableOk(dirs, tables, own, d', i');
    }
    forall d': nat, v': nat
      ensures PageOk(dirs', tables, own', d', v')
    {
      assert PageOk(dirs, tables, own, d', v');
    }
    forall f | f in own'
      ensures BackOk(dirs', tables, own', f)
    {
      assert BackOk(dirs, tables, own, f);
    }
  }

  /** A loose frame comes and goes. */
  lemma RestLoose(own: map<nat, Role>, d: nat, f: nat)
    requires f !in own
    ensures Rest(own[f := Loose], d) - {f} == Rest(own, d) && own[f := Loose] - {f} == own
  {
  }

  lemma RestGone(own: map<nat, Role>, d: nat, f: nat)
    requires f in own && own[f] == Loose
    ensures Rest(own - {f}, d) == Rest(own, d) - {f}
  {
  }

  ghost predicate OtherSame(dirs: Dirs, tables: Tables, dirs': Dirs, tables': Tables, d: nat, d': nat, v': nat) {
    d' != d ==> Look(dirs', tables', d', v') == Look(dirs, tables, d', v')
  }

  /** Every address space but that of d is as it was. */
  ghost predicate OthersSame(dirs: Dirs, tables: Tables, dirs': Dirs, tables': Tables, d: nat) {
    forall d', v' {:trigger OtherSame(dirs, tables, dirs', tables', d, d', v')} ::
             OtherSame(dirs, tables, dirs', tables', d, d', v')
  }

  // ----- a page directory is added -----

  function EmptyDir(): (t: seq<nat>)
    ensures |t| == NPD && forall j :: 0 <= j < NPD ==> t[j] == 0
  {
    seq(NPD, _ => 0)
  }

  ghost predicate Blank(dirs: Dirs, tables: Tables, d: nat) {
    forall v {:trigger Look(dirs, tables, d, v)} :: Look(dirs, tables, d, v) == Absent
  }

  lemma NewDirPlaced(dirs: Dirs, tables: Tables, own: map<nat, Role>, d: nat)
    requires Placed(dirs, tables, own) && d != 0 && d in own && own[d] == Loose
    ensures d !in dirs && Placed(dirs[d := EmptyDir()], tables, own[d := IsDir])
    ensures OthersSame(dirs, tables, dirs[d := EmptyDir()], tables, d)
    ensures Blank(dirs[d := EmptyDir()], tables, d)
  {
    assert DirOk(dirs, own, d);
    var dirs', own' := dirs[d := EmptyDir()], own[d := IsDir];
    forall d'
      ensures DirOk(dirs', own', d')
    {
      assert DirOk(dirs, own, d');
    }
    forall d', i'
      ensures TableOk(dirs', tables, own', d', i')
    {
      assert TableOk(dirs, tables, own, d', i');
    }
    forall d': nat, v': nat
      ensures PageOk(dirs', tables, own', d', v')
    {
      assert PageOk(dirs, tables, own, d', v');
    }
    forall f | f in own'
      ensures BackOk(dirs', tables, own', f)
    {
      assert BackOk(dirs, tables, own, f);
    }
    forall d': nat, v': nat
      ensures OtherSame(dirs, tables, dirs', tables, d, d', v')
    {
    }
  }

  /** Nothing of a directory that is new is anywhere else. */
  lemma RestNewDir(own: map<nat, Role>, dirs: Dirs, tables: Tables, d: nat)
    requires Placed(dirs, tables, own) && d !in own
    ensures Rest(own[d := IsDir], d) == own && Rest(own, d) == own
  {
    assert DirOk(dirs, own, d);
    forall f | f in own
      ensures !OfDir(own[f], f, d)
    {
      assert BackOk(dirs, tables, own, f);
    }
  }

  lemma OthersPut(dirs: Dirs, tables: Tables, dirs1: Dirs, tables1: Tables, dirs2: Dirs, tables2: Tables, d: nat,
                  v: nat, e: Pte)
    requires OthersSame(dirs, tables, dirs1, tables1, d) && Put(dirs1, tables1, dirs2, tables2, d, v, e)
    ensures OthersSame(dirs, tables, dirs2, tables2, d)
  {
    forall d': nat, v': nat
      ensures OtherSame(dirs, tables, dirs2, tables2, d, d', v')
    {
      assert OtherSame(dirs, tables, dirs1, tables1, d, d', v')
             && PutAt(dirs1, tables1, dirs2, tables2, d, v, e, d', v');
    }
  }

  lemma OthersShrunk(dirs: Dirs, tables: Tables, dirs1: Dirs, tables1: Tables, d: nat, lo: nat, hi: nat)
    requires Shrunk(dirs, tables, dirs1, tables1, d, lo, hi)
    ensures OthersSame(dirs, tables, dirs1, tables1, d) && Unmapped(dirs1, tables1, d, lo, hi)
  {
    forall d': nat, v': nat
      ensures OtherSame(dirs, tables, dirs1, tables1, d, d', v')
    {
      assert ShrunkAt(dirs, tables, dirs1, tables1, d, lo, hi, d', v');
    }
    forall v: nat | lo <= v < hi
      ensures Look(dirs1, tables1, d, v) == Absent
    {
      assert ShrunkAt(dirs, tables, dirs1, tables1, d, lo, hi, d, v);
    }
  }

  lemma OthersBoth(dirs: Dirs, tables: Tables, dirs1: Dirs, tables1: Tables, dirs2: Dirs, tables2: Tables, d: nat)
    requires OthersSame(dirs, tables, dirs1, tables1, d) && OthersSame(dirs1, tables1, dirs2, tables2, d)
    ensures OthersSame(dirs, tables, dirs2, tables2, d)
  {
    forall d': nat, v': nat
      ensures OtherSame(dirs, tables, dirs2, tables2, d, d', v')
    {
      assert OtherSame(dirs, tables, dirs1, tables1, d, d', v') && OtherSame(dirs1, tables1, dirs2, tables2, d, d', v');
    }
  }

  lemma RestMapped(own: map<nat, Role>, d: nat, f: nat, v: nat)
    requires f in own && own[f] == Loose
    ensures Rest(own[f := IsPage(d, v)], d) == Rest(own, d) - {f}
  {
  }
}
