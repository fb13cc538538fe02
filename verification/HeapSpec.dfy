/** Values behind the allocator of umalloc.c.  Addresses and sizes count Headers.

    The free list is a ring of block addresses that starts at `base`, the one header outside the
    heap, whose size is 0.  `size` is the size field of the headers.  `owner` gives for each unit
    obtained from sbrk the block it lies in. */
module HeapSpec {
  import SetSizes

  // ----- the free list -----

  /** b is the free block that follows a in address order, or the first one if a is the last. */
  ghost predicate Follows(free: set<nat>, a: nat, b: nat) {
    && b in free
    && if a < b then forall c :: c in free ==> c <= a || b <= c
       else forall c :: c in free ==> b <= c <= a
  }

  /** Each pointer leads to the free block that follows, but perhaps that of block `t`. */
  ghost predicate Linked(free: set<nat>, ptr: map<nat, nat>, t: int) {
    forall a {:trigger LinkAt(free, ptr, a)} :: a in free && a != t ==> LinkAt(free, ptr, a)
  }

  ghost predicate LinkAt(free: set<nat>, ptr: map<nat, nat>, a: nat) {
    a in ptr && Follows(free, a, ptr[a])
  }

  /** Free blocks do not overlap, and have a gap between them but perhaps after block `t`. */
  ghost predicate Apart(free: set<nat>, size: map<nat, nat>, t: int) {
    forall a, b {:trigger Gap(size, t, a, b)} :: a in free && b in free && a < b ==> Gap(size, t, a, b)
  }

  ghost predicate Gap(size: map<nat, nat>, t: int, a: nat, b: nat) {
    a in size && (a + size[a] < b || (a == t && a + size[a] == b))
  }

  // ----- blocks and units -----

  /** Only base is empty. */
  ghost predicate Sized(base: nat, size: map<nat, nat>, a: nat) {
    a in size && if a == base then size[a] == 0 else base < a && size[a] >= 1
  }

  /** The units of the block of n units at `a` are those owned by `a`. */
  ghost predicate Spans(owner: map<nat, nat>, n: nat, a: nat) {
    forall u :: u in owner && owner[u] == a <==> a <= u < a + n
  }

  /** Every obtained unit lies in exactly one block, and every unit of a block is obtained. */
  ghost predicate Tiled(base: nat, owner: map<nat, nat>, size: map<nat, nat>, blocks: set<nat>) {
    && (forall a {:trigger Tile(base, owner, size, a)} :: a in blocks ==> Tile(base, owner, size, a))
    && (forall u :: u in owner ==> owner[u] in blocks)
  }

  ghost predicate Tile(base: nat, owner: map<nat, nat>, size: map<nat, nat>, a: nat) {
    Sized(base, size, a) && Spans(owner, size[a], a)
  }

  function Retag(owner: map<nat, nat>, lo: nat, hi: nat, a: nat): (r: map<nat, nat>)
    ensures r.Keys == owner.Keys
    ensures forall u :: u in r ==> r[u] == if lo <= u < hi then a else owner[u]
  {
    map u | u in owner :: if lo <= u < hi then a else owner[u]
  }

  function Region(r: nat, n: nat): (s: set<nat>)
    ensures forall u :: u in s <==> r <= u < r + n
  {
    if n == 0 then {} else Region(r, n - 1) + {r + n - 1}
  }

  function Grown(owner: map<nat, nat>, r: nat, n: nat): (o: map<nat, nat>)
    ensures o.Keys == owner.Keys + Region(r, n)
    ensures forall u :: u in o ==> o[u] == if r <= u < r + n then r else owner[u]
  {
    map u | u in owner.Keys + Region(r, n) :: if r <= u < r + n then r else owner[u]
  }

  /** Two blocks of a tiling do not overlap. */
  lemma BlocksApart(base: nat, owner: map<nat, nat>, size: map<nat, nat>, a: nat, b: nat)
    requires Tile(base, owner, size, a) && Tile(base, owner, size, b) && a < b && b != base
    ensures a + size[a] <= b
  {
    assert b in owner && owner[b] == b;
  }

  // --- block b joins block a, which ends where b starts

  lemma SpansMerge(owner: map<nat, nat>, n: nat, a: nat, m: nat, b: nat)
    requires Spans(owner, n, a) && Spans(owner, m, b) && a < b == a + n
    ensures Spans(Retag(owner, b, b + m, a), n + m, a)
  {
  }

  lemma SpansKept(owner: map<nat, nat>, m: nat, a: nat, lo: nat, hi: nat, c: nat, k: nat, d: nat)
    requires Spans(owner, m, a) && a <= lo && hi <= a + m && Spans(owner, k, d) && d != a && d != c
    ensures Spans(Retag(owner, lo, hi, c), k, d)
  {
  }

  lemma TiledMerge(base: nat, owner: map<nat, nat>, size: map<nat, nat>, blocks: set<nat>, a: nat, b: nat)
    requires Tiled(base, owner, size, blocks) && a in blocks && b in blocks && b != base
    requires Tile(base, owner, size, a) && Tile(base, owner, size, b) && a < b == a + size[a]
    ensures Tiled(base, Retag(owner, b, b + size[b], a), size[a := size[a] + size[b]], blocks - {b})
  {
    var o, s := Retag(owner, b, b + size[b], a), size[a := size[a] + size[b]];
    forall c | c in blocks - {b}
      ensures Tile(base, o, s, c)
    {
      assert Tile(base, owner, size, c);
      if c == a {
        SpansMerge(owner, size[a], a, size[b], b);
      } else {
        SpansKept(owner, size[b], b, b, b + size[b], a, size[c], c);
      }
    }
    forall u | u in o
      ensures o[u] in blocks - {b}
    {
    }
  }

  // --- the last n units of block a become a block at c

  lemma SpansSplit(owner: map<nat, nat>, m: nat, a: nat, n: nat, c: nat)
    requires Spans(owner, m, a) && 1 <= n < m && c == a + m - n
    ensures Spans(Retag(owner, c, c + n, c), m - n, a)
    ensures (forall u :: u in owner ==> owner[u] != c) ==> Spans(Retag(owner, c, c + n, c), n, c)
  {
  }

  lemma TiledSplit(base: nat, owner: map<nat, nat>, size: map<nat, nat>, blocks: set<nat>, a: nat, n: nat, c: nat)
    requires Tiled(base, owner, size, blocks) && a in blocks && Tile(base, owner, size, a) && 1 <= n < size[a]
    requires c == a + size[a] - n && c !in blocks
    ensures Tiled(base, Retag(owner, c, c + n, c), size[a := size[a] - n][c := n], blocks + {c})
  {
    var o, s := Retag(owner, c, c + n, c), size[a := size[a] - n][c := n];
    SpansSplit(owner, size[a], a, n, c);
    forall d | d in blocks + {c}
      ensures Tile(base, o, s, d)
    {
      if d != a && d != c {
        assert Tile(base, owner, size, d);
        SpansKept(owner, size[a], a, c, c + n, c, size[d], d);
      }
    }
    forall u | u in o
      ensures o[u] in blocks + {c}
    {
    }
  }

  /** A new block above everything there is. */
  lemma TiledGrow(base: nat, owner: map<nat, nat>, size: map<nat, nat>, blocks: set<nat>, r: nat, n: nat)
    requires Tiled(base, owner, size, blocks) && r !in blocks && forall u :: u in owner ==> u < r
    requires base < r && n >= 1
    ensures Tiled(base, Grown(owner, r, n), size[r := n], blocks + {r})
  {
    var o, s := Grown(owner, r, n), size[r := n];
    assert Spans(o, n, r);
    forall d | d in blocks + {r}
      ensures Tile(base, o, s, d)
    {
      if d != r {
        assert Tile(base, owner, size, d);
        assert Spans(o, size[d], d);
      }
    }
    forall u | u in o
      ensures o[u] in blocks + {r}
    {
    }
  }

  // ----- the whole heap -----

  ghost predicate Listed(base: nat, free: set<nat>, ptr: map<nat, nat>, size: map<nat, nat>) {
    base in free && (forall a :: a in free ==> base <= a) && Linked(free, ptr, -1) && Apart(free, size, -1)
  }

  /** Free and live blocks are disjoint, and tile the memory obtained. */
  ghost predicate Tidy(base: nat, brk: nat, free: set<nat>, live: set<nat>, size: map<nat, nat>, owner: map<nat, nat>) {
    && 0 < base && live !! free && base in free
    && Tiled(base, owner, size, live + free)
    && forall u :: u in owner ==> base < u < brk
  }

  /** Where a block at `bp` belongs: after p. */
  ghost predicate Between(free: set<nat>, p: nat, bp: nat) {
    p in free && p < bp && forall c :: c in free ==> c <= p || bp < c
  }

  /** The obtained units that are in no live block. */
  function FreeUnits(owner: map<nat, nat>, live: set<nat>): set<nat> {
    set u | u in owner && owner[u] !in live
  }

  ghost predicate SameSizes(live: set<nat>, size0: map<nat, nat>, size: map<nat, nat>) {
    forall a :: a in live && a in size0 ==> a in size && size[a] == size0[a]
  }

  // --- blocks of the heap

  /** A live block does not overlap the free block p. */
  lemma LiveBeside(base: nat, brk: nat, free: set<nat>, live: set<nat>, size: map<nat, nat>, owner: map<nat, nat>,
                   p: nat, bp: nat)
    requires Tidy(base, brk, free, live, size, owner) && bp in live && p in free
    ensures bp in size && p in size && base < bp && size[bp] >= 1
    ensures p < bp ==> p + size[p] <= bp
    ensures bp < p ==> bp + size[bp] <= p
  {
    assert Tile(base, owner, size, p) && Tile(base, owner, size, bp);
    if p < bp {
      BlocksApart(base, owner, size, p, bp);
    } else if bp < p {
      BlocksApart(base, owner, size, bp, p);
    }
  }

  /** A live block becomes free. */
  lemma FreeTidy(base: nat, brk: nat, free: set<nat>, live: set<nat>, size: map<nat, nat>, owner: map<nat, nat>,
                 bp: nat)
    requires Tidy(base, brk, free, live, size, owner) && bp in live
    ensures bp in size && Tidy(base, brk, free + {bp}, live - {bp}, size, owner)
    ensures FreeUnits(owner, live - {bp}) == FreeUnits(owner, live) + Region(bp, size[bp])
  {
    assert (live - {bp}) + (free + {bp}) == live + free;
    assert Tile(base, owner, size, bp);
  }

  /** The free block b joins the free block a. */
  lemma JoinTidy(base: nat, brk: nat, free: set<nat>, live: set<nat>, size: map<nat, nat>, owner: map<nat, nat>,
                 a: nat, b: nat)
    requires Tidy(base, brk, free, live, size, owner) && a in free && b in free && b != base
    requires a in size && b in size && a < b == a + size[a]
    ensures Tidy(base, brk, free - {b}, live, size[a := size[a] + size[b]], Retag(owner, b, b + size[b], a))
    ensures FreeUnits(Retag(owner, b, b + size[b], a), live) == FreeUnits(owner, live)
    ensures SameSizes(live, size, size[a := size[a] + size[b]])
  {
    assert Tile(base, owner, size, a) && Tile(base, owner, size, b);
    TiledMerge(base, owner, size, live + free, a, b);
    assert live + (free - {b}) == live + free - {b};
  }

  // --- the list through free()

  lemma InsertFollows(free: set<nat>, p: nat, bp: nat, a: nat, b: nat)
    requires Between(free, p, bp) && a in free && Follows(free, a, b)
    ensures if a == p then Follows(free + {bp}, bp, b) else Follows(free + {bp}, a, b)
  {
  }

  /** bp goes in after p, which does not point to it yet. */
  lemma InsertLinked(free: set<nat>, ptr: map<nat, nat>, p: nat, bp: nat)
    requires Linked(free, ptr, -1) && Between(free, p, bp) && LinkAt(free, ptr, p)
    ensures Linked(free + {bp}, ptr[bp := ptr[p]], p)
  {
    var f, q := free + {bp}, ptr[bp := ptr[p]];
    forall a | a in f && a != p
      ensures LinkAt(f, q, a)
    {
      var o := if a == bp then p else a;
      assert LinkAt(free, ptr, o);
      InsertFollows(free, p, bp, o, ptr[o]);
    }
  }

  lemma ReplaceFollows(free: set<nat>, p: nat, bp: nat, next: nat, a: nat, b: nat)
    requires Between(free, p, bp) && bp < next && Follows(free, p, next) && a in free && a != p && Follows(free, a, b)
    ensures b != next && Follows(free + {bp} - {next}, if a == next then bp else a, b)
  {
  }

  /** bp takes the place of the block next. */
  lemma ReplaceLinked(free: set<nat>, ptr: map<nat, nat>, p: nat, bp: nat, next: nat)
    requires Linked(free, ptr, -1) && Between(free, p, bp) && bp < next && Follows(free, p, next)
    requires LinkAt(free, ptr, next)
    ensures Linked(free + {bp} - {next}, ptr[bp := ptr[next]], p)
  {
    var f, q := free + {bp} - {next}, ptr[bp := ptr[next]];
    forall a | a in f && a != p
      ensures LinkAt(f, q, a)
    {
      var o := if a == bp then next else a;
      assert LinkAt(free, ptr, o);
      ReplaceFollows(free, p, bp, next, o, ptr[o]);
    }
  }

  lemma InsertApart(free: set<nat>, size: map<nat, nat>, p: nat, bp: nat)
    requires Apart(free, size, -1) && Between(free, p, bp) && p in size && bp in size && p + size[p] <= bp
    requires forall c :: c in free && bp < c ==> bp + size[bp] < c
    ensures Apart(free + {bp}, size, p)
  {
    forall a, b | a in free + {bp} && b in free + {bp} && a < b
      ensures Gap(size, p, a, b)
    {
      if b == bp {
        assert a < p ==> Gap(size, -1, a, p);
      } else if a != bp {
        assert Gap(size, -1, a, b);
      }
    }
  }

  lemma ReplaceApart(free: set<nat>, size: map<nat, nat>, p: nat, bp: nat, next: nat)
    requires Apart(free, size, -1) && Between(free, p, bp) && bp < next && Follows(free, p, next)
    requires p in size && bp in size && next in size && p + size[p] <= bp && bp + size[bp] == next
    ensures Apart(free + {bp} - {next}, size[bp := size[bp] + size[next]], p)
  {
    var f, s := free + {bp} - {next}, size[bp := size[bp] + size[next]];
    forall a, b | a in f && b in f && a < b
      ensures Gap(s, p, a, b)
    {
      if a == bp {
        assert Gap(size, -1, next, b);
      } else if b == bp {
        assert a < p ==> Gap(size, -1, a, p);
      } else {
        assert Gap(size, -1, a, b);
      }
    }
  }

  /** Between the two joins of free(): bp is on the list, the block p before it may touch it and
      still points past it. */
  ghost predicate Pending(base: nat, free: set<nat>, ptr: map<nat, nat>, size: map<nat, nat>, p: nat, bp: nat) {
    && base in free && (forall a :: a in free ==> base <= a) && p in free && p < bp && LinkAt(free, ptr, bp)
    && Follows(free, p, bp) && Linked(free, ptr, p) && Apart(free, size, p)
  }

  lemma JoinNextPends(base: nat, free: set<nat>, ptr: map<nat, nat>, size: map<nat, nat>, p: nat, bp: nat, next: nat)
    requires Listed(base, free, ptr, size) && Between(free, p, bp) && bp < next && Follows(free, p, next)
    requires p in size && bp in size && next in size && p + size[p] <= bp && bp + size[bp] == next
             && LinkAt(free, ptr, next)
    ensures Pending(base, free + {bp} - {next}, ptr[bp := ptr[next]], size[bp := size[bp] + size[next]], p, bp)
  {
    ReplaceLinked(free, ptr, p, bp, next);
    ReplaceApart(free, size, p, bp, next);
  }

  lemma PointNextPends(base: nat, free: set<nat>, ptr: map<nat, nat>, size: map<nat, nat>, p: nat, bp: nat)
    requires Listed(base, free, ptr, size) && Between(free, p, bp) && LinkAt(free, ptr, p)
    requires p in size && bp in size && p + size[p] <= bp
    requires forall c :: c in free && bp < c ==> bp + size[bp] < c
    ensures Pending(base, free + {bp}, ptr[bp := ptr[p]], size, p, bp)
  {
    InsertLinked(free, ptr, p, bp);
    InsertApart(free, size, p, bp);
  }

  /** bp leaves the list, and the block before it points past it. */
  lemma RemoveLinked(free: set<nat>, ptr: map<nat, nat>, p: nat, bp: nat)
    requires Linked(free, ptr, p) && p in free && Follows(free, p, bp) && p < bp && LinkAt(free, ptr, bp)
    ensures Linked(free - {bp}, ptr[p := ptr[bp]], -1)
  {
    var f, q := free - {bp}, ptr[p := ptr[bp]];
    forall a | a in f
      ensures LinkAt(f, q, a)
    {
      var o := if a == p then bp else a;
      assert LinkAt(free, ptr, o);
      RemoveFollows(free, p, bp, o, ptr[o]);
    }
  }

  lemma RemoveFollows(free: set<nat>, p: nat, bp: nat, a: nat, b: nat)
    requires p in free && Follows(free, p, bp) && p < bp && a in free && a != p && Follows(free, a, b)
    ensures Follows(free - {bp}, if a == bp then p else a, b)
  {
  }

  lemma AbsorbApart(free: set<nat>, size: map<nat, nat>, p: nat, bp: nat)
    requires Apart(free, size, p) && p in free && bp in free && p in size && bp in size
    requires Follows(free, p, bp) && p < bp == p + size[p]
    ensures Apart(free - {bp}, size[p := size[p] + size[bp]], -1)
  {
    var f, s := free - {bp}, size[p := size[p] + size[bp]];
    forall a, b | a in f && b in f && a < b
      ensures Gap(s, -1, a, b)
    {
      assert Gap(size, p, if a == p then bp else a, b);
    }
  }

  lemma JoinPreviousLists(base: nat, free: set<nat>, ptr: map<nat, nat>, size: map<nat, nat>, p: nat, bp: nat)
    requires Pending(base, free, ptr, size, p, bp) && p in size && bp in size && p + size[p] == bp
    ensures Listed(base, free - {bp}, ptr[p := ptr[bp]], size[p := size[p] + size[bp]])
  {
    RemoveLinked(free, ptr, p, bp);
    AbsorbApart(free, size, p, bp);
  }

  lemma PointPreviousLists(base: nat, free: set<nat>, ptr: map<nat, nat>, size: map<nat, nat>, p: nat, bp: nat)
    requires Pending(base, free, ptr, size, p, bp) && p in size && p + size[p] != bp
    ensures Listed(base, free, ptr[p := bp], size)
  {
    var q := ptr[p := bp];
    forall a | a in free
      ensures LinkAt(free, q, a)
    {
      assert a != p ==> LinkAt(free, ptr, a);
    }
    forall a, b | a in free && b in free && a < b
      ensures Gap(size, -1, a, b)
    {
      assert Gap(size, p, a, b) && Gap(size, p, p, bp);
    }
  }

  // --- malloc() and morecore()

  /** Some free block has at least n units. */
  ghost predicate HasRoom(free: set<nat>, size: map<nat, nat>, n: nat) {
    exists a :: a in free && Roomy(size, a, n)
  }

  ghost predicate Roomy(size: map<nat, nat>, a: nat, n: nat) {
    a in size && size[a] >= n
  }

  /** New memory comes as one more live block. */
  lemma GrowTidy(base: nat, brk: nat, free: set<nat>, live: set<nat>, size: map<nat, nat>, owner: map<nat, nat>,
                 hp: nat, n: nat)
    requires Tidy(base, brk, free, live, size, owner) && base < brk <= hp && n >= 1
    ensures hp !in live && hp !in free
    ensures Tidy(base, hp + n, free, live + {hp}, size[hp := n], Grown(owner, hp, n))
    ensures FreeUnits(Grown(owner, hp, n), live + {hp}) == FreeUnits(owner, live)
  {
    assert hp in live + free ==> Tile(base, owner, size, hp);
    assert hp !in owner;
    TiledGrow(base, owner, size, live + free, hp, n);
    assert live + {hp} + free == live + free + {hp};
  }

  lemma GrowListed(base: nat, free: set<nat>, ptr: map<nat, nat>, size: map<nat, nat>, hp: nat, n: nat)
    requires Listed(base, free, ptr, size) && hp !in free
    ensures Listed(base, free, ptr, size[hp := n])
  {
    forall a, b | a in free && b in free && a < b
      ensures Gap(size[hp := n], -1, a, b)
    {
      assert Gap(size, -1, a, b);
    }
  }

  /** A free block becomes live. */
  lemma TakeTidy(base: nat, brk: nat, free: set<nat>, live: set<nat>, size: map<nat, nat>, owner: map<nat, nat>, p: nat)
    requires Tidy(base, brk, free, live, size, owner) && p in free && p != base
    ensures p in size && Tidy(base, brk, free - {p}, live + {p}, size, owner)
    ensures FreeUnits(owner, live + {p}) == FreeUnits(owner, live) - Region(p, size[p])
    ensures Region(p, size[p]) <= FreeUnits(owner, live)
  {
    assert (live + {p}) + (free - {p}) == live + free;
    assert Tile(base, owner, size, p);
  }

  lemma TakeListed(base: nat, free: set<nat>, ptr: map<nat, nat>, size: map<nat, nat>, prevp: nat, p: nat)
    requires Listed(base, free, ptr, size) && prevp in free && Follows(free, prevp, p) && p != base
             && LinkAt(free, ptr, p)
    ensures prevp < p && Listed(base, free - {p}, ptr[prevp := ptr[p]], size)
  {
    RemoveLinked(free, ptr, prevp, p);
    forall a, b | a in free - {p} && b in free - {p} && a < b
      ensures Gap(size, -1, a, b)
    {
    }
  }

  /** The tail of a free block becomes live. */
  lemma SplitTidy(base: nat, brk: nat, free: set<nat>, live: set<nat>, size: map<nat, nat>, owner: map<nat, nat>,
                  p: nat, n: nat, c: nat)
    requires Tidy(base, brk, free, live, size, owner) && p in free && p in size && 1 <= n < size[p]
    requires c == p + size[p] - n
    ensures c !in free && c !in live && p != base
    ensures Tidy(base, brk, free, live + {c}, size[p := size[p] - n][c := n], Retag(owner, c, c + n, c))
    ensures FreeUnits(Retag(owner, c, c + n, c), live + {c}) == FreeUnits(owner, live) - Region(c, n)
    ensures Region(c, n) <= FreeUnits(owner, live)
    ensures SameSizes(live, size, size[p := size[p] - n][c := n])
  {
    assert Tile(base, owner, size, p);
    assert c in owner && owner[c] == p;
    assert c in live + free ==> Tile(base, owner, size, c);
    TiledSplit(base, owner, size, live + free, p, n, c);
    assert live + {c} + free == live + free + {c};
  }

  lemma SplitListed(base: nat, free: set<nat>, ptr: map<nat, nat>, size: map<nat, nat>, p: nat, n: nat, c: nat)
    requires Listed(base, free, ptr, size) && p in free && p in size && n <= size[p] && c !in free
    ensures Listed(base, free, ptr, size[p := size[p] - n][c := n])
  {
    forall a, b | a in free && b in free && a < b
      ensures Gap(size[p := size[p] - n][c := n], -1, a, b)
    {
      assert Gap(size, -1, a, b);
    }
  }

  // ----- the list is one cycle in address order -----

  /** The block k steps after a. */
  ghost function Walk(ptr: map<nat, nat>, a: nat, k: nat): nat {
    if k == 0 then a
    else
      var b := Walk(ptr, a, k - 1);
      if b in ptr then ptr[b] else b
  }

  /** The number of free blocks below a. */
  ghost function Below(free: set<nat>, a: nat): set<nat> { set b | b in free && b < a }

  /** Following the pointers from base, the block reached in k steps has k free blocks below it, for
      each of the free blocks, and the step after the last one is back at base. */
  lemma {:induction false} OneCycle(base: nat, free: set<nat>, ptr: map<nat, nat>, size: map<nat, nat>, k: nat)
    requires Listed(base, free, ptr, size) && k < |free|
    ensures var a := Walk(ptr, base, k); a in free && |Below(free, a)| == k
    ensures k + 1 == |free| ==> Walk(ptr, base, k + 1) == base
  {
    if k == 0 {
      assert Below(free, base) == {};
    } else {
      OneCycle(base, free, ptr, size, k - 1);
      var b := Walk(ptr, base, k - 1);
      assert LinkAt(free, ptr, b);
      StepBelow(base, free, b, ptr[b]);
    }
    var a := Walk(ptr, base, k);
    assert LinkAt(free, ptr, a);
    StepBelow(base, free, a, ptr[a]);
  }

  lemma StepBelow(base: nat, free: set<nat>, a: nat, b: nat)
    requires a in free && Follows(free, a, b) && base in free && (forall c :: c in free ==> base <= c)
    ensures if |Below(free, a)| + 1 == |free| then b == base else |Below(free, b)| == |Below(free, a)| + 1
  {
    assert a !in Below(free, a);
    if a < b {
      assert Below(free, b) == Below(free, a) + {a};
      assert b !in Below(free, a) + {a};
      SetSizes.ProperSize(Below(free, a) + {a}, free, b);
    } else {
      assert free == Below(free, a) + {a};
    }
  }

  // ----- the free units determine the free list -----

  /** In a heap, the free blocks other than base start at the free units after a unit that is not
      free, and end at the next unit that is not free. */
  ghost predicate Run(units: set<nat>, a: nat, n: nat) {
    && a >= 1 && n >= 1 && a - 1 !in units && a + n !in units
    && forall u :: a <= u < a + n ==> u in units
  }

  lemma RunsUnique(units: set<nat>, a: nat, n: nat, m: nat)
    requires Run(units, a, n) && Run(units, a, m)
    ensures n == m
  {
  }

  /** The free block that holds a free unit. */
  lemma UnitHome(base: nat, brk: nat, free: set<nat>, live: set<nat>, size: map<nat, nat>, owner: map<nat, nat>, u: nat)
    requires Tidy(base, brk, free, live, size, owner) && u in FreeUnits(owner, live)
    ensures owner[u] in free && owner[u] != base && Tile(base, owner, size, owner[u])
    ensures owner[u] <= u < owner[u] + size[owner[u]]
  {
    assert owner[u] in live + free;
    assert Tile(base, owner, size, owner[u]);
  }

  lemma BlockUnits(base: nat, brk: nat, free: set<nat>, live: set<nat>, size: map<nat, nat>, owner: map<nat, nat>,
                   a: nat, u: nat)
    requires Tidy(base, brk, free, live, size, owner) && a in free
    requires Tile(base, owner, size, a) && a <= u < a + size[a]
    ensures u in FreeUnits(owner, live)
  {
  }

  lemma FreeBlockIsRun(base: nat, brk: nat, free: set<nat>, live: set<nat>, ptr: map<nat, nat>, size: map<nat, nat>,
                       owner: map<nat, nat>, a: nat)
    requires Listed(base, free, ptr, size) && Tidy(base, brk, free, live, size, owner) && a in free && a != base
    ensures a in size && Run(FreeUnits(owner, live), a, size[a])
  {
    var units := FreeUnits(owner, live);
    assert Tile(base, owner, size, a);
    forall u | a <= u < a + size[a]
      ensures u in units
    {
      BlockUnits(base, brk, free, live, size, owner, a, u);
    }
    if a - 1 in units {
      UnitHome(base, brk, free, live, size, owner, a - 1);
      Touching(free, size, owner[a - 1], a);
      assert false;
    }
    var e := a + size[a];
    if e in units {
      UnitHome(base, brk, free, live, size, owner, e);
      EndHome(base, owner, size, a, owner[e], e);
      Touching(free, size, a, owner[e]);
      assert false;
    }
  }

  /** The block after the end of a starts there. */
  lemma EndHome(base: nat, owner: map<nat, nat>, size: map<nat, nat>, a: nat, b: nat, e: nat)
    requires Tile(base, owner, size, a) && Tile(base, owner, size, b) && e == a + size[a] && b <= e < b + size[b]
    requires a != base
    ensures a < b
  {
    assert a in owner && owner[a] == a;
  }

  lemma Touching(free: set<nat>, size: map<nat, nat>, a: nat, b: nat)
    requires Apart(free, size, -1) && a in free && b in free && a < b
    ensures a in size && a + size[a] < b
  {
    assert Gap(size, -1, a, b);
  }

  /** Heaps with the same free units have the same free blocks. */
  lemma SameFreeList(base: nat, brk1: nat, free1: set<nat>, live1: set<nat>, ptr1: map<nat, nat>,
                      size1: map<nat, nat>, owner1: map<nat, nat>,
                     brk2: nat, free2: set<nat>, live2: set<nat>, ptr2: map<nat, nat>, size2: map<nat, nat>,
                     owner2: map<nat, nat>)
    requires Listed(base, free1, ptr1, size1) && Tidy(base, brk1, free1, live1, size1, owner1)
    requires Listed(base, free2, ptr2, size2) && Tidy(base, brk2, free2, live2, size2, owner2)
    requires FreeUnits(owner1, live1) == FreeUnits(owner2, live2)
    ensures free1 == free2 && forall a :: a in free1 ==> a in size1 && a in size2 && size1[a] == size2[a]
  {
    forall a | a in free1
      ensures a in free2 && a in size1 && a in size2 && size1[a] == size2[a]
    {
      SameFreeBlock(base, brk1, free1, live1, ptr1, size1, owner1, brk2, free2, live2, ptr2, size2, owner2, a);
    }
    forall a | a in free2
      ensures a in free1
    {
      SameFreeBlock(base, brk2, free2, live2, ptr2, size2, owner2, brk1, free1, live1, ptr1, size1, owner1, a);
    }
  }

  lemma SameFreeBlock(base: nat, brk1: nat, free1: set<nat>, live1: set<nat>, ptr1: map<nat, nat>,
                      size1: map<nat, nat>, owner1: map<nat, nat>,
                      brk2: nat, free2: set<nat>, live2: set<nat>, ptr2: map<nat, nat>, size2: map<nat, nat>,
                      owner2: map<nat, nat>, a: nat)
    requires Listed(base, free1, ptr1, size1) && Tidy(base, brk1, free1, live1, size1, owner1)
    requires Listed(base, free2, ptr2, size2) && Tidy(base, brk2, free2, live2, size2, owner2)
    requires FreeUnits(owner1, live1) == FreeUnits(owner2, live2) && a in free1
    ensures a in free2 && a in size1 && a in size2 && size1[a] == size2[a]
  {
    if a == base {
      assert Tile(base, owner1, size1, base) && Tile(base, owner2, size2, base);
    } else {
      FreeBlockIsRun(base, brk1, free1, live1, ptr1, size1, owner1, a);
      var units := FreeUnits(owner1, live1);
      assert a in units;
      UnitHome(base, brk2, free2, live2, size2, owner2, a);
      var b := owner2[a];
      FreeBlockIsRun(base, brk2, free2, live2, ptr2, size2, owner2, b);
      RunStart(units, b, size2[b], a);
      RunsUnique(units, a, size1[a], size2[a]);
    }
  }

  lemma RunStart(units: set<nat>, b: nat, n: nat, a: nat)
    requires Run(units, b, n) && b <= a < b + n && a >= 1 && a - 1 !in units
    ensures b == a
  {
  }
}
