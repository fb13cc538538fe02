/** The user heap of umalloc.c: a circular free list in address order, split and joined in place. */
module Heap {
  import opened HeapSpec

  /** A uint holds less than this. */
  const UINTS: nat := 0x1_0000_0000

  /** The number of Headers for nbytes bytes and a header, in the source's unsigned arithmetic. */
  function Units(nbytes: nat): (n: nat)
    ensures n >= 1
  {
    (nbytes + 8 - 1) % UINTS / 8 + 1
  }

  /** The block behind the header has room for the request unless the rounding wraps. */
  lemma UnitsEnoughIff(nbytes: nat)
    requires nbytes < UINTS
    ensures (Units(nbytes) - 1) * 8 >= nbytes <==> nbytes <= UINTS - 8
    ensures nbytes <= UINTS - 8 ==> (Units(nbytes) - 2) * 8 < nbytes
  {
  }

  // ----- sbrk -----

  /** The argument of sbrk for n units: an unsigned product, passed as an int. */
  function SbrkArg(n: nat): (arg: int)
    ensures -(UINTS / 2) <= arg < UINTS / 2 && arg % 8 == 0
  {
    var bytes := n * 8 % UINTS;
    if bytes < UINTS / 2 then bytes else bytes - UINTS
  }

  /** What sbrk does: it fails, it adds memory at the break, it returns the break and adds nothing, or it fails
      after it has freed every page. */
  datatype Growth = Refused | Given | Nothing | Emptied

  /** growproc from a break at sz: more memory if there is some (ok), or less.  A shrink to nothing fails when
      the pages are gone, and one below nothing wraps round to no change. */
  function Sbrk(arg: int, sz: nat, ok: bool): Growth {
    if arg > 0 then if ok then Given else Refused
    else if arg != 0 && -arg == sz then Emptied
    else Nothing
  }

  /** The break after that. */
  function BreakAfter(arg: int, sz: nat, ok: bool): nat {
    if arg > 0 then if ok then sz + arg else sz
    else if -arg < sz then sz + arg
    else sz
  }

  /** The units that morecore asks for. */
  function Asked(n: nat): (m: nat)
    ensures n <= m && m >= 4096 && (m == n || m == 4096)
  {
    if n < 4096 then 4096 else n
  }

  /** A request is served: sbrk is asked for more memory, and the block has room for the bytes. */
  predicate Served(nbytes: nat) {
    SbrkArg(Asked(Units(nbytes))) > 0 && (Units(nbytes) - 1) * 8 >= nbytes
  }

  /** Requests are served exactly up to two units short of 2^31 bytes: above that the product is negative
      as an int, or zero, and at the very end the rounding wraps. */
  lemma ServedIff(nbytes: nat)
    requires nbytes < UINTS
    ensures Served(nbytes) <==> nbytes <= UINTS / 2 - 16
    ensures nbytes > UINTS / 2 - 16 && nbytes <= UINTS - 8 ==> SbrkArg(Asked(Units(nbytes))) <= 0
  {
    UnitsEnoughIff(nbytes);
  }

  /** Memory is added exactly if sbrk is asked for some and has it, and then the units that were asked for. */
  lemma SbrkAdds(n: nat, sz: nat, ok: bool)
    requires n < UINTS / 8
    ensures Sbrk(SbrkArg(n), sz, ok) == Given ==> BreakAfter(SbrkArg(n), sz, ok) == sz + n * 8
    ensures Sbrk(SbrkArg(n), sz, ok) != Given ==> BreakAfter(SbrkArg(n), sz, ok) <= sz
  {
  }

  /** What malloc returns: 0, a block, a pointer to memory it never got, or 0 with all memory gone. */
  datatype Outcome = NoMemory | Block(p: nat) | Stray | Gutted

  /** Block p has n units, and no free block has that a walk from freep meets before it. */
  ghost predicate FirstFit(free: set<nat>, size: map<nat, nat>, freep: nat, n: nat, p: nat) {
    p in free && Roomy(size, p, n) && forall a :: a in free && Passed(freep, p, a) ==> !Roomy(size, a, n)
  }

  /** The n units at c are the last ones of the first block with room. */
  ghost predicate CutFrom(free: set<nat>, size: map<nat, nat>, freep: nat, n: nat, c: int) {
    exists p {:trigger FirstFit(free, size, freep, n, p)} ::
      FirstFit(free, size, freep, n, p) && p in size && c + n == p + size[p]
  }

  class Allocator {
    const base: nat
    var freep: nat              // 0 before the first malloc
    var ptr: map<nat, nat>      // the fields of the headers, by address
    var size: map<nat, nat>
    var brk: nat                // the end of the memory of the process

    ghost var free: set<nat>
    ghost var live: set<nat>
    ghost var owner: map<nat, nat>

    ghost predicate Valid()
      reads this
    {
      && 0 < base < brk
      && if freep == 0 then live == {} && owner == map[]
         else Listed(base, free, ptr, size) && freep in free && Tidy(base, brk, free, live, size, owner)
    }

    /** The obtained units that are in no live block. */
    ghost function Available(): set<nat>
      reads this
    {
      FreeUnits(owner, live)
    }

    /** Before the first call. */
    constructor (base: nat, brk: nat)
      requires 0 < base < brk
      ensures Valid() && this.base == base && this.brk == brk && live == {} && Available() == {}
    {
      this.base, this.brk, freep, ptr, size := base, brk, 0, map[], map[];
      free, live, owner := {}, {}, map[];
    }

    /** The walk of free() to the place of the block at bp. */
    method Search(bp: nat) returns (p: nat)
      requires Listed(base, free, ptr, size) && freep in free && base < bp && bp !in free
      ensures Between(free, p, bp) && LinkAt(free, ptr, p)
    {
      p := freep;
      ghost var top := Highest(free, bp);
      assert LinkAt(free, ptr, p);
      while !(p < bp < ptr[p])
        invariant p in free && LinkAt(free, ptr, p)
        decreases p > bp, if p > bp then top - p else bp - p
      {
        if p >= ptr[p] && (bp > p || bp < ptr[p]) {
          break;
        }
        p := ptr[p];
        assert LinkAt(free, ptr, p);
      }
    }

    /** The first half of free(): the block at bp takes in the next free block if it touches it, and
        else points to it. */
    method LinkNext(bp: nat, p: nat)
      requires Listed(base, free, ptr, size) && Tidy(base, brk, free, live, size, owner)
      requires bp in live && Between(free, p, bp) && LinkAt(free, ptr, p)
      modifies this`ptr, this`size, this`free, this`live, this`owner
      ensures Pending(base, free, ptr, size, p, bp) && Tidy(base, brk, free, live, size, owner)
      ensures live == old(live) - {bp} && owner.Keys == old(owner).Keys && SameSizes(live, old(size), size)
      ensures bp in old(size) && FreeUnits(owner, live) == old(FreeUnits(owner, live)) + Region(bp, old(size)[bp])
      ensures p in size && Roomy(size, bp, old(size)[bp])
    {
      var next := ptr[p];
      LiveBeside(base, brk, free, live, size, owner, p, bp);
      LiveBeside(base, brk, free, live, size, owner, next, bp);
      FreeTidy(base, brk, free, live, size, owner, bp);
      if bp + size[bp] == next {
        assert LinkAt(free, ptr, next);
        JoinNextPends(base, free, ptr, size, p, bp, next);
        JoinTidy(base, brk, free + {bp}, live - {bp}, size, owner, bp, next);
        owner := Retag(owner, next, next + size[next], bp);
        free := free + {bp} - {next};
        size := size[bp := size[bp] + size[next]];
        ptr := ptr[bp := ptr[next]];
      } else {
        PointNextPends(base, free, ptr, size, p, bp);
        ptr := ptr[bp := next];
        free := free + {bp};
      }
      live := live - {bp};
    }

    /** The second half: the block before takes bp in if it touches it, and else points to it. */
    method LinkPrevious(bp: nat, p: nat, ghost n: nat)
      requires Pending(base, free, ptr, size, p, bp) && Tidy(base, brk, free, live, size, owner)
      requires p in size && Roomy(size, bp, n)
      modifies this`ptr, this`size, this`free, this`owner
      ensures Listed(base, free, ptr, size) && p in free && Tidy(base, brk, free, live, size, owner)
      ensures owner.Keys == old(owner).Keys && SameSizes(live, old(size), size)
      ensures FreeUnits(owner, live) == old(FreeUnits(owner, live)) && HasRoom(free, size, n)
    {
      if p + size[p] == bp {
        JoinPreviousLists(base, free, ptr, size, p, bp);
        JoinTidy(base, brk, free, live, size, owner, p, bp);
        owner := Retag(owner, bp, bp + size[bp], p);
        free := free - {bp};
        size := size[p := size[p] + size[bp]];
        ptr := ptr[p := ptr[bp]];
        assert Roomy(size, p, n);
      } else {
        PointPreviousLists(base, free, ptr, size, p, bp);
        ptr := ptr[p := bp];
      }
    }

    /** free(): the block goes back, joined with the free blocks it touches. */
    method Free(ap: nat)
      requires Valid() && ap >= 1 && ap - 1 in live
      modifies this`ptr, this`size, this`freep, this`free, this`live, this`owner
      ensures Valid() && freep != 0
      ensures live == old(live) - {ap - 1} && owner.Keys == old(owner).Keys && SameSizes(live, old(size), size)
      ensures ap - 1 in old(size) && Available() == old(Available()) + Region(ap - 1, old(size)[ap - 1])
      ensures HasRoom(free, size, old(size)[ap - 1])
      ensures freep != 0 && Between(old(free), freep, ap - 1)
    {
      var bp := ap - 1;
      LiveBeside(base, brk, free, live, size, owner, base, bp);
      var p := Search(bp);
      ghost var n := size[bp];
      LinkNext(bp, p);
      LinkPrevious(bp, p, n);
      freep := p;
    }

    /** What sbrk does for n units, with gap units taken by other calls of sbrk meanwhile. */
    ghost function Grant(n: nat, ok: bool, gap: nat): Growth
      reads this`brk
    {
      Sbrk(SbrkArg(Asked(n)), (brk + gap) * 8, ok)
    }

    /** The break once sbrk has been called for n units. */
    ghost function NextBreak(n: nat, ok: bool, gap: nat): nat
      reads this`brk
    {
      BreakAfter(SbrkArg(Asked(n)), (brk + gap) * 8, ok) / 8
    }

    /** morecore().  Where sbrk returns the break without memory behind it, the header that comes next is
        written outside the memory of the process, and the model stops.  If sbrk has moved the break down,
        blocks of the list may be lost with it. */
    method Morecore(nu: nat, ok: bool, gap: nat) returns (r: nat, g: Growth)
      requires Valid() && freep != 0 && 1 <= nu <= UINTS / 8
      modifies this`ptr, this`size, this`freep, this`brk, this`free, this`live, this`owner
      ensures live == old(live) && SameSizes(live, old(size), size) && g == old(Grant(nu, ok, gap))
      ensures brk == old(NextBreak(nu, ok, gap)) && (brk >= old(brk) ==> Valid())
      ensures g == Refused || g == Emptied ==> brk == old(brk) + gap
      ensures g == Nothing ==> brk <= old(brk) + gap
      ensures r == if g == Given then freep else 0
      ensures g == Given ==> Valid() && Grew(old(brk) + gap, Asked(nu), old(owner).Keys, old(Available()))
      ensures g == Given ==> freep != 0 && HasRoom(free, size, nu)
      ensures g != Given ==>
        unchanged(`ptr) && unchanged(`size) && unchanged(`freep) && unchanged(`free) && unchanged(`owner)
    {
      var n := Asked(nu);
      g := Sbrk(SbrkArg(n), (brk + gap) * 8, ok);
      if g != Given {
        brk := BreakAfter(SbrkArg(n), (brk + gap) * 8, ok) / 8;
        return 0, g;
      }
      Grow(brk + gap, n);
      r := freep;
    }

    /** The n units at hp, behind the break, become a block and are given to free(). */
    method Grow(hp: nat, n: nat)
      requires Valid() && freep != 0 && n >= 1 && brk <= hp
      modifies this`ptr, this`size, this`freep, this`brk, this`free, this`live, this`owner
      ensures Valid() && live == old(live) && SameSizes(live, old(size), size)
      ensures Grew(hp, n, old(owner).Keys, old(Available())) && brk == hp + n
      ensures freep != 0 && HasRoom(free, size, n)
    {
      GrowTidy(base, brk, free, live, size, owner, hp, n);
      GrowListed(base, free, ptr, size, hp, n);
      brk := hp + n;
      size := size[hp := n];
      owner := Grown(owner, hp, n);
      live := live + {hp};
      Free(hp + 1);
    }

    /** The units of the region are obtained and free, on top of what was. */
    ghost predicate Grew(hp: nat, n: nat, units: set<nat>, available: set<nat>)
      reads this
    {
      owner.Keys == units + Region(hp, n) && Available() == available + Region(hp, n)
    }

    /** One turn round the list from freep, for the first block of at least n units. */
    method FindFit(n: nat) returns (found: bool, prevp: nat, p: nat)
      requires Valid() && freep != 0 && n >= 1
      ensures found ==> prevp in free && Follows(free, prevp, p) && Roomy(size, p, n) && LinkAt(free, ptr, p)
                        && p != base
      ensures found <==> HasRoom(free, size, n)
      ensures found ==> FirstFit(free, size, freep, n, p)
    {
      prevp := freep;
      assert LinkAt(free, ptr, prevp);
      p := ptr[prevp];
      ghost var top := Highest(free, freep);
      while true
        invariant prevp in free && p in free && Follows(free, prevp, p)
        invariant forall a :: a in free && Passed(freep, p, a) ==> !Roomy(size, a, n)
        decreases p > freep, if p > freep then top - p else freep - p
      {
        assert LinkAt(free, ptr, p) && Tile(base, owner, size, p) && Tile(base, owner, size, base);
        if size[p] >= n {
          return true, prevp, p;
        }
        if p == freep {
          return false, prevp, p;
        }
        prevp, p := p, ptr[p];
      }
    }

    /** The block p after prevp leaves the list whole. */
    method TakeWhole(prevp: nat, p: nat)
      requires Valid() && freep != 0 && prevp in free && Follows(free, prevp, p) && p != base && LinkAt(free, ptr, p)
      modifies this`ptr, this`freep, this`free, this`live
      ensures Valid() && freep != 0 && live == old(live) + {p} && p !in old(live) && p in size
      ensures Region(p, size[p]) <= old(Available()) && Available() == old(Available()) - Region(p, size[p])
      ensures freep == prevp
    {
      TakeTidy(base, brk, free, live, size, owner, p);
      TakeListed(base, free, ptr, size, prevp, p);
      ptr := ptr[prevp := ptr[p]];
      freep := prevp;
      free := free - {p};
      live := live + {p};
    }

    /** The last n units of the block p become a block. */
    method TakeTail(prevp: nat, p: nat, n: nat) returns (c: nat)
      requires Valid() && freep != 0 && prevp in free && p in free && p in size && 1 <= n < size[p]
      modifies this`size, this`freep, this`live, this`owner
      ensures Valid() && freep != 0 && live == old(live) + {c} && c !in old(live) && c in size && size[c] == n
      ensures owner.Keys == old(owner).Keys && SameSizes(old(live), old(size), size)
      ensures Region(c, n) <= old(Available()) && Available() == old(Available()) - Region(c, n)
      ensures freep == prevp && c + n == p + old(size)[p]
    {
      c := p + size[p] - n;
      SplitTidy(base, brk, free, live, size, owner, p, n, c);
      SplitListed(base, free, ptr, size, p, n, c);
      size := size[p := size[p] - n];
      size := size[c := n];
      freep := prevp;
      live := live + {c};
      owner := Retag(owner, c, c + n, c);
    }

    /** Take n units from the first block that has them. */
    method Carve(prevp: nat, p: nat, n: nat) returns (c: nat)
      requires Valid() && freep != 0 && n >= 1
      requires prevp in free && Follows(free, prevp, p) && Roomy(size, p, n) && LinkAt(free, ptr, p) && p != base
      modifies this`ptr, this`size, this`freep, this`free, this`live, this`owner
      ensures Valid() && freep != 0 && live == old(live) + {c} && c !in old(live) && c in size && size[c] == n
      ensures owner.Keys == old(owner).Keys && SameSizes(old(live), old(size), size)
      ensures Region(c, n) <= old(Available()) && Available() == old(Available()) - Region(c, n)
      ensures freep == prevp && p in old(size) && c + n == p + old(size)[p]
    {
      if size[p] == n {
        c := p;
        TakeWhole(prevp, p);
      } else {
        c := TakeTail(prevp, p, n);
      }
    }

    /** The first call links base to itself. */
    method Start()
      requires Valid()
      modifies this`ptr, this`size, this`freep, this`free
      ensures Valid() && freep != 0 && SameSizes(live, old(size), size) && (old(freep) != 0 ==> unchanged(this))
      ensures forall n :: n >= 1 ==> (HasRoom(free, size, n) <==> old(freep != 0) && HasRoom(old(free), old(size), n))
    {
      if freep == 0 {
        ptr, size, freep := ptr[base := base], size[base := 0], base;
        free := {base};
        assert Tile(base, owner, size, base) && LinkAt(free, ptr, base);
      }
    }

    /** A block of n units, from the list or, failing that, after one call of sbrk. */
    method Fit(n: nat, ok: bool, gap: nat) returns (g: Growth, prevp: nat, p: nat)
      requires Valid() && freep != 0 && 1 <= n <= UINTS / 8
      modifies this`ptr, this`size, this`freep, this`brk, this`free, this`live, this`owner
      ensures freep != 0 && live == old(live) && SameSizes(live, old(size), size) && (brk >= old(brk) ==> Valid())
      ensures g == if old(HasRoom(free, size, n)) then Given else old(Grant(n, ok, gap))
      ensures brk == if old(HasRoom(free, size, n)) then old(brk) else old(NextBreak(n, ok, gap))
      ensures g == Given ==>
        prevp in free && Follows(free, prevp, p) && Roomy(size, p, n) && LinkAt(free, ptr, p) && p != base
      ensures g == Given ==> Valid()
      ensures old(HasRoom(free, size, n)) ==> unchanged(this) && FirstFit(free, size, freep, n, p)
      ensures g != Given ==>
        unchanged(`ptr) && unchanged(`size) && unchanged(`freep) && unchanged(`free) && unchanged(`owner)
      ensures !old(HasRoom(free, size, n)) && g == Given ==>
        Grew(old(brk) + gap, Asked(n), old(owner).Keys, old(Available()))
    {
      var found;
      found, prevp, p := FindFit(n);
      g := Given;
      if !found {
        var m;
        m, g := Morecore(n, ok, gap);
        if m != 0 {
          found, prevp, p := FindFit(n);
        }
      }
    }

    /** malloc(): sbrk is called only if no free block has the units, and then once. */
    method Malloc(nbytes: nat, ok: bool, gap: nat) returns (m: Outcome)
      requires Valid() && nbytes < UINTS
      modifies this`ptr, this`size, this`freep, this`brk, this`free, this`live, this`owner
      ensures SameSizes(old(live), old(size), size) && (brk >= old(brk) ==> Valid())
      ensures brk == if old(RoomFor(nbytes)) then old(brk) else old(NextBreak(Units(nbytes), ok, gap))
      ensures m.Block? <==> old(RoomFor(nbytes) || Grant(Units(nbytes), ok, gap) == Given)
      ensures m.Stray? <==> old(!RoomFor(nbytes) && Grant(Units(nbytes), ok, gap) == Nothing)
      ensures m.Gutted? <==> old(!RoomFor(nbytes) && Grant(Units(nbytes), ok, gap) == Emptied)
      ensures !m.Block? ==> live == old(live) && owner == old(owner)
      ensures m.NoMemory? || m.Gutted? ==> brk == old(brk) + gap
      ensures m.Block? ==> Valid()
      ensures m.Block? ==> m.p >= 1 && live == old(live) + {m.p - 1} && m.p - 1 !in old(live) && m.p - 1 in size
      ensures m.Block? ==> size[m.p - 1] == Units(nbytes)
      ensures old(RoomFor(nbytes)) ==> m.Block? && CutFrom(old(free), old(size), old(freep), Units(nbytes), m.p - 1)
      ensures m.Block? ==>
        Allotted(m.p - 1, Units(nbytes), old(brk) + gap, old(RoomFor(nbytes)), old(owner).Keys, old(Available()))
      ensures nbytes <= UINTS / 2 - 16 ==> Valid() && (m.NoMemory? || (m.Block? && (size[m.p - 1] - 1) * 8 >= nbytes))
      ensures nbytes > UINTS / 2 - 16 && m.Block? && !old(RoomFor(nbytes)) ==> (size[m.p - 1] - 1) * 8 < nbytes
    {
      ServedIff(nbytes);
      UnitsEnoughIff(nbytes);
      Start();
      assert Available() == old(Available());
      m := Take(Units(nbytes), ok, gap);
    }

    /** A free block has the units of the request. */
    ghost predicate RoomFor(nbytes: nat)
      reads this
    {
      freep != 0 && HasRoom(free, size, Units(nbytes))
    }

    /** malloc() once base is linked. */
    method Take(n: nat, ok: bool, gap: nat) returns (m: Outcome)
      requires Valid() && freep != 0 && 1 <= n <= UINTS / 8
      modifies this`ptr, this`size, this`freep, this`brk, this`free, this`live, this`owner
      ensures SameSizes(old(live), old(size), size) && (brk >= old(brk) ==> Valid())
      ensures brk == if old(HasRoom(free, size, n)) then old(brk) else old(NextBreak(n, ok, gap))
      ensures m.Block? <==> old(HasRoom(free, size, n) || Grant(n, ok, gap) == Given)
      ensures m.Stray? <==> old(!HasRoom(free, size, n) && Grant(n, ok, gap) == Nothing)
      ensures m.Gutted? <==> old(!HasRoom(free, size, n) && Grant(n, ok, gap) == Emptied)
      ensures !m.Block? ==> live == old(live) && owner == old(owner)
      ensures m.NoMemory? || m.Gutted? ==> brk == old(brk) + gap
      ensures m.Block? ==> Valid()
      ensures m.Block? ==> m.p >= 1 && freep != 0 && live == old(live) + {m.p - 1} && m.p - 1 !in old(live)
      ensures m.Block? ==> m.p - 1 in size && size[m.p - 1] == n
      ensures old(HasRoom(free, size, n)) ==> m.Block? && CutFrom(old(free), old(size), old(freep), n, m.p - 1)
      ensures m.Block? ==>
        Allotted(m.p - 1, n, old(brk) + gap, old(HasRoom(free, size, n)), old(owner).Keys, old(Available()))
    {
      var g, prevp, p := Fit(n, ok, gap);
      match g
      case Refused => m := NoMemory;
      case Nothing => m := Stray;
      case Emptied => m := Gutted;
      case Given =>
        var c := Carve(prevp, p, n);
        assert old(HasRoom(free, size, n)) ==> FirstFit(old(free), old(size), old(freep), n, p);
        m := Block(c + 1);
    }

    /** The first request of 2^31 bytes returns memory that was never obtained; if the break is just where the
        shrink leaves nothing, it returns 0 with every page freed. */
    method HugeRequest() returns (m: Outcome)
      requires Valid() && freep == 0
      modifies this`ptr, this`size, this`freep, this`brk, this`free, this`live, this`owner
      ensures m == if old(brk) * 8 == UINTS / 2 - 8 then Gutted else Stray
    {
      m := Malloc(UINTS / 2, true, 0);
    }

    /** Taking a block and giving it back leaves the free list as it was. */
    method MallocFree(nbytes: nat, ok: bool, gap: nat)
      requires Valid() && nbytes < UINTS && freep != 0 && HasRoom(free, size, Units(nbytes))
      modifies this`ptr, this`size, this`freep, this`brk, this`free, this`live, this`owner
      ensures Valid() && live == old(live) && Available() == old(Available())
      ensures free == old(free) && forall a :: a in free ==> a in size && a in old(size) && size[a] == old(size)[a]
    {
      var m := Malloc(nbytes, ok, gap);
      Free(m.p);
      assert Available() == old(Available());
      SameFreeList(base, old(brk), old(free), old(live), old(ptr), old(size), old(owner),
                   brk, free, live, ptr, size, owner);
    }

    /** The n units at c went from the free to the live, after a region was obtained if there was no
        room. */
    ghost predicate Allotted(c: nat, n: nat, hp: nat, room: bool, units: set<nat>, available: set<nat>)
      reads this
    {
      var more := if room then {} else Region(hp, Asked(n));
      && owner.Keys == units + more
      && Region(c, n) <= available + more && Available() == available + more - Region(c, n)
    }
  }

  /** The blocks between freep and p, going round. */
  ghost predicate Passed(freep: nat, p: nat, a: nat) {
    if freep < p then freep < a < p else freep < a || a < p
  }

  /** A bound on the addresses of a set. */
  ghost function Highest(free: set<nat>, bp: nat): (top: nat)
    ensures top >= bp && forall a :: a in free ==> a <= top
  {
    if free == {} then bp
    else
      var a :| a in free;
      var t := Highest(free - {a}, bp);
      assert forall c :: c in free ==> c == a || c in free - {a};
      if a > t then a else t
  }
}
