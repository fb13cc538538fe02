/** The buffer cache of bio.c: buffers on a doubly linked ring, most recently released first.
    Each method is one critical section under bcache.lock. */
module BufferCache {

  class Buf {
    var dev: nat
    var blockno: nat
    var valid: bool
    var dirty: bool
    var refcnt: int
    var prev: Buf?
    var next: Buf?

    constructor ()
      ensures dev == 0 && blockno == 0 && !valid && !dirty && refcnt == 0
    {
      dev, blockno, valid, dirty, refcnt := 0, 0, false, false, 0;
      prev, next := null, null;
    }
  }

  /** The sequence without its k-th element. */
  function Without<T>(s: seq<T>, k: nat): (r: seq<T>)
    requires k < |s|
    ensures |r| == |s| - 1
  {
    s[..k] + s[k + 1..]
  }

  lemma WithoutMembers<T>(s: seq<T>, k: nat)
    requires k < |s| && forall i, j :: 0 <= i < j < |s| ==> s[i] != s[j]
    ensures s[k] !in Without(s, k)
    ensures forall x :: x in s <==> x in [s[k]] + Without(s, k)
  {
    forall x | x in s && x != s[k]
      ensures x in Without(s, k)
    {
      var i :| 0 <= i < |s| && s[i] == x;
      assert Without(s, k)[if i < k then i else i - 1] == x;
    }
  }

  /** `ring` is in order of last release, latest first; all releases were before `clock`. */
  ghost predicate Descending(ring: seq<Buf>, released: map<Buf, int>, clock: int) {
    && (forall i :: 0 <= i < |ring| ==> ring[i] in released && released[ring[i]] < clock)
    && (forall i, j :: 0 <= i < j < |ring| ==> released[ring[i]] > released[ring[j]])
  }

  lemma MoveToFrontDescends(ring: seq<Buf>, released: map<Buf, int>, clock: int, k: nat)
    requires k < |ring| && Descending(ring, released, clock)
    requires forall i, j :: 0 <= i < j < |ring| ==> ring[i] != ring[j]
    ensures Descending([ring[k]] + Without(ring, k), released[ring[k] := clock], clock + 1)
  {
    var r := [ring[k]] + Without(ring, k);
    assert forall i :: 1 <= i < |r| ==> r[i] == if i <= k then ring[i - 1] else ring[i];
  }

  class Cache {
    const head: Buf
    ghost var ring: seq<Buf>
    ghost var released: map<Buf, int>   // when each buffer last lost its last user
    ghost var clock: int

    /** The i-th buffer from the front; the ends are the head itself. */
    ghost function At(i: int): Buf
      reads this`ring
    {
      if 0 <= i < |ring| then ring[i] else head
    }

    /** The links spell out `ring`, both ways round. */
    ghost predicate Linked()
      reads this`ring, head`next, head`prev, ring`next, ring`prev
    {
      && head !in ring
      && (forall i, j :: 0 <= i < j < |ring| ==> ring[i] != ring[j])
      && (forall i {:trigger At(i).next} :: -1 <= i < |ring| ==> At(i).next == At(i + 1))
      && (forall i {:trigger At(i).prev} :: 0 <= i <= |ring| ==> At(i).prev == At(i - 1))
    }

    /** No block of a device other than 0 (the value of a fresh buffer) has two buffers. */
    ghost predicate OneBufferPerBlock()
      reads this`ring, ring`dev, ring`blockno
    {
      forall x, y :: x in ring && y in ring && x != y && x.dev == y.dev && x.dev != 0 ==> x.blockno != y.blockno
    }

    ghost predicate Valid()
      reads this`ring, this`released, this`clock, head`next, head`prev, ring
    {
      Linked() && Descending(ring, released, clock) && OneBufferPerBlock()
    }

    /** A buffer bget may recycle. */
    ghost predicate Idle(b: Buf)
      reads b`refcnt, b`dirty
    {
      b.refcnt == 0 && !b.dirty
    }

    /** binit */
    constructor (nbuf: nat)
      ensures Valid() && |ring| == nbuf && fresh(head) && fresh(ring)
      ensures forall i :: 0 <= i < nbuf ==> Idle(ring[i]) && !ring[i].valid && ring[i].dev == 0
    {
      var h := new Buf();
      head := h;
      ring := [];
      released := map[];
      clock := 0;
      new;
      head.prev := head;
      head.next := head;
      for i := 0 to nbuf
        invariant |ring| == i && fresh(ring) && fresh(head)
        invariant Linked() && Descending(ring, released, clock)
        invariant forall k :: 0 <= k < i ==> Idle(ring[k]) && !ring[k].valid && ring[k].dev == 0
      {
        var b := new Buf();
        PushFront(b);
        released := released[b := clock];
        clock := clock + 1;
      }
    }

    /** The first pass of bget: the cached buffer of a block, if there is one. */
    method Scan(dev: nat, blockno: nat) returns (b: Buf?)
      requires Valid()
      ensures b != null ==> b in ring && b.dev == dev && b.blockno == blockno
      ensures b == null ==> forall x :: x in ring ==> x.dev != dev || x.blockno != blockno
    {
      ghost var k := 0;
      assert At(-1) == head;
      var cur: Buf? := head.next;
      while cur != head
        invariant 0 <= k <= |ring|
        invariant cur == At(k)
        invariant forall i :: 0 <= i < k ==> ring[i].dev != dev || ring[i].blockno != blockno
        decreases |ring| - k
      {
        if cur.dev == dev && cur.blockno == blockno {
          return cur;
        }
        assert At(k).next == At(k + 1);
        cur := cur.next;
        k := k + 1;
      }
      b := null;
    }

    /** The second pass of bget, from the far end: the least recently released idle buffer. */
    method Victim() returns (b: Buf?)
      requires Valid()
      ensures b != null ==> b in ring && Idle(b) && forall x :: x in ring && Idle(x) ==> released[b] <= released[x]
      ensures b == null ==> forall x :: x in ring ==> !Idle(x)
    {
      ghost var k := |ring| - 1;
      assert At(|ring|) == head;
      var cur: Buf? := head.prev;
      while cur != head
        invariant -1 <= k < |ring|
        invariant cur == At(k)
        invariant forall i :: k < i < |ring| ==> !Idle(ring[i])
        decreases k + 1
      {
        if cur.refcnt == 0 && !cur.dirty {
          return cur;
        }
        assert At(k).prev == At(k - 1);
        cur := cur.prev;
        k := k - 1;
      }
      b := null;
    }

    ghost predicate Cached(dev: nat, blockno: nat)
      reads this`ring, ring`dev, ring`blockno
    {
      exists x :: x in ring && x.dev == dev && x.blockno == blockno
    }

    /** bget; null is the panic "no buffers".  A cached block gets one more user.  Otherwise the
        least recently released idle buffer is emptied and given to the block. */
    method Bget(dev: nat, blockno: nat) returns (b: Buf?)
      requires Valid()
      modifies ring`dev, ring`blockno, ring`valid, ring`dirty, ring`refcnt
      ensures Valid()
      ensures b == null <==> !old(Cached(dev, blockno)) && forall x :: x in ring ==> !old(Idle(x))
      ensures b != null ==> b in ring && b.dev == dev && b.blockno == blockno
      ensures old(Cached(dev, blockno)) ==>
                && b != null && old(b.dev) == dev && old(b.blockno) == blockno
                && b.refcnt == old(b.refcnt) + 1 && b.valid == old(b.valid) && b.dirty == old(b.dirty)
      ensures !old(Cached(dev, blockno)) && b != null ==>
                && old(Idle(b)) && (forall x :: x in ring && old(Idle(x)) ==> released[b] <= released[x])
                && !b.valid && !b.dirty && b.refcnt == 1
      ensures forall x :: x in ring && x != b ==> unchanged(x)
    {
      b := Scan(dev, blockno);
      if b != null {
        b.refcnt := b.refcnt + 1;
        return;
      }
      b := Victim();
      if b != null {
        Recycle(b, dev, blockno);
      }
    }

    method Recycle(b: Buf, dev: nat, blockno: nat)
      requires OneBufferPerBlock() && b in ring && !Cached(dev, blockno)
      modifies b`dev, b`blockno, b`valid, b`dirty, b`refcnt
      ensures OneBufferPerBlock()
      ensures b.dev == dev && b.blockno == blockno && !b.valid && !b.dirty && b.refcnt == 1
    {
      b.dev := dev;
      b.blockno := blockno;
      b.valid := false;
      b.dirty := false;
      b.refcnt := 1;
    }

    /** brelse, after the buffer's own lock is dropped: the last user moves it to the front. */
    method Brelse(b: Buf)
      requires Valid() && b in ring
      modifies this`ring, this`released, this`clock, head`next, head`prev, ring`next, ring`prev, b`refcnt
      ensures Valid()
      ensures b.refcnt == old(b.refcnt) - 1
      ensures b.refcnt != 0 ==> ring == old(ring) && released == old(released)
      ensures b.refcnt == 0 ==>
                && (exists k :: 0 <= k < |old(ring)| && old(ring)[k] == b && ring == [b] + Without(old(ring), k))
                && released == old(released)[b := old(clock)]
      ensures forall x :: x in ring <==> x in old(ring)
    {
      b.refcnt := b.refcnt - 1;
      if b.refcnt == 0 {
        ghost var k :| 0 <= k < |ring| && ring[k] == b;
        Retire(b, k);
      }
    }

    /** The buffer at position k becomes the most recently released. */
    method Retire(b: Buf, ghost k: nat)
      requires Valid() && k < |ring| && ring[k] == b
      modifies this`ring, this`released, this`clock, head`next, head`prev, ring`next, ring`prev
      ensures Valid() && ring == [b] + Without(old(ring), k) && released == old(released)[b := old(clock)]
      ensures forall x :: x in ring <==> x in old(ring)
    {
      MoveToFrontDescends(ring, released, clock, k);
      MoveToFront(b, k);
      released := released[b := clock];
      clock := clock + 1;
    }

    method MoveToFront(b: Buf, ghost k: nat)
      requires Linked() && k < |ring| && ring[k] == b
      modifies this`ring, head`next, head`prev, ring`next, ring`prev
      ensures Linked() && ring == [b] + Without(old(ring), k)
      ensures old(OneBufferPerBlock()) ==> OneBufferPerBlock()
      ensures forall x :: x in ring <==> x in old(ring)
    {
      WithoutMembers(ring, k);
      Unlink(b, k);
      PushFront(b);
    }

    /** Takes b = ring[k] off the ring. */
    method Unlink(b: Buf, ghost k: nat)
      requires Linked() && k < |ring| && ring[k] == b
      modifies this`ring, head`prev, head`next, ring`prev, ring`next
      ensures Linked() && ring == Without(old(ring), k) && b !in ring && b != head
    {
      assert At(k) == b && At(k).next == At(k + 1) && At(k).prev == At(k - 1);
      b.next.prev := b.prev;
      b.prev.next := b.next;
      ghost var was := ring;
      ring := Without(ring, k);
      assert forall i :: 0 <= i < |ring| ==> ring[i] == if i < k then was[i] else was[i + 1];
      forall i | -1 <= i < |ring|
        ensures At(i).next == At(i + 1)
      {
        assert old(At(i).next) == old(At(i + 1));
        assert old(At(i + 1).next) == old(At(i + 2));
      }
      forall i | 0 <= i <= |ring|
        ensures At(i).prev == At(i - 1)
      {
        assert old(At(i).prev) == old(At(i - 1));
        assert old(At(i + 1).prev) == old(At(i));
      }
    }

    /** Puts b at the front. */
    method PushFront(b: Buf)
      requires Linked() && b !in ring && b != head
      modifies this`ring, head`next, head`prev, ring`prev, b`prev, b`next
      ensures Linked() && ring == [b] + old(ring)
    {
      assert At(-1) == head && head.next == At(0);
      b.next := head.next;
      b.prev := head;
      head.next.prev := b;
      head.next := b;
      ghost var was := ring;
      ring := [b] + ring;
      assert forall i :: 1 <= i < |ring| ==> ring[i] == was[i - 1];
      forall i | -1 <= i < |ring|
        ensures At(i).next == At(i + 1)
      {
        assert i > 0 ==> old(At(i - 1).next) == old(At(i));
      }
      forall i | 0 <= i <= |ring|
        ensures At(i).prev == At(i - 1)
      {
        assert i > 1 ==> old(At(i - 1).prev) == old(At(i - 2));
      }
    }
  }
}
