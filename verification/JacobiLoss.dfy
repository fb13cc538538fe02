/** How far the parent's reads of one child's result can come short.

    The parent reads once for each row of n words and goes on with what it got, so a read of a pipe
    that holds less than a row loses the difference.  A pipe of cap words holds part of a row only if
    the child fills it, or if the child has just completed a row that was torn before. */
module JacobiLoss {
  import RoundRobin

  // ----- rows in words -----

  /** The words of m rows of n, without a product. */
  function Words(m: nat, n: nat): nat { if m == 0 then 0 else Words(m - 1, n) + n }

  lemma {:induction false} WordsIs(m: nat, n: nat)
    ensures Words(m, n) == m * n
  {
    if m > 0 {
      WordsIs(m - 1, n);
      assert m * n == (m - 1) * n + n;
    }
  }

  lemma {:induction false} WordsMono(m: nat, q: nat, n: nat)
    requires m <= q
    ensures Words(m, n) <= Words(q, n)
    decreases q
  {
    if m < q {
      WordsMono(m, q - 1, n);
    }
  }

  lemma {:induction false} WordsAdd(a: nat, b: nat, n: nat)
    ensures Words(a + b, n) == Words(a, n) + Words(b, n)
  {
    if b > 0 {
      WordsAdd(a, b - 1, n);
    }
  }

  /** The words over whole rows, without a division. */
  function Over(x: nat, n: nat): (r: nat)
    requires n > 0
    ensures r < n
  {
    if x < n then x else Over(x - n, n)
  }

  lemma {:induction false} OverIs(x: nat, n: nat)
    requires n > 0
    ensures Over(x, n) == x % n
    decreases x
  {
    if x >= n {
      OverIs(x - n, n);
      assert n * ((x - n) / n + 1) == n * ((x - n) / n) + n;
      RoundRobin.DivUnique(n, x, (x - n) / n + 1, (x - n) % n);
    }
  }

  lemma {:induction false} OverRows(i: nat, n: nat, o: nat)
    requires o < n
    ensures Over(Words(i, n) + o, n) == o
  {
    if i > 0 {
      OverRows(i - 1, n, o);
    }
  }

  // ----- the loss -----

  function Max(a: nat, b: nat): nat { if a < b then b else a }

  /** The words of a torn row behind a full pipe, if t words of a row were behind it when it was empty. */
  function Spin(n: nat, cap: nat, t: nat): (r: nat)
    requires 0 < n && t < n
    ensures r < n
  {
    if t + Over(cap, n) < n then t + Over(cap, n) else t + Over(cap, n) - n
  }

  /** The words that `rows` reads can lose, from an empty pipe with t words of a torn row behind it:
      the child completes the row and the parent reads what is left of it, or the child fills the pipe. */
  function MaxLoss(n: nat, cap: nat, rows: nat, t: nat): nat
    requires 0 < n <= cap && t < n
    decreases rows, 1
  {
    if rows == 0 then 0
    else Max(MaxLoss(n, cap, rows - 1, 0) + t, Drain(n, cap, rows, cap, Spin(n, cap, t)))
  }

  /** The same from a pipe with a words, which the parent reads before the child goes on. */
  function Drain(n: nat, cap: nat, rows: nat, a: nat, t: nat): nat
    requires 0 < n <= cap && t < n
    decreases rows, if a == 0 then 2 else 0
  {
    if a == 0 then MaxLoss(n, cap, rows, t)
    else if rows == 0 then 0
    else if a < n then n - a + MaxLoss(n, cap, rows - 1, t)
    else Drain(n, cap, rows - 1, a - n, t)
  }

  lemma DrainRead(n: nat, cap: nat, rows: nat, a: nat, t: nat, m: nat)
    requires 0 < n <= cap && t < n && rows > 0 && a > 0 && m == if a <= n then a else n
    ensures Drain(n, cap, rows, a, t) == n - m + Drain(n, cap, rows - 1, a - m, t)
  {
  }

  // ----- a row torn elsewhere -----

  /** From v on to u, round a row. */
  function Gap(n: nat, v: nat, u: nat): nat
    requires v < n && u < n
  {
    if v <= u then u - v else u + n - v
  }

  lemma {:induction false} LossNear(n: nat, cap: nat, rows: nat, u: nat, v: nat)
    requires 0 < n <= cap && u < n && v < n
    ensures MaxLoss(n, cap, rows, u) <= MaxLoss(n, cap, rows, v) + Gap(n, v, u)
    decreases rows, 1
  {
    if rows > 0 {
      DrainNear(n, cap, rows, cap, Spin(n, cap, u), Spin(n, cap, v));
    }
  }

  lemma {:induction false} DrainNear(n: nat, cap: nat, rows: nat, a: nat, u: nat, v: nat)
    requires 0 < n <= cap && u < n && v < n
    ensures Drain(n, cap, rows, a, u) <= Drain(n, cap, rows, a, v) + Gap(n, v, u)
    decreases rows, if a == 0 then 2 else 0
  {
    if a == 0 {
      LossNear(n, cap, rows, u, v);
    } else if rows > 0 && a < n {
      LossNear(n, cap, rows - 1, u, v);
    } else if rows > 0 {
      DrainNear(n, cap, rows - 1, a - n, u, v);
    }
  }

  // ----- one read more -----

  lemma LossGrows(n: nat, cap: nat, rows: nat, t: nat)
    requires 0 < n <= cap && t < n
    ensures MaxLoss(n, cap, rows, t) <= MaxLoss(n, cap, rows + 1, t)
  {
    LossNear(n, cap, rows, t, 0);
  }

  lemma {:induction false} DrainGrows(n: nat, cap: nat, rows: nat, a: nat, t: nat)
    requires 0 < n <= cap && t < n
    ensures Drain(n, cap, rows, a, t) <= Drain(n, cap, rows + 1, a, t)
    decreases rows
  {
    if a == 0 {
      LossGrows(n, cap, rows, t);
    } else if rows > 0 && a < n {
      LossGrows(n, cap, rows - 1, t);
    } else if rows > 0 {
      DrainGrows(n, cap, rows - 1, a - n, t);
    }
  }

  lemma {:induction false} LossMono(n: nat, cap: nat, rows: nat, more: nat, t: nat)
    requires 0 < n <= cap && t < n && rows <= more
    ensures MaxLoss(n, cap, rows, t) <= MaxLoss(n, cap, more, t)
    decreases more
  {
    if rows < more {
      LossMono(n, cap, rows, more - 1, t);
      LossGrows(n, cap, more - 1, t);
    }
  }

  // ----- what is still to be lost -----

  /** From a pipe with a words, w words of a torn row behind them, and g words of a row read: drained
      as it is, or filled before. */
  function Ahead(n: nat, cap: nat, rows: nat, a: nat, w: nat, g: nat): nat
    requires 0 < n <= cap && w < n && g < n
  {
    Max(Drain(n, cap, rows, a, w), Drain(n, cap, rows, cap, Spin(n, cap, g)))
  }

  lemma FillIsLoss(n: nat, cap: nat, rows: nat, t: nat)
    requires 0 < n <= cap && t < n
    ensures Drain(n, cap, rows, cap, Spin(n, cap, t)) <= MaxLoss(n, cap, rows, t)
    ensures Ahead(n, cap, rows, 0, t, t) == MaxLoss(n, cap, rows, t)
  {
  }

  /** A read loses no more than what it takes away from that. */
  lemma ReadAhead(n: nat, cap: nat, rows: nat, a: nat, w: nat, g: nat)
    requires 0 < n <= cap && w < n && g < n && rows > 0 && a > 0
    ensures a < n ==> n - a + Ahead(n, cap, rows - 1, 0, w, w) <= Ahead(n, cap, rows, a, w, g)
    ensures a >= n ==> Ahead(n, cap, rows - 1, a - n, w, g) <= Ahead(n, cap, rows, a, w, g)
  {
    if a < n {
      FillIsLoss(n, cap, rows - 1, w);
    } else {
      DrainGrows(n, cap, rows - 1, cap, Spin(n, cap, g));
    }
  }

  /** The child completes a row. */
  lemma {:induction false} RowAhead(n: nat, cap: nat, rows: nat, a: nat, w: nat)
    requires 0 < n <= cap && w < n
    ensures Drain(n, cap, rows, a + n - w, 0) <= Drain(n, cap, rows, a, w)
    decreases rows
  {
    if rows > 0 && a >= n {
      RowAhead(n, cap, rows - 1, a - n, w);
    } else if rows > 0 && a > 0 {
      LossNear(n, cap, rows - 1, 0, w);
    }
  }

  // ----- bounds -----

  /** A read loses less than a row. */
  lemma {:induction false} LossBelowRows(n: nat, cap: nat, rows: nat, t: nat)
    requires 0 < n <= cap && t < n
    ensures MaxLoss(n, cap, rows, t) <= Words(rows, n)
    decreases rows, 1
  {
    if rows > 0 {
      LossBelowRows(n, cap, rows - 1, 0);
      DrainBelowRows(n, cap, rows, cap, Spin(n, cap, t));
    }
  }

  lemma {:induction false} DrainBelowRows(n: nat, cap: nat, rows: nat, a: nat, t: nat)
    requires 0 < n <= cap && t < n
    ensures Drain(n, cap, rows, a, t) <= Words(rows, n)
    ensures Drain(n, cap, rows, a, t) > 0 ==> a <= Words(rows, n)
    decreases rows, if a == 0 then 2 else 0
  {
    if a == 0 {
      LossBelowRows(n, cap, rows, t);
    } else if rows > 0 && a < n {
      LossBelowRows(n, cap, rows - 1, t);
    } else if rows > 0 {
      DrainBelowRows(n, cap, rows - 1, a - n, t);
    }
  }

  /** Pipes that rows fill without a remainder lose nothing. */
  lemma {:induction false} EvenLoss(n: nat, cap: nat, rows: nat)
    requires 0 < n <= cap && Over(cap, n) == 0
    ensures MaxLoss(n, cap, rows, 0) == 0
    decreases rows, 1
  {
    if rows > 0 {
      EvenLoss(n, cap, rows - 1);
      EvenDrain(n, cap, rows, cap);
    }
  }

  lemma {:induction false} EvenDrain(n: nat, cap: nat, rows: nat, a: nat)
    requires 0 < n <= cap && Over(cap, n) == 0 && Over(a, n) == 0
    ensures Drain(n, cap, rows, a, 0) == 0
    decreases rows, if a == 0 then 2 else 0
  {
    if a == 0 {
      EvenLoss(n, cap, rows);
    } else if rows > 0 {
      EvenDrain(n, cap, rows - 1, a - n);
    }
  }

  /** A pipe with room for all rows loses nothing either. */
  lemma {:induction false} RoomyLoss(n: nat, cap: nat, rows: nat)
    requires 0 < n <= cap && Words(rows, n) <= cap
    ensures MaxLoss(n, cap, rows, 0) == 0
  {
    if rows > 0 {
      RoomyLoss(n, cap, rows - 1);
      RoomyDrain(n, cap, rows, cap, Spin(n, cap, 0));
    }
  }

  lemma {:induction false} RoomyDrain(n: nat, cap: nat, rows: nat, a: nat, t: nat)
    requires 0 < n <= cap && t < n && Words(rows, n) <= a
    ensures Drain(n, cap, rows, a, t) == 0
  {
    if rows > 0 {
      RoomyDrain(n, cap, rows - 1, a - n, t);
    }
  }

  lemma {:induction false} SpinIs(n: nat, cap: nat, x: nat)
    requires n > 0
    ensures Over(x + cap, n) == Spin(n, cap, Over(x, n))
    decreases x + cap
  {
    if x >= n {
      SpinIs(n, cap, x - n);
    } else if cap >= n {
      SpinIs(n, cap - n, x);
    }
  }

  // ----- the account of one child -----

  /** k of `all` reads are done, of the words written a wait in the pipe, and t are of a torn row: what is
      lost so far and what is ahead are no more than what can be lost. */
  ghost predicate WithinLoss(n: nat, cap: nat, all: nat, k: nat, written: nat, a: nat, t: nat)
    requires 0 < n <= cap
  {
    && k <= all && a <= written && t < n
    && Words(k, n) + a + Ahead(n, cap, all - k, a, t, Over(written - a, n)) <= written + MaxLoss(n, cap, all, 0)
  }

  lemma StartWithin(n: nat, cap: nat, all: nat)
    requires 0 < n <= cap
    ensures WithinLoss(n, cap, all, 0, 0, 0, 0)
  {
    FillIsLoss(n, cap, all, 0);
  }

  /** The child writes to the end of the row, or fills the pipe. */
  lemma PushWithin(n: nat, cap: nat, all: nat, k: nat, written: nat, a: nat, t: nat)
    requires 0 < n <= cap && WithinLoss(n, cap, all, k, written, a, t) && a <= cap
    ensures WithinLoss(n, cap, all, k, written + n - t, a + n - t, 0)
    ensures WithinLoss(n, cap, all, k, written + cap - a, cap, Over(written + cap - a, n))
  {
    RowAhead(n, cap, all - k, a, t);
    SpinIs(n, cap, written - a);
  }

  lemma ReadWithin(n: nat, cap: nat, all: nat, k: nat, written: nat, a: nat, t: nat, m: nat)
    requires 0 < n <= cap && WithinLoss(n, cap, all, k, written, a, t) && Over(written, n) == t
    requires k < all && a > 0 && m == if a <= n then a else n
    ensures WithinLoss(n, cap, all, k + 1, written, a - m, t)
  {
    ReadAhead(n, cap, all - k, a, t, Over(written - a, n));
  }

  lemma LeftWithin(n: nat, cap: nat, all: nat, written: nat, a: nat, t: nat)
    requires 0 < n <= cap && WithinLoss(n, cap, all, all, written, a, t) && written < Words(all, n)
    ensures MaxLoss(n, cap, all, 0) > a
  {
  }
}
