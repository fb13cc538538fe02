/** Dealing things out in turn to k takers. */
module RoundRobin {

  /** With 0..k-1 taking turns, how many of the first j things are i's. */
  function Turn(k: nat, i: nat, j: nat): nat {
    if j == 0 || k == 0 then 0 else Turn(k, i, j - 1) + if (j - 1) % k == i then 1 else 0
  }

  lemma NextTurn(k: nat, j: nat)
    requires k > 0
    ensures j % k < k - 1 ==> (j + 1) / k == j / k && (j + 1) % k == j % k + 1
    ensures j % k == k - 1 ==> (j + 1) / k == j / k + 1 && (j + 1) % k == 0
  {
    var q, r := j / k, j % k;
    assert j == k * q + r;
    if r < k - 1 {
      DivUnique(k, j + 1, q, r + 1);
    } else {
      assert j + 1 == k * (q + 1);
      DivUnique(k, j + 1, q + 1, 0);
    }
  }

  lemma MulMono(k: int, a: int, b: int)
    requires k >= 0 && a <= b
    ensures k * a <= k * b
  {
  }

  lemma DivUnique(k: int, x: int, q: int, r: int)
    requires k > 0 && x == k * q + r && 0 <= r < k
    ensures x / k == q && x % k == r
  {
    if x / k > q {
      MulMono(k, q + 1, x / k);
      assert false;
    } else if x / k < q {
      MulMono(k, x / k + 1, q);
      assert false;
    }
  }

  lemma {:induction false} TurnIs(k: nat, i: nat, j: nat)
    requires i < k
    ensures Turn(k, i, j) == j / k + if i < j % k then 1 else 0
  {
    if j > 0 {
      TurnIs(k, i, j - 1);
      NextTurn(k, j - 1);
    }
  }

  /** What takers 0..i-1 got together. */
  function Dealt(k: nat, i: nat, j: nat): nat {
    if i == 0 then 0 else Dealt(k, i - 1, j) + Turn(k, i - 1, j)
  }

  /** Everything is dealt out. */
  lemma {:induction false} AllDealt(k: nat, j: nat)
    requires k > 0
    ensures Dealt(k, k, j) == j
  {
    if j == 0 {
      NothingDealt(k, k);
    } else {
      AllDealt(k, j - 1);
      OneMoreDealt(k, k, j);
    }
  }

  lemma {:induction false} NothingDealt(k: nat, i: nat)
    ensures Dealt(k, i, 0) == 0
  {
    if i > 0 {
      NothingDealt(k, i - 1);
    }
  }

  lemma {:induction false} OneMoreDealt(k: nat, i: nat, j: nat)
    requires k > 0 && j > 0
    ensures Dealt(k, i, j) == Dealt(k, i, j - 1) + if (j - 1) % k < i then 1 else 0
  {
    if i > 0 {
      OneMoreDealt(k, i - 1, j);
    }
  }
}
