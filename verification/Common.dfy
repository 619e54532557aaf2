/** What several modules share: result types, a little arithmetic, and how a bound can fail along a run. */
module Common {

  datatype Option<+T> = None | Some(value: T)

  datatype Result<+T, +E> = Ok(value: T) | Err(error: E)

  function AtLeastZero(n: int): nat {
    if n < 0 then 0 else n
  }

  lemma ProductsOrdered(a: nat, b: nat, d: nat)
    requires a <= b
    ensures a * d <= b * d
  {
    assert b * d == a * d + (b - a) * d;
  }

  lemma AddedIndex(before: set<nat>, after: set<nat>, n: nat)
    requires n !in before && forall i: nat :: i in after <==> i in before || (i == n && n in after)
    ensures |after| == |before| + if n in after then 1 else 0
  {
    assert after == if n in after then before + {n} else before;
  }

  /** What holds at first, and stops holding exactly at a bad step, holds throughout exactly if no step is bad. */
  lemma {:induction false} HoldsThroughout(n: nat, good: nat -> bool, bad: nat -> bool)
    requires good(0)
    requires forall k: nat :: k < n && good(k) ==> (good(k + 1) <==> !bad(k))
    ensures (forall k: nat :: k <= n ==> good(k)) <==> (forall k: nat :: k < n ==> !bad(k))
  {
    if n > 0 {
      HoldsThroughout(n - 1, good, bad);
      assert good(n - 1) ==> (good(n) <==> !bad(n - 1));
    }
  }
}
