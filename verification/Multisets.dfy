/** Facts about multisets shared by the transition systems. */
module Multisets {

  /** An exchange under a sum: b + c becomes d + e while a stays. */
  lemma Regroup<T>(a: multiset<T>, b: multiset<T>, c: multiset<T>, d: multiset<T>, e: multiset<T>)
    requires b + c == d + e
    ensures (a + b) + c == (a + d) + e && (b + a) + c == (d + a) + e
  {
    assert (a + b) + c == a + (b + c);
    assert (a + d) + e == a + (d + e);
    assert b + a == a + b && d + a == a + d;
  }

  /** How often y occurs when one place changes to x. */
  lemma CountUpdate<T>(xs: seq<T>, i: nat, x: T, y: T)
    requires i < |xs|
    ensures multiset(xs[i := x])[y] + (if xs[i] == y then 1 else 0) == multiset(xs)[y] + (if x == y then 1 else 0)
  {
    assert xs == xs[..i] + [xs[i]] + xs[i + 1..];
    assert xs[i := x] == xs[..i] + [x] + xs[i + 1..];
  }

  /** Every number below n, once. */
  function Numbers(n: nat): multiset<nat> {
    if n == 0 then multiset{} else Numbers(n - 1) + multiset{n - 1}
  }

  lemma {:induction false} NumbersOnce(n: nat)
    ensures |Numbers(n)| == n && forall k: nat :: Numbers(n)[k] == if k < n then 1 else 0
  {
    if n > 0 { NumbersOnce(n - 1); }
  }
}
