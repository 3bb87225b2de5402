/** Sums over the elements of a sequence. */
module Sums {
  function SumOf<T>(f: T -> int, ts: seq<T>): int
  {
    if ts == [] then 0 else f(ts[0]) + SumOf(f, ts[1..])
  }

  lemma {:induction false} SumUpdate<T>(f: T -> int, ts: seq<T>, i: nat, t: T)
    requires i < |ts|
    ensures SumOf(f, ts[i := t]) == SumOf(f, ts) - f(ts[i]) + f(t)
  {
    if i == 0 {
      assert ts[0 := t][1..] == ts[1..];
    } else {
      assert ts[i := t][1..] == ts[1..][i - 1 := t];
      SumUpdate(f, ts[1..], i - 1, t);
    }
  }

  lemma {:induction false} SumAppend<T>(f: T -> int, ts: seq<T>, t: T)
    ensures SumOf(f, ts + [t]) == SumOf(f, ts) + f(t)
  {
    if ts == [] {
      assert ts + [t] == [t];
    } else {
      assert (ts + [t])[1..] == ts[1..] + [t];
      SumAppend(f, ts[1..], t);
    }
  }

  lemma {:induction false} SumsAgree<A, B>(f: A -> int, xs: seq<A>, g: B -> int, ys: seq<B>)
    requires |xs| == |ys| && forall i :: 0 <= i < |xs| ==> f(xs[i]) == g(ys[i])
    ensures SumOf(f, xs) == SumOf(g, ys)
  {
    if xs == [] {
    } else {
      assert f(xs[0]) == g(ys[0]);
      SumsAgree(f, xs[1..], g, ys[1..]);
    }
  }
}
