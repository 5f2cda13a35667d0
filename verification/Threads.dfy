/** Sums over the threads of a system, given what each thread's position contributes. */
module Threads {

  function Sum<P>(pcs: seq<P>, weight: P -> nat): nat {
    if pcs == [] then 0 else Sum(pcs[..|pcs| - 1], weight) + weight(pcs[|pcs| - 1])
  }

  /** Moving one thread changes the sum by what that thread contributes. */
  lemma {:induction false} SumUpdate<P>(pcs: seq<P>, weight: P -> nat, t: nat, p: P)
    requires t < |pcs|
    ensures Sum(pcs[t := p], weight) + weight(pcs[t]) == Sum(pcs, weight) + weight(p)
    decreases |pcs|
  {
    var n := |pcs| - 1;
    if t == n {
      assert pcs[t := p][..n] == pcs[..n];
    } else {
      assert pcs[t := p][..n] == pcs[..n][t := p];
      SumUpdate(pcs[..n], weight, t, p);
    }
  }

  /** The sum is at least what two different threads contribute. */
  lemma {:induction false} SumTwo<P>(pcs: seq<P>, weight: P -> nat, t: nat, u: nat)
    requires t < |pcs| && u < |pcs|
    ensures Sum(pcs, weight) >= weight(pcs[t])
    ensures t != u ==> Sum(pcs, weight) >= weight(pcs[t]) + weight(pcs[u])
    decreases |pcs|
  {
    var n := |pcs| - 1;
    if t == n && u == n {
    } else if t == n {
      SumTwo(pcs[..n], weight, u, u);
    } else if u == n {
      SumTwo(pcs[..n], weight, t, t);
    } else {
      SumTwo(pcs[..n], weight, t, u);
    }
  }

  /** Of threads that contribute one at most, the sum leaves room for those that contribute nothing. */
  lemma {:induction false} SumRoom<P>(pcs: seq<P>, weight: P -> nat, t: nat)
    requires t < |pcs| && forall u | 0 <= u < |pcs| :: weight(pcs[u]) <= 1
    ensures Sum(pcs, weight) + 1 <= |pcs| + weight(pcs[t])
    decreases |pcs|
  {
    var n := |pcs| - 1;
    assert forall u | 0 <= u < n :: pcs[..n][u] == pcs[u];
    if n > 0 {
      SumRoom(pcs[..n], weight, if t < n then t else 0);
    }
  }

  /** A sum of contributions is zero exactly when no thread contributes. */
  lemma {:induction false} SumZero<P>(pcs: seq<P>, weight: P -> nat)
    ensures Sum(pcs, weight) == 0 <==> forall t | 0 <= t < |pcs| :: weight(pcs[t]) == 0
    decreases |pcs|
  {
    if pcs == [] {
    } else {
      var n := |pcs| - 1;
      SumZero(pcs[..n], weight);
      assert forall t | 0 <= t < n :: pcs[..n][t] == pcs[t];
    }
  }

  /** Threads that contribute more at every position contribute more in total. */
  lemma {:induction false} SumOrdered<P>(pcs: seq<P>, low: P -> nat, high: P -> nat)
    requires forall t | 0 <= t < |pcs| :: low(pcs[t]) <= high(pcs[t])
    ensures Sum(pcs, low) <= Sum(pcs, high)
    decreases |pcs|
  {
    if pcs == [] {
    } else {
      var n := |pcs| - 1;
      assert forall t | 0 <= t < n :: pcs[..n][t] == pcs[t];
      SumOrdered(pcs[..n], low, high);
    }
  }

  /** Contributions that add up at every position add up in total. */
  lemma {:induction false} SumAdds<P>(pcs: seq<P>, a: P -> nat, b: P -> nat, whole: P -> nat)
    requires forall t | 0 <= t < |pcs| :: whole(pcs[t]) == a(pcs[t]) + b(pcs[t])
    ensures Sum(pcs, whole) == Sum(pcs, a) + Sum(pcs, b)
    decreases |pcs|
  {
    if pcs == [] {
    } else {
      var n := |pcs| - 1;
      assert forall t | 0 <= t < n :: pcs[..n][t] == pcs[t];
      SumAdds(pcs[..n], a, b, whole);
    }
  }
}
