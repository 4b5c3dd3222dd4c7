/** What a row of threads holds together, and the numbers that tasks are given. */
module Threads {

  function Held<P, T>(busy: P -> multiset<T>, threads: seq<P>): multiset<T> {
    if threads == [] then multiset{}
    else Held(busy, threads[..|threads| - 1]) + busy(threads[|threads| - 1])
  }

  lemma {:induction false} HeldUpdate<P, T>(busy: P -> multiset<T>, threads: seq<P>, w: nat, pc: P)
    requires w < |threads|
    ensures forall e: T ::
              Held(busy, threads[w := pc])[e] + busy(threads[w])[e] == Held(busy, threads)[e] + busy(pc)[e]
  {
    var n := |threads| - 1;
    if w < n {
      HeldUpdate(busy, threads[..n], w, pc);
      assert threads[w := pc][..n] == threads[..n][w := pc];
    } else {
      assert threads[w := pc][..n] == threads[..n];
    }
  }

  lemma {:induction false} NothingHeld<P, T>(busy: P -> multiset<T>, threads: seq<P>)
    requires forall w :: 0 <= w < |threads| ==> busy(threads[w]) == multiset{}
    ensures Held(busy, threads) == multiset{}
  {
    if threads != [] {
      NothingHeld(busy, threads[..|threads| - 1]);
    }
  }

  /** The sum of what the threads weigh. */
  function Total<P>(weight: P -> nat, threads: seq<P>): nat {
    if threads == [] then 0
    else Total(weight, threads[..|threads| - 1]) + weight(threads[|threads| - 1])
  }

  lemma {:induction false} TotalUpdate<P>(weight: P -> nat, threads: seq<P>, w: nat, pc: P)
    requires w < |threads|
    ensures Total(weight, threads[w := pc]) == Total(weight, threads) - weight(threads[w]) + weight(pc)
  {
    var n := |threads| - 1;
    if w < n {
      TotalUpdate(weight, threads[..n], w, pc);
      assert threads[w := pc][..n] == threads[..n][w := pc];
    } else {
      assert threads[w := pc][..n] == threads[..n];
    }
  }

  lemma {:induction false} TotalBound<P>(weight: P -> nat, threads: seq<P>)
    requires forall w :: 0 <= w < |threads| ==> weight(threads[w]) <= 1
    ensures Total(weight, threads) <= |threads|
  {
    if threads != [] {
      TotalBound(weight, threads[..|threads| - 1]);
    }
  }

  function Numbers(n: nat): (ns: seq<nat>)
    ensures |ns| == n && forall k :: 0 <= k < n ==> ns[k] == k
  {
    seq(n, k => k)
  }

  lemma {:induction false} NumbersOnce(n: nat, k: nat)
    ensures multiset(Numbers(n))[k] == if k < n then 1 else 0
  {
    if n > 0 {
      NumbersOnce(n - 1, k);
      assert Numbers(n) == Numbers(n - 1) + [n - 1];
    }
  }
}
