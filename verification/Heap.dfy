/** The array heap with a user comparator, as written: `AdjustDown` keeps no child after its parent in
    the order of `comp`, `AdjustUp` keeps no child before its parent.
 */
module Heap {
  import opened Orders
  import opened Wrappers

  /** The element at j does not come after its parent. */
  ghost predicate Below<T(!new)>(comp: (T, T) -> bool, d: seq<T>, j: nat)
    requires 2 <= j < |d|
  {
    !comp(d[j / 2], d[j])
  }

  /** The element at j does not come before its parent. */
  ghost predicate Above<T(!new)>(comp: (T, T) -> bool, d: seq<T>, j: nat)
    requires 2 <= j < |d|
  {
    !comp(d[j], d[j / 2])
  }

  /** Among positions 1..n, every parent from position `from` on is in order with its children. */
  ghost predicate DownFrom<T(!new)>(comp: (T, T) -> bool, d: seq<T>, n: nat, from: nat) {
    n < |d| && forall j: nat {:trigger Below(comp, d, j)} :: 2 <= j <= n && from <= j / 2 ==> Below(comp, d, j)
  }

  /** The same but for the children of k, which are still in order with k's own parent. */
  ghost predicate DownExcept<T(!new)>(comp: (T, T) -> bool, d: seq<T>, n: nat, from: nat, k: nat) {
    && n < |d|
    && (forall j: nat {:trigger Below(comp, d, j)} :: 2 <= j <= n && from <= j / 2 && j / 2 != k ==> Below(comp, d, j))
    && (from <= k / 2 && 2 * k <= n ==> ChildrenBelow(comp, d, n, k, k / 2))
  }

  ghost predicate ChildrenBelow<T(!new)>(comp: (T, T) -> bool, d: seq<T>, n: nat, k: nat, p: nat)
    requires n < |d| && p < |d|
  {
    && (2 * k <= n ==> !comp(d[p], d[2 * k]))
    && (2 * k + 1 <= n ==> !comp(d[p], d[2 * k + 1]))
  }

  /** No child comes before its parent, over positions 1..n: the order that pushing keeps. */
  ghost predicate Up<T(!new)>(comp: (T, T) -> bool, d: seq<T>, n: nat) {
    n < |d| && forall j: nat {:trigger Above(comp, d, j)} :: 2 <= j <= n ==> Above(comp, d, j)
  }

  /** The same but for k and its parent; k's children are already in order with that parent. */
  ghost predicate UpExcept<T(!new)>(comp: (T, T) -> bool, d: seq<T>, n: nat, k: nat) {
    && n < |d| && k <= n
    && (forall j: nat {:trigger Above(comp, d, j)} :: 2 <= j <= n && j != k ==> Above(comp, d, j))
    && (2 <= k && 2 * k <= n ==> !comp(d[2 * k], d[k / 2]))
    && (2 <= k && 2 * k + 1 <= n ==> !comp(d[2 * k + 1], d[k / 2]))
  }

  function Swap<T>(d: seq<T>, i: nat, j: nat): (r: seq<T>)
    requires i < |d| && j < |d|
    ensures |r| == |d|
    ensures forall p :: 0 <= p < |d| ==> r[p] == d[if p == i then j else if p == j then i else p]
  {
    d[i := d[j]][j := d[i]]
  }

  /** d' is a rearrangement of positions 1..n of d. */
  ghost predicate Rearranged<T>(d: seq<T>, d': seq<T>, n: nat) {
    && n < |d| == |d'|
    && multiset(d'[1..n + 1]) == multiset(d[1..n + 1])
    && d'[n + 1..] == d[n + 1..]
  }

  lemma StandsStill<T>(d: seq<T>, n: nat)
    requires n < |d|
    ensures Rearranged(d, d, n)
  {
  }

  lemma SwapRearranges<T>(d0: seq<T>, d: seq<T>, n: nat, i: nat, j: nat)
    requires Rearranged(d0, d, n) && 1 <= i <= n && 1 <= j <= n
    ensures Rearranged(d0, Swap(d, i, j), n)
  {
    var s := d[1..n + 1];
    assert Swap(d, i, j)[1..n + 1] == s[i - 1 := d[j]][j - 1 := d[i]];
  }

  /** The child of k the sift down looks at: one that no child of k comes after. */
  function Child<T>(comp: (T, T) -> bool, d: seq<T>, n: nat, k: nat): (j: nat)
    requires 1 <= k && 2 * k <= n < |d|
    ensures 2 <= j <= n && j / 2 == k
  {
    if 2 * k < n && comp(d[2 * k], d[2 * k + 1]) then 2 * k + 1 else 2 * k
  }

  lemma ChildIsLast<T(!new)>(comp: (T, T) -> bool, d: seq<T>, n: nat, k: nat)
    requires StrictWeak(comp) && 1 <= k && 2 * k <= n < |d|
    ensures ChildrenBelow(comp, d, n, k, Child(comp, d, n, k))
  {
  }

  /** One turn of the sift down: the chosen child moves up. */
  lemma DownStep<T(!new)>(comp: (T, T) -> bool, d: seq<T>, n: nat, from: nat, k: nat)
    requires StrictWeak(comp) && DownExcept(comp, d, n, from, k)
    requires 1 <= from <= k && 2 * k <= n && comp(d[k], d[Child(comp, d, n, k)])
    ensures DownExcept(comp, Swap(d, k, Child(comp, d, n, k)), n, from, Child(comp, d, n, k))
  {
    var j := Child(comp, d, n, k);
    var d' := Swap(d, k, j);
    ChildIsLast(comp, d, n, k);
    hide Swap, Child;
    forall c: nat | 2 <= c <= n && from <= c / 2 && c / 2 != j ensures Below(comp, d', c) {
      if c / 2 == k {
        assert c == 2 * k || c == 2 * k + 1;
      } else {
        assert Below(comp, d, c);
      }
    }
    assert 2 * j <= n ==> Below(comp, d, 2 * j);
    assert 2 * j + 1 <= n ==> Below(comp, d, 2 * j + 1);
  }

  /** The sift down may stop where k does not come before the chosen child. */
  lemma DownStop<T(!new)>(comp: (T, T) -> bool, d: seq<T>, n: nat, from: nat, k: nat)
    requires StrictWeak(comp) && DownExcept(comp, d, n, from, k) && 1 <= k
    requires 2 * k <= n ==> !comp(d[k], d[Child(comp, d, n, k)])
    ensures DownFrom(comp, d, n, from)
  {
    if 2 * k <= n {
      ChildIsLast(comp, d, n, k);
    }
    forall c: nat | 2 <= c <= n && from <= c / 2 ensures Below(comp, d, c) {
      if c / 2 == k {
        assert c == 2 * k || c == 2 * k + 1;
      }
    }
  }

  /** What `adjustDown` makes of the element at k. */
  function SiftDown<T>(comp: (T, T) -> bool, d: seq<T>, n: nat, k: nat): (r: seq<T>)
    requires n < |d| && 1 <= k
    ensures |r| == |d|
    decreases n - k
  {
    if 2 * k <= n && comp(d[k], d[Child(comp, d, n, k)])
    then SiftDown(comp, Swap(d, k, Child(comp, d, n, k)), n, Child(comp, d, n, k))
    else d
  }

  lemma {:induction false} SiftDownRearranges<T>(comp: (T, T) -> bool, d0: seq<T>, d: seq<T>, n: nat, k: nat)
    requires n < |d| && Rearranged(d0, d, n) && 1 <= k
    ensures Rearranged(d0, SiftDown(comp, d, n, k), n)
    decreases n - k
  {
    hide Swap, Child, Rearranged;
    if 2 * k <= n && comp(d[k], d[Child(comp, d, n, k)]) {
      SwapRearranges(d0, d, n, k, Child(comp, d, n, k));
      SiftDownRearranges(comp, d0, Swap(d, k, Child(comp, d, n, k)), n, Child(comp, d, n, k));
    }
  }

  /** One possible violation at k is repaired. */
  lemma {:induction false} SiftDownRepairs<T(!new)>(comp: (T, T) -> bool, d: seq<T>, n: nat, from: nat, k: nat)
    requires StrictWeak(comp) && DownExcept(comp, d, n, from, k) && 1 <= from <= k
    ensures DownFrom(comp, SiftDown(comp, d, n, k), n, from)
    decreases n - k
  {
    hide StrictWeak, Swap, Child, DownFrom;
    if 2 * k <= n && comp(d[k], d[Child(comp, d, n, k)]) {
      DownStep(comp, d, n, from, k);
      SiftDownRepairs(comp, Swap(d, k, Child(comp, d, n, k)), n, from, Child(comp, d, n, k));
    } else {
      DownStop(comp, d, n, from, k);
    }
  }

  /** What `pop` makes of n live elements. */
  function AfterPop<T>(comp: (T, T) -> bool, d: seq<T>, n: nat): (r: seq<T>)
    requires 1 <= n < |d|
    ensures |r| == |d|
  {
    SiftDown(comp, Swap(d, 1, n), n - 1, 1)
  }

  /** The top leaves and everything else stays; in the order of build and pop the rest is a heap again. */
  lemma PopKeeps<T(!new)>(comp: (T, T) -> bool, d: seq<T>, n: nat)
    requires 1 <= n < |d|
    ensures multiset(AfterPop(comp, d, n)[1..n]) == multiset(d[2..n + 1])
    ensures StrictWeak(comp) && DownFrom(comp, d, n, 1) ==> DownFrom(comp, AfterPop(comp, d, n), n - 1, 1)
  {
    hide StrictWeak, DownFrom, DownExcept, Swap, SiftDown;
    TopToTheBack(comp, d, n);
    SiftDownRearranges(comp, Swap(d, 1, n), Swap(d, 1, n), n - 1, 1);
    if StrictWeak(comp) && DownFrom(comp, d, n, 1) {
      SiftDownRepairs(comp, Swap(d, 1, n), n - 1, 1, 1);
    }
  }

  lemma TopToTheBack<T(!new)>(comp: (T, T) -> bool, d: seq<T>, n: nat)
    requires 1 <= n < |d|
    ensures multiset(Swap(d, 1, n)[1..n]) == multiset(d[2..n + 1])
    ensures DownFrom(comp, d, n, 1) ==> DownExcept(comp, Swap(d, 1, n), n - 1, 1, 1)
  {
    if n > 1 {
      assert d[2..n + 1] == d[2..n] + [d[n]];
      assert Swap(d, 1, n)[1..n] == [d[n]] + d[2..n];
    }
    if DownFrom(comp, d, n, 1) {
      forall j: nat | 2 <= j <= n - 1 && j / 2 != 1 ensures Below(comp, Swap(d, 1, n), j) {
        assert Below(comp, d, j);
      }
    }
  }

  /** What pops hand out until the heap is empty. */
  function Drained<T>(comp: (T, T) -> bool, d: seq<T>, n: nat): (r: seq<T>)
    requires n < |d|
    ensures |r| == n
    decreases n
  {
    if n == 0 then [] else [d[1]] + Drained(comp, AfterPop(comp, d, n), n - 1)
  }

  lemma DrainedUnfolds<T>(comp: (T, T) -> bool, d: seq<T>, n: nat)
    requires 1 <= n < |d|
    ensures Drained(comp, d, n) == [d[1]] + Drained(comp, AfterPop(comp, d, n), n - 1)
  {
    hide AfterPop;
  }

  lemma TopAndRest<T>(d: seq<T>, n: nat, rest: seq<T>)
    requires 1 <= n < |d| && multiset(rest) == multiset(d[2..n + 1])
    ensures multiset([d[1]] + rest) == multiset(d[1..n + 1])
  {
    assert d[1..n + 1] == [d[1]] + d[2..n + 1];
  }

  lemma {:induction false} DrainedIsAll<T(!new)>(comp: (T, T) -> bool, d: seq<T>, n: nat)
    requires n < |d|
    ensures multiset(Drained(comp, d, n)) == multiset(d[1..n + 1])
    decreases n
  {
    if n > 0 {
      hide AfterPop, Drained;
      var e := AfterPop(comp, d, n);
      PopKeeps(comp, d, n);
      DrainedIsAll(comp, e, n - 1);
      assert e[1..n - 1 + 1] == e[1..n];
      TopAndRest(d, n, Drained(comp, e, n - 1));
      DrainedUnfolds(comp, d, n);
    }
  }

  /** rest holds what stands at positions 2..n. */
  ghost predicate Behind<T>(rest: seq<T>, d: seq<T>, n: nat)
    requires n < |d|
  {
    1 <= n && multiset(rest) == multiset(d[2..n + 1])
  }

  lemma Origin<T>(rest: seq<T>, d: seq<T>, n: nat, i: nat) returns (j: nat)
    requires n < |d| && Behind(rest, d, n) && i < |rest|
    ensures 2 <= j <= n && d[j] == rest[i]
  {
    var tail := d[2..n + 1];
    assert rest[i] in multiset(tail);
    var k :| 0 <= k < |tail| && tail[k] == rest[i];
    j := k + 2;
  }

  lemma Destination<T>(rest: seq<T>, d: seq<T>, n: nat, j: nat) returns (i: nat)
    requires n < |d| && Behind(rest, d, n) && 2 <= j <= n
    ensures i < |rest| && rest[i] == d[j]
  {
    var tail := d[2..n + 1];
    assert tail[j - 2] in multiset(rest);
    i :| 0 <= i < |rest| && rest[i] == d[j];
  }

  /** What is handed out after the top is what stood behind it. */
  lemma DrainedBehindTop<T(!new)>(comp: (T, T) -> bool, d: seq<T>, n: nat)
    requires 1 <= n < |d|
    ensures Behind(Drained(comp, AfterPop(comp, d, n), n - 1), d, n)
  {
    PopKeeps(comp, d, n);
    DrainedIsAll(comp, AfterPop(comp, d, n), n - 1);
  }

  /** The orders of a drained heap, in terms of its top and of what is handed out behind it. */
  lemma TopInFront<T(!new)>(comp: (T, T) -> bool, rest: seq<T>, d: seq<T>, n: nat)
    requires 1 <= n < |d| && Behind(rest, d, n)
    ensures InOrder(comp, [d[1]] + rest) <==> InOrder(comp, rest) && forall j :: 2 <= j <= n ==> !comp(d[1], d[j])
    ensures InReverse(comp, [d[1]] + rest) <==> InReverse(comp, rest) && forall j :: 2 <= j <= n ==> !comp(d[j], d[1])
  {
    var s := [d[1]] + rest;
    hide Behind;
    assert rest == s[1..];
    if InOrder(comp, s) {
      forall j | 2 <= j <= n ensures !comp(d[1], d[j]) {
        var i := Destination(rest, d, n, j);
        assert !comp(s[0], s[i + 1]);
      }
    }
    if InReverse(comp, s) {
      forall j | 2 <= j <= n ensures !comp(d[j], d[1]) {
        var i := Destination(rest, d, n, j);
        assert !comp(s[i + 1], s[0]);
      }
    }
    forall i | 1 <= i < |s| ensures exists j :: 2 <= j <= n && s[i] == d[j] {
      var j := Origin(rest, d, n, i - 1);
    }
  }

  /** In the order of build and pop, nothing that is handed out comes before a later one. */
  lemma {:induction false} DrainedInOrder<T(!new)>(comp: (T, T) -> bool, d: seq<T>, n: nat)
    requires StrictWeak(comp) && DownFrom(comp, d, n, 1)
    ensures InOrder(comp, Drained(comp, d, n))
    decreases n
  {
    if n > 0 {
      PopKeeps(comp, d, n);
      DrainedInOrder(comp, AfterPop(comp, d, n), n - 1);
      DrainedBehindTop(comp, d, n);
      hide StrictWeak, DownFrom, AfterPop, InOrder, Behind;
      TopInFront(comp, Drained(comp, AfterPop(comp, d, n), n - 1), d, n);
      forall j | 2 <= j <= n ensures !comp(d[1], d[j]) {
        TopIsLast(comp, d, n, j);
      }
    }
  }

  /** What `adjustUp` makes of the element at k. */
  function SiftUp<T>(comp: (T, T) -> bool, d: seq<T>, k: nat): (r: seq<T>)
    requires 1 <= k < |d|
    ensures |r| == |d|
    decreases k
  {
    if k > 1 && comp(d[k], d[k / 2]) then SiftUp(comp, Swap(d, k, k / 2), k / 2) else d
  }

  /** One turn of the sift up. */
  lemma UpStep<T(!new)>(comp: (T, T) -> bool, d: seq<T>, n: nat, k: nat)
    requires StrictWeak(comp) && UpExcept(comp, d, n, k)
    requires 2 <= k <= n && comp(d[k], d[k / 2])
    ensures UpExcept(comp, Swap(d, k, k / 2), n, k / 2)
  {
    hide Swap;
    var p := k / 2;
    var d' := Swap(d, k, p);
    assert !comp(d[p], d[k]);
    forall c: nat | 2 <= c <= n && c != k ensures !comp(d[c], d[c / 2]) {
      assert Above(comp, d, c);
    }
    forall j: nat | 2 <= j <= n && j != p ensures Above(comp, d', j) {
      if j / 2 == k {
        assert j == 2 * k || j == 2 * k + 1;
      }
    }
    forall c: nat | 2 <= c <= n && c / 2 == p && 2 <= p ensures !comp(d'[c], d'[p / 2]) {
      assert !comp(d[p], d[p / 2]);
      assert c != k ==> !comp(d[c], d[p]);
    }
    assert 2 * p / 2 == p && (2 * p + 1) / 2 == p;
  }

  /** In the order of build and pop, no live element comes after the top. */
  lemma {:induction false} TopIsLast<T(!new)>(comp: (T, T) -> bool, d: seq<T>, n: nat, j: nat)
    requires StrictWeak(comp) && DownFrom(comp, d, n, 1) && 1 <= j <= n
    ensures !comp(d[1], d[j])
    decreases j
  {
    if j > 1 {
      TopIsLast(comp, d, n, j / 2);
      assert Below(comp, d, j);
    }
  }

  /** In the order of push, no live element comes before the top. */
  lemma {:induction false} TopIsFirst<T(!new)>(comp: (T, T) -> bool, d: seq<T>, n: nat, j: nat)
    requires StrictWeak(comp) && Up(comp, d, n) && 1 <= j <= n
    ensures !comp(d[j], d[1])
    decreases j
  {
    if j > 1 {
      TopIsFirst(comp, d, n, j / 2);
      assert Above(comp, d, j);
    }
  }

  /** A heap in the order of push is also one in the order of build and pop exactly when all its elements are
      ties. */
  lemma BothOrdersOnlyOnTies<T(!new)>(comp: (T, T) -> bool, d: seq<T>, n: nat)
    requires StrictWeak(comp) && Up(comp, d, n)
    ensures DownFrom(comp, d, n, 1) <==> forall i, j :: 1 <= i <= n && 1 <= j <= n ==> !comp(d[i], d[j])
  {
    if DownFrom(comp, d, n, 1) {
      forall i, j | 1 <= i <= n && 1 <= j <= n ensures !comp(d[i], d[j]) {
        TopIsFirst(comp, d, n, i);
        TopIsLast(comp, d, n, j);
      }
    }
  }

  /** The elements at positions lo..n are mutually ties. */
  ghost predicate Ties<T(!new)>(comp: (T, T) -> bool, d: seq<T>, lo: nat, n: nat)
    requires n < |d|
  {
    forall i, j :: lo <= i <= n && lo <= j <= n ==> !comp(d[i], d[j])
  }

  /** If nothing handed out behind the top of a pushed heap comes before an earlier one, the last element ties
      with the top's children, so it stays where the pop has put it. */
  lemma LastStaysOnTop<T(!new)>(comp: (T, T) -> bool, d: seq<T>, n: nat)
    requires StrictWeak(comp) && Up(comp, d, n) && 3 <= n
    requires InReverse(comp, Drained(comp, AfterPop(comp, d, n), n - 1))
    ensures AfterPop(comp, d, n) == Swap(d, 1, n) && Up(comp, Swap(d, 1, n), n - 1)
    ensures !comp(d[n], d[2]) && forall j :: 2 <= j <= n ==> !comp(d[j], d[n])
  {
    FirstBehindTop(comp, d, n);
    var e := Swap(d, 1, n);
    var c := Child(comp, e, n - 1, 1);
    assert c == 2 || c == 3;
    if comp(e[1], e[c]) {
      SiftedRoot(comp, Swap(e, 1, c), n - 1, c);
      assert false;
    }
    ChildIsLast(comp, e, n - 1, 1);
    LastInFront(comp, d, n);
  }

  lemma LastInFront<T(!new)>(comp: (T, T) -> bool, d: seq<T>, n: nat)
    requires Up(comp, d, n) && 3 <= n && forall j :: 2 <= j <= n ==> !comp(d[j], d[n])
    ensures Up(comp, Swap(d, 1, n), n - 1)
  {
    forall j: nat | 2 <= j <= n - 1 ensures Above(comp, Swap(d, 1, n), j) {
      assert Above(comp, d, j);
    }
  }

  /** The new top, handed out next, has nothing live before it. */
  lemma FirstBehindTop<T(!new)>(comp: (T, T) -> bool, d: seq<T>, n: nat)
    requires StrictWeak(comp) && 2 <= n < |d|
    requires InReverse(comp, Drained(comp, AfterPop(comp, d, n), n - 1))
    ensures forall j :: 2 <= j <= n ==> !comp(d[j], AfterPop(comp, d, n)[1])
  {
    DrainedBehindTop(comp, d, n);
    var rest := Drained(comp, AfterPop(comp, d, n), n - 1);
    assert rest[0] == AfterPop(comp, d, n)[1];
    hide AfterPop, Drained;
    forall j | 2 <= j <= n ensures !comp(d[j], rest[0]) {
      var i := Destination(rest, d, n, j);
    }
  }

  /** The sift leaves what is above its start alone. */
  lemma {:induction false} SiftedRoot<T>(comp: (T, T) -> bool, d: seq<T>, n: nat, k: nat)
    requires n < |d| && 2 <= k && 1 < |d|
    ensures SiftDown(comp, d, n, k)[1] == d[1]
    decreases n - k
  {
    if 2 * k <= n && comp(d[k], d[Child(comp, d, n, k)]) {
      SiftedRoot(comp, Swap(d, k, Child(comp, d, n, k)), n, Child(comp, d, n, k));
    }
  }

  lemma {:induction false} DrainedReverseOnlyOnTies<T(!new)>(comp: (T, T) -> bool, d: seq<T>, n: nat)
    requires StrictWeak(comp) && Up(comp, d, n) && InReverse(comp, Drained(comp, d, n))
    ensures Ties(comp, d, 2, n)
    decreases n
  {
    if n >= 3 {
      var e := AfterPop(comp, d, n);
      assert Drained(comp, d, n)[1..] == Drained(comp, e, n - 1);
      LastStaysOnTop(comp, d, n);
      DrainedReverseOnlyOnTies(comp, e, n - 1);
      hide Drained, Up, AfterPop;
      assert forall j :: 2 <= j <= n - 1 ==> e[j] == d[j];
      assert Ties(comp, d, 2, n - 1);
    }
  }

  /** Draining a heap built by pushes hands its elements out from the first to the last exactly when all of
      them but the top are ties, and from the last to the first exactly when all of them are. */
  lemma {:induction false} PushedDrainsInOrderExactlyWhen<T(!new)>(comp: (T, T) -> bool, d: seq<T>, n: nat)
    requires StrictWeak(comp) && Up(comp, d, n)
    ensures InReverse(comp, Drained(comp, d, n)) <==> Ties(comp, d, 2, n)
    ensures InOrder(comp, Drained(comp, d, n)) <==> Ties(comp, d, 1, n)
  {
    if InReverse(comp, Drained(comp, d, n)) {
      DrainedReverseOnlyOnTies(comp, d, n);
    }
    if n > 0 {
      forall i | 1 <= i <= n ensures !comp(d[i], d[1]) {
        TopIsFirst(comp, d, n, i);
      }
      var rest := Drained(comp, AfterPop(comp, d, n), n - 1);
      DrainedBehindTop(comp, d, n);
      hide Up, AfterPop, InOrder, InReverse, Behind;
      TopInFront(comp, rest, d, n);
      if Ties(comp, d, 2, n) {
        TiesInAnyOrder(comp, rest, d, n);
      }
    }
  }

  lemma TiesInAnyOrder<T(!new)>(comp: (T, T) -> bool, rest: seq<T>, d: seq<T>, n: nat)
    requires 1 <= n < |d| && Behind(rest, d, n) && Ties(comp, d, 2, n)
    ensures InOrder(comp, rest) && InReverse(comp, rest)
  {
    forall i, j | 0 <= i < |rest| && 0 <= j < |rest| ensures !comp(rest[i], rest[j]) {
      var i' := Origin(rest, d, n, i);
      var j' := Origin(rest, d, n, j);
    }
  }

  class Heap<T(0, !new)> {
    const comp: (T, T) -> bool
    var data: seq<T>
    var elemNums: nat

    /** Position 0 is a filler; what lies behind elemNums is left over from pops. */
    predicate Shaped()
      reads this
    {
      elemNums < |data|
    }

    function Live(): seq<T>
      reads this
      requires Shaped()
    {
      data[1..elemNums + 1]
    }

    ghost predicate DownHeap()
      reads this
    {
      DownFrom(comp, data, elemNums, 1)
    }

    ghost predicate UpHeap()
      reads this
    {
      Up(comp, data, elemNums)
    }

    constructor Empty(comp: (T, T) -> bool)
      ensures Shaped() && this.comp == comp && Live() == []
      ensures DownHeap() && UpHeap()
    {
      var filler: T := *;
      this.comp := comp;
      data := [filler];
      elemNums := 0;
    }

    constructor FromValues(comp: (T, T) -> bool, vals: seq<T>)
      requires StrictWeak(comp)
      ensures Shaped() && this.comp == comp && multiset(Live()) == multiset(vals)
      ensures DownHeap()
    {
      var filler: T := *;
      this.comp := comp;
      data := [filler] + vals;
      elemNums := |vals|;
      new;
      assert Live() == vals;
      BuildHeap();
    }

    method BuildHeap()
      requires Shaped() && StrictWeak(comp)
      modifies this`data
      ensures Shaped() && DownHeap() && Rearranged(old(data), data, elemNums)
    {
      hide SiftDown;
      var i := elemNums / 2;
      while i >= 1
        invariant 0 <= i && Shaped() && DownFrom(comp, data, elemNums, i + 1)
        invariant Rearranged(old(data), data, elemNums)
      {
        AdjustDown(i, i);
        i := i - 1;
      }
    }

    /** Sifts the element at k down; `from` is where the order already holds below k. */
    method AdjustDown(k: nat, ghost from: nat)
      requires Shaped() && StrictWeak(comp) && 1 <= from <= k
      modifies this`data
      ensures Shaped() && data == SiftDown(comp, old(data), elemNums, k)
      ensures Rearranged(old(data), data, elemNums)
      ensures old(DownExcept(comp, data, elemNums, from, k)) ==> DownFrom(comp, data, elemNums, from)
    {
      hide Swap, DownExcept, DownFrom, StrictWeak, Rearranged;
      ghost var k0 := k;
      var k := k;
      while 2 * k <= elemNums
        invariant 1 <= k && Shaped()
        invariant SiftDown(comp, data, elemNums, k) == SiftDown(comp, old(data), elemNums, k0)
        decreases elemNums - k
      {
        var j := 2 * k;
        if j < elemNums && comp(data[j], data[j + 1]) {
          j := j + 1;
        }
        assert j == Child(comp, data, elemNums, k);
        if !comp(data[k], data[j]) {
          break;
        }
        data := Swap(data, k, j);
        k := j;
      }
      StandsStill(old(data), elemNums);
      SiftDownRearranges(comp, old(data), old(data), elemNums, k0);
      if old(DownExcept(comp, data, elemNums, from, k0)) {
        SiftDownRepairs(comp, old(data), elemNums, from, k0);
      }
    }

    /** Sifts the element at k up. */
    method AdjustUp(k: nat)
      requires Shaped() && StrictWeak(comp) && 1 <= k <= elemNums
      modifies this`data
      ensures Shaped() && data == SiftUp(comp, old(data), k) && Rearranged(old(data), data, elemNums)
      ensures old(UpExcept(comp, data, elemNums, k)) ==> Up(comp, data, elemNums)
    {
      ghost var ordered := UpExcept(comp, data, elemNums, k);
      ghost var k0 := k;
      var k := k;
      while k > 1 && comp(data[k], data[k / 2])
        invariant 1 <= k <= elemNums && Shaped()
        invariant SiftUp(comp, data, k) == SiftUp(comp, old(data), k0)
        invariant Rearranged(old(data), data, elemNums)
        invariant ordered ==> UpExcept(comp, data, elemNums, k)
      {
        hide Swap, UpExcept, StrictWeak, Rearranged;
        if ordered {
          UpStep(comp, data, elemNums, k);
        }
        SwapRearranges(old(data), data, elemNums, k, k / 2);
        data := Swap(data, k, k / 2);
        k := k / 2;
      }
    }

    method Top() returns (r: Option<T>)
      requires Shaped()
      ensures r == if Live() == [] then None else Some(Live()[0])
      ensures StrictWeak(comp) && DownHeap() && r.Some? ==> forall x :: x in Live() ==> !comp(r.value, x)
      ensures StrictWeak(comp) && UpHeap() && r.Some? ==> forall x :: x in Live() ==> !comp(x, r.value)
    {
      if elemNums >= 1 {
        r := Some(data[1]);
        if StrictWeak(comp) && DownHeap() {
          forall x | x in Live() ensures !comp(data[1], x) {
            var i :| 0 <= i < |Live()| && Live()[i] == x;
            TopIsLast(comp, data, elemNums, i + 1);
          }
        }
        if StrictWeak(comp) && UpHeap() {
          forall x | x in Live() ensures !comp(x, data[1]) {
            var i :| 0 <= i < |Live()| && Live()[i] == x;
            TopIsFirst(comp, data, elemNums, i + 1);
          }
        }
      } else {
        r := None;
      }
    }

    /** Whatever came before, the top leaves and everything else stays; in the order of build and pop
        the rest is a heap again. */
    method Pop()
      requires Shaped() && StrictWeak(comp)
      modifies this
      ensures Shaped() && elemNums == if old(elemNums) == 0 then 0 else old(elemNums) - 1
      ensures data == if old(elemNums) == 0 then old(data) else AfterPop(comp, old(data), old(elemNums))
      ensures old(Live()) != [] ==> multiset(Live()) == old(multiset(Live()[1..]))
      ensures old(DownHeap()) ==> DownHeap()
    {
      hide StrictWeak, DownFrom, DownExcept, Swap, SiftDown;
      if elemNums > 0 {
        PopKeeps(comp, data, elemNums);
        assert Live()[1..] == data[2..elemNums + 1];
        data := Swap(data, 1, elemNums);
        elemNums := elemNums - 1;
        AdjustDown(1, 1);
      }
    }

    /** Whatever came before, the live elements gain one; in the order of push they stay a heap. */
    method Push(val: T)
      requires Shaped() && StrictWeak(comp)
      modifies this
      ensures Shaped() && elemNums == old(elemNums) + 1
      ensures data == SiftUp(comp, old(data)[..elemNums] + [val], elemNums)
      ensures multiset(Live()) == old(multiset(Live())) + multiset{val}
      ensures old(UpHeap()) ==> UpHeap()
    {
      hide SiftUp, StrictWeak;
      elemNums := elemNums + 1;
      data := data[..elemNums] + [val];
      assert Live() == old(Live()) + [val];
      if old(UpHeap()) {
        forall j: nat | 2 <= j <= elemNums && j != elemNums ensures Above(comp, data, j) {
          assert Above(comp, old(data), j);
        }
      }
      AdjustUp(elemNums);
    }
  }

  /** The loop of `Heap::sort`. */
  method PopAll<T(0, !new)>(heap: Heap<T>) returns (ret: seq<T>)
    requires heap.Shaped() && StrictWeak(heap.comp)
    modifies heap
    ensures ret == Drained(heap.comp, old(heap.data), old(heap.elemNums))
  {
    hide StrictWeak, AfterPop;
    ret := [];
    while heap.elemNums != 0
      invariant heap.Shaped()
      invariant ret + Drained(heap.comp, heap.data, heap.elemNums) == Drained(heap.comp, old(heap.data), old(heap.elemNums))
      decreases heap.elemNums
    {
      var top := heap.Top();
      ret := ret + [top.value];
      heap.Pop();
    }
  }

  /** `Heap::sort`: a permutation in which no element comes before a later one. */
  method Sort<T(0, !new)>(comp: (T, T) -> bool, vc: array<T>)
    requires StrictWeak(comp)
    modifies vc
    ensures multiset(vc[..]) == old(multiset(vc[..]))
    ensures InOrder(comp, vc[..])
  {
    hide StrictWeak, DownFrom, Drained, InOrder;
    var heap := new Heap<T>.FromValues(comp, vc[..]);
    DrainedIsAll(comp, heap.data, heap.elemNums);
    DrainedInOrder(comp, heap.data, heap.elemNums);
    var ret := PopAll(heap);
    assert |multiset(ret)| == |multiset(vc[..])|;
    Assign(vc, ret);
  }

  method Assign<T>(vc: array<T>, ret: seq<T>)
    requires |ret| == vc.Length
    modifies vc
    ensures vc[..] == ret
  {
    for i := 0 to vc.Length
      invariant forall k :: 0 <= k < i ==> vc[k] == ret[k]
    {
      vc[i] := ret[i];
    }
  }
}
