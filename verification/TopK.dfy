/** The bounded queue that keeps the k best elements, and its two-sided form.

    The standard priority queue underneath is taken by its contract: its top is some element that no
    other comes after, and stays the same until the next push or pop.
 */
module TopK {
  import opened Orders
  import opened Sequences
  import opened Wrappers

  /** `reversed_type::operator()`, as written. */
  function ReversedComp<T>(comp: (T, T) -> bool, a: T, b: T): bool {
    !comp(a, b) && !(!comp(a, b) && !comp(b, a))
  }

  function Reversed<T>(comp: (T, T) -> bool): (T, T) -> bool {
    (a, b) => ReversedComp(comp, a, b)
  }

  /** Reversing flips the comparator, gives a strict weak order again, and undoes itself. */
  lemma ReversedFlips<T(!new)>(comp: (T, T) -> bool)
    requires StrictWeak(comp)
    ensures forall a, b :: Reversed(comp)(a, b) == comp(b, a)
    ensures StrictWeak(Reversed(comp))
    ensures forall a, b :: Reversed(Reversed(comp))(a, b) == comp(a, b)
  {
    assert forall a, b :: Reversed(comp)(a, b) == comp(b, a);
  }

  class PriorityQueue<T(!new, ==)> {
    const less: (T, T) -> bool
    var items: multiset<T>
    var top: Option<T>

    ghost predicate Valid()
      reads this
    {
      StrictWeak(less) && if items == multiset{} then top == None else top.Some? && IsTop(less, items, top.value)
    }

    constructor (less: (T, T) -> bool)
      requires StrictWeak(less)
      ensures Valid() && this.less == less && items == multiset{}
    {
      this.less, items, top := less, multiset{}, None;
    }

    /** Any element none comes after may surface. */
    method Settle()
      requires StrictWeak(less)
      modifies this`top
      ensures Valid()
    {
      if items == multiset{} {
        top := None;
      } else {
        TopExists(less, items);
        var t :| t in items && IsTop(less, items, t);
        top := Some(t);
      }
    }

    method Push(x: T)
      requires Valid()
      modifies this
      ensures Valid() && items == old(items) + multiset{x}
    {
      items := items + multiset{x};
      Settle();
    }

    method Pop()
      requires Valid() && items != multiset{}
      modifies this
      ensures Valid() && items == old(items) - multiset{old(top).value}
    {
      items := items - multiset{top.value};
      Settle();
    }
  }

  /** Kept elements are never beaten by dropped ones: comp(a, b) reads "b is better than a". */
  ghost predicate Beat<T(!new)>(comp: (T, T) -> bool, kept: multiset<T>, dropped: multiset<T>) {
    forall x, y :: x in kept && y in dropped ==> !comp(x, y)
  }

  ghost predicate Best<T(!new)>(comp: (T, T) -> bool, cap: nat, kept: multiset<T>, dropped: multiset<T>) {
    && Beat(comp, kept, dropped)
    && |kept| <= cap
    && (|kept| < cap ==> dropped == multiset{})
  }

  /** A full queue lets a better element in and the worst out. */
  lemma Exchange<T(!new)>(comp: (T, T) -> bool, cap: nat, kept: multiset<T>, dropped: multiset<T>, t: T, v: T, w: T)
    requires StrictWeak(comp) && Best(comp, cap, kept, dropped) && |kept| == cap
    requires t in kept && comp(t, v)
    requires w in kept + multiset{v} && forall x :: x in kept + multiset{v} ==> !comp(x, w)
    ensures Best(comp, cap, kept + multiset{v} - multiset{w}, dropped + multiset{w})
  {
    var kept' := kept + multiset{v} - multiset{w};
    forall x, y | x in kept' && y in dropped + multiset{w} ensures !comp(x, y) {
      assert x in kept + multiset{v};
      if y != w {
        assert y in dropped && !comp(t, y);
      }
    }
  }

  lemma Reject<T(!new)>(comp: (T, T) -> bool, cap: nat, kept: multiset<T>, dropped: multiset<T>, t: T, v: T)
    requires StrictWeak(comp) && Best(comp, cap, kept, dropped) && |kept| == cap
    requires t in kept && !comp(t, v) && forall x :: x in kept ==> !comp(x, t)
    ensures Best(comp, cap, kept, dropped + multiset{v})
  {
    forall x, y | x in kept && y in dropped + multiset{v} ensures !comp(x, y) {
      if y !in dropped {
        assert y == v && !comp(x, t);
      }
    }
  }

  /** The top of the queue underneath is the worst element it holds. */
  lemma TopIsWorst<T(!new)>(comp: (T, T) -> bool, m: multiset<T>, t: T)
    requires StrictWeak(comp) && IsTop(Reversed(comp), m, t)
    ensures t in m && forall x :: x in m ==> !comp(x, t)
  {
    ReversedFlips(comp);
    forall x | x in m ensures !comp(x, t) {
      assert !Reversed(comp)(t, x);
    }
  }

  lemma TakeWorst<T(!new)>(comp: (T, T) -> bool, ret: seq<T>, rest: multiset<T>, t: T)
    requires WorstFirst(comp, ret, rest) && t in rest && forall x :: x in rest ==> !comp(x, t)
    ensures WorstFirst(comp, ret + [t], rest - multiset{t})
    ensures multiset(ret + [t]) + (rest - multiset{t}) == multiset(ret) + rest
  {
  }

  class TopKQueue<T(!new, ==)> {
    const cap: nat
    const comp: (T, T) -> bool
    const pq: PriorityQueue<T>
    ghost var dropped: multiset<T>

    ghost predicate Valid()
      reads this, pq
    {
      && 1 <= cap && StrictWeak(comp)
      && pq.Valid() && pq.less == Reversed(comp)
      && Best(comp, cap, pq.items, dropped)
    }

    /** Everything pushed since the queue was created or last emptied. */
    ghost function Pushed(): multiset<T>
      reads this, pq
    {
      pq.items + dropped
    }

    constructor (comp: (T, T) -> bool, capacity: nat)
      requires 1 <= capacity && StrictWeak(comp)
      ensures Valid() && fresh(pq) && this.comp == comp && cap == capacity
      ensures Pushed() == multiset{}
    {
      ReversedFlips(comp);
      this.comp, cap := comp, capacity;
      pq := new PriorityQueue<T>(Reversed(comp));
      dropped := multiset{};
    }

    method Push(val: T)
      requires Valid()
      modifies this, pq
      ensures Valid() && Pushed() == old(Pushed()) + multiset{val}
      ensures |old(pq.items)| < cap ==> pq.items == old(pq.items) + multiset{val}
      ensures |old(pq.items)| >= cap ==>
                if forall x :: x in old(pq.items) ==> !comp(x, val) then pq.items == old(pq.items)
                else exists w :: w in old(pq.items) && pq.items == old(pq.items) + multiset{val} - multiset{w}
    {
      hide StrictWeak, ReversedComp;
      ReversedFlips(comp);
      if |pq.items| < cap {
        pq.Push(val);
      } else {
        hide Best, IsTop;
        Full();
        ghost var kept, t := pq.items, pq.top.value;
        TopIsWorst(comp, kept, t);
        assert ReversedComp(comp, val, t) == Reversed(comp)(val, t);
        if ReversedComp(comp, val, pq.top.value) {
          pq.Push(val);
          ghost var w := pq.top.value;
          TopIsWorst(comp, pq.items, w);
          Exchange(comp, cap, kept, dropped, t, val, w);
          pq.Pop();
          dropped := dropped + multiset{w};
        } else {
          Reject(comp, cap, kept, dropped, t, val);
          dropped := dropped + multiset{val};
        }
      }
    }

    lemma Full()
      requires Valid() && |pq.items| >= cap
      ensures |pq.items| == cap && pq.items != multiset{} && pq.top.Some?
      ensures IsTop(Reversed(comp), pq.items, pq.top.value)
    {
    }

    /** Empties the queue, best element first. */
    method Pop() returns (ret: seq<T>)
      requires Valid()
      modifies this, pq
      ensures Valid() && Pushed() == multiset{}
      ensures multiset(ret) == old(pq.items) && InOrder(comp, ret)
    {
      ReversedFlips(comp);
      ret := [];
      while pq.items != multiset{}
        invariant pq.Valid()
        invariant multiset(ret) + pq.items == old(pq.items)
        invariant WorstFirst(comp, ret, pq.items)
        decreases |pq.items|
      {
        hide StrictWeak, WorstFirst, IsTop;
        TopIsWorst(comp, pq.items, pq.top.value);
        TakeWorst(comp, ret, pq.items, pq.top.value);
        ret := ret + [pq.top.value];
        pq.Pop();
      }
      ReverseKeepsMultiset(ret);
      ret := Reverse(ret);
      dropped := multiset{};
    }
  }

  /** What has left came worst first, and nothing left behind is worse. */
  ghost predicate WorstFirst<T(!new)>(comp: (T, T) -> bool, ret: seq<T>, rest: multiset<T>) {
    && (forall i, j :: 0 <= i < j < |ret| ==> !comp(ret[j], ret[i]))
    && (forall i, x :: 0 <= i < |ret| && x in rest ==> !comp(x, ret[i]))
  }

  // ----- what a queue hands out depends only on what was pushed -----

  /** ret are k best of the elements pushed, best first: all of them if there are no more than k. */
  ghost predicate IsTopK<T(!new)>(comp: (T, T) -> bool, k: nat, pushed: multiset<T>, ret: seq<T>) {
    && |ret| == (if |pushed| < k then |pushed| else k)
    && multiset(ret) <= pushed
    && InOrder(comp, ret)
    && Beat(comp, multiset(ret), pushed - multiset(ret))
  }

  lemma BestIsTopK<T(!new)>(comp: (T, T) -> bool, k: nat, kept: multiset<T>, dropped: multiset<T>, ret: seq<T>)
    requires Best(comp, k, kept, dropped) && multiset(ret) == kept && InOrder(comp, ret)
    ensures IsTopK(comp, k, kept + dropped, ret)
  {
    assert kept + dropped - kept == dropped;
    assert |multiset(ret)| == |ret|;
  }

  /** How many elements of s are better than t. */
  function Better<T>(comp: (T, T) -> bool, s: seq<T>, t: T): nat {
    if s == [] then 0 else Better(comp, s[..|s| - 1], t) + if comp(t, s[|s| - 1]) then 1 else 0
  }

  lemma {:induction false} BetterConcat<T>(comp: (T, T) -> bool, a: seq<T>, b: seq<T>, t: T)
    ensures Better(comp, a + b, t) == Better(comp, a, t) + Better(comp, b, t)
    decreases |b|
  {
    if b == [] {
      assert a + b == a;
    } else {
      assert (a + b)[..|a + b| - 1] == a + b[..|b| - 1];
      BetterConcat(comp, a, b[..|b| - 1], t);
    }
  }

  lemma BetterPutBack<T>(comp: (T, T) -> bool, rest: seq<T>, x: seq<T>, e: T, y: seq<T>, t: T)
    requires Better(comp, rest, t) == Better(comp, x + y, t)
    ensures Better(comp, [e] + rest, t) == Better(comp, x + [e] + y, t)
  {
    BetterConcat(comp, [e], rest, t);
    BetterConcat(comp, x, y, t);
    BetterConcat(comp, x, [e], t);
    BetterConcat(comp, x + [e], y, t);
  }

  lemma Without<T>(x: seq<T>, e: T, y: seq<T>, rest: seq<T>)
    requires multiset([e] + rest) == multiset(x + [e] + y)
    ensures multiset(rest) == multiset(x + y)
  {
    assert multiset(rest) == multiset([e] + rest) - multiset{e};
    assert multiset(x + y) == multiset(x + [e] + y) - multiset{e};
  }

  lemma Split<T>(s: seq<T>, e: T) returns (x: seq<T>, y: seq<T>)
    requires e in multiset(s)
    ensures s == x + [e] + y
  {
    var i :| 0 <= i < |s| && s[i] == e;
    x, y := s[..i], s[i + 1..];
  }

  lemma {:induction false} BetterPermuted<T>(comp: (T, T) -> bool, a: seq<T>, b: seq<T>, t: T)
    requires multiset(a) == multiset(b)
    ensures Better(comp, a, t) == Better(comp, b, t)
    decreases |a|
  {
    hide Better;
    if a == [] {
      assert |multiset(b)| == 0 && a == b;
    } else {
      var rest := a[1..];
      assert a == [a[0]] + rest && a[0] in multiset(a);
      var x, y := Split(b, a[0]);
      Without(x, a[0], y, rest);
      BetterPermuted(comp, rest, x + y, t);
      BetterPutBack(comp, rest, x, a[0], y, t);
    }
  }

  lemma {:induction false} BetterAtMost<T>(comp: (T, T) -> bool, s: seq<T>, t: T, i: nat)
    requires i <= |s| && forall j :: i <= j < |s| ==> !comp(t, s[j])
    ensures Better(comp, s, t) <= i
    decreases |s|
  {
    if |s| > i {
      BetterAtMost(comp, s[..|s| - 1], t, i);
    } else if s != [] {
      BetterAtMost(comp, s[..|s| - 1], t, i - 1);
    }
  }

  lemma {:induction false} BetterAtLeast<T>(comp: (T, T) -> bool, s: seq<T>, t: T, i: nat)
    requires i <= |s| && forall j :: 0 <= j < i ==> comp(t, s[j])
    ensures i <= Better(comp, s, t)
    decreases |s|
  {
    if |s| > i {
      BetterAtLeast(comp, s[..|s| - 1], t, i);
    } else if s != [] {
      BetterAtLeast(comp, s[..|s| - 1], t, i - 1);
    }
  }

  ghost function Listed<T>(m: multiset<T>): (s: seq<T>)
    ensures multiset(s) == m
    decreases |m|
  {
    if m == multiset{} then []
    else
      var x :| x in m;
      assert m == m - multiset{x} + multiset{x};
      Listed(m - multiset{x}) + [x]
  }

  lemma FewBetter<T(!new)>(comp: (T, T) -> bool, r: seq<T>, d: seq<T>, i: nat)
    requires StrictWeak(comp) && InOrder(comp, r) && Beat(comp, multiset(r), multiset(d)) && i < |r|
    ensures Better(comp, r + d, r[i]) <= i
  {
    var t := r[i];
    forall j | i <= j < |r + d| ensures !comp(t, (r + d)[j]) {
      if j >= |r| {
        assert d[j - |r|] in multiset(d) && t in multiset(r);
      } else if j == i {
        assert !comp(t, t);
      }
    }
    BetterAtMost(comp, r + d, t, i);
  }

  lemma ManyBetter<T(!new)>(comp: (T, T) -> bool, r: seq<T>, d: seq<T>, t: T, i: nat)
    requires StrictWeak(comp) && InOrder(comp, r) && i < |r| && comp(t, r[i])
    ensures i < Better(comp, r + d, t)
  {
    forall j | 0 <= j < i + 1 ensures comp(t, (r + d)[j]) {
      assert j < i ==> !comp(r[j], r[i]);
    }
    BetterAtLeast(comp, r + d, t, i + 1);
  }

  lemma Parts<T(!new)>(comp: (T, T) -> bool, k: nat, pushed: multiset<T>, r: seq<T>) returns (d: seq<T>)
    requires IsTopK(comp, k, pushed, r)
    ensures multiset(r + d) == pushed && InOrder(comp, r) && Beat(comp, multiset(r), multiset(d))
    ensures |r| == if |pushed| < k then |pushed| else k
  {
    d := Listed(pushed - multiset(r));
  }

  lemma NotBetterAt<T(!new)>(comp: (T, T) -> bool, k: nat, pushed: multiset<T>, r1: seq<T>, r2: seq<T>, i: nat)
    requires StrictWeak(comp) && IsTopK(comp, k, pushed, r1) && IsTopK(comp, k, pushed, r2)
    requires i < |r1|
    ensures i < |r2| && !comp(r1[i], r2[i])
  {
    hide StrictWeak, IsTopK, InOrder, Beat, Better;
    var d1 := Parts(comp, k, pushed, r1);
    var d2 := Parts(comp, k, pushed, r2);
    if comp(r1[i], r2[i]) {
      FewBetter(comp, r1, d1, i);
      ManyBetter(comp, r2, d2, r1[i], i);
      BetterPermuted(comp, r1 + d1, r2 + d2, r1[i]);
      assert false;
    }
  }

  /** Two queues given the same elements, in whatever orders, hand out the same keys position by
      position. */
  lemma {:induction false} TopKIsDetermined<T(!new)>(comp: (T, T) -> bool, k: nat, pushed: multiset<T>, r1: seq<T>, r2: seq<T>)
    requires StrictWeak(comp) && IsTopK(comp, k, pushed, r1) && IsTopK(comp, k, pushed, r2)
    ensures |r1| == |r2| && forall i :: 0 <= i < |r1| ==> !comp(r1[i], r2[i]) && !comp(r2[i], r1[i])
  {
    forall i | 0 <= i < |r1| ensures !comp(r1[i], r2[i]) && !comp(r2[i], r1[i]) {
      NotBetterAt(comp, k, pushed, r1, r2, i);
      NotBetterAt(comp, k, pushed, r2, r1, i);
    }
  }

  // ----- the two-sided queue -----

  class TopBottomKQueue<T(!new, ==)> {
    const maxQueue: TopKQueue<T>
    const minQueue: TopKQueue<T>

    ghost predicate Valid()
      reads this, maxQueue, maxQueue.pq, minQueue, minQueue.pq
    {
      && maxQueue != minQueue && maxQueue.pq != minQueue.pq
      && maxQueue.Valid() && minQueue.Valid()
      && minQueue.comp == Reversed(maxQueue.comp) && minQueue.cap == maxQueue.cap
    }

    constructor (comp: (T, T) -> bool, capacity: nat)
      requires 1 <= capacity && StrictWeak(comp)
      ensures Valid() && fresh(maxQueue) && fresh(maxQueue.pq) && fresh(minQueue) && fresh(minQueue.pq)
      ensures maxQueue.comp == comp && maxQueue.cap == capacity
      ensures maxQueue.Pushed() == minQueue.Pushed() == multiset{}
    {
      ReversedFlips(comp);
      maxQueue := new TopKQueue<T>(comp, capacity);
      minQueue := new TopKQueue<T>(Reversed(comp), capacity);
    }

    /** One locked section of a push. */
    method Apply(h: Half<T>)
      requires Valid()
      modifies maxQueue, maxQueue.pq, minQueue, minQueue.pq
      ensures Valid()
      ensures maxQueue.Pushed() == old(maxQueue.Pushed()) + Share(h, true)
      ensures minQueue.Pushed() == old(minQueue.Pushed()) + Share(h, false)
    {
      hide TopKQueue<T>.Valid;
      match h {
        case ToMax(v) => maxQueue.Push(v);
        case ToMin(v) => minQueue.Push(v);
      }
    }
  }

  /** One of the two locked sections of a push. */
  datatype Half<T> = ToMax(val: T) | ToMin(val: T)

  ghost function Share<T>(h: Half<T>, toMax: bool): multiset<T> {
    if h.ToMax? == toMax then multiset{h.val} else multiset{}
  }

  /** The values that the halves of one kind carry in a schedule. */
  ghost function Given<T>(schedule: seq<Half<T>>, toMax: bool): multiset<T> {
    if schedule == [] then multiset{}
    else Given(schedule[..|schedule| - 1], toMax) + Share(schedule[|schedule| - 1], toMax)
  }

  method PushSchedule<T(!new, ==)>(q: TopBottomKQueue<T>, schedule: seq<Half<T>>)
    requires q.Valid() && q.maxQueue.Pushed() == q.minQueue.Pushed() == multiset{}
    modifies q.maxQueue, q.maxQueue.pq, q.minQueue, q.minQueue.pq
    ensures q.Valid()
    ensures q.maxQueue.Pushed() == Given(schedule, true)
    ensures q.minQueue.Pushed() == Given(schedule, false)
  {
    hide TopBottomKQueue<T>.Valid, TopKQueue<T>.Pushed, Share;
    var i := 0;
    while i < |schedule|
      invariant 0 <= i <= |schedule| && q.Valid()
      invariant q.maxQueue.Pushed() == Given(schedule[..i], true)
      invariant q.minQueue.Pushed() == Given(schedule[..i], false)
    {
      assert schedule[..i + 1][..i] == schedule[..i];
      q.Apply(schedule[i]);
      i := i + 1;
    }
    assert schedule[..|schedule|] == schedule;
  }

  /** The halves of concurrent pushes in any interleaving, every push having run both of its halves;
      then both sides are emptied. */
  method RunSchedule<T(!new, ==)>(comp: (T, T) -> bool, capacity: nat, schedule: seq<Half<T>>, ghost pushed: multiset<T>)
    returns (top: seq<T>, bottom: seq<T>)
    requires 1 <= capacity && StrictWeak(comp)
    requires Given(schedule, true) == pushed == Given(schedule, false)
    ensures IsTopK(comp, capacity, pushed, top)
    ensures IsTopK(Reversed(comp), capacity, pushed, bottom)
  {
    hide StrictWeak, IsTopK, TopKQueue<T>.Valid, TopKQueue<T>.Pushed;
    var q := new TopBottomKQueue<T>(comp, capacity);
    PushSchedule(q, schedule);
    top := Drain(q.maxQueue, pushed);
    bottom := Drain(q.minQueue, pushed);
  }

  method Drain<T(!new, ==)>(q: TopKQueue<T>, ghost pushed: multiset<T>) returns (ret: seq<T>)
    requires q.Valid() && q.Pushed() == pushed
    modifies q, q.pq
    ensures q.Valid() && IsTopK(q.comp, q.cap, pushed, ret)
  {
    ghost var kept, dropped := q.pq.items, q.dropped;
    assert Best(q.comp, q.cap, kept, dropped);
    hide TopKQueue<T>.Valid, Best, InOrder, IsTopK;
    ret := q.Pop();
    BestIsTopK(q.comp, q.cap, kept, dropped, ret);
  }
}
