/** The geometry of a skip list, with the pointers taken away.

    A skip list holding n entries is seen as a spine of n + 1 nodes, the head first, and
    `lv[p]` is the number of levels on which node p is linked.  `Next` says where the pointer
    of node p on level i has to lead; the lemmas say how that changes when one node enters or
    leaves the spine, and what walking along one level visits.
 */
module SkipLevels {
  import opened Sequences

  /** The first position behind p that is linked on level i, or |lv| when there is none. */
  function Next(lv: seq<nat>, p: nat, i: nat): (q: nat)
    requires p < |lv|
    ensures p < q <= |lv|
    ensures forall r :: p < r < q ==> lv[r] <= i
    ensures q < |lv| ==> lv[q] > i
    decreases |lv| - p
  {
    if p + 1 == |lv| || lv[p + 1] > i then p + 1 else Next(lv, p + 1, i)
  }

  /** Splicing in a node at position `at`: every pointer that jumped over `at` on one of the new
      node's levels now stops there, and all other pointers keep their target. */
  lemma NextAfterInsert(lv: seq<nat>, at: nat, level: nat, p: nat, i: nat)
    requires 0 < at <= |lv| && p < |lv|
    ensures p < at ==> Next(InsertAt(lv, at, level), p, i) ==
                       if Next(lv, p, i) < at then Next(lv, p, i)
                       else if i < level then at
                       else Next(lv, p, i) + 1
    ensures at <= p ==> Next(InsertAt(lv, at, level), p + 1, i) == Next(lv, p, i) + 1
  {
    hide Next, InsertAt;
    var lv' := InsertAt(lv, at, level);
    var q := Next(lv, p, i);
    if p < at {
      var q' := if q < at then q else if i < level then at else q + 1;
      forall r | p < r < q' ensures lv'[r] <= i {
        assert lv'[r] == if r < at then lv[r] else if r == at then level else lv[r - 1];
      }
      NextIs(lv', p, i, q');
    } else {
      forall r | p + 1 < r < q + 1 ensures lv'[r] <= i {
        assert lv'[r] == lv[r - 1];
      }
      NextIs(lv', p + 1, i, q + 1);
    }
  }

  lemma NextIs(lv: seq<nat>, p: nat, i: nat, q: nat)
    requires p < q <= |lv| && (q < |lv| ==> lv[q] > i)
    requires forall r :: p < r < q ==> lv[r] <= i
    ensures Next(lv, p, i) == q
  {
    hide Next;
  }

  /** The new node's own pointers are those of its predecessor on each level. */
  lemma NextOfInserted(lv: seq<nat>, at: nat, level: nat, u: nat, i: nat)
    requires u < at <= |lv| && at <= Next(lv, u, i)
    ensures Next(InsertAt(lv, at, level), at, i) == Next(lv, u, i) + 1
  {
    var lv' := InsertAt(lv, at, level);
    assert forall r {:trigger lv[r]} :: at <= r < |lv| ==> lv'[r + 1] == lv[r];
    assert forall r :: at < r < |lv'| ==> lv'[r] == lv[r - 1];
    var q, q' := Next(lv, u, i), Next(lv', at, i);
    if q < |lv| {
      assert lv'[q + 1] == lv[q];
    }
  }

  /** The new place of what stood at position q before an insertion at `at`. */
  function Shift(at: nat, q: nat): nat {
    if q < at then q else q + 1
  }

  /** Up to `at`, the last node u linked on level i is the only one whose pointer there leads past. */
  lemma OnlyTheLastCrosses(lv: seq<nat>, at: nat, u: nat, p: nat, i: nat)
    requires u < at <= |lv| && lv[u] > i && at <= Next(lv, u, i)
    requires p < at && lv[p] > i
    ensures at <= Next(lv, p, i) <==> p == u
  {
  }

  /** Every pointer after an insertion at `at`, where u is the last node before `at` on level i. */
  lemma NextAfterSplice(lv: seq<nat>, at: nat, level: nat, u: nat, p: nat, i: nat)
    requires u < at <= |lv| && lv[u] > i && at <= Next(lv, u, i)
    requires p <= |lv| && i < InsertAt(lv, at, level)[p]
    ensures Next(InsertAt(lv, at, level), p, i) ==
            if p < at then if p == u && i < level then at else Shift(at, Next(lv, p, i))
            else Shift(at, Next(lv, if p == at then u else p - 1, i))
  {
    if p < at {
      OnlyTheLastCrosses(lv, at, u, p, i);
      NextAfterInsert(lv, at, level, p, i);
    } else if p == at {
      NextOfInserted(lv, at, level, u, i);
    } else {
      NextAfterInsert(lv, at, level, p - 1, i);
    }
  }

  lemma PutBack<T>(s: seq<T>, at: nat)
    requires at < |s|
    ensures InsertAt(RemoveAt(s, at), at, s[at]) == s
  {
  }

  /** Unsplicing position `at`: a pointer that led there now leads where that node's did. */
  lemma NextAfterRemove(lv: seq<nat>, at: nat, p: nat, i: nat)
    requires 0 < at < |lv| && p < |lv|
    ensures p < at ==> Next(RemoveAt(lv, at), p, i) ==
                       if Next(lv, p, i) < at then Next(lv, p, i)
                       else if Next(lv, p, i) == at then Next(lv, at, i) - 1
                       else Next(lv, p, i) - 1
    ensures at < p ==> Next(RemoveAt(lv, at), p - 1, i) == Next(lv, p, i) - 1
  {
    hide Next, InsertAt, RemoveAt;
    var lv' := RemoveAt(lv, at);
    PutBack(lv, at);
    if p < at {
      NextAfterInsert(lv', at, lv[at], p, i);
      if Next(lv, p, i) == at {
        NextOfInserted(lv', at, lv[at], p, i);
      }
    } else if at < p {
      NextAfterInsert(lv', at, lv[at], p - 1, i);
    }
  }

  /** The new place of what stood at position q after position `at` is gone. */
  function Unshift(at: nat, q: nat): nat
    requires q != at
  {
    if q < at then q else q - 1
  }

  /** Every pointer after position `at` is gone, where u is the last node before `at` on level i. */
  lemma {:induction false} NextAfterUnsplice(lv: seq<nat>, at: nat, u: nat, p: nat, i: nat)
    requires u < at < |lv| && lv[u] > i && at <= Next(lv, u, i)
    requires p < |lv| && p != at && lv[p] > i
    ensures var target := if p == u && i < lv[at] then Next(lv, at, i) else Next(lv, p, i);
            target != at && Next(RemoveAt(lv, at), Unshift(at, p), i) == Unshift(at, target)
  {
    NextAfterRemove(lv, at, p, i);
    if p < at {
      OnlyTheLastCrosses(lv, at, u, p, i);
    }
  }

  /** The positions met when level i is followed from position p to the end. */
  function Walk(lv: seq<nat>, p: nat, i: nat): (w: seq<nat>)
    requires p < |lv|
    decreases |lv| - p
  {
    var q := Next(lv, p, i);
    if q == |lv| then [p] else [p] + Walk(lv, q, i)
  }

  /** Following level i goes strictly forwards, ends, and visits exactly the nodes that are tall
      enough to be linked there. */
  lemma {:induction false} WalkVisitsTheTallNodes(lv: seq<nat>, p: nat, i: nat)
    requires p < |lv| && lv[p] > i
    ensures forall k :: 0 <= k < |Walk(lv, p, i)| ==> p <= Walk(lv, p, i)[k] < |lv|
    ensures forall k, m :: 0 <= k < m < |Walk(lv, p, i)| ==> Walk(lv, p, i)[k] < Walk(lv, p, i)[m]
    ensures forall q :: p <= q < |lv| ==> (q in Walk(lv, p, i) <==> lv[q] > i)
    decreases |lv| - p
  {
    var q := Next(lv, p, i);
    if q < |lv| {
      WalkVisitsTheTallNodes(lv, q, i);
      var w := Walk(lv, q, i);
      assert Walk(lv, p, i) == [p] + w;
      forall r | p < r < q ensures r !in [p] + w {
        assert r !in w;
      }
    }
  }

  /** The nodes of a walk that are also linked on level i. */
  function Tall(lv: seq<nat>, w: seq<nat>, i: nat): seq<nat>
    requires forall k :: 0 <= k < |w| ==> w[k] < |lv|
  {
    if w == [] then []
    else if lv[w[0]] > i then [w[0]] + Tall(lv, w[1..], i)
    else Tall(lv, w[1..], i)
  }

  /** Level i + 1 jumps over the next node of level i when that node is too short for it. */
  lemma NextThroughShorter(lv: seq<nat>, p: nat, i: nat)
    requires p < |lv| && Next(lv, p, i) < |lv|
    ensures Next(lv, p, i + 1) ==
            if lv[Next(lv, p, i)] > i + 1 then Next(lv, p, i) else Next(lv, Next(lv, p, i), i + 1)
  {
  }

  /** Level i + 1 is the sub-chain of level i made of the taller nodes, in the same order. */
  lemma {:induction false} HigherLevelIsSubchain(lv: seq<nat>, p: nat, i: nat)
    requires p < |lv| && lv[p] > i
    ensures forall k :: 0 <= k < |Walk(lv, p, i)| ==> Walk(lv, p, i)[k] < |lv|
    ensures Tall(lv, Walk(lv, p, i), i + 1) ==
            if lv[p] > i + 1 then Walk(lv, p, i + 1)
            else if Next(lv, p, i + 1) == |lv| then []
            else Walk(lv, Next(lv, p, i + 1), i + 1)
    decreases |lv| - p
  {
    WalkVisitsTheTallNodes(lv, p, i);
    var q, w := Next(lv, p, i), Walk(lv, p, i);
    if q == |lv| {
      assert w == [p] && w[1..] == [];
    } else {
      assert w == [p] + Walk(lv, q, i) && w[1..] == Walk(lv, q, i);
      HigherLevelIsSubchain(lv, q, i);
      NextThroughShorter(lv, p, i);
    }
  }
}
