/** The skip list: a ladder of linked lists, edited in place.

    Keys are integers, standing for any type whose `<` is a strict total order.  The ghost
    `spine` lists the nodes in level-0 order, head first; `Linked` says that every pointer on
    every level is the one `SkipLevels.Next` prescribes.
 */
module SkipList {
  import opened Sequences
  import opened SkipLevels
  import opened Wrappers

  const MAX_LEVEL: nat := 20

  class SkipListNode<V(0)> {
    const key: int
    var val: V
    const level: nat
    var nextNodes: seq<SkipListNode?<V>>

    constructor (level: nat, k: int, v: V)
      ensures this.level == level && key == k && val == v
      ensures |nextNodes| == level && forall i :: 0 <= i < level ==> nextNodes[i] == null
    {
      this.level, key, val := level, k, v;
      nextNodes := seq(level, _ => null);
    }
  }

  /** How many levels each node of a spine is linked on. */
  ghost function Levels<V(0)>(s: seq<SkipListNode<V>>): (lv: seq<nat>)
    ensures |lv| == |s| && forall p :: 0 <= p < |s| ==> lv[p] == s[p].level
  {
    seq(|s|, p requires 0 <= p < |s| => s[p].level)
  }

  /** Behind the head the keys rise strictly. */
  ghost predicate Sorted<V(0)>(s: seq<SkipListNode<V>>) {
    forall p, q :: 1 <= p < q < |s| ==> s[p].key < s[q].key
  }

  ghost predicate Distinct<V(0)>(s: seq<SkipListNode<V>>) {
    forall p, q :: 0 <= p < q < |s| ==> s[p] != s[q]
  }

  /** P is the last position of s whose key lies below `key`. */
  ghost predicate Below<V(0)>(s: seq<SkipListNode<V>>, key: int, P: nat) {
    && P < |s|
    && (forall p :: 1 <= p <= P ==> s[p].key < key)
    && (forall p :: P < p < |s| ==> s[p].key >= key)
  }

  lemma BelowExists<V(0)>(s: seq<SkipListNode<V>>, key: int) returns (P: nat)
    requires 1 <= |s| && Sorted(s)
    ensures Below(s, key, P)
  {
    P := |s| - 1;
    while P > 0 && s[P].key >= key
      invariant P < |s| && forall p :: P < p < |s| ==> s[p].key >= key
    {
      P := P - 1;
    }
  }

  /** The level that a stream of draws gives to a node that fits the ladder: one more than there are low
      draws in front. */
  ghost predicate IsDrawn(low: nat -> bool, level: nat) {
    1 <= level <= MAX_LEVEL && (forall k :: 0 <= k < level - 1 ==> low(k)) && !low(level - 1)
  }

  /** One of the draws that count is not low. */
  ghost predicate Fits(low: nat -> bool) {
    exists k :: 0 <= k < MAX_LEVEL && !low(k)
  }

  /** `get_random_level` on a stream of draws, each of which is either below 0.5 or not. */
  ghost function RandomLevel(low: nat -> bool, level: nat): (r: nat)
    requires 1 <= level <= MAX_LEVEL + 1
    ensures level <= r <= MAX_LEVEL + 1
    ensures r <= MAX_LEVEL ==> !low(r - 1)
    ensures forall k :: level <= k + 1 < r ==> low(k)
    decreases MAX_LEVEL + 1 - level
  {
    if low(level - 1) && level <= MAX_LEVEL then RandomLevel(low, level + 1) else level
  }

  method GetRandomLevel(low: nat -> bool) returns (level: nat)
    ensures level == RandomLevel(low, 1)
    ensures if Fits(low) then IsDrawn(low, level) else level == MAX_LEVEL + 1
  {
    RandomLevelFits(low);
    level := 1;
    while low(level - 1) && level <= MAX_LEVEL
      invariant 1 <= level <= MAX_LEVEL + 1
      invariant RandomLevel(low, 1) == RandomLevel(low, level)
      decreases MAX_LEVEL + 1 - level
    {
      level := level + 1;
    }
  }

  /** The level drawn fits the ladder unless the first twenty draws are all low; then it is one
      more than the list has levels. */
  lemma RandomLevelFits(low: nat -> bool)
    ensures RandomLevel(low, 1) <= MAX_LEVEL <==> exists k :: 0 <= k < MAX_LEVEL && !low(k)
    ensures (forall k :: 0 <= k < MAX_LEVEL ==> low(k)) ==> RandomLevel(low, 1) == MAX_LEVEL + 1
  {
    var r := RandomLevel(low, 1);
    if r <= MAX_LEVEL {
      assert !low(r - 1);
    }
  }

  /** The node at a position of the spine; the end of the spine stands for nullptr. */
  ghost function At<V(0)>(s: seq<SkipListNode<V>>, q: nat): SkipListNode?<V> {
    if q < |s| then s[q] else null
  }

  /** `row` holds the pointers of node p: on every level on which the node is linked, the pointer
      leads to the next node linked there, and is nullptr behind the last one. */
  ghost predicate RowLinked<V(0)>(s: seq<SkipListNode<V>>, row: seq<SkipListNode?<V>>, p: nat)
    requires p < |s|
  {
    && |row| == s[p].level
    && forall i: nat :: i < s[p].level ==> row[i] == At(s, Next(Levels(s), p, i))
  }

  ghost predicate Linked<V(0)>(s: seq<SkipListNode<V>>, rows: seq<seq<SkipListNode?<V>>>) {
    |rows| == |s| && forall p :: 0 <= p < |s| ==> RowLinked(s, rows[p], p)
  }

  /** Node u, at position p, is the last one linked on level i up to position P. */
  ghost predicate LastOn<V(0)>(s: seq<SkipListNode<V>>, u: SkipListNode?<V>, p: nat, i: nat, P: nat) {
    p <= P < |s| && u == s[p] && i < s[p].level && P < Next(Levels(s), p, i)
  }

  /** `update` holds, from level i upwards, the nodes behind which position P + 1 is spliced. */
  ghost predicate Precedes<V(0)>(s: seq<SkipListNode<V>>, update: seq<SkipListNode?<V>>, upos: seq<nat>,
                                 P: nat, i: nat)
  {
    && |update| == |upos| == MAX_LEVEL && P < |s|
    && forall j :: i <= j < MAX_LEVEL ==> LastOn(s, update[j], upos[j], j, P)
  }

  lemma PrecedesMeans<V(0)>(s: seq<SkipListNode<V>>, update: seq<SkipListNode?<V>>, upos: seq<nat>, P: nat)
    requires Precedes(s, update, upos, P, 0)
    ensures |update| == |upos| == MAX_LEVEL && P < |s|
    ensures forall i :: 0 <= i < MAX_LEVEL ==>
              && upos[i] <= P && update[i] == s[upos[i]] && i < s[upos[i]].level
              && LastOn(s, update[i], upos[i], i, P)
  {
    forall i | 0 <= i < MAX_LEVEL
      ensures upos[i] <= P && update[i] == s[upos[i]] && i < s[upos[i]].level
    {
      assert LastOn(s, update[i], upos[i], i, P);
    }
  }

  /** Row `to` is row `from` of position p, with the pointer on each level below i sent to its target
      where p is the predecessor chosen for that level. */
  ghost predicate Redirected<V(0)>(from: seq<SkipListNode?<V>>, to: seq<SkipListNode?<V>>, p: nat,
                                   upos: seq<nat>, targets: seq<SkipListNode?<V>>, i: nat)
    requires i <= |targets| <= |upos|
  {
    && |to| == |from|
    && forall j :: 0 <= j < |from| ==> to[j] == if j < i && upos[j] == p then targets[j] else from[j]
  }

  lemma RedirectOneMore<V(0)>(from: seq<SkipListNode?<V>>, to: seq<SkipListNode?<V>>, p: nat,
                              upos: seq<nat>, targets: seq<SkipListNode?<V>>, i: nat)
    requires i < |targets| <= |upos| && (upos[i] == p ==> i < |to|)
    requires Redirected(from, to, p, upos, targets, i)
    ensures Redirected(from, if upos[i] == p then to[i := targets[i]] else to, p, upos, targets, i + 1)
  {
  }

  lemma LevelsAfterInsert<V(0)>(s: seq<SkipListNode<V>>, at: nat, n: SkipListNode<V>)
    requires at <= |s|
    ensures Levels(InsertAt(s, at, n)) == InsertAt(Levels(s), at, n.level)
  {
  }

  lemma AtAfterInsert<V(0)>(s: seq<SkipListNode<V>>, at: nat, n: SkipListNode<V>, q: nat)
    requires at <= |s|
    ensures At(InsertAt(s, at, n), Shift(at, q)) == At(s, q)
    ensures At(InsertAt(s, at, n), at) == n
  {
    hide InsertAt;
  }

  /** What the pointers of a spine become when node n is spliced in at P + 1: the pointer of the node
      that ends up at position p, on level i, given the level's predecessor u. */
  ghost function SplicedPointer<V(0)>(s: seq<SkipListNode<V>>, P: nat, n: SkipListNode<V>, u: nat,
                                      p: nat, i: nat): SkipListNode?<V>
    requires u <= P < |s| && p <= |s|
  {
    if p == u && i < n.level then n
    else At(s, Next(Levels(s), if p <= P then p else if p == P + 1 then u else p - 1, i))
  }

  lemma SplicedPointerIsLinked<V(0)>(s: seq<SkipListNode<V>>, P: nat, n: SkipListNode<V>, upos: seq<nat>,
                                     u: SkipListNode?<V>, p: nat, i: nat)
    requires i < |upos| && LastOn(s, u, upos[i], i, P)
    requires p <= |s| && i < InsertAt(Levels(s), P + 1, n.level)[p]
    ensures SplicedPointer(s, P, n, upos[i], p, i) ==
            At(InsertAt(s, P + 1, n), Next(InsertAt(Levels(s), P + 1, n.level), p, i))
  {
    hide Next, InsertAt;
    var lv := Levels(s);
    NextAfterSplice(lv, P + 1, n.level, upos[i], p, i);
    AtAfterInsert(s, P + 1, n, Next(lv, if p <= P then p else if p == P + 1 then upos[i] else p - 1, i));
  }

  /** The row that ends up at position p, pointer by pointer, after the splice loop. */
  lemma SplicedRow<V(0)>(s: seq<SkipListNode<V>>, rows: seq<seq<SkipListNode?<V>>>, P: nat,
                         n: SkipListNode<V>, row: seq<SkipListNode?<V>>,
                         upos: seq<nat>, rows': seq<seq<SkipListNode?<V>>>, p: nat)
    requires Linked(s, rows) && |row| == n.level <= MAX_LEVEL == |upos| && P < |s|
    requires forall i :: 0 <= i < MAX_LEVEL ==> upos[i] <= P && i < s[upos[i]].level
    requires forall i :: 0 <= i < n.level ==> row[i] == rows[upos[i]][i]
    requires |rows'| == |rows| && p <= |s|
    requires p != P + 1 ==>
               var q := if p <= P then p else p - 1;
               s[q].level <= MAX_LEVEL && Redirected(rows[q], rows'[q], q, upos, seq(n.level, _ => n), n.level)
    ensures |InsertAt(rows', P + 1, row)[p]| == InsertAt(s, P + 1, n)[p].level <= MAX_LEVEL
    ensures forall i :: 0 <= i < InsertAt(s, P + 1, n)[p].level ==>
              InsertAt(rows', P + 1, row)[p][i] == SplicedPointer(s, P, n, upos[i], p, i)
  {
  }

  lemma SplicedRowIsLinked<V(0)>(s: seq<SkipListNode<V>>, P: nat, n: SkipListNode<V>, r: seq<SkipListNode?<V>>,
                                 update: seq<SkipListNode?<V>>, upos: seq<nat>, p: nat)
    requires Precedes(s, update, upos, P, 0) && p <= |s|
    requires |r| == InsertAt(s, P + 1, n)[p].level <= MAX_LEVEL
    requires forall i :: 0 <= i < |r| ==> upos[i] <= P && r[i] == SplicedPointer(s, P, n, upos[i], p, i)
    ensures RowLinked(InsertAt(s, P + 1, n), r, p)
  {
    hide Next, InsertAt, SplicedPointer, LastOn;
    LevelsAfterInsert(s, P + 1, n);
    forall i: nat | i < |r|
      ensures r[i] == At(InsertAt(s, P + 1, n), Next(InsertAt(Levels(s), P + 1, n.level), p, i))
    {
      SplicedPointerIsLinked(s, P, n, upos, update[i], p, i);
    }
  }

  /** Splicing a node in behind its predecessors keeps every level linked. */
  lemma SpliceKeepsLinks<V(0)>(s: seq<SkipListNode<V>>, rows: seq<seq<SkipListNode?<V>>>, P: nat,
                               n: SkipListNode<V>, row: seq<SkipListNode?<V>>,
                               update: seq<SkipListNode?<V>>, upos: seq<nat>,
                               rows': seq<seq<SkipListNode?<V>>>)
    requires Linked(s, rows) && Precedes(s, update, upos, P, 0)
    requires |row| == n.level <= MAX_LEVEL
    requires forall i :: 0 <= i < n.level ==> upos[i] < |rows| && i < |rows[upos[i]]| && row[i] == rows[upos[i]][i]
    requires |rows'| == |rows| && forall p :: 0 <= p < |s| ==>
               Redirected(rows[p], rows'[p], p, upos, seq(n.level, _ => n), n.level)
    requires forall p :: 0 <= p < |s| ==> s[p].level <= MAX_LEVEL
    ensures Linked(InsertAt(s, P + 1, n), InsertAt(rows', P + 1, row))
  {
    hide Precedes, LastOn, Redirected, InsertAt, SplicedPointer, RowLinked;
    PrecedesMeans(s, update, upos, P);
    var s', r' := InsertAt(s, P + 1, n), InsertAt(rows', P + 1, row);
    forall p: nat | p < |s'| ensures RowLinked(s', r'[p], p) {
      SplicedRow(s, rows, P, n, row, upos, rows', p);
      SplicedRowIsLinked(s, P, n, r'[p], update, upos, p);
    }
  }

  lemma LevelsAfterRemove<V(0)>(s: seq<SkipListNode<V>>, at: nat)
    requires at < |s|
    ensures Levels(RemoveAt(s, at)) == RemoveAt(Levels(s), at)
  {
  }

  lemma AtAfterRemove<V(0)>(s: seq<SkipListNode<V>>, at: nat, q: nat)
    requires at < |s| && q != at
    ensures At(RemoveAt(s, at), Unshift(at, q)) == At(s, q)
  {
  }

  /** What the pointer of node p on level i becomes when the node at P + 1 is unspliced, given the
      level's predecessor u. */
  ghost function UnsplicedPointer<V(0)>(s: seq<SkipListNode<V>>, P: nat, u: nat, p: nat, i: nat): SkipListNode?<V>
    requires u <= P && P + 1 < |s| && p < |s|
  {
    At(s, Next(Levels(s), if p == u && i < s[P + 1].level then P + 1 else p, i))
  }

  lemma UnsplicedPointerIsLinked<V(0)>(s: seq<SkipListNode<V>>, P: nat, upos: seq<nat>,
                                       u: SkipListNode?<V>, p: nat, i: nat)
    requires P + 1 < |s| && i < |upos| && LastOn(s, u, upos[i], i, P)
    requires p < |s| && p != P + 1 && i < s[p].level
    ensures UnsplicedPointer(s, P, upos[i], p, i) ==
            At(RemoveAt(s, P + 1), Next(RemoveAt(Levels(s), P + 1), Unshift(P + 1, p), i))
  {
    hide Next, RemoveAt;
    var lv := Levels(s);
    NextAfterUnsplice(lv, P + 1, upos[i], p, i);
    AtAfterRemove(s, P + 1, if p == upos[i] && i < lv[P + 1] then Next(lv, P + 1, i) else Next(lv, p, i));
  }

  /** The row of node p, pointer by pointer, after the unsplice loop. */
  lemma UnsplicedRow<V(0)>(s: seq<SkipListNode<V>>, rows: seq<seq<SkipListNode?<V>>>, P: nat,
                           upos: seq<nat>, rows': seq<seq<SkipListNode?<V>>>, p: nat)
    requires Linked(s, rows) && P + 1 < |s| && s[P + 1].level <= |rows[P + 1]| <= |upos| == MAX_LEVEL
    requires forall i :: 0 <= i < MAX_LEVEL ==> upos[i] <= P && i < s[upos[i]].level
    requires |rows'| == |rows| && p < |s| && p != P + 1 && s[p].level <= MAX_LEVEL
    requires Redirected(rows[p], rows'[p], p, upos, rows[P + 1], s[P + 1].level)
    ensures |rows'[p]| == s[p].level
    ensures forall i :: 0 <= i < s[p].level ==> rows'[p][i] == UnsplicedPointer(s, P, upos[i], p, i)
  {
  }

  lemma UnsplicedRowIsLinked<V(0)>(s: seq<SkipListNode<V>>, P: nat, r: seq<SkipListNode?<V>>,
                                   update: seq<SkipListNode?<V>>, upos: seq<nat>, p: nat)
    requires Precedes(s, update, upos, P, 0) && P + 1 < |s|
    requires p < |s| && p != P + 1
    requires |r| == s[p].level <= MAX_LEVEL
    requires forall i :: 0 <= i < |r| ==> upos[i] <= P && r[i] == UnsplicedPointer(s, P, upos[i], p, i)
    ensures RowLinked(RemoveAt(s, P + 1), r, Unshift(P + 1, p))
  {
    hide Next, RemoveAt, UnsplicedPointer, LastOn;
    LevelsAfterRemove(s, P + 1);
    forall i: nat | i < |r|
      ensures r[i] == At(RemoveAt(s, P + 1), Next(RemoveAt(Levels(s), P + 1), Unshift(P + 1, p), i))
    {
      UnsplicedPointerIsLinked(s, P, upos, update[i], p, i);
    }
  }

  /** Unsplicing the node behind its predecessors keeps every level linked. */
  lemma UnspliceKeepsLinks<V(0)>(s: seq<SkipListNode<V>>, rows: seq<seq<SkipListNode?<V>>>, P: nat,
                                 update: seq<SkipListNode?<V>>, upos: seq<nat>,
                                 rows': seq<seq<SkipListNode?<V>>>)
    requires Linked(s, rows) && Precedes(s, update, upos, P, 0)
    requires P + 1 < |s| && s[P + 1].level <= |rows[P + 1]| <= |upos|
    requires forall p :: 0 <= p < |s| ==> s[p].level <= MAX_LEVEL
    requires |rows'| == |rows| && forall p :: 0 <= p < |s| && p != P + 1 ==>
               Redirected(rows[p], rows'[p], p, upos, rows[P + 1], s[P + 1].level)
    ensures Linked(RemoveAt(s, P + 1), RemoveAt(rows', P + 1))
  {
    hide Precedes, LastOn, Redirected, RemoveAt, UnsplicedPointer, RowLinked;
    PrecedesMeans(s, update, upos, P);
    var s', r' := RemoveAt(s, P + 1), RemoveAt(rows', P + 1);
    forall p: nat | p < |s'| ensures RowLinked(s', r'[p], p) {
      var q := if p < P + 1 then p else p + 1;
      UnsplicedRow(s, rows, P, upos, rows', q);
      UnsplicedRowIsLinked(s, P, rows'[q], update, upos, q);
    }
  }

  /** Following the pointers of level i from the head leads, node by node, along the walk that
      `SkipLevels` prescribes, and ends in nullptr. */
  lemma LevelIsAChain<V(0)>(s: seq<SkipListNode<V>>, rows: seq<seq<SkipListNode?<V>>>, p: nat, i: nat, k: nat)
    requires Linked(s, rows) && p < |s| && i < s[p].level
    requires k < |Walk(Levels(s), p, i)|
    ensures var w := Walk(Levels(s), p, i);
            && w[k] < |s| && i < s[w[k]].level
            && rows[w[k]][i] == if k + 1 < |w| then At(s, w[k + 1]) else null
    decreases k
  {
    WalkVisitsTheTallNodes(Levels(s), p, i);
    var w := Walk(Levels(s), p, i);
    assert RowLinked(s, rows[p], p);
    if k > 0 {
      LevelIsAChain(s, rows, w[1], i, k - 1);
    }
  }

  /** The spine proper: the head first, then nodes of rising key, all within the ladder. */
  ghost predicate Shaped<V(0)>(s: seq<SkipListNode<V>>, head: SkipListNode<V>) {
    && 1 <= |s| && s[0] == head && head.level == MAX_LEVEL
    && Distinct(s)
    && Sorted(s)
    && forall p :: 0 <= p < |s| ==> 1 <= s[p].level <= MAX_LEVEL
  }

  /** The nodes behind the head carry exactly the entries of m. */
  ghost predicate Carries<V(0)>(s: seq<SkipListNode<V>>, vals: seq<V>, m: map<int, V>) {
    && |vals| == |s| == |m| + 1
    && (forall p :: 1 <= p < |s| ==> s[p].key in m && m[s[p].key] == vals[p])
    && (forall k :: k in m ==> exists p :: 1 <= p < |s| && s[p].key == k)
  }

  lemma InsertKeepsShape<V(0)>(s: seq<SkipListNode<V>>, head: SkipListNode<V>, P: nat, n: SkipListNode<V>)
    requires Shaped(s, head) && Below(s, n.key, P) && n !in s && 1 <= n.level <= MAX_LEVEL
    requires P + 1 < |s| ==> s[P + 1].key != n.key
    ensures Shaped(InsertAt(s, P + 1, n), head)
  {
    hide InsertAt;
  }

  lemma InsertKeepsEntries<V(0)>(s: seq<SkipListNode<V>>, vals: seq<V>, m: map<int, V>, P: nat,
                                 n: SkipListNode<V>, v: V)
    requires Carries(s, vals, m) && P < |s| && n.key !in m
    ensures Carries(InsertAt(s, P + 1, n), InsertAt(vals, P + 1, v), m[n.key := v])
  {
    hide InsertAt;
    var s', m' := InsertAt(s, P + 1, n), m[n.key := v];
    forall k | k in m' ensures exists p :: 1 <= p < |s'| && s'[p].key == k {
      if k == n.key {
        assert s'[P + 1].key == k;
      } else {
        var p :| 1 <= p < |s| && s[p].key == k;
        assert s'[if p <= P then p else p + 1].key == k;
      }
    }
  }

  lemma RemoveKeepsShape<V(0)>(s: seq<SkipListNode<V>>, head: SkipListNode<V>, at: nat)
    requires Shaped(s, head) && 1 <= at < |s|
    ensures Shaped(RemoveAt(s, at), head)
  {
    hide RemoveAt;
  }

  lemma RemoveKeepsEntries<V(0)>(s: seq<SkipListNode<V>>, head: SkipListNode<V>, vals: seq<V>, m: map<int, V>, at: nat)
    requires Carries(s, vals, m) && Shaped(s, head) && 1 <= at < |s|
    ensures Carries(RemoveAt(s, at), RemoveAt(vals, at), m - {s[at].key})
    ensures |m - {s[at].key}| == |m| - 1
  {
    hide RemoveAt;
    var s', m' := RemoveAt(s, at), m - {s[at].key};
    assert m'.Keys == m.Keys - {s[at].key};
    forall k | k in m' ensures exists p :: 1 <= p < |s'| && s'[p].key == k {
      var p :| 1 <= p < |s| && s[p].key == k;
      assert s'[if p < at then p else p - 1].key == k;
    }
  }

  lemma AssignKeepsEntries<V(0)>(s: seq<SkipListNode<V>>, head: SkipListNode<V>, vals: seq<V>, m: map<int, V>,
                                 p: nat, v: V)
    requires Carries(s, vals, m) && Shaped(s, head) && p < |s| && s[p].key in m
    requires p != 0
    ensures Carries(s, vals[p := v], m[s[p].key := v])
    ensures forall q :: 0 <= q < |s| && q != p ==> s[q] != s[p]
    ensures |m[s[p].key := v]| == |m|
  {
    assert m[s[p].key := v].Keys == m.Keys;
  }

  lemma AbsentBehind<V(0)>(s: seq<SkipListNode<V>>, head: SkipListNode<V>, vals: seq<V>, m: map<int, V>, key: int, P: nat)
    requires Shaped(s, head) && Carries(s, vals, m) && Below(s, key, P)
    ensures key in m <==> P + 1 < |s| && s[P + 1].key == key
  {
  }

  /** The pointers of every node of a spine. */
  ghost function Rows<V(0)>(s: seq<SkipListNode<V>>): (rows: seq<seq<SkipListNode?<V>>>)
    reads s
    ensures |rows| == |s| && forall p :: 0 <= p < |s| ==> rows[p] == s[p].nextNodes
  {
    seq(|s|, p requires 0 <= p < |s| reads s => s[p].nextNodes)
  }

  ghost function Vals<V(0)>(s: seq<SkipListNode<V>>): (vals: seq<V>)
    reads s
    ensures |vals| == |s| && forall p :: 0 <= p < |s| ==> vals[p] == s[p].val
  {
    seq(|s|, p requires 0 <= p < |s| reads s => s[p].val)
  }

  lemma RowsAfterRemove<V(0)>(s: seq<SkipListNode<V>>, at: nat)
    requires at < |s|
    ensures Rows(RemoveAt(s, at)) == RemoveAt(Rows(s), at)
    ensures Vals(RemoveAt(s, at)) == RemoveAt(Vals(s), at)
  {
  }

  lemma RowsAfterInsert<V(0)>(s: seq<SkipListNode<V>>, at: nat, n: SkipListNode<V>)
    requires at <= |s|
    ensures Rows(InsertAt(s, at, n)) == InsertAt(Rows(s), at, n.nextNodes)
    ensures Vals(InsertAt(s, at, n)) == InsertAt(Vals(s), at, n.val)
  {
  }

  /** The spine is a skip list under `head` that stands for the map m. */
  ghost predicate Stands<V(0)>(s: seq<SkipListNode<V>>, head: SkipListNode<V>, m: map<int, V>)
    reads s
  {
    Shaped(s, head) && Linked(s, Rows(s)) && Carries(s, Vals(s), m)
  }

  /** The spine after the splice loop, with the node. */
  lemma AfterSplice<V(0)>(s: seq<SkipListNode<V>>, head: SkipListNode<V>, m: map<int, V>, n: SkipListNode<V>,
                          rows: seq<seq<SkipListNode?<V>>>, P: nat, update: seq<SkipListNode?<V>>, upos: seq<nat>)
    requires Shaped(s, head) && Carries(s, Vals(s), m) && P < |s| && Below(s, n.key, P)
    requires n !in s && n.key !in m && 1 <= n.level == |n.nextNodes| <= MAX_LEVEL
    requires Linked(s, rows) && Precedes(s, update, upos, P, 0)
    requires forall i :: 0 <= i < n.level ==>
               upos[i] < |rows| && i < |rows[upos[i]]| && n.nextNodes[i] == rows[upos[i]][i]
    requires forall p :: 0 <= p < |s| ==> s[p].level <= MAX_LEVEL
    requires |Rows(s)| == |rows| && forall p :: 0 <= p < |s| ==>
               Redirected(rows[p], Rows(s)[p], p, upos, seq(n.level, _ => n), n.level)
    ensures Stands(InsertAt(s, P + 1, n), head, m[n.key := n.val]) && |m[n.key := n.val]| == |m| + 1
  {
    hide Shaped, Carries, Below, Linked, Precedes, Redirected, InsertAt, Rows, Vals;
    AbsentBehind(s, head, Vals(s), m, n.key, P);
    InsertKeepsShape(s, head, P, n);
    InsertKeepsEntries(s, Vals(s), m, P, n, n.val);
    SpliceKeepsLinks(s, rows, P, n, n.nextNodes, update, upos, Rows(s));
    RowsAfterInsert(s, P + 1, n);
  }

  /** The spine after the unsplice loop, without the node. */
  lemma AfterUnsplice<V(0)>(s: seq<SkipListNode<V>>, head: SkipListNode<V>, m: map<int, V>,
                            rows: seq<seq<SkipListNode?<V>>>, P: nat, update: seq<SkipListNode?<V>>, upos: seq<nat>)
    requires Shaped(s, head) && Carries(s, Vals(s), m)
    requires Linked(s, rows) && Precedes(s, update, upos, P, 0)
    requires P + 1 < |s| && s[P + 1].level <= |rows[P + 1]| <= |upos|
    requires forall p :: 0 <= p < |s| ==> s[p].level <= MAX_LEVEL
    requires |Rows(s)| == |rows| && forall p :: 0 <= p < |s| && p != P + 1 ==>
               Redirected(rows[p], Rows(s)[p], p, upos, rows[P + 1], s[P + 1].level)
    ensures Stands(RemoveAt(s, P + 1), head, m - {s[P + 1].key}) && |m - {s[P + 1].key}| == |m| - 1
  {
    hide Shaped, Carries, Linked, Precedes, Redirected, RemoveAt, Rows, Vals;
    RemoveKeepsShape(s, head, P + 1);
    RemoveKeepsEntries(s, head, Vals(s), m, P + 1);
    UnspliceKeepsLinks(s, rows, P, update, upos, Rows(s));
    RowsAfterRemove(s, P + 1);
  }

  /** A fresh node has been spliced in, with the key and the level drawn for it; no other node has changed
      its place. */
  ghost predicate Gained<V(0)>(s: seq<SkipListNode<V>>, s': seq<SkipListNode<V>>, key: int, low: nat -> bool) {
    |s'| == |s| + 1 && exists p: nat {:trigger s'[p]} ::
      && 1 <= p <= |s| && s' == InsertAt(s, p, s'[p])
      && s'[p] !in s && s'[p].key == key && IsDrawn(low, s'[p].level)
  }

  lemma GainsNode<V(0)>(s: seq<SkipListNode<V>>, p: nat, n: SkipListNode<V>, low: nat -> bool)
    requires 1 <= p <= |s| && n !in s && IsDrawn(low, n.level)
    ensures Gained(s, InsertAt(s, p, n), n.key, low)
  {
    hide InsertAt, IsDrawn;
    assert InsertAt(s, p, n)[p] == n;
  }

  /** The node with the key has been taken out. */
  ghost predicate Lost<V(0)>(s: seq<SkipListNode<V>>, s': seq<SkipListNode<V>>, key: int) {
    exists p: nat {:trigger s[p]} :: 1 <= p < |s| && s[p].key == key && s' == RemoveAt(s, p)
  }

  /** What a call does to the spine of a list that stands for m. */
  ghost predicate SpineStep<V(0)>(s: seq<SkipListNode<V>>, s': seq<SkipListNode<V>>, m: map<int, V>, op: Op<V>) {
    match op
    case InsertOp(k, _, low) => if k in m then s' == s else Gained(s, s', k, low)
    case EraseOp(k) => if k in m then Lost(s, s', k) else s' == s
  }

  class SkipList<V(0)> {
    const head: SkipListNode<V>
    var nodeNum: int

    ghost var spine: seq<SkipListNode<V>>
    ghost var contents: map<int, V>

    ghost predicate Valid()
      reads this, spine
    {
      Stands(spine, head, contents) && nodeNum == |contents|
    }

    constructor ()
      ensures Valid() && contents == map[]
      ensures fresh(head) && spine == [head]
    {
      var v: V := *;
      var h := new SkipListNode<V>(MAX_LEVEL, 0, v);
      head := h;
      nodeNum := 0;
      spine := [h];
      contents := map[];
    }

    /** One search loop on level i: from position p up to the last key below `key`. */
    method Advance(start: SkipListNode<V>, ghost p: nat, i: nat, key: int, ghost P: nat)
      returns (curr: SkipListNode<V>, ghost p': nat)
      requires Shaped(spine, head) && Linked(spine, Rows(spine)) && Below(spine, key, P)
      requires p <= P && spine[p] == start && i < start.level
      ensures LastOn(spine, curr, p', i, P)
    {
      curr, p' := start, p;
      assert RowLinked(spine, Rows(spine)[p'], p');
      while curr.nextNodes[i] != null && curr.nextNodes[i].key < key
        invariant p' <= P && spine[p'] == curr && i < curr.level
        decreases P - p'
      {
        assert RowLinked(spine, Rows(spine)[p'], p');
        p' := Next(Levels(spine), p', i);
        curr := curr.nextNodes[i];
        assert RowLinked(spine, Rows(spine)[p'], p');
      }
      assert RowLinked(spine, Rows(spine)[p'], p');
    }

    method Find(key: int) returns (r: SkipListNode?<V>)
      requires Valid()
      ensures r == null <==> key !in contents
      ensures r != null ==> r in spine[1..] && r.key == key && r.val == contents[key]
    {
      ghost var P := BelowExists(spine, key);
      var curr := head;
      ghost var p: nat := 0;
      var i := MAX_LEVEL;
      while i > 0
        invariant 0 <= i <= MAX_LEVEL
        invariant p <= P && spine[p] == curr && i <= curr.level
        invariant i < MAX_LEVEL ==> P < Next(Levels(spine), p, i)
      {
        i := i - 1;
        curr, p := Advance(curr, p, i, key, P);
      }
      assert RowLinked(spine, Rows(spine)[p], p);
      r := curr.nextNodes[0];
      if r == null || r.key != key {
        r := null;
      }
    }

    /** The search shared by insert and erase, which remembers the node it leaves each level from. */
    method Predecessors(key: int)
      returns (curr: SkipListNode<V>, update: seq<SkipListNode?<V>>, ghost upos: seq<nat>, ghost P: nat)
      requires Valid()
      ensures Below(spine, key, P) && curr == spine[P]
      ensures Precedes(spine, update, upos, P, 0)
      ensures 0 < |curr.nextNodes| && curr.nextNodes[0] == At(spine, P + 1)
    {
      P := BelowExists(spine, key);
      curr := head;
      update := seq(MAX_LEVEL, _ => null);
      upos := seq(MAX_LEVEL, _ => 0);
      ghost var p: nat := 0;
      var i := MAX_LEVEL;
      while i > 0
        invariant 0 <= i <= MAX_LEVEL && Precedes(spine, update, upos, P, i)
        invariant p <= P && spine[p] == curr && i <= curr.level
        invariant i < MAX_LEVEL ==> P < Next(Levels(spine), p, i)
      {
        i := i - 1;
        curr, p := Advance(curr, p, i, key, P);
        update := update[i := curr];
        upos := upos[i := p];
      }
      assert RowLinked(spine, Rows(spine)[p], p);
    }

    /** Redirecting the pointer of level i of its predecessor, seen on the rows of all nodes but one. */
    lemma RedirectStep(before: seq<seq<SkipListNode?<V>>>, upos: seq<nat>, targets: seq<SkipListNode?<V>>,
                       i: nat, except: nat)
      requires |before| == |spine| && i < |targets| <= |upos|
      requires upos[i] < |spine| && upos[i] != except && i < |before[upos[i]]|
      requires forall p :: 0 <= p < |spine| && p != except ==>
                 Redirected(before[p], Rows(spine)[p], p, upos, targets, i)
      ensures i < |spine[upos[i]].nextNodes| && spine[upos[i]].nextNodes[i] == before[upos[i]][i]
      ensures forall p :: 0 <= p < |spine| && p != except ==>
                Redirected(before[p], if upos[i] == p then spine[p].nextNodes[i := targets[i]]
                                      else spine[p].nextNodes, p, upos, targets, i + 1)
    {
      assert Redirected(before[upos[i]], Rows(spine)[upos[i]], upos[i], upos, targets, i);
      forall p | 0 <= p < |spine| && p != except
        ensures Redirected(before[p], if upos[i] == p then spine[p].nextNodes[i := targets[i]]
                                      else spine[p].nextNodes, p, upos, targets, i + 1)
      {
        assert Redirected(before[p], Rows(spine)[p], p, upos, targets, i);
        RedirectOneMore(before[p], spine[p].nextNodes, p, upos, targets, i);
      }
    }

    /** The splice loop of insert, as pointers: only the predecessors' pointers on the new node's
        levels change, and the new node takes over what they held. */
    method Splice(n: SkipListNode<V>, update: seq<SkipListNode?<V>>, ghost upos: seq<nat>)
      requires Distinct(spine) && n !in spine
      requires |n.nextNodes| == n.level <= |update| == |upos|
      requires forall i :: 0 <= i < n.level ==>
                 upos[i] < |spine| && update[i] == spine[upos[i]] && i < |spine[upos[i]].nextNodes|
      modifies n`nextNodes, spine`nextNodes
      ensures |n.nextNodes| == n.level
      ensures forall i :: 0 <= i < n.level ==> n.nextNodes[i] == old(Rows(spine))[upos[i]][i]
      ensures forall p :: 0 <= p < |spine| ==>
                Redirected(old(Rows(spine))[p], Rows(spine)[p], p, upos, seq(n.level, _ => n), n.level)
    {
      hide Rows;
      var i := 0;
      ghost var targets := seq(n.level, _ => n);
      while i < n.level
        invariant 0 <= i <= n.level == |n.nextNodes|
        invariant forall j :: 0 <= j < i ==> n.nextNodes[j] == old(Rows(spine))[upos[j]][j]
        invariant forall p :: 0 <= p < |spine| ==> Redirected(old(Rows(spine))[p], Rows(spine)[p], p, upos, targets, i)
      {
        hide Redirected;
        RedirectStep(old(Rows(spine)), upos, targets, i, |spine|);
        n.nextNodes := n.nextNodes[i := update[i].nextNodes[i]];
        update[i].nextNodes := update[i].nextNodes[i := n];
        i := i + 1;
      }
    }

    /** The unsplice loop of erase: the predecessors' pointers on the leaving node's levels take over
        what that node held. */
    method Unsplice(n: SkipListNode<V>, ghost at: nat, update: seq<SkipListNode?<V>>, ghost upos: seq<nat>)
      requires Distinct(spine) && at < |spine| && n == spine[at]
      requires |n.nextNodes| == n.level <= |update| == |upos|
      requires forall i :: 0 <= i < n.level ==>
                 upos[i] < at && update[i] == spine[upos[i]] && i < |spine[upos[i]].nextNodes|
      modifies spine`nextNodes
      ensures forall p :: 0 <= p < |spine| && p != at ==>
                Redirected(old(Rows(spine))[p], Rows(spine)[p], p, upos, old(n.nextNodes), n.level)
      ensures forall i :: 0 <= i < |n.nextNodes| ==> n.nextNodes[i] == null
    {
      hide Rows;
      var i := 0;
      ghost var targets := n.nextNodes;
      while i < n.level
        invariant 0 <= i <= n.level == |n.nextNodes|
        invariant forall j :: 0 <= j < n.level ==> n.nextNodes[j] == if j < i then null else targets[j]
        invariant forall p :: 0 <= p < |spine| && p != at ==>
                    Redirected(old(Rows(spine))[p], Rows(spine)[p], p, upos, targets, i)
      {
        hide Redirected;
        RedirectStep(old(Rows(spine)), upos, targets, i, at);
        update[i].nextNodes := update[i].nextNodes[i := n.nextNodes[i]];
        n.nextNodes := n.nextNodes[i := null];
        i := i + 1;
      }
    }

    method Insert(key: int, val: V, low: nat -> bool) returns (inserted: bool)
      requires Valid()
      requires key !in contents ==> Fits(low)
      modifies this`spine, this`contents, this`nodeNum, spine`nextNodes
      ensures Valid()
      ensures inserted <==> key !in old(contents)
      ensures contents == if inserted then old(contents)[key := val] else old(contents)
      ensures if inserted then Gained(old(spine), spine, key, low) else spine == old(spine)
      ensures forall p :: 0 <= p < |spine| ==> spine[p] in old(spine) || fresh(spine[p])
    {
      hide Shaped, Linked, Carries, Precedes, Below, InsertAt, Gained, Fits;
      var curr, update, upos, P := Predecessors(key);
      AbsentBehind(spine, head, Vals(spine), contents, key, P);
      curr := curr.nextNodes[0];
      if curr != null && curr.key == key {
        return false;
      }
      Create(key, val, low, update, upos, P);
      inserted := true;
    }

    /** The second half of insert: a node of the drawn level is made and goes in behind its predecessors. */
    method Create(key: int, val: V, low: nat -> bool, update: seq<SkipListNode?<V>>, ghost upos: seq<nat>, ghost P: nat)
      requires Valid() && Below(spine, key, P) && Precedes(spine, update, upos, P, 0)
      requires key !in contents && Fits(low)
      modifies this`spine, this`contents, this`nodeNum, spine`nextNodes
      ensures Valid() && contents == old(contents)[key := val] && Gained(old(spine), spine, key, low)
      ensures forall p :: 0 <= p < |spine| ==> spine[p] in old(spine) || fresh(spine[p])
    {
      assert P < |spine|;
      hide SkipList<V>.Valid, Precedes, Below, RandomLevel, Gained, InsertAt, Levels;
      var level := GetRandomLevel(low);
      assert 1 <= level <= MAX_LEVEL;
      var n := new SkipListNode<V>(level, key, val);
      GainsNode(spine, P + 1, n, low);
      hide IsDrawn, Fits;
      Link(n, update, upos, P);
    }

    /** A fresh node goes in behind its predecessors. */
    method Link(n: SkipListNode<V>, update: seq<SkipListNode?<V>>, ghost upos: seq<nat>, ghost P: nat)
      requires Valid() && Below(spine, n.key, P) && Precedes(spine, update, upos, P, 0)
      requires n !in spine && n.key !in contents
      requires 1 <= n.level == |n.nextNodes| <= MAX_LEVEL
      modifies this`spine, this`contents, this`nodeNum, n`nextNodes, spine`nextNodes
      ensures Valid() && spine == InsertAt(old(spine), P + 1, n)
      ensures contents == old(contents)[n.key := n.val]
    {
      hide Shaped, Linked, RowLinked, Carries, Precedes, Redirected, LastOn, Below, Rows, Vals, InsertAt, RemoveAt;
      PredecessorsReach(update, upos, P);
      Splice(n, update, upos);
      assert Vals(spine) == old(Vals(spine));
      AfterSplice(spine, head, contents, n, old(Rows(spine)), P, update, upos);
      hide Stands;
      spine := InsertAt(spine, P + 1, n);
      contents := contents[n.key := n.val];
      nodeNum := nodeNum + 1;
    }

    method Erase(key: int) returns (erased: bool)
      requires Valid()
      modifies this`spine, this`contents, this`nodeNum, spine`nextNodes
      ensures Valid()
      ensures erased <==> key in old(contents)
      ensures contents == old(contents) - {key}
      ensures if erased then Lost(old(spine), spine, key) else spine == old(spine)
      ensures forall p :: 0 <= p < |spine| ==> spine[p] in old(spine)
    {
      hide Shaped, Linked, Carries, Precedes, Below, RemoveAt;
      if nodeNum <= 0 {
        assert contents == map[];
        return false;
      }
      var curr, update, upos, P := Predecessors(key);
      AbsentBehind(spine, head, Vals(spine), contents, key, P);
      var n := curr.nextNodes[0];
      if n == null || n.key != key {
        return false;
      }
      Unlink(n, update, upos, P);
      erased := true;
    }

    /** The second half of erase: the node behind its predecessors is taken out. */
    method Unlink(n: SkipListNode<V>, update: seq<SkipListNode?<V>>, ghost upos: seq<nat>, ghost P: nat)
      requires Valid() && Precedes(spine, update, upos, P, 0)
      requires P + 1 < |spine| && n == spine[P + 1]
      modifies this`spine, this`contents, this`nodeNum, spine`nextNodes
      ensures Valid() && spine == RemoveAt(old(spine), P + 1)
      ensures contents == old(contents) - {n.key}
    {
      hide Shaped, Linked, RowLinked, Carries, Precedes, Redirected, LastOn, Below, Rows, Vals, InsertAt, RemoveAt;
      PredecessorsReach(update, upos, P);
      Unsplice(n, P + 1, update, upos);
      assert Vals(spine) == old(Vals(spine));
      AfterUnsplice(spine, head, contents, old(Rows(spine)), P, update, upos);
      hide Stands;
      spine := RemoveAt(spine, P + 1);
      contents := contents - {n.key};
      nodeNum := nodeNum - 1;
    }

    /** `operator[]` read: the value behind a present key, and nothing behind an absent one, for
        which the source throws. */
    method Index(key: int) returns (r: Option<V>)
      requires Valid()
      ensures r == if key in contents then Some(contents[key]) else None
    {
      var n := Find(key);
      r := if n == null then None else Some(n.val);
    }

    /** `operator[]` hands out a reference: writing through it changes that one entry. */
    method Assign(key: int, val: V) returns (found: bool)
      requires Valid()
      modifies this`contents, spine`val
      ensures Valid()
      ensures found <==> key in old(contents)
      ensures contents == if found then old(contents)[key := val] else old(contents)
    {
      hide Shaped, Linked, Carries, Rows, Vals, RowLinked, Below, LastOn;
      var n := Find(key);
      if n == null {
        return false;
      }
      ghost var p :| 1 <= p < |spine| && spine[p] == n;
      AssignKeepsEntries(spine, head, Vals(spine), contents, p, val);
      n.val := val;
      contents := contents[key := val];
      assert Rows(spine) == old(Rows(spine));
      assert Vals(spine) == old(Vals(spine))[p := val];
      found := true;
    }

    method Size() returns (n: int)
      requires Valid()
      ensures n == |contents|
    {
      n := nodeNum;
    }

    /** What the splice loops need to know of the state they start from. */
    lemma PredecessorsReach(update: seq<SkipListNode?<V>>, upos: seq<nat>, P: nat)
      requires Valid() && Precedes(spine, update, upos, P, 0)
      ensures |update| == |upos| == MAX_LEVEL && P < |spine| && Distinct(spine)
      ensures forall p :: 0 <= p < |spine| ==> |spine[p].nextNodes| == spine[p].level <= MAX_LEVEL
      ensures forall i :: 0 <= i < MAX_LEVEL ==>
                upos[i] <= P && update[i] == spine[upos[i]] && i < |spine[upos[i]].nextNodes|
    {
      PrecedesMeans(spine, update, upos, P);
      forall p | 0 <= p < |spine| ensures |spine[p].nextNodes| == spine[p].level {
        assert RowLinked(spine, Rows(spine)[p], p);
      }
    }

    lemma SpineIsSorted()
      requires Valid()
      ensures Sorted(spine)
    {
    }

    /** One call of a client. */
    method Apply(op: Op<V>)
      requires Valid()
      requires op.InsertOp? ==> Fits(op.low)
      modifies this`spine, this`contents, this`nodeNum, spine`nextNodes
      ensures Valid() && contents == MapStep(old(contents), op)
      ensures SpineStep(old(spine), spine, old(contents), op)
      ensures forall p :: 0 <= p < |spine| ==> spine[p] in old(spine) || fresh(spine[p])
    {
      hide SkipList<V>.Valid, Gained, Lost;
      match op {
        case InsertOp(k, v, low) => var _ := Insert(k, v, low);
        case EraseOp(k) => var _ := Erase(k);
      }
    }
  }

  /** A client's calls, each insert with the draws its level is made of. */
  datatype Op<V> = InsertOp(key: int, val: V, low: nat -> bool) | EraseOp(key: int)

  /** What the same call does to an ordered map: insert does not overwrite. */
  ghost function MapStep<V>(m: map<int, V>, op: Op<V>): map<int, V> {
    match op
    case InsertOp(k, v, _) => if k in m then m else m[k := v]
    case EraseOp(k) => m - {k}
  }

  ghost function MapAfter<V>(ops: seq<Op<V>>): map<int, V> {
    if ops == [] then map[] else MapStep(MapAfter(ops[..|ops| - 1]), ops[|ops| - 1])
  }

  /** The draws of the insert that made the entry of each key. */
  ghost function DrawsStep<V>(draws: map<int, nat -> bool>, op: Op<V>): map<int, nat -> bool> {
    match op
    case InsertOp(k, _, low) => if k in draws then draws else draws[k := low]
    case EraseOp(k) => draws - {k}
  }

  ghost function DrawsAfter<V>(ops: seq<Op<V>>): map<int, nat -> bool> {
    if ops == [] then map[] else DrawsStep(DrawsAfter(ops[..|ops| - 1]), ops[|ops| - 1])
  }

  /** Every node has the level drawn by the insert that made it. */
  ghost predicate LevelsDrawn<V(0)>(s: seq<SkipListNode<V>>, draws: map<int, nat -> bool>) {
    forall p :: 1 <= p < |s| ==> s[p].key in draws && IsDrawn(draws[s[p].key], s[p].level)
  }

  lemma LevelsStayDrawn<V(0)>(s: seq<SkipListNode<V>>, s': seq<SkipListNode<V>>, m: map<int, V>,
                              draws: map<int, nat -> bool>, op: Op<V>)
    requires Sorted(s) && Sorted(s') && draws.Keys == m.Keys && LevelsDrawn(s, draws) && SpineStep(s, s', m, op)
    ensures LevelsDrawn(s', DrawsStep(draws, op)) && DrawsStep(draws, op).Keys == MapStep(m, op).Keys
  {
    hide IsDrawn, InsertAt, RemoveAt;
    match op
    case InsertOp(k, _, low) =>
      if k !in m {
        var p: nat :| 1 <= p <= |s| && s' == InsertAt(s, p, s'[p]) && s'[p].key == k && IsDrawn(low, s'[p].level);
        forall q | 1 <= q < |s'| && q != p ensures s'[q].key != k && s'[q] == s[if q < p then q else q - 1] {
        }
      }
    case EraseOp(k) =>
      if k in m {
        var p: nat :| 1 <= p < |s| && s[p].key == k && s' == RemoveAt(s, p);
        forall q | 1 <= q < |s'| ensures s'[q].key != k && s'[q] == s[if q < p then q else q + 1] {
        }
      }
  }

  /** Any history of inserts and erases, from the empty list on, leaves a valid ladder that holds what
      the map holds, in nodes of the levels that were drawn for them. */
  method RunHistory<V(0)>(ops: seq<Op<V>>) returns (list: SkipList<V>)
    requires forall op :: op in ops && op.InsertOp? ==> Fits(op.low)
    ensures list.Valid() && list.contents == MapAfter(ops)
    ensures LevelsDrawn(list.spine, DrawsAfter(ops)) && DrawsAfter(ops).Keys == MapAfter(ops).Keys
  {
    hide SkipList<V>.Valid, MapStep, DrawsStep, SpineStep, LevelsDrawn, Fits;
    list := new SkipList<V>();
    NoLevels(list.spine);
    var i := 0;
    while i < |ops|
      invariant 0 <= i <= |ops|
      invariant fresh(list) && forall p :: 0 <= p < |list.spine| ==> fresh(list.spine[p])
      invariant list.Valid() && list.contents == MapAfter(ops[..i])
      invariant LevelsDrawn(list.spine, DrawsAfter(ops[..i])) && DrawsAfter(ops[..i]).Keys == MapAfter(ops[..i]).Keys
    {
      assert ops[..i + 1][..i] == ops[..i];
      ghost var before, m := list.spine, list.contents;
      list.SpineIsSorted();
      list.Apply(ops[i]);
      list.SpineIsSorted();
      LevelsStayDrawn(before, list.spine, m, DrawsAfter(ops[..i]), ops[i]);
      i := i + 1;
    }
    assert ops[..|ops|] == ops;
  }

  lemma NoLevels<V(0)>(s: seq<SkipListNode<V>>)
    requires |s| == 1
    ensures LevelsDrawn(s, map[])
  {
  }
}
