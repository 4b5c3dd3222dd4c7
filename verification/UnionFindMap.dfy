/** The map-based union-find over arbitrary keys: no path compression, elements added on demand, and
    an error for a key that was never added.

    Keys are compared with `==`, standing for a `Less` that is a strict total order.
 */
module UnionFindMap {

  datatype Found<T> = At(root: T) | Unexist

  ghost predicate Hangs<T>(p: map<T, T>, rep: map<T, T>, rank: map<T, nat>, k: T)
    requires p.Keys == rep.Keys == rank.Keys && k in p
  {
    && p[k] in p && rep[k] in p
    && rep[p[k]] == rep[k] && p[rep[k]] == rep[k]
    && (if p[k] == k then rep[k] == k else rank[p[k]] < rank[k])
  }

  /** The parent links form trees, each named by its root. */
  ghost predicate Forest<T>(p: map<T, T>, rep: map<T, T>, rank: map<T, nat>) {
    p.Keys == rep.Keys == rank.Keys && forall k {:trigger Hangs(p, rep, rank, k)} :: k in p ==> Hangs(p, rep, rank, k)
  }

  ghost function Roots<T>(p: map<T, T>): set<T> {
    set k | k in p && p[k] == k
  }

  lemma {:induction false} RepIsRoot<T>(p: map<T, T>, rep: map<T, T>, rank: map<T, nat>, k: T)
    requires Forest(p, rep, rank) && k in p
    ensures rep[k] in p && p[rep[k]] == rep[k] && rep[rep[k]] == rep[k]
    decreases rank[k]
  {
    assert Hangs(p, rep, rank, k);
    if p[k] != k {
      RepIsRoot(p, rep, rank, p[k]);
    }
  }

  /** The class of a becomes part of the class of b, whose name stays. */
  ghost function Merge<T>(rep: map<T, T>, a: T, b: T): (r: map<T, T>)
    requires a in rep && b in rep
    ensures r.Keys == rep.Keys
    ensures forall k {:trigger r[k]} :: k in rep ==> r[k] == if rep[k] == rep[a] then rep[b] else rep[k]
  {
    map k | k in rep :: if rep[k] == rep[a] then rep[b] else rep[k]
  }

  ghost function Lift<T>(rep: map<T, T>, rank: map<T, nat>, a: T, lift: nat): (r: map<T, nat>)
    requires rep.Keys == rank.Keys && a in rep
    ensures r.Keys == rank.Keys
    ensures forall k {:trigger r[k]} :: k in rank ==> r[k] == if rep[k] == rep[a] then rank[k] + lift else rank[k]
  {
    map k | k in rank :: if rep[k] == rep[a] then rank[k] + lift else rank[k]
  }

  lemma HangRootUnderRoot<T>(p: map<T, T>, rep: map<T, T>, rank: map<T, nat>, a: T, b: T)
    requires Forest(p, rep, rank) && a in p && b in p && rep[a] != rep[b]
    ensures rep[a] in p && rep[b] in p
    ensures Forest(p[rep[a] := rep[b]], Merge(rep, a, b), Lift(rep, rank, a, rank[rep[b]] + 1))
    ensures |Roots(p[rep[a] := rep[b]])| == |Roots(p)| - 1
  {
    RepIsRoot(p, rep, rank, a);
    RepIsRoot(p, rep, rank, b);
    var p', rep', rank' := p[rep[a] := rep[b]], Merge(rep, a, b), Lift(rep, rank, a, rank[rep[b]] + 1);
    assert p'.Keys == p.Keys;
    forall k | k in p' ensures Hangs(p', rep', rank', k) {
      assert Hangs(p, rep, rank, k);
      RepIsRoot(p, rep, rank, k);
    }
    assert rep[a] in Roots(p);
    assert Roots(p') == Roots(p) - {rep[a]};
  }

  lemma AddRoot<T>(p: map<T, T>, rep: map<T, T>, rank: map<T, nat>, v: T)
    requires Forest(p, rep, rank) && v !in p
    ensures Forest(p[v := v], rep[v := v], rank[v := 0])
    ensures |Roots(p[v := v])| == |Roots(p)| + 1
  {
    var p', rep', rank' := p[v := v], rep[v := v], rank[v := 0];
    forall k | k in p' ensures Hangs(p', rep', rank', k) {
      if k != v {
        assert Hangs(p, rep, rank, k);
      }
    }
    assert v !in Roots(p);
    assert Roots(p') == Roots(p) + {v};
  }

  class UnionFindSet<T(==)> {
    var cnt: int
    var parent: map<T, T>
    ghost var rep: map<T, T>
    ghost var rank: map<T, nat>

    ghost predicate Valid()
      reads this
    {
      Forest(parent, rep, rank) && cnt == |Roots(parent)|
    }

    constructor ()
      ensures Valid() && parent == map[]
    {
      cnt, parent, rep, rank := 0, map[], map[], map[];
    }

    method Add(val: T)
      requires Valid()
      modifies this
      ensures Valid()
      ensures rep == if val in old(rep) then old(rep) else old(rep)[val := val]
    {
      if val !in parent {
        AddRoot(parent, rep, rank, val);
        parent, rep, rank := parent[val := val], rep[val := val], rank[val := 0];
        cnt := cnt + 1;
      }
    }

    method Find(key: T) returns (r: Found<T>)
      requires Valid()
      ensures r == if key in rep then At(rep[key]) else Unexist
      decreases if key in rank then rank[key] else 0
    {
      if key !in parent {
        return Unexist;
      }
      assert Hangs(parent, rep, rank, key);
      var p := parent[key];
      if p == key {
        return At(key);
      }
      r := Find(p);
    }

    /** Nothing changes when a key is missing: both searches come before the first write. */
    method Connect(key1: T, key2: T) returns (ok: bool)
      requires Valid()
      modifies this
      ensures Valid() && ok == (key1 in old(rep) && key2 in old(rep))
      ensures ok ==> rep == Merge(old(rep), key1, key2)
      ensures ok ==> cnt == old(cnt) - if old(rep[key1] == rep[key2]) then 0 else 1
      ensures !ok ==> parent == old(parent) && rep == old(rep) && cnt == old(cnt)
    {
      var r1 := Find(key1);
      if r1.Unexist? {
        return false;
      }
      var r2 := Find(key2);
      if r2.Unexist? {
        return false;
      }
      if r1 != r2 {
        HangRootUnderRoot(parent, rep, rank, key1, key2);
        parent := parent[r1.root := r2.root];
        cnt := cnt - 1;
        rank := Lift(rep, rank, key1, rank[r2.root] + 1);
        rep := Merge(rep, key1, key2);
      } else {
        assert rep == Merge(rep, key1, key2);
      }
      ok := true;
    }

    /** `add` of two keys: both are present afterwards, and in one class. */
    method AddPair(key: T, val: T)
      requires Valid()
      modifies this
      ensures Valid() && key in rep && val in rep
      ensures rep == (var m := if key in old(rep) then old(rep) else old(rep)[key := key];
                      Merge(if val in m then m else m[val := val], key, val))
    {
      Add(key);
      Add(val);
      var _ := Connect(key, val);
    }
  }
}
