/** The array union-find with path compression, and the components of a graph it computes.

    Ghost state gives the abstract value: `rep[i]` names the class of element i, and `rank` strictly
    falls along parent links, which is why the recursion of `Find` ends.
 */
module UnionFind {
  import opened Graph

  /** Element i hangs in the tree of its class: its parent is of the same class and ranks lower, unless
      i is the root, after which the class is named. */
  ghost predicate Hangs(p: seq<int>, rep: seq<nat>, rank: seq<nat>, i: int)
    requires |p| == |rep| == |rank| && 0 <= i < |p|
  {
    && 0 <= p[i] < |p| && rep[i] < |p|
    && rep[p[i]] == rep[i] && p[rep[i]] == rep[i]
    && (if p[i] == i then rep[i] == i else rank[p[i]] < rank[i])
  }

  /** p is a forest whose trees are the classes named by rep. */
  ghost predicate Forest(p: seq<int>, rep: seq<nat>, rank: seq<nat>) {
    |p| == |rep| == |rank| && forall i :: 0 <= i < |p| ==> Hangs(p, rep, rank, i)
  }

  ghost function Roots(p: seq<int>): set<int> {
    set i | 0 <= i < |p| && p[i] == i
  }

  /** Where `steps` parent links lead. */
  ghost function Climb(p: seq<int>, i: int, steps: nat): (j: int)
    requires 0 <= i < |p|
    ensures 0 <= j < |p|
    decreases steps
  {
    if steps == 0 || !(0 <= p[i] < |p|) then i else Climb(p, p[i], steps - 1)
  }

  lemma {:induction false} RootStays(p: seq<int>, i: int, steps: nat)
    requires 0 <= i < |p| && p[i] == i
    ensures Climb(p, i, steps) == i
    decreases steps
  {
    if steps > 0 {
      RootStays(p, i, steps - 1);
    }
  }

  /** The name of a class is the root at which the parent links of its elements end. */
  lemma {:induction false} ClimbEndsAtRep(p: seq<int>, rep: seq<nat>, rank: seq<nat>, i: int, steps: nat)
    requires Forest(p, rep, rank) && 0 <= i < |p| && (p[i] == i || rank[i] <= steps)
    ensures Climb(p, i, steps) == rep[i]
    decreases steps
  {
    assert Hangs(p, rep, rank, i);
    if steps > 0 {
      ClimbEndsAtRep(p, rep, rank, p[i], steps - 1);
    }
  }

  lemma {:induction false} RepRanksLower(p: seq<int>, rep: seq<nat>, rank: seq<nat>, i: int)
    requires Forest(p, rep, rank) && 0 <= i < |p|
    ensures rep[i] < |p| && p[rep[i]] == rep[i] && rep[rep[i]] == rep[i]
    ensures rep[i] == i || rank[rep[i]] < rank[i]
    decreases rank[i]
  {
    assert Hangs(p, rep, rank, i);
    if p[i] != i {
      RepRanksLower(p, rep, rank, p[i]);
    }
  }

  /** Path compression of one element keeps every class. */
  lemma PointAtRep(p: seq<int>, rep: seq<nat>, rank: seq<nat>, i: int)
    requires Forest(p, rep, rank) && 0 <= i < |p|
    ensures rep[i] < |p| && Forest(p[i := rep[i]], rep, rank)
    ensures Roots(p[i := rep[i]]) == Roots(p)
  {
    RepRanksLower(p, rep, rank, i);
    var p' := p[i := rep[i]];
    assert Hangs(p, rep, rank, i);
    forall k | 0 <= k < |p| ensures Hangs(p', rep, rank, k) {
      assert Hangs(p, rep, rank, k);
      RepRanksLower(p, rep, rank, k);
    }
  }

  /** The classes of a and b become one, named after a's. */
  ghost function Merge(rep: seq<nat>, a: int, b: int): (r: seq<nat>)
    requires 0 <= a < |rep| && 0 <= b < |rep|
    ensures |r| == |rep|
    ensures forall i {:trigger r[i]} :: 0 <= i < |rep| ==> r[i] == if rep[i] == rep[b] then rep[a] else rep[i]
  {
    seq(|rep|, i requires 0 <= i < |rep| => if rep[i] == rep[b] then rep[a] else rep[i])
  }

  ghost function Lift(rep: seq<nat>, rank: seq<nat>, ra: nat, rb: nat): (r: seq<nat>)
    requires |rep| == |rank| && ra < |rep|
    ensures |r| == |rank|
    ensures forall i {:trigger r[i]} :: 0 <= i < |rank| ==> r[i] == if rep[i] == rb then rank[i] + rank[ra] + 1 else rank[i]
  {
    seq(|rep|, i requires 0 <= i < |rep| => if rep[i] == rb then rank[i] + rank[ra] + 1 else rank[i])
  }

  lemma HangRootUnderRoot(p: seq<int>, rep: seq<nat>, rank: seq<nat>, a: int, b: int)
    requires Forest(p, rep, rank) && 0 <= a < |p| && 0 <= b < |p| && rep[a] != rep[b]
    ensures rep[a] < |p| && rep[b] < |p|
    ensures Forest(p[rep[b] := rep[a]], Merge(rep, a, b), Lift(rep, rank, rep[a], rep[b]))
    ensures |Roots(p[rep[b] := rep[a]])| == |Roots(p)| - 1
  {
    RepRanksLower(p, rep, rank, a);
    RepRanksLower(p, rep, rank, b);
    var p', rep', rank' := p[rep[b] := rep[a]], Merge(rep, a, b), Lift(rep, rank, rep[a], rep[b]);
    forall k | 0 <= k < |p| ensures Hangs(p', rep', rank', k) {
      assert Hangs(p, rep, rank, k);
      RepRanksLower(p, rep, rank, k);
    }
    assert rep[b] as int in Roots(p);
    assert Roots(p') == Roots(p) - {rep[b] as int};
  }

  // ----- the classes built from a graph are its components -----

  /** Every element is connected to the one naming its class. */
  ghost predicate Sound(e: Matrix, n: nat, rep: seq<nat>)
    requires Square(e, n)
  {
    |rep| == n && forall x: nat :: x < n ==> rep[x] < n && Connected(e, n, x, rep[x])
  }

  /** The scan has joined the ends of every edge it has read: the rows before i, and row i before j;
      of an undirected graph only what lies below the diagonal. */
  ghost predicate Joined(e: Matrix, n: nat, directed: bool, rep: seq<nat>, i: nat, j: nat)
    requires Square(e, n) && |rep| == n
  {
    forall x, y {:trigger e[x][y]} :: 0 <= x < n && 0 <= y < n && (x < i || (x == i && y < j)) ==>
      (directed || y < x) && e[x][y] != DUMMY ==> rep[x] == rep[y]
  }

  lemma MergeKeepsSound(e: Matrix, n: nat, rep: seq<nat>, a: nat, b: nat)
    requires Square(e, n) && Sound(e, n, rep) && Linked(e, n, a, b)
    ensures Sound(e, n, Merge(rep, a, b))
  {
    var rep' := Merge(rep, a, b);
    forall x: nat | x < n ensures rep'[x] < n && Connected(e, n, x, rep'[x]) {
      assert Connected(e, n, x, rep[x]) && rep[x] < n && rep[a] < n;
      if rep[x] == rep[b] {
        assert Connected(e, n, b, rep[b]) && Connected(e, n, a, rep[a]);
        ConnectedSymmetric(e, n, b, rep[b]);
        LinkConnects(e, n, b, a);
        ConnectedTransitive(e, n, x, rep[x], b);
        ConnectedTransitive(e, n, x, b, a);
        ConnectedTransitive(e, n, x, a, rep[a]);
      }
    }
  }

  lemma {:induction false} PathStaysInClass(e: Matrix, n: nat, rep: seq<nat>, path: seq<nat>)
    requires Square(e, n) && |rep| == n && IsPath(e, n, path)
    requires forall x: nat, y: nat :: x < n && y < n && Linked(e, n, x, y) ==> rep[x] == rep[y]
    ensures rep[path[0]] == rep[path[|path| - 1]]
    decreases |path|
  {
    if |path| > 1 {
      assert Linked(e, n, path[0], path[1]);
      forall k | 0 <= k < |path[1..]| - 1 ensures Linked(e, n, path[1..][k], path[1..][k + 1]) {
        assert Linked(e, n, path[k + 1], path[k + 1 + 1]);
      }
      PathStaysInClass(e, n, rep, path[1..]);
    }
  }

  /** Once everything is scanned, two nodes are in one class exactly when a path joins them. */
  lemma ClassesAreComponents(e: Matrix, n: nat, directed: bool, rep: seq<nat>, a: nat, b: nat)
    requires Square(e, n) && (!directed ==> Symmetric(e, n))
    requires Sound(e, n, rep) && Joined(e, n, directed, rep, n, 0)
    requires a < n && b < n
    ensures rep[a] == rep[b] <==> Connected(e, n, a, b)
  {
    if rep[a] == rep[b] {
      assert Connected(e, n, a, rep[a]) && Connected(e, n, b, rep[b]);
      ConnectedSymmetric(e, n, b, rep[b]);
      ConnectedTransitive(e, n, a, rep[a], b);
    }
    if Connected(e, n, a, b) {
      forall x: nat, y: nat | x < n && y < n && Linked(e, n, x, y) ensures rep[x] == rep[y] {
        assert e[x][y] != DUMMY || e[y][x] != DUMMY;
        assert !directed ==> e[x][y] == e[y][x];
      }
      var path :| IsPath(e, n, path) && path[0] == a && path[|path| - 1] == b;
      PathStaysInClass(e, n, rep, path);
    }
  }

  ghost function Component(e: Matrix, n: nat, a: nat): set<nat>
    requires Square(e, n)
  {
    set b: nat | b < n && Connected(e, n, a, b)
  }

  /** The set of connected components of the first m nodes. */
  ghost function Components(e: Matrix, n: nat, m: nat): set<set<nat>>
    requires Square(e, n) && m <= n
  {
    set a: nat | a < m :: Component(e, n, a)
  }

  /** There are as many components as roots. */
  lemma {:induction false} RootsCountComponents(e: Matrix, n: nat, p: seq<int>, rep: seq<nat>, rank: seq<nat>)
    requires Square(e, n) && Forest(p, rep, rank) && |p| == n
    requires forall a: nat, b: nat :: a < n && b < n ==> (rep[a] == rep[b] <==> Connected(e, n, a, b))
    ensures |Roots(p)| == |Components(e, n, n)|
  {
    var roots := Roots(p);
    var named := set r | r in roots :: Component(e, n, r);
    ComponentsOfRoots(e, n, p, rep, rank, roots);
    assert Components(e, n, n) == named by {
      forall a: nat | a < n ensures Component(e, n, a) in named {
        RepRanksLower(p, rep, rank, a);
        assert rep[a] as int in roots;
        SameComponent(e, n, rep, a, rep[a]);
      }
    }
  }

  lemma SameComponent(e: Matrix, n: nat, rep: seq<nat>, a: nat, b: nat)
    requires Square(e, n) && |rep| == n && a < n && b < n
    requires forall a: nat, b: nat :: a < n && b < n ==> (rep[a] == rep[b] <==> Connected(e, n, a, b))
    ensures Component(e, n, a) == Component(e, n, b) <==> rep[a] == rep[b]
  {
    assert b in Component(e, n, b) <==> Connected(e, n, b, b);
    assert b in Component(e, n, a) <==> Connected(e, n, a, b);
    if rep[a] == rep[b] {
      forall x: nat | x < n ensures x in Component(e, n, a) <==> x in Component(e, n, b) {
        assert rep[a] == rep[x] <==> Connected(e, n, a, x);
        assert rep[b] == rep[x] <==> Connected(e, n, b, x);
      }
    }
  }

  /** Different roots name different components. */
  lemma {:induction false} ComponentsOfRoots(e: Matrix, n: nat, p: seq<int>, rep: seq<nat>, rank: seq<nat>,
                                             rs: set<int>)
    requires Square(e, n) && Forest(p, rep, rank) && |p| == n && rs <= Roots(p)
    requires forall a: nat, b: nat :: a < n && b < n ==> (rep[a] == rep[b] <==> Connected(e, n, a, b))
    ensures |set r | r in rs :: Component(e, n, r)| == |rs|
    decreases rs
  {
    if rs != {} {
      var r :| r in rs;
      var rest := rs - {r};
      ComponentsOfRoots(e, n, p, rep, rank, rest);
      var named := set q | q in rest :: Component(e, n, q);
      assert (set q | q in rs :: Component(e, n, q)) == named + {Component(e, n, r)};
      forall q | q in rest ensures Component(e, n, q) != Component(e, n, r) {
        assert Hangs(p, rep, rank, q) && Hangs(p, rep, rank, r);
        SameComponent(e, n, rep, q, r);
      }
    }
  }

  class UnionFindSet {
    var cnt: int
    const parent: array<int>
    ghost var rep: seq<nat>
    ghost var rank: seq<nat>

    ghost predicate Valid()
      reads this, parent
    {
      Forest(parent[..], rep, rank) && cnt == |Roots(parent[..])|
    }

    constructor (n: nat)
      ensures Valid() && fresh(parent) && parent.Length == n && cnt == n
      ensures forall i :: 0 <= i < n ==> rep[i] == i
    {
      cnt := n;
      parent := new int[n];
      rep := seq(n, i => i);
      rank := seq(n, i => 0);
      new;
      for i := 0 to n
        invariant rep == seq(n, i => i) && rank == seq(n, i => 0) && cnt == n
        invariant forall k :: 0 <= k < i ==> parent[k] == k
      {
        parent[i] := i;
      }
      AllRoots(parent[..]);
    }

    /** The connected components of a graph, reading only below the diagonal when it is undirected. */
    constructor FromGraph(g: Graph<int>)
      requires g.Valid()
      ensures Valid() && fresh(parent) && parent.Length == g.nodeNum
      ensures forall a: nat, b: nat :: a < g.nodeNum && b < g.nodeNum ==>
                (rep[a] == rep[b] <==> Connected(g.edges, g.nodeNum, a, b))
      ensures cnt == |Components(g.edges, g.nodeNum, g.nodeNum)|
    {
      var n := g.nodeNum;
      cnt := n;
      parent := new int[n];
      rep := seq(n, i => i);
      rank := seq(n, i => 0);
      new;
      for i := 0 to n
        invariant rep == seq(n, i => i) && rank == seq(n, i => 0) && cnt == n
        invariant forall k :: 0 <= k < i ==> parent[k] == k
      {
        parent[i] := i;
      }
      AllRoots(parent[..]);
      forall x: nat | x < n ensures Connected(g.edges, n, x, rep[x]) {
        ConnectedToItself(g.edges, n, x);
      }
      for i := 0 to n
        invariant Valid() && |rep| == n
        invariant Sound(g.edges, n, rep) && Joined(g.edges, n, g.isDirected, rep, i, 0)
      {
        if g.isDirected {
          ScanRow(g.edges, n, true, i, n);
        } else {
          ScanRow(g.edges, n, false, i, i);
        }
      }
      forall a: nat, b: nat | a < n && b < n ensures rep[a] == rep[b] <==> Connected(g.edges, n, a, b) {
        ClassesAreComponents(g.edges, n, g.isDirected, rep, a, b);
      }
      RootsCountComponents(g.edges, n, parent[..], rep, rank);
    }

    /** One row of the scan. */
    method ScanRow(e: Matrix, ghost n: nat, ghost directed: bool, i: nat, upTo: nat)
      requires Valid() && Square(e, n) && |rep| == n
      requires i < n && upTo == if directed then n else i
      requires Sound(e, n, rep) && Joined(e, n, directed, rep, i, 0)
      modifies this, parent
      ensures Valid() && |rep| == n
      ensures Sound(e, n, rep) && Joined(e, n, directed, rep, i + 1, 0)
    {
      for j := 0 to upTo
        invariant Valid() && |rep| == n
        invariant Sound(e, n, rep) && Joined(e, n, directed, rep, i, j)
      {
        if e[i][j] != DUMMY {
          MergeKeepsSound(e, n, rep, i, j);
          Connect(i, j);
        }
      }
    }

    static lemma AllRoots(p: seq<int>)
      requires forall k :: 0 <= k < |p| ==> p[k] == k
      ensures |Roots(p)| == |p|
    {
      if p != [] {
        var n := |p| - 1;
        AllRoots(p[..n]);
        assert Roots(p) == Roots(p[..n]) + {n};
      }
    }

    method Find(a: int) returns (r: int)
      requires Valid() && 0 <= a < parent.Length
      modifies parent
      ensures Valid() && r == rep[a] && parent[a] == r
      ensures forall i :: 0 <= i < parent.Length ==> parent[i] == old(parent[i]) || parent[i] == rep[i]
      ensures Roots(parent[..]) == old(Roots(parent[..]))
      ensures forall k: nat :: parent[Climb(old(parent[..]), a, k)] == r
      decreases rank[a]
    {
      assert Hangs(parent[..], rep, rank, a);
      ghost var before := parent[..];
      if parent[a] != a {
        var root := Find(parent[a]);
        PointAtRep(parent[..], rep, rank, a);
        ghost var p := parent[..];
        parent[a] := root;
        assert parent[..] == p[a := rep[a]];
        forall k: nat ensures parent[Climb(before, a, k)] == root {
          if k > 0 {
            assert p[Climb(before, before[a], k - 1)] == root;
          }
        }
      } else {
        forall k: nat ensures Climb(before, a, k) == a {
          RootStays(before, a, k);
        }
      }
      return parent[a];
    }

    method Connect(a: int, b: int)
      requires Valid() && 0 <= a < parent.Length && 0 <= b < parent.Length
      modifies this, parent
      ensures Valid() && rep == Merge(old(rep), a, b)
      ensures cnt == old(cnt) - if old(rep[a] == rep[b]) then 0 else 1
    {
      var ra := Find(a);
      var rb := Find(b);
      if ra != rb {
        HangRootUnderRoot(parent[..], rep, rank, a, b);
        ghost var p := parent[..];
        parent[rb] := ra;
        assert parent[..] == p[rb := ra];
        cnt := cnt - 1;
        rank := Lift(rep, rank, ra, rb);
        rep := Merge(rep, a, b);
      } else {
        assert rep == Merge(rep, a, b);
      }
    }

    /** Afterwards every parent is a root. */
    method Normalize()
      requires Valid()
      modifies parent
      ensures Valid()
      ensures forall i :: 0 <= i < parent.Length ==>
                parent[i] == rep[i] && rep[i] < parent.Length && parent[rep[i]] == rep[i]
    {
      var i := 0;
      while i < parent.Length
        invariant 0 <= i <= parent.Length && Valid()
        invariant forall k :: 0 <= k < i ==> parent[k] == rep[k]
      {
        assert Hangs(parent[..], rep, rank, i);
        if parent[i] != i {
          var root := Find(parent[i]);
          PointAtRep(parent[..], rep, rank, i);
          ghost var p := parent[..];
          parent[i] := root;
          assert parent[..] == p[i := rep[i]];
        }
        i := i + 1;
      }
      forall k | 0 <= k < parent.Length ensures rep[k] < parent.Length && parent[rep[k]] == rep[k] {
        assert Hangs(parent[..], rep, rank, k);
      }
    }

    method IsConnected(a: int, b: int) returns (c: bool)
      requires Valid() && 0 <= a < parent.Length && 0 <= b < parent.Length
      modifies parent
      ensures Valid() && c == (rep[a] == rep[b])
    {
      var ra := Find(a);
      var rb := Find(b);
      c := ra == rb;
    }
  }
}
