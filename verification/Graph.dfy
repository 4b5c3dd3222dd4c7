/** The adjacency-matrix graph: shape and symmetry of `edges`, and what its paths connect. */
module Graph {

  const DUMMY: int := 0

  datatype EdgeResult = Done | OutOfRange

  type Matrix = seq<seq<int>>

  predicate Square(e: Matrix, n: nat) {
    |e| == n && forall i :: 0 <= i < n ==> |e[i]| == n
  }

  predicate Symmetric(e: Matrix, n: nat)
    requires Square(e, n)
  {
    forall i, j :: 0 <= i < n && 0 <= j < n ==> e[i][j] == e[j][i]
  }

  /** `to` is `from` with the entries above the diagonal, row by row up to column j of row i, replaced
      by their mirror images. */
  ghost predicate Mirrored(from: Matrix, to: Matrix, n: nat, i: nat, j: nat)
    requires Square(from, n)
  {
    && Square(to, n)
    && forall a, b {:trigger to[a][b]} :: 0 <= a < n && 0 <= b < n ==>
         to[a][b] == if a < b && (a < i || (a == i && b < j)) then from[b][a] else from[a][b]
  }

  lemma MirroredIsSymmetric(from: Matrix, to: Matrix, n: nat)
    requires Square(from, n) && Mirrored(from, to, n, n, 0)
    ensures Symmetric(to, n)
    ensures forall a, b :: 0 <= a < n && 0 <= b < n ==> to[a][b] == if a < b then from[b][a] else from[a][b]
  {
    forall a, b | 0 <= a < n && 0 <= b < n ensures to[a][b] == to[b][a] {
      assert to[b][a] == if b < a then from[a][b] else from[b][a];
    }
  }

  class Graph<T> {
    var nodes: seq<T>
    var edges: Matrix
    const isDirected: bool
    var nodeNum: nat

    predicate Valid()
      reads this
    {
      && nodeNum == |nodes|
      && Square(edges, nodeNum)
      && (!isDirected ==> Symmetric(edges, nodeNum))
    }

    constructor Empty(directed: bool)
      ensures Valid() && nodes == [] && isDirected == directed
    {
      nodes, edges, isDirected, nodeNum := [], [], directed, 0;
    }

    constructor FromNodes(v: seq<T>, directed: bool)
      ensures Valid() && nodes == v && isDirected == directed
      ensures forall i, j :: 0 <= i < |v| && 0 <= j < |v| ==> edges[i][j] == DUMMY
    {
      nodes, isDirected, nodeNum := v, directed, |v|;
      edges := seq(|v|, _ => seq(|v|, _ => DUMMY));
    }

    /** An undirected graph takes its weights from below the diagonal. */
    constructor FromMatrix(v: seq<T>, e: Matrix, directed: bool)
      requires Square(e, |v|)
      ensures Valid() && nodes == v && isDirected == directed
      ensures forall i, j :: 0 <= i < |v| && 0 <= j < |v| ==>
                edges[i][j] == if !directed && i < j then e[j][i] else e[i][j]
    {
      nodes, edges, isDirected, nodeNum := v, e, directed, |v|;
      new;
      if !directed {
        var i := 0;
        while i < nodeNum
          invariant 0 <= i <= nodeNum == |v| && nodes == v && Mirrored(e, edges, nodeNum, i, 0)
        {
          var j := i + 1;
          while j < nodeNum
            invariant i < j <= nodeNum == |v| && nodes == v && Mirrored(e, edges, nodeNum, i, j)
          {
            edges := edges[i := edges[i][j := edges[j][i]]];
            j := j + 1;
          }
          i := i + 1;
        }
        MirroredIsSymmetric(e, edges, |v|);
      }
    }

    method AddNode(val: T)
      requires Valid()
      modifies this
      ensures Valid() && nodes == old(nodes) + [val]
      ensures forall i, j :: 0 <= i < nodeNum && 0 <= j < nodeNum ==>
                edges[i][j] == if i < old(nodeNum) && j < old(nodeNum) then old(edges)[i][j] else DUMMY
    {
      nodes := nodes + [val];
      nodeNum := nodeNum + 1;
      ghost var row := seq(nodeNum, _ => DUMMY);
      edges := edges + [seq(nodeNum, _ => DUMMY)];
      var i := 0;
      while i < nodeNum - 1
        invariant 0 <= i <= nodeNum - 1 == |old(edges)| && nodes == old(nodes) + [val]
        invariant nodeNum == old(nodeNum) + 1 == |edges|
        invariant edges[nodeNum - 1] == row
        invariant forall a :: 0 <= a < nodeNum - 1 ==>
                    edges[a] == if a < i then old(edges)[a] + [DUMMY] else old(edges)[a]
      {
        edges := edges[i := edges[i] + [DUMMY]];
        i := i + 1;
      }
    }

    /** A negative `from` passes the first test and fails the second, where it is converted to unsigned. */
    method AddEdge(from: int, to: int, value: int) returns (r: EdgeResult)
      requires Valid()
      requires 0 <= from < nodeNum ==> 0 <= to
      modifies this`edges
      ensures Valid()
      ensures r == if 0 <= from < nodeNum && to < nodeNum then Done else OutOfRange
      ensures r == OutOfRange ==> edges == old(edges)
      ensures r == Done ==> forall i, j :: 0 <= i < nodeNum && 0 <= j < nodeNum ==>
                edges[i][j] == if (i == from && j == to) || (!isDirected && i == to && j == from) then value
                               else old(edges)[i][j]
    {
      if from >= nodeNum || to >= nodeNum {
        return OutOfRange;
      }
      if from < 0 || from >= |edges| {
        return OutOfRange;
      }
      edges := edges[from := edges[from][to := value]];
      if !isDirected {
        edges := edges[to := edges[to][from := value]];
      }
      r := Done;
    }
  }

  /** Two nodes are neighbours when either matrix entry between them is an edge. */
  predicate Linked(e: Matrix, n: nat, a: nat, b: nat)
    requires Square(e, n)
  {
    a < n && b < n && (e[a][b] != DUMMY || e[b][a] != DUMMY)
  }

  predicate IsPath(e: Matrix, n: nat, path: seq<nat>)
    requires Square(e, n)
  {
    && path != []
    && (forall k :: 0 <= k < |path| ==> path[k] < n)
    && forall k :: 0 <= k < |path| - 1 ==> Linked(e, n, path[k], path[k + 1])
  }

  /** A path of edges, taken in either direction, leads from a to b. */
  ghost predicate Connected(e: Matrix, n: nat, a: nat, b: nat)
    requires Square(e, n)
  {
    exists path :: IsPath(e, n, path) && path[0] == a && path[|path| - 1] == b
  }

  lemma ConnectedToItself(e: Matrix, n: nat, a: nat)
    requires Square(e, n) && a < n
    ensures Connected(e, n, a, a)
  {
    assert IsPath(e, n, [a]);
  }

  lemma LinkConnects(e: Matrix, n: nat, a: nat, b: nat)
    requires Square(e, n) && Linked(e, n, a, b)
    ensures Connected(e, n, a, b)
  {
    assert IsPath(e, n, [a, b]);
  }

  lemma ConnectedTransitive(e: Matrix, n: nat, a: nat, b: nat, c: nat)
    requires Square(e, n) && Connected(e, n, a, b) && Connected(e, n, b, c)
    ensures Connected(e, n, a, c)
  {
    var p :| IsPath(e, n, p) && p[0] == a && p[|p| - 1] == b;
    var q :| IsPath(e, n, q) && q[0] == b && q[|q| - 1] == c;
    var r := p + q[1..];
    forall k | 0 <= k < |r| - 1 ensures Linked(e, n, r[k], r[k + 1]) {
      if k >= |p| - 1 {
        assert r[k] == q[k - (|p| - 1)] && r[k + 1] == q[k + 1 - (|p| - 1)];
      }
    }
    assert IsPath(e, n, r);
  }

  lemma ConnectedSymmetric(e: Matrix, n: nat, a: nat, b: nat)
    requires Square(e, n) && Connected(e, n, a, b)
    ensures Connected(e, n, b, a)
  {
    var p :| IsPath(e, n, p) && p[0] == a && p[|p| - 1] == b;
    var r := seq(|p|, k requires 0 <= k < |p| => p[|p| - 1 - k]);
    forall k | 0 <= k < |r| - 1 ensures Linked(e, n, r[k], r[k + 1]) {
      assert Linked(e, n, p[|p| - 2 - k], p[|p| - 2 - k + 1]);
    }
    assert IsPath(e, n, r);
  }
}
