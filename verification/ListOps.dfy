/** The singly linked list helpers: building, printing and reversing in place. */
module ListOps {
  import opened Sequences
  import opened TreeText

  class ListNode {
    const val: Int
    var next: ListNode?

    constructor (v: Int)
      ensures val == v && next == null
    {
      val, next := v, null;
    }
  }

  /** s are the nodes of a list, in order, each once. */
  ghost predicate Chain(s: seq<ListNode>)
    reads s
  {
    && s != []
    && (forall i, j :: 0 <= i < j < |s| ==> s[i] != s[j])
    && forall i :: 0 <= i < |s| ==> s[i].next == Following(s, i)
  }

  function Following(s: seq<ListNode>, i: int): ListNode?
    requires 0 <= i < |s|
  {
    if i + 1 < |s| then s[i + 1] else null
  }

  function Preceding(s: seq<ListNode>, i: int): ListNode?
    requires 0 <= i < |s|
  {
    if i == 0 then null else s[i - 1]
  }

  /** The links of the first i nodes are turned round, the others are not. */
  ghost predicate TurnedUpTo(s: seq<ListNode>, i: nat)
    reads s
  {
    forall k :: 0 <= k < |s| ==> s[k].next == if k < i then Preceding(s, k) else Following(s, k)
  }

  lemma AllTurned(s: seq<ListNode>)
    requires s != [] && TurnedUpTo(s, |s|)
    requires forall i, j :: 0 <= i < j < |s| ==> s[i] != s[j]
    ensures Chain(Reverse(s))
  {
    var b := Reverse(s);
    forall k | 0 <= k < |b| ensures b[k].next == Following(b, k) {
      assert s[|s| - 1 - k].next == Preceding(s, |s| - 1 - k);
    }
  }

  ghost function Values(s: seq<ListNode>): (v: seq<Int>)
    ensures |v| == |s| && forall i :: 0 <= i < |s| ==> v[i] == s[i].val
  {
    seq(|s|, i requires 0 <= i < |s| => s[i].val)
  }

  lemma ValuesSnoc(s: seq<ListNode>, n: ListNode)
    ensures Values(s + [n]) == Values(s) + [n.val]
  {
  }

  lemma ValuesBackwards(s: seq<ListNode>)
    ensures Values(Reverse(s)) == Reverse(Values(s))
  {
  }

  /** Hanging a node on the last one. */
  lemma ChainExtends(s: seq<ListNode>, n: ListNode)
    requires s != [] && n !in s && forall i, j :: 0 <= i < j < |s| ==> s[i] != s[j]
    requires forall i :: 0 <= i < |s| - 1 ==> s[i].next == Following(s, i)
    requires s[|s| - 1].next == n && n.next == null
    ensures Chain(s + [n])
  {
    var t := s + [n];
    forall i | 0 <= i < |t| ensures t[i].next == Following(t, i) {
      if i < |s| - 1 {
        assert s[i].next == Following(s, i);
      }
    }
  }

  /** `tail->next = new ListNode(v)`. */
  method Append(tail: ListNode, v: Int, ghost nodes: seq<ListNode>) returns (n: ListNode)
    requires Chain(nodes) && tail == nodes[|nodes| - 1]
    modifies tail
    ensures fresh(n) && n.val == v && Chain(nodes + [n])
  {
    n := new ListNode(v);
    assert n !in nodes;
    assert forall k :: 0 <= k < |nodes| - 1 ==> nodes[k] != tail;
    tail.next := n;
    hide Chain;
    ChainExtends(nodes, n);
  }

  method VectorToList(data: seq<Int>) returns (head: ListNode, ghost nodes: seq<ListNode>)
    requires data != []
    ensures Chain(nodes) && head == nodes[0] && Values(nodes) == data
    ensures forall i :: 0 <= i < |nodes| ==> fresh(nodes[i])
  {
    head := new ListNode(data[0]);
    var tail := head;
    nodes := [head];
    assert Values(nodes) == data[..1];
    assert Chain(nodes);
    hide Values, Chain, Following, Preceding;
    var i := 1;
    while i < |data|
      invariant 1 <= i <= |data| && |nodes| == i
      invariant Chain(nodes) && head == nodes[0] && tail == nodes[i - 1]
      invariant Values(nodes) == data[..i]
      invariant forall k :: 0 <= k < |nodes| ==> fresh(nodes[k])
    {
      var n := Append(tail, data[i], nodes);
      ValuesSnoc(nodes, n);
      tail := n;
      nodes := nodes + [n];
      i := i + 1;
    }
  }

  lemma LastIsFirst<T>(s: seq<T>)
    requires s != []
    ensures Reverse(s)[0] == s[|s| - 1]
  {
  }

  /** The same nodes, linked the other way round. */
  method ReverseList(head: ListNode, ghost nodes: seq<ListNode>) returns (newHead: ListNode)
    requires Chain(nodes) && head == nodes[0]
    modifies nodes
    ensures Chain(Reverse(nodes)) && newHead == Reverse(nodes)[0]
    ensures Values(Reverse(nodes)) == Reverse(Values(nodes))
  {
    ValuesBackwards(nodes);
    hide Values;
    var p := head;
    var q := p.next;
    assert nodes[0].next == Following(nodes, 0);
    if q == null {
      assert Reverse(nodes) == nodes;
      return head;
    }
    hide Reverse;
    p.next := null;
    ghost var i: nat := 1;
    while q.next != null
      invariant 1 <= i < |nodes| && p == nodes[i - 1] && q == nodes[i]
      invariant TurnedUpTo(nodes, i)
      decreases |nodes| - i
    {
      assert nodes[i].next == Following(nodes, i);
      assert forall k :: 0 <= k < |nodes| && k != i ==> nodes[k] != q;
      var r := q.next;
      q.next := p;
      p := q;
      q := r;
      i := i + 1;
    }
    assert nodes[i].next == Following(nodes, i);
    assert forall k :: 0 <= k < |nodes| && k != i ==> nodes[k] != q;
    q.next := p;
    newHead := q;
    AllTurned(nodes);
    LastIsFirst(nodes);
  }

  lemma BackwardsTwice<T>(s: seq<T>)
    ensures Reverse(Reverse(s)) == s
  {
  }

  method ListToString(list: ListNode?, ghost nodes: seq<ListNode>, sep: string) returns (r: string)
    requires if list == null then nodes == [] else Chain(nodes) && list == nodes[0]
    ensures r == ListText(Values(nodes), sep)
  {
    hide Terminated, Chop, Show;
    var ss := "[";
    var p := list;
    ghost var i: nat, vals := 0, Values(nodes);
    NoneTerminated(vals, sep);
    while p != null
      invariant i <= |nodes| && p == if i < |nodes| then nodes[i] else null
      invariant ss == "[" + Terminated(vals[..i], sep)
      decreases |nodes| - i
    {
      OneMoreTerminated(vals, i, sep);
      assert nodes[i].next == Following(nodes, i);
      ss := ss + (Show(p.val) + sep);
      p := p.next;
      i := i + 1;
    }
    assert vals[..i] == vals;
    r := Chop(ss, |sep|) + "]";
  }

  lemma NoneTerminated(vals: seq<Int>, sep: string)
    ensures Terminated(vals[..0], sep) == ""
  {
  }

  lemma OneMoreTerminated(vals: seq<Int>, i: nat, sep: string)
    requires i < |vals|
    ensures "[" + Terminated(vals[..i + 1], sep) == "[" + Terminated(vals[..i], sep) + (Show(vals[i]) + sep)
  {
    TerminatedConcat(vals[..i], [vals[i]], sep);
    TerminatedOne(vals[i], sep);
    hide Terminated, Show;
    assert vals[..i + 1] == vals[..i] + [vals[i]];
    assert "[" + (Terminated(vals[..i], sep) + (Show(vals[i]) + sep)) ==
           "[" + Terminated(vals[..i], sep) + (Show(vals[i]) + sep);
  }

  function ListText(vals: seq<Int>, sep: string): string {
    Chop("[" + Terminated(vals, sep), |sep|) + "]"
  }

  /** Lists with the same text hold the same values, repetitions included. */
  lemma ListTextIdentifiesValues(a: seq<Int>, b: seq<Int>, sep: string)
    requires Separates(sep) && ListText(a, sep) == ListText(b, sep)
    ensures a == b
  {
    hide Terminated, Joined, Separates, ListText;
    TextOfList(a, sep);
    TextOfList(b, sep);
    if a != [] && b != [] {
      CancelBack("[" + Joined(a, sep), "[" + Joined(b, sep), "]");
      CancelFront("[", Joined(a, sep), Joined(b, sep));
      JoinedDetermines(a, b, sep);
    }
  }

  /** The list printer is injective exactly for the separators that separate. */
  lemma {:induction false} ListTextInjectiveExactlyWhen(sep: string)
    ensures Separates(sep) <==>
            forall a: seq<Int>, b: seq<Int> :: ListText(a, sep) == ListText(b, sep) ==> a == b
  {
    hide Separates, ListText, Joined;
    if Separates(sep) {
      forall a: seq<Int>, b: seq<Int> | ListText(a, sep) == ListText(b, sep) ensures a == b {
        ListTextIdentifiesValues(a, b, sep);
      }
    } else {
      var xs, ys := JoinedConfuses(sep);
      TextOfList(xs, sep);
      TextOfList(ys, sep);
    }
  }

  /** Only the empty list has a text of at most two characters. */
  lemma TextOfList(vals: seq<Int>, sep: string)
    ensures vals == [] <==> |ListText(vals, sep)| <= 2
    ensures vals == [] ==> ListText(vals, sep) == if |sep| == 1 then "]" else "[]"
    ensures vals != [] ==> ListText(vals, sep) == "[" + Joined(vals, sep) + "]"
  {
    if vals != [] {
      JoinedIsSomething(vals, sep);
      TerminatedIsJoined(vals, sep);
      hide Terminated, Joined;
      ChopsBack(Joined(vals, sep), sep);
    }
  }

  lemma ChopsBack(j: string, sep: string)
    ensures Chop("[" + (j + sep), |sep|) + "]" == "[" + j + "]"
  {
    assert "[" + (j + sep) == ("[" + j) + sep;
    hide Chop;
    ChopEnd("[" + j, sep);
  }

  lemma JoinedIsSomething(vals: seq<Int>, sep: string)
    requires vals != []
    ensures Joined(vals, sep) != ""
  {
    SignShows(vals[0]);
  }

  lemma ChopEnd(s: string, sep: string)
    ensures Chop(s + sep, |sep|) == s
  {
    assert (s + sep)[..|s|] == s;
  }
}
