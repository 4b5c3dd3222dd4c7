/** The tree printer: preorder and inorder in decimal, and what its text says about the tree.

    A node's value is a 32-bit `int`, and that matters: with a long enough separator of digits, two numbers
    do not fit into one.
 */
module TreeText {

  const MIN_INT := -0x8000_0000
  const MAX_INT := 0x7fff_ffff

  type Int = x: int | MIN_INT <= x <= MAX_INT

  datatype Tree = Nil | Node(val: Int, left: Tree, right: Tree)

  // ----- decimal output of an int -----

  predicate IsDigit(c: char) {
    '0' <= c <= '9'
  }

  predicate AllDigits(s: string) {
    forall i :: 0 <= i < |s| ==> IsDigit(s[i])
  }

  function Digit(d: nat): (c: char)
    requires d < 10
    ensures IsDigit(c) && c as int - '0' as int == d
  {
    ('0' as int + d) as char
  }

  function Decimal(n: nat): (s: string)
    ensures s != "" && AllDigits(s)
  {
    if n < 10 then [Digit(n)] else Decimal(n / 10) + [Digit(n % 10)]
  }

  function Sign(n: int): string {
    if n < 0 then "-" else ""
  }

  function Abs(n: int): nat {
    if n < 0 then -n else n
  }

  function Show(n: int): string {
    Sign(n) + Decimal(Abs(n))
  }

  function Read(s: string): nat
    requires AllDigits(s)
  {
    if s == "" then 0 else 10 * Read(s[..|s| - 1]) + (s[|s| - 1] as int - '0' as int)
  }

  lemma {:induction false} ReadDecimal(n: nat)
    ensures Read(Decimal(n)) == n
  {
    if n >= 10 {
      ReadDecimal(n / 10);
      assert Decimal(n)[..|Decimal(n)| - 1] == Decimal(n / 10);
    }
  }

  lemma {:induction false} DecimalRead(s: string)
    requires s != "" && AllDigits(s) && s[0] != '0'
    ensures Read(s) > 0 && Decimal(Read(s)) == s
    decreases |s|
  {
    var n := |s| - 1;
    assert s == s[..n] + [s[n]];
    if n > 0 {
      DecimalRead(s[..n]);
    } else {
      assert s[..0] == "";
    }
  }

  function Pow10(k: nat): (p: nat)
    ensures p > 0
  {
    if k == 0 then 1 else 10 * Pow10(k - 1)
  }

  /** A number has as many digits as it needs, and starts with a zero only if it is zero. */
  lemma {:induction false} DecimalFits(n: nat)
    ensures n > 0 ==> Pow10(|Decimal(n)| - 1) <= n && Decimal(n)[0] != '0'
    ensures n == 0 ==> Decimal(n) == "0"
  {
    if n >= 10 {
      DecimalFits(n / 10);
    }
  }

  /** Ten digits and a sign are enough for an int. */
  lemma ShowFits(x: Int)
    ensures 1 <= |Decimal(Abs(x))| <= 10 && |Show(x)| == |Sign(x)| + |Decimal(Abs(x))|
    ensures |Decimal(Abs(x))| > 1 ==> Decimal(Abs(x))[0] != '0'
  {
    DecimalFits(Abs(x));
    TenDigits();
    if |Decimal(Abs(x))| > 10 {
      PowGrows(10, |Decimal(Abs(x))| - 1);
    }
  }

  lemma TenDigits()
    ensures Pow10(9) == 1000000000 && Pow10(10) == 10000000000
  {
    assert Pow10(5) == 100000;
  }

  lemma {:induction false} PowGrows(j: nat, k: nat)
    requires j <= k
    ensures Pow10(j) <= Pow10(k)
    decreases k - j
  {
    if j < k {
      PowGrows(j, k - 1);
    }
  }

  /** A digit string of length k reads as less than 10 to the k, and a one in front adds just that. */
  lemma {:induction false} ReadBound(s: string)
    requires AllDigits(s)
    ensures Read(s) < Pow10(|s|)
    ensures AllDigits("1" + s) && Read("1" + s) == Pow10(|s|) + Read(s)
    decreases |s|
  {
    var t := "1" + s;
    if s == "" {
      assert t[..0] == "";
    } else {
      var n := |s| - 1;
      ReadBound(s[..n]);
      assert t[..|t| - 1] == "1" + s[..n] && t[|t| - 1] == s[n];
    }
  }

  /** What is in front counts ten times at least. */
  lemma {:induction false} ReadInFront(a: string, b: string)
    requires AllDigits(a) && AllDigits(b) && b != ""
    ensures AllDigits(a + b) && Read(a + b) >= 10 * Read(a)
    decreases |b|
  {
    var n := |b| - 1;
    assert (a + b)[..|a + b| - 1] == a + b[..n];
    if n > 0 {
      ReadInFront(a, b[..n]);
    } else {
      assert a + b[..0] == a;
    }
  }

  lemma ShowInjective(a: int, b: int)
    requires Show(a) == Show(b)
    ensures a == b
  {
    ReadDecimal(Abs(a));
    ReadDecimal(Abs(b));
    SignShows(a);
    SignShows(b);
    assert Show(a)[|Sign(a)|..] == Decimal(Abs(a)) && Show(b)[|Sign(b)|..] == Decimal(Abs(b));
  }

  lemma SignShows(n: int)
    ensures Show(n) != "" && (Show(n)[0] == '-' <==> n < 0)
  {
  }

  // ----- the printer -----

  function InText(t: Tree, sep: string): string {
    if t.Nil? then "" else InText(t.left, sep) + Show(t.val) + sep + InText(t.right, sep)
  }

  function PreText(t: Tree, sep: string): string {
    if t.Nil? then "" else Show(t.val) + sep + PreText(t.left, sep) + PreText(t.right, sep)
  }

  /** `s.substr(0, s.length() - k)`: the subtraction wraps when k is the longer, and then all of s stays. */
  function Chop(s: string, k: nat): string {
    if k <= |s| then s[..|s| - k] else s
  }

  function TreeToString(root: Tree, sep: string): string {
    var ret := Chop("(In)[" + InText(root, sep), |sep|) + "]";
    var ret2 := Chop("(Pre)[" + PreText(root, sep), |sep|) + "]";
    ret2 + sep + ret
  }

  // ----- the two traversals determine the tree -----

  function Ino(t: Tree): seq<Int> {
    if t.Nil? then [] else Ino(t.left) + [t.val] + Ino(t.right)
  }

  function Pre(t: Tree): (s: seq<Int>)
    ensures |s| == |Ino(t)|
  {
    if t.Nil? then [] else [t.val] + Pre(t.left) + Pre(t.right)
  }

  predicate Distinct(s: seq<Int>) {
    forall i, j :: 0 <= i < j < |s| ==> s[i] != s[j]
  }

  /** Some tree has these two traversals: the root's value can be found in the inorder sequence so that both
      sides are traversals of trees again. */
  predicate Realizable(pre: seq<Int>, ino: seq<Int>)
    decreases |pre|
  {
    && |pre| == |ino|
    && (pre != [] ==> exists k {:trigger CutsAt(pre, ino, k)} :: 0 <= k < |ino| && CutsAt(pre, ino, k))
  }

  /** The traversals of a nonempty tree, cut so that the left subtree has k nodes. */
  predicate CutsAt(pre: seq<Int>, ino: seq<Int>, k: int)
    requires |pre| == |ino| && 0 <= k < |ino|
    decreases |pre|, 0
  {
    && ino[k] == pre[0]
    && Realizable(pre[1..k + 1], ino[..k])
    && Realizable(pre[k + 1..], ino[k + 1..])
  }

  /** At every node the traversals can be cut in one way only, the one the node cuts them. */
  predicate Unambiguous(t: Tree) {
    t.Node? ==>
      && Unambiguous(t.left) && Unambiguous(t.right)
      && forall k {:trigger CutsAt(Pre(t), Ino(t), k)} ::
           0 <= k < |Ino(t)| && k != |Ino(t.left)| ==> !CutsAt(Pre(t), Ino(t), k)
  }

  /** No node's value occurs again among its descendants. */
  predicate NoneRepeatsBelow(t: Tree) {
    t.Node? ==>
      && t.val !in Ino(t.left) && t.val !in Ino(t.right)
      && NoneRepeatsBelow(t.left) && NoneRepeatsBelow(t.right)
  }

  ghost predicate SameTraversals(t1: Tree, t2: Tree) {
    Pre(t1) == Pre(t2) && Ino(t1) == Ino(t2)
  }

  lemma NodeParts(t: Tree)
    requires t.Node?
    ensures var k := |Ino(t.left)|;
            && k < |Ino(t)| && Pre(t)[0] == t.val && Ino(t)[k] == t.val
            && Pre(t)[1..k + 1] == Pre(t.left) && Ino(t)[..k] == Ino(t.left)
            && Pre(t)[k + 1..] == Pre(t.right) && Ino(t)[k + 1..] == Ino(t.right)
  {
  }

  /** The traversals of a tree are realizable. */
  lemma {:induction false} TraversalsAreRealizable(t: Tree)
    ensures Realizable(Pre(t), Ino(t))
    ensures t.Node? ==> CutsAt(Pre(t), Ino(t), |Ino(t.left)|)
  {
    if t.Node? {
      NodeParts(t);
      TraversalsAreRealizable(t.left);
      TraversalsAreRealizable(t.right);
      assert CutsAt(Pre(t), Ino(t), |Ino(t.left)|);
    }
  }

  /** And realizable sequences are the traversals of a tree. */
  lemma {:induction false} RealizableHasTree(pre: seq<Int>, ino: seq<Int>) returns (t: Tree)
    requires Realizable(pre, ino)
    ensures Pre(t) == pre && Ino(t) == ino
    decreases |pre|, 0
  {
    if pre == [] {
      t := Nil;
    } else {
      var k :| 0 <= k < |ino| && CutsAt(pre, ino, k);
      t := CutHasTree(pre, ino, k);
    }
  }

  lemma {:induction false} CutHasTree(pre: seq<Int>, ino: seq<Int>, k: nat) returns (t: Tree)
    requires |pre| == |ino| && k < |ino| && CutsAt(pre, ino, k)
    ensures t.Node? && Pre(t) == pre && Ino(t) == ino && |Ino(t.left)| == k
    decreases |pre[1..]|, 1
  {
    var l := RealizableHasTree(pre[1..k + 1], ino[..k]);
    var r := RealizableHasTree(pre[k + 1..], ino[k + 1..]);
    t := Node(pre[0], l, r);
    assert ino[k] == pre[0];
    hide Realizable, CutsAt;
    CutJoins(pre, ino, k);
  }

  lemma CutJoins(pre: seq<Int>, ino: seq<Int>, k: nat)
    requires |pre| == |ino| && k < |ino|
    ensures pre == [pre[0]] + pre[1..k + 1] + pre[k + 1..]
    ensures ino == ino[..k] + [ino[k]] + ino[k + 1..]
  {
  }

  /** An unambiguous tree is the only one with its traversals. */
  lemma {:induction false} TraversalsDetermineTree(t1: Tree, t2: Tree)
    requires SameTraversals(t1, t2) && Unambiguous(t1)
    ensures t1 == t2
  {
    if t1.Node? {
      NodeParts(t1);
      NodeParts(t2);
      TraversalsAreRealizable(t2);
      assert CutsAt(Pre(t1), Ino(t1), |Ino(t2.left)|);
      TraversalsDetermineTree(t1.left, t2.left);
      TraversalsDetermineTree(t1.right, t2.right);
    }
  }

  /** An ambiguous tree shares its traversals with another one. */
  lemma {:induction false} AmbiguousTreeHasTwin(t: Tree) returns (twin: Tree)
    requires !Unambiguous(t)
    ensures twin != t && SameTraversals(t, twin)
  {
    if !Unambiguous(t.left) {
      var l := AmbiguousTreeHasTwin(t.left);
      twin := Node(t.val, l, t.right);
    } else if !Unambiguous(t.right) {
      var r := AmbiguousTreeHasTwin(t.right);
      twin := Node(t.val, t.left, r);
    } else {
      var k :| 0 <= k < |Ino(t)| && k != |Ino(t.left)| && CutsAt(Pre(t), Ino(t), k);
      twin := CutHasTree(Pre(t), Ino(t), k);
    }
  }

  /** When no value occurs again below itself, the tree is unambiguous. */
  lemma {:induction false} NoneRepeatsIsUnambiguous(t: Tree)
    requires NoneRepeatsBelow(t)
    ensures Unambiguous(t)
  {
    if t.Node? {
      NodeParts(t);
      NoneRepeatsIsUnambiguous(t.left);
      NoneRepeatsIsUnambiguous(t.right);
      var m := |Ino(t.left)|;
      forall k | 0 <= k < |Ino(t)| && k != m ensures !CutsAt(Pre(t), Ino(t), k) {
        assert Ino(t)[k] == if k < m then Ino(t.left)[k] else Ino(t.right)[k - m - 1];
      }
    }
  }

  lemma {:induction false} DistinctNoneRepeats(t: Tree)
    requires Distinct(Ino(t))
    ensures NoneRepeatsBelow(t)
  {
    if t.Node? {
      NodeParts(t);
      var m := |Ino(t.left)|;
      hide Ino, Pre;
      assert forall k :: 0 <= k < m ==> Ino(t.left)[k] == Ino(t)[k];
      assert forall k :: 0 <= k < |Ino(t.right)| ==> Ino(t.right)[k] == Ino(t)[m + 1 + k];
      DistinctNoneRepeats(t.left);
      DistinctNoneRepeats(t.right);
    }
  }

  // ----- the text determines the traversals -----

  /** The numbers, a separator after each. */
  function Terminated(xs: seq<Int>, sep: string): string {
    if xs == [] then "" else Show(xs[0]) + sep + Terminated(xs[1..], sep)
  }

  /** The numbers, a separator between each two. */
  function Joined(xs: seq<Int>, sep: string): string
    requires xs != []
  {
    if |xs| == 1 then Show(xs[0]) else Show(xs[0]) + sep + Joined(xs[1..], sep)
  }

  lemma {:induction false} TerminatedConcat(a: seq<Int>, b: seq<Int>, sep: string)
    ensures Terminated(a + b, sep) == Terminated(a, sep) + Terminated(b, sep)
  {
    if a == [] {
      assert a + b == b;
    } else {
      assert (a + b)[1..] == a[1..] + b;
      TerminatedConcat(a[1..], b, sep);
    }
  }

  lemma {:induction false} TerminatedIsJoined(xs: seq<Int>, sep: string)
    requires xs != []
    ensures Terminated(xs, sep) == Joined(xs, sep) + sep
  {
    if |xs| > 1 {
      TerminatedIsJoined(xs[1..], sep);
      assert Show(xs[0]) + sep + (Joined(xs[1..], sep) + sep) == Show(xs[0]) + sep + Joined(xs[1..], sep) + sep;
    } else {
      assert Terminated(xs[1..], sep) == "";
    }
  }

  lemma TerminatedOne(x: Int, sep: string)
    ensures Terminated([x], sep) == Show(x) + sep
  {
    assert [x][1..] == [];
    assert Show(x) + sep + "" == Show(x) + sep;
  }

  lemma TerminatedAround(a: seq<Int>, x: Int, b: seq<Int>, sep: string)
    ensures Terminated(a + [x] + b, sep) == Terminated(a, sep) + Show(x) + sep + Terminated(b, sep)
    ensures Terminated([x] + a + b, sep) == Show(x) + sep + Terminated(a, sep) + Terminated(b, sep)
  {
    hide Terminated, Show;
    TerminatedOne(x, sep);
    TerminatedConcat(a + [x], b, sep);
    TerminatedConcat(a, [x], sep);
    TerminatedConcat([x] + a, b, sep);
    TerminatedConcat([x], a, sep);
    assert Terminated(a, sep) + (Show(x) + sep) == Terminated(a, sep) + Show(x) + sep;
  }

  lemma {:induction false} TextIsTerminated(t: Tree, sep: string)
    ensures InText(t, sep) == Terminated(Ino(t), sep)
    ensures PreText(t, sep) == Terminated(Pre(t), sep)
    ensures |InText(t, sep)| == |PreText(t, sep)|
  {
    if t.Node? {
      TextIsTerminated(t.left, sep);
      TextIsTerminated(t.right, sep);
      hide Terminated, Show;
      TerminatedAround(Ino(t.left), t.val, Ino(t.right), sep);
      TerminatedAround(Pre(t.left), t.val, Pre(t.right), sep);
    }
  }

  lemma TextOfTree(t: Tree, sep: string)
    requires t.Node?
    ensures Ino(t) != [] && |Joined(Pre(t), sep)| == |Joined(Ino(t), sep)|
    ensures TreeToString(t, sep) ==
            "(Pre)[" + Joined(Pre(t), sep) + "]" + sep + "(In)[" + Joined(Ino(t), sep) + "]"
  {
    hide Terminated, Joined, InText, PreText, Show;
    TextIsTerminated(t, sep);
    TerminatedIsJoined(Pre(t), sep);
    TerminatedIsJoined(Ino(t), sep);
    var p, q := "(Pre)[" + Joined(Pre(t), sep), "(In)[" + Joined(Ino(t), sep);
    assert "(Pre)[" + PreText(t, sep) == p + sep && (p + sep)[..|p|] == p;
    assert "(In)[" + InText(t, sep) == q + sep && (q + sep)[..|q|] == q;
    assert p + "]" + sep + (q + "]") == p + "]" + sep + "(In)[" + Joined(Ino(t), sep) + "]";
  }

  // ----- reading the numbers back -----

  predicate HasNonDigit(sep: string) {
    exists i :: 0 <= i < |sep| && !IsDigit(sep[i])
  }

  /** Digits before the first other character of a string are determined by the string. */
  lemma DigitsCancel(a: string, u: string, b: string, v: string)
    requires AllDigits(a) && AllDigits(b) && a + u == b + v
    requires u != "" && !IsDigit(u[0]) && v != "" && !IsDigit(v[0])
    ensures a == b && u == v
  {
    var s := a + u;
    assert s[|a|] == u[0] && (b + v)[|b|] == v[0];
    if |a| < |b| {
      assert false;
    } else if |b| < |a| {
      assert false;
    }
    assert s[..|a|] == a && (b + v)[..|b|] == b;
    assert s[|a|..] == u && (b + v)[|b|..] == v;
  }

  /** A number, then something that starts with a separator: both are determined. */
  lemma ShowCancels(a: int, u: string, b: int, v: string, sep: string)
    requires HasNonDigit(sep) && Show(a) + sep + u == Show(b) + sep + v
    ensures a == b && u == v
  {
    var k := FirstNonDigit(sep);
    NumberShape(a, sep, k, u);
    NumberShape(b, sep, k, v);
    SignShows(a);
    SignShows(b);
    assert (Show(a) + sep + u)[0] == Show(a)[0] && (Show(b) + sep + v)[0] == Show(b)[0];
    assert Sign(a) == Sign(b);
    hide Show;
    CancelFront(Sign(a), Decimal(Abs(a)) + sep[..k] + (sep[k..] + u), Decimal(Abs(b)) + sep[..k] + (sep[k..] + v));
    DigitsCancel(Decimal(Abs(a)) + sep[..k], sep[k..] + u, Decimal(Abs(b)) + sep[..k], sep[k..] + v);
    CancelFront(sep[k..], u, v);
    CancelBack(Decimal(Abs(a)), Decimal(Abs(b)), sep[..k]);
    ReadDecimal(Abs(a));
    ReadDecimal(Abs(b));
  }

  lemma NumberShape(a: int, sep: string, k: nat, u: string)
    requires k < |sep|
    ensures Show(a) + sep + u == Sign(a) + (Decimal(Abs(a)) + sep[..k] + (sep[k..] + u))
  {
    assert sep == sep[..k] + sep[k..];
  }

  lemma CancelFront(m: string, x: string, y: string)
    requires m + x == m + y
    ensures x == y
  {
    assert (m + x)[|m|..] == x && (m + y)[|m|..] == y;
  }

  lemma CancelBack(x: string, y: string, m: string)
    requires x + m == y + m
    ensures x == y
  {
    assert (x + m)[..|x|] == x && (y + m)[..|y|] == y;
  }

  lemma FirstNonDigit(sep: string) returns (k: nat)
    requires HasNonDigit(sep)
    ensures k < |sep| && AllDigits(sep[..k]) && !IsDigit(sep[k])
  {
    k := 0;
    while IsDigit(sep[k])
      invariant k < |sep| && AllDigits(sep[..k])
      invariant exists i :: k <= i < |sep| && !IsDigit(sep[i])
      decreases |sep| - k
    {
      k := k + 1;
    }
  }

  /** A lone number cannot be taken for several: behind its first character it has digits only. */
  lemma LoneNumber(a: int, b: int, sep: string, v: string)
    requires HasNonDigit(sep)
    ensures Show(a) != Show(b) + sep + v
  {
    var i :| 0 <= i < |sep| && !IsDigit(sep[i]);
    var j := |Show(b)| + i;
    assert (Show(b) + sep + v)[j] == sep[i];
    assert forall p :: 1 <= p < |Show(a)| ==> IsDigit(Show(a)[p]);
  }

  lemma {:induction false} JoinedInjective(xs: seq<Int>, ys: seq<Int>, sep: string)
    requires HasNonDigit(sep) && xs != [] && ys != [] && Joined(xs, sep) == Joined(ys, sep)
    ensures xs == ys
    decreases |xs|
  {
    if |xs| == 1 && |ys| == 1 {
      ShowInjective(xs[0], ys[0]);
    } else if |xs| == 1 {
      LoneNumber(xs[0], ys[0], sep, Joined(ys[1..], sep));
    } else if |ys| == 1 {
      LoneNumber(ys[0], xs[0], sep, Joined(xs[1..], sep));
    } else {
      ShowCancels(xs[0], Joined(xs[1..], sep), ys[0], Joined(ys[1..], sep), sep);
      JoinedInjective(xs[1..], ys[1..], sep);
      assert xs == [xs[0]] + xs[1..] && ys == [ys[0]] + ys[1..];
    }
  }

  // ----- separators of digits only -----

  /** The separator, moved by d places, overlaps itself, and its last d digits can begin an int. */
  predicate OverlapsBy(sep: string, d: nat)
    requires AllDigits(sep)
  {
    && 1 <= d <= 9 && d <= |sep|
    && sep[d..] == sep[..|sep| - d]
    && sep[|sep| - d] != '0'
    && Read(sep[|sep| - d..]) <= MAX_INT / 10
  }

  /** The separator cannot be taken for digits of the numbers around it. */
  predicate Separates(sep: string) {
    HasNonDigit(sep) || (|sep| >= 9 && forall d :: 1 <= d <= 9 ==> !OverlapsBy(sep, d))
  }

  lemma {:induction false} JoinedSnoc(xs: seq<Int>, x: Int, sep: string)
    requires xs != []
    ensures Joined(xs + [x], sep) == Joined(xs, sep) + sep + Show(x)
  {
    var all := xs + [x];
    if |xs| == 1 {
      assert all[1..] == [x];
    } else {
      JoinedSnoc(xs[1..], x, sep);
      assert all[1..] == xs[1..] + [x];
      assert Show(xs[0]) + sep + (Joined(xs[1..], sep) + sep + Show(x)) ==
             Show(xs[0]) + sep + Joined(xs[1..], sep) + sep + Show(x);
    }
  }

  /** A joined text begins with a digit or a sign and a digit, and ends with a digit. */
  lemma JoinedEnds(xs: seq<Int>, sep: string)
    requires xs != []
    ensures var j := Joined(xs, sep);
            && j != "" && IsDigit(j[|j| - 1]) && (j[0] == '-' ==> |j| > 1)
  {
    SignShows(xs[0]);
    var n := |xs| - 1;
    assert Show(xs[n]) != "" && IsDigit(Show(xs[n])[|Show(xs[n])| - 1]);
    assert Show(xs[0])[0] == '-' ==> |Show(xs[0])| > 1;
    assert Joined(xs, sep)[0] == Show(xs[0])[0] && |Joined(xs, sep)| >= |Show(xs[0])|;
    if n == 0 {
      ShowsAlone(xs, sep);
    } else {
      hide Show, Joined;
      JoinedSnoc(xs[..n], xs[n], sep);
      assert xs == xs[..n] + [xs[n]];
    }
  }

  /** What an int shows in front of another, when it does not begin with a sign. */
  lemma IntInFront(x: Int, e: string, y: Int)
    requires Show(x) == e + Show(y) && e != "" && IsDigit(e[0])
    ensures AllDigits(e) && |e| <= 9 && e[0] != '0' && Read(e) <= MAX_INT / 10
  {
    ShowFits(x);
    ShowFits(y);
    SignShows(x);
    assert Show(x)[0] == e[0];
    var digits := Decimal(Abs(x));
    assert digits == Show(x);
    hide Show;
    assert e == digits[..|e|] && Show(y) == digits[|e|..];
    ReadInFront(e, Show(y));
    ReadDecimal(Abs(x));
  }

  /** When two joined texts end with different numbers, the separator overlaps itself. */
  lemma DifferentEnds(p: string, x: Int, q: string, y: Int, sep: string)
    requires AllDigits(sep) && |sep| >= 9 && q != "" && IsDigit(q[|q| - 1])
    requires p + sep + Show(x) == q + sep + Show(y) && |Show(x)| > |Show(y)|
    ensures exists d :: 1 <= d <= 9 && OverlapsBy(sep, d)
  {
    var d := |Show(x)| - |Show(y)|;
    var e := Show(x)[..d];
    EndsCancel(p, Show(x), q, Show(y), sep);
    TooLong(p, x, q, y, sep, e);
    hide Show, Read;
    Overlap(p, q, sep, e);
    assert IsDigit(e[0]);
    IntInFront(x, e, y);
    assert OverlapsBy(sep, d);
  }

  /** What is in front of the shorter number is no longer than the separator: the place of a sign would be
      that of a digit. */
  lemma TooLong(p: string, x: Int, q: string, y: Int, sep: string, e: string)
    requires |sep| >= 9 && q != "" && IsDigit(q[|q| - 1])
    requires p + sep + e == q + sep && Show(x) == e + Show(y) && e != ""
    ensures |e| <= |sep|
  {
    ShowFits(x);
    ShowFits(y);
    SignShows(x);
    assert Show(x)[0] == e[0];
    hide Show, Decimal;
    if |e| > |sep| {
      LastOf(p, sep, e, q);
      assert false;
    }
  }

  lemma EndsCancel(p: string, x: string, q: string, y: string, sep: string)
    requires p + sep + x == q + sep + y && |x| > |y|
    ensures var e := x[..|x| - |y|]; p + sep + e == q + sep && x == e + y
  {
    var e, s := x[..|x| - |y|], p + sep + x;
    assert s[|s| - |y|..] == y && x[|x| - |y|..] == y;
    assert s[..|s| - |y|] == p + sep + e && (q + sep + y)[..|s| - |y|] == q + sep;
  }

  lemma Overlap(p: string, q: string, sep: string, e: string)
    requires p + sep + e == q + sep && |e| <= |sep|
    ensures e == sep[|sep| - |e|..] && sep[|e|..] == sep[..|sep| - |e|]
  {
    var s := p + sep + e;
    assert s[|s| - |sep|..] == sep;
    assert sep[|e|..] == s[|p| + |e|..|p| + |sep|] == sep[..|sep| - |e|];
    assert e == s[|s| - |e|..] == sep[|sep| - |e|..];
  }

  lemma LastOf(p: string, sep: string, e: string, q: string)
    requires p + sep + e == q + sep && |e| == |sep| + 1 && q != ""
    ensures e[0] == q[|q| - 1]
  {
    assert (p + sep + e)[|p + sep|] == e[0] && (q + sep)[|q| - 1] == q[|q| - 1];
  }

  /** No single int looks like several. */
  lemma LoneInt(x: Int, ys: seq<Int>, sep: string)
    requires AllDigits(sep) && |sep| >= 9 && |ys| > 1
    ensures Show(x) != Joined(ys, sep)
  {
    var n := |ys| - 1;
    assert ys == ys[..n] + [ys[n]];
    JoinedSnoc(ys[..n], ys[n], sep);
    JoinedEnds(ys[..n], sep);
    ShowFits(x);
    ShowFits(ys[n]);
    SignShows(x);
    assert Joined(ys, sep)[0] == Joined(ys[..n], sep)[0];
  }

  lemma {:induction false} DigitsJoinedInjective(xs: seq<Int>, ys: seq<Int>, sep: string)
    requires AllDigits(sep) && Separates(sep) && xs != [] && ys != [] && Joined(xs, sep) == Joined(ys, sep)
    ensures xs == ys
    decreases |xs|
  {
    hide Joined, Show;
    if |xs| == 1 && |ys| == 1 {
      ShowsAlone(xs, sep);
      ShowsAlone(ys, sep);
      ShowInjective(xs[0], ys[0]);
    } else if |xs| == 1 {
      ShowsAlone(xs, sep);
      LoneInt(xs[0], ys, sep);
    } else if |ys| == 1 {
      ShowsAlone(ys, sep);
      LoneInt(ys[0], xs, sep);
    } else {
      var m, n := |xs| - 1, |ys| - 1;
      var p, q := Joined(xs[..m], sep), Joined(ys[..n], sep);
      assert xs == xs[..m] + [xs[m]] && ys == ys[..n] + [ys[n]];
      JoinedSnoc(xs[..m], xs[m], sep);
      JoinedSnoc(ys[..n], ys[n], sep);
      JoinedEnds(xs[..m], sep);
      JoinedEnds(ys[..n], sep);
      SameEnds(p, xs[m], q, ys[n], sep);
      DigitsJoinedInjective(xs[..m], ys[..n], sep);
    }
  }

  lemma ShowsAlone(xs: seq<Int>, sep: string)
    requires |xs| == 1
    ensures Joined(xs, sep) == Show(xs[0])
  {
  }

  lemma SameEnds(p: string, x: Int, q: string, y: Int, sep: string)
    requires AllDigits(sep) && Separates(sep)
    requires p != "" && IsDigit(p[|p| - 1]) && q != "" && IsDigit(q[|q| - 1])
    requires p + sep + Show(x) == q + sep + Show(y)
    ensures x == y && p == q
  {
    hide Show;
    if |Show(x)| > |Show(y)| {
      DifferentEnds(p, x, q, y, sep);
      assert false;
    } else if |Show(y)| > |Show(x)| {
      DifferentEnds(q, y, p, x, sep);
      assert false;
    }
    var s := p + sep + Show(x);
    assert s[|p + sep|..] == Show(x) && (q + sep + Show(y))[|q + sep|..] == Show(y);
    assert s[..|p|] == p && (q + sep + Show(y))[..|q|] == q;
    ShowInjective(x, y);
  }

  /** For a separator that separates, a joined text determines the ints. */
  lemma JoinedDetermines(xs: seq<Int>, ys: seq<Int>, sep: string)
    requires Separates(sep) && xs != [] && ys != [] && Joined(xs, sep) == Joined(ys, sep)
    ensures xs == ys
  {
    hide Joined;
    if HasNonDigit(sep) {
      JoinedInjective(xs, ys, sep);
    } else {
      DigitsJoinedInjective(xs, ys, sep);
    }
  }

  /** For any other separator two lists of distinct ints have one joined text. */
  lemma JoinedConfuses(sep: string) returns (xs: seq<Int>, ys: seq<Int>)
    requires !Separates(sep)
    ensures xs != [] && ys != [] && xs != ys && Distinct(xs) && Distinct(ys)
    ensures Joined(xs, sep) == Joined(ys, sep)
  {
    hide Joined;
    if |sep| <= 8 {
      xs, ys := ShortConfuses(sep);
    } else {
      var d: nat :| 1 <= d <= 9 && OverlapsBy(sep, d);
      xs, ys := OverlapConfuses(sep, d);
    }
  }

  /** Up to eight digits fit into one int together with a number on either side. */
  lemma ShortConfuses(sep: string) returns (xs: seq<Int>, ys: seq<Int>)
    requires AllDigits(sep) && |sep| <= 8
    ensures xs != [] && ys != [] && xs != ys && Distinct(xs) && Distinct(ys)
    ensures Joined(xs, sep) == Joined(ys, sep)
  {
    var text := "1" + (sep + "0");
    IntWithOne(sep + "0");
    xs, ys := [1, 0], [Read(text)];
    JoinedTwo(1, 0, sep);
    assert Show(1) == [Digit(1)] == "1" && Show(0) == [Digit(0)] == "0";
    assert text == "1" + sep + "0";
  }

  /** A one and up to nine digits make an int. */
  lemma IntWithOne(s: string)
    requires AllDigits(s) && |s| <= 9
    ensures AllDigits("1" + s) && Read("1" + s) <= MAX_INT && Show(Read("1" + s)) == "1" + s
  {
    ReadBound(s);
    TenDigits();
    PowGrows(|s|, 9);
    DecimalRead("1" + s);
  }

  lemma JoinedTwo(x: Int, y: Int, sep: string)
    ensures Joined([x, y], sep) == Show(x) + sep + Show(y)
  {
    assert [x, y][1..] == [y];
  }

  lemma OverlapConfuses(sep: string, d: nat) returns (xs: seq<Int>, ys: seq<Int>)
    requires AllDigits(sep) && OverlapsBy(sep, d)
    ensures xs != [] && ys != [] && xs != ys && Distinct(xs) && Distinct(ys)
    ensures Joined(xs, sep) == Joined(ys, sep)
  {
    var e, u := sep[|sep| - d..], sep[..d];
    IntWithOne(u);
    IntWithZero(e);
    var first, last := Read("1" + u), Read(e + "0");
    ReadBound(u);
    xs, ys := [1, last], [first, 0];
    assert Show(1) == [Digit(1)] == "1" && Show(0) == [Digit(0)] == "0";
    hide Show, Read, Joined;
    JoinedTwo(1, last, sep);
    JoinedTwo(first, 0, sep);
    Shifted(sep, d);
  }

  lemma Shifted(sep: string, d: nat)
    requires d <= |sep| && sep[d..] == sep[..|sep| - d]
    ensures "1" + sep + (sep[|sep| - d..] + "0") == ("1" + sep[..d]) + sep + "0"
  {
    var e, u := sep[|sep| - d..], sep[..d];
    assert sep == u + sep[d..] && sep == sep[..|sep| - d] + e;
    assert sep + e == u + sep;
    assert "1" + sep + (e + "0") == "1" + (sep + e) + "0" == ("1" + u) + sep + "0";
  }

  lemma IntWithZero(e: string)
    requires e != "" && AllDigits(e) && e[0] != '0' && Read(e) <= MAX_INT / 10
    ensures AllDigits(e + "0") && Read(e + "0") == 10 * Read(e) && Show(Read(e + "0")) == e + "0"
    ensures 10 <= 10 * Read(e) <= MAX_INT
  {
    var last := e + "0";
    assert last[..|last| - 1] == e && last[0] == e[0];
    DecimalRead(e);
    DecimalRead(last);
  }

  /** Nine or more zeros separate. */
  lemma ZerosSeparate(sep: string)
    requires |sep| >= 9 && forall i :: 0 <= i < |sep| ==> sep[i] == '0'
    ensures AllDigits(sep) && Separates(sep)
  {
  }

  // ----- what a text says about its tree -----

  /** The text determines the traversals, for any separator that separates. */
  lemma TextDeterminesTraversals(t1: Tree, t2: Tree, sep: string)
    requires Separates(sep)
    ensures TreeToString(t1, sep) == TreeToString(t2, sep) <==> SameTraversals(t1, t2)
  {
    hide TreeToString, HasNonDigit, Joined, Pre, Ino;
    if t1.Nil? || t2.Nil? {
      NilText(t1, sep);
      NilText(t2, sep);
    } else {
      TextOfTree(t1, sep);
      TextOfTree(t2, sep);
      if TreeToString(t1, sep) == TreeToString(t2, sep) {
        TextParts(Joined(Pre(t1), sep), Joined(Ino(t1), sep), Joined(Pre(t2), sep), Joined(Ino(t2), sep), sep);
        JoinedDetermines(Pre(t1), Pre(t2), sep);
        JoinedDetermines(Ino(t1), Ino(t2), sep);
      }
    }
  }

  /** No other tree has as short a text as the empty one, whatever the separator. */
  lemma NilText(t: Tree, sep: string)
    ensures t.Nil? <==> |TreeToString(t, sep)| == |TreeToString(Nil, sep)|
    ensures t.Nil? <==> Pre(t) == []
    ensures t.Nil? <==> Ino(t) == []
  {
    if t.Node? {
      TextOfTree(t, sep);
      assert |Joined(Ino(t), sep)| > 0 by {
        SignShows(Ino(t)[0]);
      }
    }
  }

  /** The text of the empty tree: nothing has been printed behind the opening brackets, so taking off a
      separator takes from them, unless it is longer than they are. */
  lemma TextOfNil(sep: string)
    ensures TreeToString(Nil, sep) ==
            (if |sep| <= 6 then "(Pre)["[..6 - |sep|] else "(Pre)[") + "]" + sep +
            (if |sep| <= 5 then "(In)["[..5 - |sep|] else "(In)[") + "]"
  {
    assert "(Pre)[" + PreText(Nil, sep) == "(Pre)[" && "(In)[" + InText(Nil, sep) == "(In)[";
    var p := if |sep| <= 6 then "(Pre)["[..6 - |sep|] else "(Pre)[";
    var q := if |sep| <= 5 then "(In)["[..5 - |sep|] else "(In)[";
    assert p + "]" + sep + (q + "]") == p + "]" + sep + q + "]";
  }

  /** Equal texts come from equal trees, for trees in which no value occurs again below itself and any
      separator that separates. */
  lemma {:induction false} TextIdentifiesTree(t1: Tree, t2: Tree, sep: string)
    requires Separates(sep) && NoneRepeatsBelow(t1)
    requires TreeToString(t1, sep) == TreeToString(t2, sep)
    ensures t1 == t2
  {
    hide Separates;
    TextDeterminesTraversals(t1, t2, sep);
    NoneRepeatsIsUnambiguous(t1);
    TraversalsDetermineTree(t1, t2);
  }

  /** A tree is the only one with its text exactly when no node's traversals can be cut at another
      occurrence of its value into two realizable pairs. */
  lemma {:induction false} TextIsUniqueExactlyWhen(t: Tree, sep: string)
    requires Separates(sep)
    ensures Unambiguous(t) <==>
            forall other: Tree :: TreeToString(other, sep) == TreeToString(t, sep) ==> other == t
  {
    hide Separates, TreeToString, Unambiguous, SameTraversals;
    if Unambiguous(t) {
      forall other: Tree | TreeToString(other, sep) == TreeToString(t, sep) ensures other == t {
        TextDeterminesTraversals(t, other, sep);
        TraversalsDetermineTree(t, other);
      }
    } else {
      var twin := AmbiguousTreeHasTwin(t);
      TextDeterminesTraversals(t, twin, sep);
    }
  }

  /** Both parts of a text are equally long, so its length tells where they are. */
  lemma TextParts(p1: string, i1: string, p2: string, i2: string, sep: string)
    requires |p1| == |i1| && |p2| == |i2|
    requires "(Pre)[" + p1 + "]" + sep + "(In)[" + i1 + "]" == "(Pre)[" + p2 + "]" + sep + "(In)[" + i2 + "]"
    ensures p1 == p2 && i1 == i2
  {
    var s := "(Pre)[" + p1 + "]" + sep + "(In)[" + i1 + "]";
    var t := "(Pre)[" + p2 + "]" + sep + "(In)[" + i2 + "]";
    assert |p1| == |p2|;
    var n := |p1|;
    assert s[6..6 + n] == p1 && t[6..6 + n] == p2;
    assert s[12 + n + |sep|..|s| - 1] == i1 && t[12 + n + |sep|..|s| - 1] == i2;
  }

  function RightChain(xs: seq<Int>): Tree {
    if xs == [] then Nil else Node(xs[0], Nil, RightChain(xs[1..]))
  }

  lemma {:induction false} RightChainTraversals(xs: seq<Int>)
    ensures Pre(RightChain(xs)) == xs && Ino(RightChain(xs)) == xs
  {
    if xs != [] {
      RightChainTraversals(xs[1..]);
      assert xs == [xs[0]] + [] + xs[1..] == [] + [xs[0]] + xs[1..];
    }
  }

  /** A separator that does not separate lets two trees of distinct values pass for one another. */
  lemma SeparatorConfuses(sep: string) returns (t1: Tree, t2: Tree)
    requires !Separates(sep)
    ensures t1.Node? && t2.Node? && t1 != t2 && Distinct(Ino(t1)) && Distinct(Ino(t2))
    ensures TreeToString(t1, sep) == TreeToString(t2, sep)
  {
    var xs, ys := JoinedConfuses(sep);
    t1, t2 := RightChain(xs), RightChain(ys);
    hide Separates, Joined, TreeToString;
    RightChainTraversals(xs);
    RightChainTraversals(ys);
    TextOfTree(t1, sep);
    TextOfTree(t2, sep);
  }

  lemma SmallTraversals(a: Int, b: Int)
    ensures Pre(Node(a, Nil, Node(b, Nil, Nil))) == Ino(Node(a, Nil, Node(b, Nil, Nil))) == [a, b]
    ensures Pre(Node(a, Node(b, Nil, Nil), Nil)) == [a, b] && Ino(Node(a, Node(b, Nil, Nil), Nil)) == [b, a]
  {
    var leaf := Node(b, Nil, Nil);
    assert Pre(leaf) == [b] && Ino(leaf) == [b];
    assert Pre(Node(a, Nil, leaf)) == [a] + [] + [b] && Ino(Node(a, Nil, leaf)) == [] + [a] + [b];
    assert Pre(Node(a, leaf, Nil)) == [a] + [b] + [] && Ino(Node(a, leaf, Nil)) == [b] + [a] + [];
  }

  /** A value repeated below itself can be fatal: the node may hang on either side. */
  lemma RepeatedValueConfuses(v: Int, sep: string)
    ensures var t1, t2 := Node(v, Node(v, Nil, Nil), Nil), Node(v, Nil, Node(v, Nil, Nil));
            t1 != t2 && TreeToString(t1, sep) == TreeToString(t2, sep)
  {
    var t1, t2 := Node(v, Node(v, Nil, Nil), Nil), Node(v, Nil, Node(v, Nil, Nil));
    TextOfTree(t1, sep);
    TextOfTree(t2, sep);
    hide TreeToString, Joined;
    SmallTraversals(v, v);
  }

  /** The printer tells the trees in which no value occurs again below itself from all others, and those of
      distinct values from each other, exactly for the separators that separate. */
  lemma {:induction false} InjectiveExactlyWhen(sep: string)
    ensures Separates(sep) <==>
            forall t1: Tree, t2: Tree | NoneRepeatsBelow(t1) ::
              TreeToString(t1, sep) == TreeToString(t2, sep) ==> t1 == t2
    ensures Separates(sep) <==>
            forall t1: Tree, t2: Tree | t1.Node? && t2.Node? && Distinct(Ino(t1)) && Distinct(Ino(t2)) ::
              TreeToString(t1, sep) == TreeToString(t2, sep) ==> t1 == t2
  {
    hide TreeToString, Separates;
    if Separates(sep) {
      forall t1: Tree, t2: Tree | NoneRepeatsBelow(t1) && TreeToString(t1, sep) == TreeToString(t2, sep)
        ensures t1 == t2
      {
        TextIdentifiesTree(t1, t2, sep);
      }
      forall t: Tree | Distinct(Ino(t)) ensures NoneRepeatsBelow(t) {
        DistinctNoneRepeats(t);
      }
    } else {
      var t1, t2 := SeparatorConfuses(sep);
      DistinctNoneRepeats(t1);
    }
  }
}
