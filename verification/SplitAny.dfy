/** Splitting by several delimiters: sorting them in descending order makes the first match the longest.

    `std::sort` is stood in for by the repository's own heap sort, which has the same contract.
 */
module SplitAny {
  import opened Orders
  import opened Split
  import Heap

  /** The order of std::string. */
  predicate Less(a: string, b: string) {
    b != "" && (a == "" || a[0] < b[0] || (a[0] == b[0] && Less(a[1..], b[1..])))
  }

  lemma {:induction false} LessAsymmetric(a: string, b: string)
    requires Less(a, b)
    ensures !Less(b, a)
    decreases |a|
  {
    if a != "" && a[0] == b[0] {
      LessAsymmetric(a[1..], b[1..]);
    }
  }

  lemma {:induction false} NotLessTransitive(a: string, b: string, c: string)
    requires !Less(a, b) && !Less(b, c)
    ensures !Less(a, c)
    decreases |a|
  {
    if a != "" && b != "" && c != "" && a[0] == b[0] == c[0] {
      NotLessTransitive(a[1..], b[1..], c[1..]);
    }
  }

  lemma {:induction false} LessIsStrictWeak()
    ensures StrictWeak(Less)
  {
    forall a, b | Less(a, b) ensures !Less(b, a) {
      LessAsymmetric(a, b);
    }
    forall a, b, c | !Less(a, b) && !Less(b, c) ensures !Less(a, c) {
      NotLessTransitive(a, b, c);
    }
  }

  lemma {:induction false} PrefixIsLess(a: string, b: string)
    requires |a| < |b| && b[..|a|] == a
    ensures Less(a, b)
  {
    if a != "" {
      assert a[0] == b[0];
      assert b[1..][..|a[1..]|] == b[..|a|][1..];
      PrefixIsLess(a[1..], b[1..]);
    }
  }

  /** The loop of the matcher over the sorted delimiters. */
  function FirstMatch(delims: seq<string>, s: string): (n: nat)
    ensures n <= |s|
  {
    if delims == [] then 0
    else if StartsWith(s, delims[0]) then |delims[0]|
    else FirstMatch(delims[1..], s)
  }

  function InTurn(delims: seq<string>): Matcher {
    (s: string) => FirstMatch(delims, s)
  }

  /** The length of the longest delimiter that starts s, in whatever order they are listed. */
  function Longest(delims: seq<string>, s: string): (n: nat)
    ensures n <= |s|
    ensures forall d :: d in delims && StartsWith(s, d) ==> |d| <= n
    ensures n > 0 ==> exists d :: d in delims && StartsWith(s, d) && |d| == n
  {
    if delims == [] then 0
    else
      var n := Longest(delims[1..], s);
      assert forall d :: d in delims ==> d == delims[0] || d in delims[1..];
      if StartsWith(s, delims[0]) && |delims[0]| > n then |delims[0]| else n
  }

  function ByLongest(delims: seq<string>): Matcher {
    (s: string) => Longest(delims, s)
  }

  lemma {:induction false} FirstIsLongest(delims: seq<string>, s: string)
    requires InOrder(Less, delims)
    ensures forall d :: d in delims && StartsWith(s, d) ==> |d| <= FirstMatch(delims, s)
    ensures FirstMatch(delims, s) > 0 ==> exists d :: d in delims && StartsWith(s, d) && |d| == FirstMatch(delims, s)
  {
    if delims != [] {
      if StartsWith(s, delims[0]) {
        forall d | d in delims && StartsWith(s, d) ensures |d| <= |delims[0]| {
          var j :| 0 <= j < |delims| && delims[j] == d;
          if |d| > |delims[0]| {
            assert d[..|delims[0]|] == s[..|d|][..|delims[0]|] == delims[0];
            PrefixIsLess(delims[0], d);
          }
        }
      } else {
        FirstIsLongest(delims[1..], s);
        assert forall d :: d in delims ==> d == delims[0] || d in delims[1..];
      }
    }
  }

  ghost predicate SameMatches(m: Matcher, m': Matcher) {
    forall s: string :: m(s) == m'(s)
  }

  lemma {:induction false} SameMatchesSameGreed(str: string, m: Matcher, m': Matcher, ts: seq<Token>, o: nat)
    requires SameMatches(m, m') && Greedy(str, m, ts, o)
    ensures Greedy(str, m', ts, o)
    decreases |ts|
  {
    if ts != [] {
      SameMatchesSameGreed(str, m, m', ts[1..], o + |ts[0].text|);
    }
  }

  lemma SameMatchesSameScan(str: string, m: Matcher, m': Matcher)
    requires Fits(m) && Fits(m') && SameMatches(m, m')
    ensures Scan(str, m, 0, 0) == Scan(str, m', 0, 0)
  {
    hide Scan, Greedy, SameMatches;
    ScanIsGreedy(str, m, 0, 0);
    ScanIsGreedy(str, m', 0, 0);
    SameMatchesSameGreed(str, m, m', Scan(str, m, 0, 0), 0);
    GreedyIsUnique(str, m', Scan(str, m, 0, 0), Scan(str, m', 0, 0), 0);
  }

  /** In the sorted list the first delimiter that matches is the longest one. */
  lemma SortedFindsLongest(sorted: seq<string>, delims: seq<string>)
    requires InOrder(Less, sorted) && multiset(sorted) == multiset(delims)
    ensures SameMatches(InTurn(sorted), ByLongest(delims))
  {
    forall s: string ensures InTurn(sorted)(s) == ByLongest(delims)(s) {
      FirstIsLongest(sorted, s);
      SameStrings(sorted, delims);
    }
  }

  lemma SameStrings(a: seq<string>, b: seq<string>)
    requires multiset(a) == multiset(b)
    ensures forall d :: d in a <==> d in b
  {
    assert forall d :: d in a <==> d in multiset(a);
    assert forall d :: d in b <==> d in multiset(b);
  }

  /** Whatever order the delimiters are listed in, a string is taken apart in the same way. */
  lemma {:induction false} DelimiterOrderIsIrrelevant(str: string, a: seq<string>, b: seq<string>)
    requires multiset(a) == multiset(b)
    ensures Scan(str, ByLongest(a), 0, 0) == Scan(str, ByLongest(b), 0, 0)
  {
    forall s: string ensures ByLongest(a)(s) == ByLongest(b)(s) {
      SameStrings(a, b);
    }
    SameMatchesSameScan(str, ByLongest(a), ByLongest(b));
  }

  /** A piece that is not empty and in which no delimiter occurs. */
  predicate IsClean(piece: string, delims: seq<string>) {
    piece != "" && forall d :: d in delims ==> !Contains(piece, d)
  }

  lemma UntouchedIsClean(str: string, delims: seq<string>, lo: nat, hi: nat)
    requires "" !in delims && lo < hi <= |str| && Untouched(str, ByLongest(delims), lo, hi)
    ensures IsClean(str[lo..hi], delims)
  {
    forall d | d in delims ensures !Contains(str[lo..hi], d) {
      forall k | lo <= k < hi ensures ByString(d)(str[k..]) == 0 {
        assert ByLongest(delims)(str[k..]) == 0;
      }
      hide Contains, Longest;
      UntouchedHoldsNone(str, d, lo, hi);
    }
  }

  lemma {:induction false} PiecesAreClean(str: string, delims: seq<string>, ts: seq<Token>, o: nat)
    requires "" !in delims && o <= |str| && Greedy(str, ByLongest(delims), ts, o)
    ensures forall i :: 0 <= i < |Pieces(ts)| ==> IsClean(Pieces(ts)[i], delims)
    decreases |ts|
  {
    hide Contains, Longest, IsClean;
    if ts != [] {
      PiecesAreClean(str, delims, ts[1..], o + |ts[0].text|);
      if ts[0].Piece? {
        UntouchedIsClean(str, delims, o, o + |ts[0].text|);
      }
    }
  }

  lemma LongestIsThere(delims: seq<string>, s: string)
    requires Longest(delims, s) > 0
    ensures s[..Longest(delims, s)] in delims
  {
    var n := Longest(delims, s);
    var d :| d in delims && StartsWith(s, d) && |d| == n;
    hide Longest;
    assert s[..n] == d;
  }

  /** Every delimiter of the scan is one of the list. */
  lemma {:induction false} DelimsAreListed(str: string, delims: seq<string>, ts: seq<Token>, o: nat)
    requires o <= |str| && Greedy(str, ByLongest(delims), ts, o)
    ensures forall i :: 0 <= i < |ts| && ts[i].Delim? ==> ts[i].text in delims
    decreases |ts|
  {
    hide Longest;
    if ts != [] {
      DelimsAreListed(str, delims, ts[1..], o + |ts[0].text|);
      if ts[0].Delim? {
        LongestIsThere(delims, str[o..]);
        assert str[o..][..|ts[0].text|] == ts[0].text;
      }
    }
  }

  /** `split` by a list of strings: at each place the longest delimiter that starts there is cut out. */
  method SplitStrings(str: string, delims: seq<string>) returns (ret: seq<string>)
    requires "" !in delims
    ensures ret == Pieces(Scan(str, ByLongest(delims), 0, 0))
    ensures forall i :: 0 <= i < |ret| ==> IsClean(ret[i], delims)
  {
    LessIsStrictWeak();
    var a := new string[|delims|](i requires 0 <= i < |delims| => delims[i]);
    assert a[..] == delims;
    Heap.Sort(Less, a);
    var sorted := a[..];
    SortedFindsLongest(sorted, delims);
    SameMatchesSameScan(str, InTurn(sorted), ByLongest(delims));
    ret := SplitBy(str, InTurn(sorted));
    ScanIsGreedy(str, ByLongest(delims), 0, 0);
    PiecesAreClean(str, delims, Scan(str, ByLongest(delims), 0, 0), 0);
  }

  /** `split` by a list of characters. */
  function AnyChar(delims: seq<char>): Matcher {
    (s: string) => if s != "" && s[0] in delims then 1 else 0
  }

  method SplitChars(str: string, delims: seq<char>) returns (ret: seq<string>)
    ensures ret == Pieces(Scan(str, AnyChar(delims), 0, 0))
    ensures FieldsOf(str, (set c | c in delims), ret)
    ensures forall i :: 0 <= i < |ret| ==> ret[i] != "" && forall c :: c in ret[i] ==> c !in delims
  {
    assert Fits(AnyChar(delims));
    ret := SplitBy(str, AnyChar(delims));
    ScanIsGreedy(str, AnyChar(delims), 0, 0);
    PiecesHoldNoChar(str, delims, Scan(str, AnyChar(delims), 0, 0), 0);
    PiecesAreFields(str, AnyChar(delims), (set c | c in delims), Scan(str, AnyChar(delims), 0, 0), 0);
  }

  lemma {:induction false} PiecesHoldNoChar(str: string, delims: seq<char>, ts: seq<Token>, o: nat)
    requires o <= |str| && Greedy(str, AnyChar(delims), ts, o)
    ensures forall i :: 0 <= i < |Pieces(ts)| ==>
              Pieces(ts)[i] != "" && forall c :: c in Pieces(ts)[i] ==> c !in delims
    decreases |ts|
  {
    if ts != [] {
      PiecesHoldNoChar(str, delims, ts[1..], o + |ts[0].text|);
      if ts[0].Piece? {
        forall c | c in ts[0].text ensures c !in delims {
          var k :| 0 <= k < |ts[0].text| && ts[0].text[k] == c;
          assert AnyChar(delims)(str[o + k..]) == 0;
          assert str[o + k..][0] == c;
        }
      }
    }
  }
}
