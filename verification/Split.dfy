/** Splitting and counting: the scanner behind the four `split` overloads, and `count`.

    A matcher says of a position in the string how long the delimiter starting there is, 0 meaning
    that none starts.  Delimiters are nonempty; with an empty one the source does not terminate.
 */
module Split {
  import opened Wrappers

  /** What the scan takes the string apart into. */
  datatype Token = Piece(text: string) | Delim(text: string)

  predicate StartsWith(str: string, prefix: string) {
    |prefix| <= |str| && str[..|prefix|] == prefix
  }

  type Matcher = string -> nat

  /** A match never runs past the end. */
  ghost predicate Fits(m: Matcher) {
    forall s: string :: m(s) <= |s|
  }

  /** The tokens of str from position `starter` on, the scan standing at idx inside a piece. */
  function Scan(str: string, m: Matcher, starter: nat, idx: nat): seq<Token>
    requires Fits(m) && starter <= idx <= |str|
    decreases |str| - idx
  {
    if idx == |str| then Pending(str, starter, idx)
    else
      var len := m(str[idx..]);
      assert len <= |str[idx..]|;
      if len > 0 then Pending(str, starter, idx) + [Delim(str[idx..idx + len])] + Scan(str, m, idx + len, idx + len)
      else Scan(str, m, starter, idx + 1)
  }

  function Pending(str: string, starter: nat, idx: nat): seq<Token>
    requires starter <= idx <= |str|
  {
    if starter < idx then [Piece(str[starter..idx])] else []
  }

  function Pieces(ts: seq<Token>): seq<string> {
    if ts == [] then []
    else if ts[0].Piece? then [ts[0].text] + Pieces(ts[1..])
    else Pieces(ts[1..])
  }

  function Text(ts: seq<Token>): string {
    if ts == [] then "" else ts[0].text + Text(ts[1..])
  }

  function Delims(ts: seq<Token>): nat {
    if ts == [] then 0 else (if ts[0].Delim? then 1 else 0) + Delims(ts[1..])
  }

  lemma {:induction false} Concat(a: seq<Token>, b: seq<Token>)
    ensures Pieces(a + b) == Pieces(a) + Pieces(b)
    ensures Text(a + b) == Text(a) + Text(b)
    ensures Delims(a + b) == Delims(a) + Delims(b)
  {
    if a == [] {
      assert a + b == b;
    } else {
      assert (a + b)[1..] == a[1..] + b;
      Concat(a[1..], b);
    }
  }

  lemma PendingText(str: string, starter: nat, idx: nat)
    requires starter <= idx <= |str|
    ensures Text(Pending(str, starter, idx)) == str[starter..idx]
    ensures Pieces(Pending(str, starter, idx)) == if starter < idx then [str[starter..idx]] else []
    ensures Delims(Pending(str, starter, idx)) == 0
  {
    if starter < idx {
      assert Pending(str, starter, idx)[1..] == [];
    }
  }

  /** `_split`: the loop over idx and starter yields the pieces of the scan. */
  method SplitBy(str: string, m: Matcher) returns (ret: seq<string>)
    requires Fits(m)
    ensures ret == Pieces(Scan(str, m, 0, 0))
  {
    hide Pieces, Pending, Fits, StartsWith;
    var len := |str|;
    var idx, starter := 0, 0;
    ret := [];
    while idx < len
      invariant 0 <= starter <= idx <= len
      invariant ret + Pieces(Scan(str, m, starter, idx)) == Pieces(Scan(str, m, 0, 0))
      decreases len - idx
    {
      var idxInstance := m(str[idx..]);
      if idxInstance > 0 {
        DelimFound(str, m, starter, idx);
        if idx > starter {
          ret := ret + [str[starter..idx]];
        }
        idx := idx + idxInstance;
        starter := idx;
      } else {
        idx := idx + 1;
      }
    }
    PendingText(str, starter, idx);
    if starter < len {
      ret := ret + [str[starter..len]];
    }
  }

  lemma DelimFound(str: string, m: Matcher, starter: nat, idx: nat)
    requires Fits(m) && starter <= idx < |str| && m(str[idx..]) > 0
    ensures m(str[idx..]) <= |str| - idx
    ensures Pieces(Scan(str, m, starter, idx)) ==
            (if starter < idx then [str[starter..idx]] else []) +
            Pieces(Scan(str, m, idx + m(str[idx..]), idx + m(str[idx..])))
    ensures Delims(Scan(str, m, starter, idx)) == 1 + Delims(Scan(str, m, idx + m(str[idx..]), idx + m(str[idx..])))
  {
    ScanAtDelim(str, m, starter, idx);
    var len := m(str[idx..]);
    var d, rest := [Delim(str[idx..idx + len])], Scan(str, m, idx + len, idx + len);
    PendingText(str, starter, idx);
    assert d[1..] == [] && Pieces(d) == [] && Delims(d) == 1;
    hide Scan, Pending, Pieces, Text, Delims;
    Concat(Pending(str, starter, idx), d + rest);
    Concat(d, rest);
  }

  // ----- the scan, described without an algorithm -----

  /** The tokens lie end to end from offset o to the end of str.  A delimiter is what the matcher finds
      there; a piece is nonempty, holds no position at which a delimiter starts, and is as long as it
      can be. */
  ghost predicate Greedy(str: string, m: Matcher, ts: seq<Token>, o: nat) {
    if ts == [] then o == |str|
    else Fitting(str, m, ts[0], ts[1..], o) && Greedy(str, m, ts[1..], o + |ts[0].text|)
  }

  ghost predicate Untouched(str: string, m: Matcher, lo: nat, hi: nat)
    requires hi <= |str|
  {
    forall p :: lo <= p < hi ==> m(str[p..]) == 0
  }

  /** The head of a token sequence lies at offset o. */
  ghost predicate Fitting(str: string, m: Matcher, t: Token, next: seq<Token>, o: nat) {
    && t.text != "" && o + |t.text| <= |str| && t.text == str[o..o + |t.text|]
    && match t
       case Delim(d) => m(str[o..]) == |d|
       case Piece(p) => Untouched(str, m, o, o + |p|) && (next != [] ==> next[0].Delim?)
  }

  lemma GreedyCons(str: string, m: Matcher, t: Token, ts: seq<Token>, o: nat)
    requires Fitting(str, m, t, ts, o) && Greedy(str, m, ts, o + |t.text|)
    ensures Greedy(str, m, [t] + ts, o)
  {
    assert ([t] + ts)[1..] == ts;
  }

  lemma ScanAtDelim(str: string, m: Matcher, starter: nat, idx: nat)
    requires Fits(m) && starter <= idx < |str| && m(str[idx..]) > 0
    ensures var len := m(str[idx..]);
            && len <= |str| - idx
            && Scan(str, m, starter, idx) ==
               Pending(str, starter, idx) + ([Delim(str[idx..idx + len])] + Scan(str, m, idx + len, idx + len))
  {
    assert m(str[idx..]) <= |str[idx..]|;
  }

  lemma ScanAtOther(str: string, m: Matcher, starter: nat, idx: nat)
    requires Fits(m) && starter <= idx < |str| && m(str[idx..]) == 0 && Untouched(str, m, starter, idx)
    ensures Scan(str, m, starter, idx) == Scan(str, m, starter, idx + 1) && Untouched(str, m, starter, idx + 1)
  {
  }

  lemma ScanAtEnd(str: string, m: Matcher, starter: nat)
    requires Fits(m) && starter <= |str|
    ensures Scan(str, m, starter, |str|) == Pending(str, starter, |str|) + [] && Greedy(str, m, [], |str|)
  {
  }

  lemma PieceInFront(str: string, m: Matcher, starter: nat, idx: nat, ts: seq<Token>)
    requires starter <= idx <= |str| && Untouched(str, m, starter, idx)
    requires Greedy(str, m, ts, idx) && (ts != [] ==> ts[0].Delim?)
    ensures Greedy(str, m, Pending(str, starter, idx) + ts, starter)
  {
    if starter < idx {
      GreedyCons(str, m, Piece(str[starter..idx]), ts, starter);
    } else {
      assert [] + ts == ts;
    }
  }

  lemma DelimInFront(str: string, m: Matcher, idx: nat, ts: seq<Token>)
    requires idx <= |str| && 0 < m(str[idx..]) <= |str| - idx && Greedy(str, m, ts, idx + m(str[idx..]))
    ensures Greedy(str, m, [Delim(str[idx..idx + m(str[idx..])])] + ts, idx)
  {
    GreedyCons(str, m, Delim(str[idx..idx + m(str[idx..])]), ts, idx);
  }

  lemma {:induction false} ScanIsGreedy(str: string, m: Matcher, starter: nat, idx: nat)
    requires Fits(m) && starter <= idx <= |str| && Untouched(str, m, starter, idx)
    ensures Greedy(str, m, Scan(str, m, starter, idx), starter)
    decreases |str| - idx
  {
    hide Scan, Pending, Greedy, Fits, Untouched;
    if idx == |str| {
      ScanAtEnd(str, m, starter);
      PieceInFront(str, m, starter, idx, []);
    } else if m(str[idx..]) > 0 {
      ScanAtDelim(str, m, starter, idx);
      var e := idx + m(str[idx..]);
      NothingUntouched(str, m, e);
      ScanIsGreedy(str, m, e, e);
      DelimInFront(str, m, idx, Scan(str, m, e, e));
      PieceInFront(str, m, starter, idx, [Delim(str[idx..e])] + Scan(str, m, e, e));
    } else {
      ScanAtOther(str, m, starter, idx);
      ScanIsGreedy(str, m, starter, idx + 1);
    }
  }

  lemma NothingUntouched(str: string, m: Matcher, p: nat)
    requires p <= |str|
    ensures Untouched(str, m, p, p)
  {
  }

  /** There is only one such way to take a string apart. */
  lemma {:induction false} GreedyIsUnique(str: string, m: Matcher, a: seq<Token>, b: seq<Token>, o: nat)
    requires Greedy(str, m, a, o) && Greedy(str, m, b, o)
    ensures a == b
    decreases |a|
  {
    if a != [] && b != [] {
      SameHead(str, m, a, b, o);
      GreedyIsUnique(str, m, a[1..], b[1..], o + |a[0].text|);
      assert a == [a[0]] + a[1..] && b == [b[0]] + b[1..];
    }
  }

  lemma SameHead(str: string, m: Matcher, a: seq<Token>, b: seq<Token>, o: nat)
    requires Greedy(str, m, a, o) && Greedy(str, m, b, o) && a != [] && b != []
    ensures a[0] == b[0]
  {
    var na, nb := |a[0].text|, |b[0].text|;
    if a[0].Piece? && b[0].Piece? {
      NotBeyond(str, m, a, b, o);
      NotBeyond(str, m, b, a, o);
    }
    assert a[0].Piece? ==> m(str[o..]) == 0;
    assert b[0].Piece? ==> m(str[o..]) == 0;
  }

  lemma NotBeyond(str: string, m: Matcher, a: seq<Token>, b: seq<Token>, o: nat)
    requires Greedy(str, m, a, o) && Greedy(str, m, b, o) && a != [] && b != [] && a[0].Piece? && b[0].Piece?
    ensures |b[0].text| <= |a[0].text|
  {
    var e := o + |a[0].text|;
    if e < |str| {
      assert a[1..] != [] && a[1..][0] == a[1] && m(str[e..]) > 0;
    }
  }

  lemma {:induction false} GreedyRebuilds(str: string, m: Matcher, ts: seq<Token>, o: nat)
    requires Greedy(str, m, ts, o) && o <= |str|
    ensures Text(ts) == str[o..]
    decreases |ts|
  {
    if ts != [] {
      GreedyRebuilds(str, m, ts[1..], o + |ts[0].text|);
      assert str[o..] == str[o..o + |ts[0].text|] + str[o + |ts[0].text|..];
    }
  }

  /** Pieces and delimiters, in the order found, are the string again. */
  lemma ScanRebuilds(str: string, m: Matcher)
    requires Fits(m)
    ensures Text(Scan(str, m, 0, 0)) == str
  {
    ScanIsGreedy(str, m, 0, 0);
    GreedyRebuilds(str, m, Scan(str, m, 0, 0), 0);
    assert str[0..] == str;
  }

  // ----- the delimiters of the overloads -----

  function ByChar(c: char): Matcher {
    (s: string) => if s != "" && s[0] == c then 1 else 0
  }

  function ByString(d: string): Matcher {
    (s: string) => if StartsWith(s, d) then |d| else 0
  }

  lemma MatchersFit(c: char, d: string)
    ensures Fits(ByChar(c)) && Fits(ByString(d))
  {
  }

  function TotalLength(ps: seq<string>): nat {
    if ps == [] then 0 else |ps[0]| + TotalLength(ps[1..])
  }

  /** No piece of a split by a string contains that string, nor is empty. */
  lemma {:induction false} PiecesHoldNoDelimiter(str: string, d: string, ts: seq<Token>, o: nat)
    requires d != "" && o <= |str| && Greedy(str, ByString(d), ts, o)
    ensures forall i :: 0 <= i < |Pieces(ts)| ==> Pieces(ts)[i] != "" && !Contains(Pieces(ts)[i], d)
    decreases |ts|
  {
    if ts != [] {
      PiecesHoldNoDelimiter(str, d, ts[1..], o + |ts[0].text|);
      if ts[0].Piece? {
        UntouchedHoldsNone(str, d, o, o + |ts[0].text|);
      }
    }
  }

  /** No piece of a split by a character holds it, nor is empty. */
  lemma {:induction false} NoCharInPieces(str: string, c: char, ts: seq<Token>, o: nat)
    requires o <= |str| && Greedy(str, ByChar(c), ts, o)
    ensures forall t :: t in Pieces(ts) ==> t != "" && c !in t
    decreases |ts|
  {
    if ts != [] {
      NoCharInPieces(str, c, ts[1..], o + |ts[0].text|);
      if ts[0].Piece? {
        var t := ts[0].text;
        forall k | 0 <= k < |t| ensures t[k] != c {
          assert ByChar(c)(str[o + k..]) == 0;
          assert str[o + k..][0] == t[k];
        }
      }
    }
  }

  lemma UntouchedHoldsNone(str: string, d: string, lo: nat, hi: nat)
    requires d != "" && lo <= hi <= |str| && Untouched(str, ByString(d), lo, hi)
    ensures !Contains(str[lo..hi], d)
  {
    forall k | 0 <= k <= |str[lo..hi]| ensures !StartsWith(str[lo..hi][k..], d) {
      StartsInside(str, d, lo, hi, k);
      if k < hi - lo {
        assert ByString(d)(str[lo + k..]) == 0;
      }
    }
  }

  lemma StartsInside(str: string, d: string, lo: nat, hi: nat, k: nat)
    requires lo + k <= hi <= |str|
    ensures StartsWith(str[lo..hi][k..], d) ==> StartsWith(str[lo + k..], d)
  {
    if StartsWith(str[lo..hi][k..], d) {
      assert str[lo + k..][..|d|] == str[lo..hi][k..][..|d|];
    }
  }

  predicate Contains(s: string, d: string) {
    exists k :: 0 <= k <= |s| && StartsWith(s[k..], d)
  }

  lemma Distribute(n: nat, k: nat)
    ensures (1 + n) * k == k + n * k
  {
  }

  /** What the pieces do not account for are the delimiters. */
  lemma {:induction false} LengthsAddUp(str: string, d: string, ts: seq<Token>, o: nat)
    requires o <= |str| && Greedy(str, ByString(d), ts, o)
    ensures TotalLength(Pieces(ts)) + Delims(ts) * |d| == |str| - o
    decreases |ts|
  {
    if ts != [] {
      LengthsAddUp(str, d, ts[1..], o + |ts[0].text|);
      if ts[0].Piece? {
        assert Pieces(ts)[1..] == Pieces(ts[1..]);
      } else {
        assert |ts[0].text| == |d|;
        Distribute(Delims(ts[1..]), |d|);
      }
    }
  }

  // ----- splitting at single characters, said of the string itself -----

  datatype Span = Span(lo: nat, hi: nat)

  /** A nonempty stretch of the string that holds no delimiter and cannot be made longer. */
  predicate IsField(str: string, delims: set<char>, f: Span) {
    && f.lo < f.hi <= |str|
    && (forall p :: f.lo <= p < f.hi ==> str[p] !in delims)
    && (f.lo == 0 || str[f.lo - 1] in delims)
    && (f.hi == |str| || str[f.hi] in delims)
  }

  /** These are the fields from position o on, all of them, in order. */
  ghost predicate AreFields(str: string, delims: set<char>, fs: seq<Span>, o: nat) {
    && (forall k :: 0 <= k < |fs| ==> o <= fs[k].lo && IsField(str, delims, fs[k]))
    && (forall j, k :: 0 <= j < k < |fs| ==> fs[j].hi < fs[k].lo)
    && (forall f: Span :: IsField(str, delims, f) && o <= f.lo ==> f in fs)
  }

  /** These strings are the fields of str, in order. */
  ghost predicate FieldsOf(str: string, delims: set<char>, ret: seq<string>) {
    exists fs: seq<Span> :: AreFields(str, delims, fs, 0) && CutOut(str, fs, ret)
  }

  predicate CutOut(str: string, fs: seq<Span>, ret: seq<string>) {
    |ret| == |fs| && forall k :: 0 <= k < |fs| ==> fs[k].lo <= fs[k].hi <= |str| && ret[k] == str[fs[k].lo..fs[k].hi]
  }

  /** The matcher finds single characters. */
  ghost predicate FindsChars(m: Matcher, delims: set<char>) {
    forall s: string :: m(s) == if s != "" && s[0] in delims then 1 else 0
  }

  function SpansOf(ts: seq<Token>, o: nat): seq<Span> {
    if ts == [] then []
    else (if ts[0].Piece? then [Span(o, o + |ts[0].text|)] else []) + SpansOf(ts[1..], o + |ts[0].text|)
  }

  lemma {:induction false} PiecesAreFields(str: string, m: Matcher, delims: set<char>, ts: seq<Token>, o: nat)
    requires FindsChars(m, delims) && o <= |str| && Greedy(str, m, ts, o)
    requires o == 0 || o == |str| || str[o - 1] in delims || str[o] in delims
    ensures AreFields(str, delims, SpansOf(ts, o), o) && CutOut(str, SpansOf(ts, o), Pieces(ts))
    decreases |ts|
  {
    if ts != [] {
      var next := o + |ts[0].text|;
      HeadStandsFor(str, m, delims, ts, o);
      PiecesAreFields(str, m, delims, ts[1..], next);
      SpansUnfold(ts, o);
      hide Greedy, IsField, AreFields, CutOut, SpansOf, Pieces, FindsChars;
      var fs, rest := SpansOf(ts[1..], next), Pieces(ts[1..]);
      if ts[0].Piece? {
        FieldInFront(str, delims, fs, o, next);
        CutInFront(str, fs, rest, o, next);
      } else {
        DelimiterInFront(str, delims, fs, o);
      }
    }
  }

  lemma SpansUnfold(ts: seq<Token>, o: nat)
    requires ts != []
    ensures var next := o + |ts[0].text|;
            && SpansOf(ts, o) == (if ts[0].Piece? then [Span(o, next)] else []) + SpansOf(ts[1..], next)
            && Pieces(ts) == (if ts[0].Piece? then [ts[0].text] else []) + Pieces(ts[1..])
            && [] + SpansOf(ts[1..], next) == SpansOf(ts[1..], next) && [] + Pieces(ts[1..]) == Pieces(ts[1..])
  {
  }

  lemma CutInFront(str: string, fs: seq<Span>, ret: seq<string>, o: nat, next: nat)
    requires CutOut(str, fs, ret) && o <= next <= |str|
    ensures CutOut(str, [Span(o, next)] + fs, [str[o..next]] + ret)
  {
  }

  /** What the head of a scan says of the characters there. */
  lemma HeadStandsFor(str: string, m: Matcher, delims: set<char>, ts: seq<Token>, o: nat)
    requires FindsChars(m, delims) && ts != [] && o <= |str| && Greedy(str, m, ts, o)
    requires o == 0 || o == |str| || str[o - 1] in delims || str[o] in delims
    ensures var next := o + |ts[0].text|;
            && o < next <= |str| && ts[0].text == str[o..next] && Greedy(str, m, ts[1..], next)
            && (ts[0].Delim? ==> next == o + 1 && str[o] in delims)
            && (ts[0].Piece? ==> IsField(str, delims, Span(o, next)))
            && (next == |str| || str[next - 1] in delims || str[next] in delims)
  {
    var next := o + |ts[0].text|;
    if ts[0].Delim? {
      assert str[o..][0] == str[o];
    } else {
      forall p | o <= p < next ensures str[p] !in delims {
        assert m(str[p..]) == 0 && str[p..][0] == str[p];
      }
      if next < |str| {
        assert ts[1..] != [] && ts[1].Delim? && m(str[next..]) == |ts[1].text|;
        assert str[next..][0] == str[next];
      }
    }
  }

  lemma FieldInFront(str: string, delims: set<char>, fs: seq<Span>, o: nat, next: nat)
    requires IsField(str, delims, Span(o, next)) && AreFields(str, delims, fs, next)
    ensures AreFields(str, delims, [Span(o, next)] + fs, o)
  {
    var all := [Span(o, next)] + fs;
    forall f: Span | IsField(str, delims, f) && o <= f.lo ensures f in all {
      if f.lo == o {
        assert f.hi == next;
        assert all[0] == f;
      } else {
        assert f.lo > next;
        assert f in fs;
      }
    }
    forall k | 0 <= k < |fs| ensures next < fs[k].lo {
      assert IsField(str, delims, fs[k]);
    }
  }

  lemma DelimiterInFront(str: string, delims: set<char>, fs: seq<Span>, o: nat)
    requires o < |str| && str[o] in delims && AreFields(str, delims, fs, o + 1)
    ensures AreFields(str, delims, fs, o)
  {
  }

  /** Every delimiter of the scan is one of the characters, or the string, it was asked for. */
  lemma {:induction false} DelimsAreChars(str: string, m: Matcher, delims: set<char>, ts: seq<Token>, o: nat)
    requires FindsChars(m, delims) && o <= |str| && Greedy(str, m, ts, o)
    ensures forall t :: t in ts && t.Delim? ==> |t.text| == 1 && t.text[0] in delims
    decreases |ts|
  {
    if ts != [] {
      DelimsAreChars(str, m, delims, ts[1..], o + |ts[0].text|);
      if ts[0].Delim? {
        assert str[o..][0] == str[o];
      }
    }
  }

  lemma {:induction false} DelimsAreTheString(str: string, d: string, ts: seq<Token>, o: nat)
    requires o <= |str| && Greedy(str, ByString(d), ts, o)
    ensures forall t :: t in ts && t.Delim? ==> t.text == d
    decreases |ts|
  {
    if ts != [] {
      DelimsAreTheString(str, d, ts[1..], o + |ts[0].text|);
      if ts[0].Delim? {
        assert str[o..][..|d|] == str[o..o + |d|];
      }
    }
  }

  /** `split` by a character and by a string. */
  method SplitChar(str: string, delim: char) returns (ret: seq<string>)
    ensures ret == Pieces(Scan(str, ByChar(delim), 0, 0))
    ensures FieldsOf(str, {delim}, ret)
    ensures forall t :: t in ret ==> t != "" && delim !in t
  {
    MatchersFit(delim, "");
    ret := SplitBy(str, ByChar(delim));
    ScanIsGreedy(str, ByChar(delim), 0, 0);
    NoCharInPieces(str, delim, Scan(str, ByChar(delim), 0, 0), 0);
    PiecesAreFields(str, ByChar(delim), {delim}, Scan(str, ByChar(delim), 0, 0), 0);
  }

  method SplitString(str: string, delim: string) returns (ret: seq<string>)
    requires delim != ""
    ensures ret == Pieces(Scan(str, ByString(delim), 0, 0))
    ensures forall i :: 0 <= i < |ret| ==> ret[i] != "" && !Contains(ret[i], delim)
  {
    MatchersFit(' ', delim);
    ret := SplitBy(str, ByString(delim));
    ScanIsGreedy(str, ByString(delim), 0, 0);
    PiecesHoldNoDelimiter(str, delim, Scan(str, ByString(delim), 0, 0), 0);
  }

  // ----- count -----

  /** `str.find(sub, pos)`: the first match at or behind pos. */
  function Find(str: string, sub: string, pos: nat): (r: Option<nat>)
    requires pos <= |str|
    ensures r.Some? ==> pos <= r.value && r.value + |sub| <= |str|
    decreases |str| - pos
  {
    if StartsWith(str[pos..], sub) then Some(pos)
    else if pos == |str| then None
    else Find(str, sub, pos + 1)
  }

  lemma {:induction false} FindIsFirst(str: string, sub: string, pos: nat)
    requires pos <= |str|
    ensures var r := Find(str, sub, pos);
            && (r.Some? ==> StartsWith(str[r.value..], sub))
            && forall p :: pos <= p <= |str| && (r.Some? ==> p < r.value) ==> !StartsWith(str[p..], sub)
    decreases |str| - pos
  {
    if !StartsWith(str[pos..], sub) && pos < |str| {
      FindIsFirst(str, sub, pos + 1);
    }
  }

  /** `count` finds as many occurrences as `split` finds delimiters. */
  method Count(str: string, substr: string) returns (cnt: nat)
    requires substr != ""
    ensures cnt == Delims(Scan(str, ByString(substr), 0, 0))
  {
    hide Delims, Scan, Find;
    MatchersFit(' ', substr);
    cnt := 0;
    var pos := 0;
    var found := Find(str, substr, pos);
    while found.Some?
      invariant pos <= |str| && found == Find(str, substr, pos)
      invariant cnt + Delims(Scan(str, ByString(substr), pos, pos)) == Delims(Scan(str, ByString(substr), 0, 0))
      decreases |str| - pos
    {
      DelimsFrom(str, ByString(substr), substr, pos, pos);
      cnt := cnt + 1;
      pos := found.value + |substr|;
      found := Find(str, substr, pos);
    }
    DelimsFrom(str, ByString(substr), substr, pos, pos);
  }

  ghost predicate Finds(m: Matcher, d: string) {
    forall s: string :: m(s) == if StartsWith(s, d) then |d| else 0
  }

  lemma {:induction false} DelimsFrom(str: string, m: Matcher, d: string, starter: nat, idx: nat)
    requires d != "" && starter <= idx <= |str| && Fits(m) && Finds(m, d)
    ensures var found := Find(str, d, idx);
            Delims(Scan(str, m, starter, idx)) ==
               if found.None? then 0 else 1 + Delims(Scan(str, m, found.value + |d|, found.value + |d|))
    decreases |str| - idx
  {
    hide Scan, Find, Finds, Fits, StartsWith, Pieces, Delims;
    FindStep(str, m, d, idx);
    if idx == |str| {
      NoDelimAtEnd(str, m, starter);
    } else if m(str[idx..]) > 0 {
      DelimFound(str, m, starter, idx);
    } else {
      NoDelimFound(str, m, starter, idx);
      DelimsFrom(str, m, d, starter, idx + 1);
    }
  }

  lemma NoDelimAtEnd(str: string, m: Matcher, starter: nat)
    requires Fits(m) && starter <= |str|
    ensures Delims(Scan(str, m, starter, |str|)) == 0
  {
    ScanAtEnd(str, m, starter);
    PendingText(str, starter, |str|);
    assert Pending(str, starter, |str|) + [] == Pending(str, starter, |str|);
  }

  lemma NoDelimFound(str: string, m: Matcher, starter: nat, idx: nat)
    requires Fits(m) && starter <= idx < |str| && m(str[idx..]) == 0
    ensures Scan(str, m, starter, idx) == Scan(str, m, starter, idx + 1)
  {
  }

  lemma FindStep(str: string, m: Matcher, d: string, idx: nat)
    requires Finds(m, d) && d != "" && idx <= |str|
    ensures m(str[idx..]) > 0 ==> m(str[idx..]) == |d| && Find(str, d, idx) == Some(idx)
    ensures m(str[idx..]) == 0 ==> Find(str, d, idx) == if idx == |str| then None else Find(str, d, idx + 1)
    ensures idx == |str| ==> m(str[idx..]) == 0
  {
  }

  /** The pieces and the count of one string account for its length. */
  lemma {:induction false} PiecesAndCountAddUp(str: string, d: string)
    requires d != ""
    ensures var ts := Scan(str, ByString(d), 0, 0); TotalLength(Pieces(ts)) + Delims(ts) * |d| == |str|
  {
    MatchersFit(' ', d);
    ScanIsGreedy(str, ByString(d), 0, 0);
    LengthsAddUp(str, d, Scan(str, ByString(d), 0, 0), 0);
  }
}
