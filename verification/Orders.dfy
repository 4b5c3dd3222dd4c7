/** User comparators. */
module Orders {

  /** comp is a strict weak order. */
  ghost predicate StrictWeak<T(!new)>(comp: (T, T) -> bool) {
    && (forall a, b :: comp(a, b) ==> !comp(b, a))
    && (forall a, b, c :: !comp(a, b) && !comp(b, c) ==> !comp(a, c))
  }

  /** No element of s comes before a later one. */
  ghost predicate InOrder<T(!new)>(comp: (T, T) -> bool, s: seq<T>) {
    forall i, j :: 0 <= i < j < |s| ==> !comp(s[i], s[j])
  }

  /** No element of s comes before an earlier one. */
  ghost predicate InReverse<T(!new)>(comp: (T, T) -> bool, s: seq<T>) {
    forall i, j :: 0 <= i < j < |s| ==> !comp(s[j], s[i])
  }

  /** t is an element of m that none comes after in the order `less`. */
  predicate IsTop<T(!new, ==)>(less: (T, T) -> bool, m: multiset<T>, t: T) {
    t in m && forall x :: x in m ==> !less(t, x)
  }

  lemma {:induction false} TopExists<T(!new)>(less: (T, T) -> bool, m: multiset<T>)
    requires StrictWeak(less) && m != multiset{}
    ensures exists t :: IsTop(less, m, t)
    decreases |m|
  {
    var x :| x in m;
    var rest := m - multiset{x};
    if rest == multiset{} {
      assert m == multiset{x};
      assert IsTop(less, m, x);
    } else {
      TopExists(less, rest);
      var t :| IsTop(less, rest, t);
      assert forall y :: y in m ==> y == x || y in rest;
      assert IsTop(less, m, if less(t, x) then x else t);
    }
  }
}
