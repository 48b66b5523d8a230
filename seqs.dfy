/**
 * Facts about sequences examined element by element: whether some element
 * passes a test, and the elements that pass it, kept in order, as a list
 * comprehension `[x for x in s if p(x)]` gives them.
 */
module Seqs {

  /** Some element of `s` satisfies `p`. */
  predicate AnyOf<T>(s: seq<T>, p: T -> bool) {
    exists j :: 0 <= j < |s| && p(s[j])
  }

  /** Some element of a sequence satisfies `p` iff one before the last does, or the last does. */
  lemma AnyOfSnoc<T>(s: seq<T>, p: T -> bool)
    requires |s| > 0
    ensures AnyOf(s, p) <==> AnyOf(s[..|s| - 1], p) || p(s[|s| - 1])
  {
    var n := |s| - 1;
    if AnyOf(s, p) {
      var j :| 0 <= j < |s| && p(s[j]);
      if j < n {
        assert s[..n][j] == s[j];
      }
    }
    if AnyOf(s[..n], p) {
      var j :| 0 <= j < n && p(s[..n][j]);
      assert s[j] == s[..n][j];
    }
    if p(s[n]) {
      assert 0 <= n < |s| && p(s[n]);
    }
  }

  /** The elements of `s` that satisfy `p`, in their order in `s`. */
  function Filter<T(!new)>(s: seq<T>, p: T -> bool): (r: seq<T>)
    ensures |r| <= |s|
    ensures forall x :: x in r <==> x in s && p(x)
    decreases |s|
  {
    if |s| == 0 then []
    else
      var init := s[..|s| - 1];
      var last := s[|s| - 1];
      assert s == init + [last];
      Filter(init, p) + if p(last) then [last] else []
  }

  /** The positions in `s` of the elements that satisfy `p`, in increasing order. */
  function Selected<T>(s: seq<T>, p: T -> bool): (r: seq<nat>)
    ensures forall m :: 0 <= m < |r| ==> r[m] < |s| && p(s[r[m]])
    ensures forall m, m' :: 0 <= m < m' < |r| ==> r[m] < r[m']
    ensures forall i :: 0 <= i < |s| && p(s[i]) ==> i in r
    decreases |s|
  {
    if |s| == 0 then []
    else
      var n := |s| - 1;
      var init := s[..n];
      var before := Selected(init, p);
      assert forall m :: 0 <= m < |before| ==> s[before[m]] == init[before[m]];
      assert forall i :: 0 <= i < n ==> s[i] == init[i];
      before + if p(s[n]) then [n] else []
  }

  /**
   * The filtered sequence is the sequence read at the selected positions:
   * each element that passes appears once, and in its original order.
   */
  lemma {:induction false} FilterAtSelected<T(!new)>(s: seq<T>, p: T -> bool)
    ensures |Filter(s, p)| == |Selected(s, p)|
    ensures forall m :: 0 <= m < |Selected(s, p)| ==> Filter(s, p)[m] == s[Selected(s, p)[m]]
    decreases |s|
  {
    if |s| > 0 {
      var n := |s| - 1;
      var init := s[..n];
      FilterAtSelected(init, p);
      var f, sel := Filter(init, p), Selected(init, p);
      var tail := if p(s[n]) then [s[n]] else [];
      var tailAt := if p(s[n]) then [n] else [];
      assert Filter(s, p) == f + tail;
      assert Selected(s, p) == sel + tailAt;
      forall m | 0 <= m < |sel|
        ensures (f + tail)[m] == s[(sel + tailAt)[m]]
      {
        assert (f + tail)[m] == f[m];
        assert (sel + tailAt)[m] == sel[m];
        assert s[sel[m]] == init[sel[m]];
      }
    }
  }
}
