/**
 * Order-preserving filtering of sequences, the behaviour of JavaScript's
 * `Array.prototype.filter`, together with an independent description of
 * what a filter result is.
 */
module Sequences {

  /** `sub` is obtained from `s` by deleting zero or more elements, without reordering the rest. */
  ghost predicate IsSubsequence<T(!new)>(sub: seq<T>, s: seq<T>)
    decreases |s|
  {
    || sub == []
    || (&& |s| > 0
        && (|| (|sub| > 0 && sub[0] == s[0] && IsSubsequence(sub[1..], s[1..]))
            || IsSubsequence(sub, s[1..])))
  }

  /**
   * `r` keeps exactly the elements of `s` that satisfy `keep`: every such element
   * as often as `s` holds it, no other element, and in the order of `s`.
   */
  ghost predicate IsFilterOf<T(!new)>(r: seq<T>, s: seq<T>, keep: T -> bool)
  {
    && IsSubsequence(r, s)
    && forall x :: multiset(r)[x] == (if keep(x) then multiset(s)[x] else 0)
  }

  /** The elements of `s` that satisfy `keep`, in order. */
  function Filter<T(!new)>(s: seq<T>, keep: T -> bool): (r: seq<T>)
    ensures forall x :: x in r <==> x in s && keep(x)
    ensures |r| <= |s|
  {
    if s == [] then []
    else if keep(s[0]) then [s[0]] + Filter(s[1..], keep)
    else Filter(s[1..], keep)
  }

  /** `Filter` computes exactly the order-preserving selection `IsFilterOf` describes. */
  lemma {:induction false} FilterIsFilterOf<T(!new)>(s: seq<T>, keep: T -> bool)
    ensures IsFilterOf(Filter(s, keep), s, keep)
  {
    if s != [] {
      FilterIsFilterOf(s[1..], keep);
      assert s == [s[0]] + s[1..];
      var rest := Filter(s[1..], keep);
      if keep(s[0]) {
        assert ([s[0]] + rest)[1..] == rest;
      }
    }
  }

  /** Filtering distributes over concatenation. */
  lemma {:induction false} FilterAppend<T(!new)>(a: seq<T>, b: seq<T>, keep: T -> bool)
    ensures Filter(a + b, keep) == Filter(a, keep) + Filter(b, keep)
  {
    if a == [] {
      assert a + b == b;
    } else {
      assert (a + b)[0] == a[0];
      assert (a + b)[1..] == a[1..] + b;
      FilterAppend(a[1..], b, keep);
    }
  }

  /** A filter that rejects nothing returns its input unchanged. */
  lemma {:induction false} FilterKeepsAll<T(!new)>(s: seq<T>, keep: T -> bool)
    requires forall i :: 0 <= i < |s| ==> keep(s[i])
    ensures Filter(s, keep) == s
  {
    if s != [] {
      FilterKeepsAll(s[1..], keep);
    }
  }

  /** A filter that accepts nothing returns the empty sequence. */
  lemma {:induction false} FilterDropsAll<T(!new)>(s: seq<T>, keep: T -> bool)
    requires forall i :: 0 <= i < |s| ==> !keep(s[i])
    ensures Filter(s, keep) == []
  {
    if s != [] {
      FilterDropsAll(s[1..], keep);
    }
  }

  /** Filtering out the single rejected element of a sequence closes the gap it leaves. */
  lemma {:induction false} FilterDropsOne<T(!new)>(before: seq<T>, x: T, after: seq<T>, keep: T -> bool)
    requires forall i :: 0 <= i < |before| ==> keep(before[i])
    requires forall i :: 0 <= i < |after| ==> keep(after[i])
    requires !keep(x)
    ensures Filter(before + [x] + after, keep) == before + after
  {
    assert before + [x] + after == before + ([x] + after);
    FilterAppend(before, [x] + after, keep);
    assert ([x] + after)[1..] == after;
    FilterKeepsAll(before, keep);
    FilterKeepsAll(after, keep);
  }
}
