/** Order-preserving filtering of sequences, the shape of Python's
    `[x for x in s if p(x)]` and of a loop that appends the elements it keeps. */
module Seqs {

  /** The elements of `s` that satisfy `p`, in order.  Defined from the back
      so that one more loop iteration is one more step of the recursion. */
  function Filter<T>(s: seq<T>, p: T -> bool): (r: seq<T>)
    ensures |r| <= |s|
  {
    if s == [] then []
    else Filter(s[..|s| - 1], p) + (if p(s[|s| - 1]) then [s[|s| - 1]] else [])
  }

  /** `a` can be obtained from `b` by deleting elements. */
  predicate IsSubsequence<T(==)>(a: seq<T>, b: seq<T>)
    decreases |b|
  {
    a == []
    || (b != [] && ((a[|a| - 1] == b[|b| - 1] && IsSubsequence(a[..|a| - 1], b[..|b| - 1]))
                    || IsSubsequence(a, b[..|b| - 1])))
  }

  lemma {:induction false} FilterStep<T>(s: seq<T>, i: nat, p: T -> bool)
    requires i < |s|
    ensures Filter(s[..i + 1], p) == Filter(s[..i], p) + (if p(s[i]) then [s[i]] else [])
  {
    assert s[..i + 1][..i] == s[..i];
  }

  /** What the filter keeps is exactly what satisfies `p`. */
  lemma {:induction false} FilterMembers<T>(s: seq<T>, p: T -> bool)
    ensures forall x :: x in Filter(s, p) <==> x in s && p(x)
  {
    if s != [] {
      FilterMembers(s[..|s| - 1], p);
      assert s == s[..|s| - 1] + [s[|s| - 1]];
    }
  }

  /** Everything kept satisfies `p`; nothing is reordered. */
  lemma {:induction false} FilterIsSubsequence<T>(s: seq<T>, p: T -> bool)
    ensures IsSubsequence(Filter(s, p), s)
    ensures forall i :: 0 <= i < |Filter(s, p)| ==> p(Filter(s, p)[i])
  {
    if s != [] {
      var init := s[..|s| - 1];
      FilterIsSubsequence(init, p);
      var r := Filter(s, p);
      if p(s[|s| - 1]) {
        assert r[..|r| - 1] == Filter(init, p);
        assert r[|r| - 1] == s[|s| - 1];
      } else {
        assert r == Filter(init, p);
        assert IsSubsequence(r, init);
      }
    }
  }

  /** When every element satisfies `p`, the filter is the identity. */
  lemma {:induction false} FilterAll<T>(s: seq<T>, p: T -> bool)
    requires forall i :: 0 <= i < |s| ==> p(s[i])
    ensures Filter(s, p) == s
  {
    if s != [] {
      FilterAll(s[..|s| - 1], p);
    }
  }

  /** The filter is empty exactly when no element satisfies `p`. */
  lemma {:induction false} FilterEmpty<T>(s: seq<T>, p: T -> bool)
    ensures Filter(s, p) == [] <==> forall i :: 0 <= i < |s| ==> !p(s[i])
  {
    if s != [] {
      var init := s[..|s| - 1];
      FilterEmpty(init, p);
      if Filter(s, p) == [] {
        forall i | 0 <= i < |s| ensures !p(s[i]) {
          if i < |s| - 1 { assert s[i] == init[i]; }
        }
      } else if forall i :: 0 <= i < |s| ==> !p(s[i]) {
        forall i | 0 <= i < |init| ensures !p(init[i]) {
          assert s[i] == init[i];
        }
      }
    }
  }

  /** The filter keeps exactly one element iff exactly one position of `s`
      satisfies `p`, and then it keeps the element at that position. */
  lemma {:induction false} FilterSingleton<T>(s: seq<T>, p: T -> bool, k: nat)
    requires k < |s|
    ensures Filter(s, p) == [s[k]] <== p(s[k]) && forall j :: 0 <= j < |s| && p(s[j]) ==> j == k
  {
    if p(s[k]) && forall j :: 0 <= j < |s| && p(s[j]) ==> j == k {
      var init := s[..|s| - 1];
      if k == |s| - 1 {
        FilterEmpty(init, p);
      } else {
        FilterSingleton(init, p, k);
      }
    }
  }

  lemma {:induction false} FilterSingletonPosition<T>(s: seq<T>, p: T -> bool)
    requires |Filter(s, p)| == 1
    ensures exists k :: 0 <= k < |s| && s[k] == Filter(s, p)[0] && p(s[k])
                        && forall j :: 0 <= j < |s| && p(s[j]) ==> j == k
  {
    var init := s[..|s| - 1];
    var last := |s| - 1;
    if p(s[last]) {
      FilterEmpty(init, p);
      forall j | 0 <= j < last ensures !p(s[j]) {
        assert s[j] == init[j];
      }
    } else {
      FilterSingletonPosition(init, p);
      var k :| 0 <= k < |init| && init[k] == Filter(init, p)[0] && p(init[k])
                && forall j :: 0 <= j < |init| && p(init[j]) ==> j == k;
      assert s[k] == init[k];
      forall j | 0 <= j < |s| && p(s[j]) ensures j == k {
        if j < last { assert init[j] == s[j]; }
      }
    }
  }

  /** Two tests that agree on the elements of `s` keep the same elements. */
  lemma {:induction false} FilterCongruent<T>(s: seq<T>, p: T -> bool, q: T -> bool)
    requires forall i :: 0 <= i < |s| ==> p(s[i]) == q(s[i])
    ensures Filter(s, p) == Filter(s, q)
  {
    if s != [] {
      var init := s[..|s| - 1];
      forall i | 0 <= i < |init| ensures p(init[i]) == q(init[i]) {
        assert init[i] == s[i];
      }
      FilterCongruent(init, p, q);
    }
  }

  /** Filtering a concatenation filters each part. */
  lemma {:induction false} FilterConcat<T>(a: seq<T>, b: seq<T>, p: T -> bool)
    ensures Filter(a + b, p) == Filter(a, p) + Filter(b, p)
    decreases |b|
  {
    if b == [] {
      assert a + b == a;
    } else {
      var init := b[..|b| - 1];
      assert (a + b)[..|a + b| - 1] == a + init;
      FilterConcat(a, init, p);
    }
  }
}
