/** Sequence helpers shared by the list-mutating parts of the model. */
module Sequences {

  /** `List<T>.RemoveAt(k)`: the element at `k` goes, the others close up in order. */
  function RemoveAt<T>(s: seq<T>, k: nat): (r: seq<T>)
    requires k < |s|
    ensures |r| == |s| - 1
    ensures forall i :: 0 <= i < k ==> r[i] == s[i]
    ensures forall i :: k <= i < |r| ==> r[i] == s[i + 1]
  {
    s[..k] + s[k + 1..]
  }

  /** `a` is `b` with some elements deleted and the rest kept in order. */
  ghost predicate IsSubsequence<T>(a: seq<T>, b: seq<T>)
    decreases |b|
  {
    if a == [] then true
    else if b == [] then false
    else (a[0] == b[0] && IsSubsequence(a[1..], b[1..])) || IsSubsequence(a, b[1..])
  }

  lemma {:induction false} SubsequenceOfItself<T>(a: seq<T>)
    ensures IsSubsequence(a, a)
    decreases |a|
  {
    if a != [] {
      SubsequenceOfItself(a[1..]);
    }
  }

  lemma {:induction false} SubsequenceIsShorter<T>(a: seq<T>, b: seq<T>)
    requires IsSubsequence(a, b)
    ensures |a| <= |b|
    decreases |b|
  {
    if a != [] {
      if a[0] == b[0] && IsSubsequence(a[1..], b[1..]) {
        SubsequenceIsShorter(a[1..], b[1..]);
      } else {
        SubsequenceIsShorter(a, b[1..]);
      }
    }
  }

  /** Dropping a prefix leaves a subsequence. */
  lemma {:induction false} SuffixIsSubsequence<T>(b: seq<T>, k: nat)
    requires k <= |b|
    ensures IsSubsequence(b[k..], b)
    decreases k
  {
    if k == 0 {
      assert b[0..] == b;
      SubsequenceOfItself(b);
    } else {
      SuffixIsSubsequence(b[1..], k - 1);
      assert b[1..][k - 1..] == b[k..];
    }
  }

  /** Appending the same element, or nothing, to a subsequence keeps it one. */
  lemma {:induction false} AppendKeepsSubsequence<T>(a: seq<T>, b: seq<T>, x: T, keep: bool)
    requires IsSubsequence(a, b)
    ensures IsSubsequence(a + (if keep then [x] else []), b + [x])
    decreases |b|
  {
    if a == [] {
      if keep {
        assert IsSubsequence([x], [x]) by {
          assert [x][1..] == [];
        }
        assert [x] == ([] + [x]);
        SuffixIsSubsequence(b + [x], |b|);
        assert (b + [x])[|b|..] == [x];
      }
    } else if a[0] == b[0] && IsSubsequence(a[1..], b[1..]) {
      AppendKeepsSubsequence(a[1..], b[1..], x, keep);
      assert (a + (if keep then [x] else []))[1..] == a[1..] + (if keep then [x] else []);
      assert (b + [x])[1..] == b[1..] + [x];
    } else {
      AppendKeepsSubsequence(a, b[1..], x, keep);
      assert (b + [x])[1..] == b[1..] + [x];
    }
  }

  /** Deleting one element leaves a subsequence. */
  lemma {:induction false} RemoveAtIsSubsequence<T>(b: seq<T>, k: nat)
    requires k < |b|
    ensures IsSubsequence(RemoveAt(b, k), b)
    decreases k
  {
    if k == 0 {
      assert RemoveAt(b, 0) == b[1..];
      SubsequenceOfItself(b[1..]);
    } else {
      RemoveAtIsSubsequence(b[1..], k - 1);
      assert RemoveAt(b, k)[1..] == RemoveAt(b[1..], k - 1);
    }
  }

  lemma {:induction false} SubsequenceTransitive<T>(a: seq<T>, b: seq<T>, c: seq<T>)
    requires IsSubsequence(a, b) && IsSubsequence(b, c)
    ensures IsSubsequence(a, c)
    decreases |c|
  {
    if a == [] {
    } else if b[0] == c[0] && IsSubsequence(b[1..], c[1..]) {
      if a[0] == b[0] && IsSubsequence(a[1..], b[1..]) {
        SubsequenceTransitive(a[1..], b[1..], c[1..]);
      } else {
        SubsequenceTransitive(a, b[1..], c[1..]);
      }
    } else {
      SubsequenceTransitive(a, b, c[1..]);
    }
  }

  /** Every element of a subsequence is an element of the whole. */
  lemma {:induction false} SubsequenceElements<T>(a: seq<T>, b: seq<T>, i: nat)
    requires IsSubsequence(a, b) && i < |a|
    ensures a[i] in b
    decreases |b|
  {
    if a[0] == b[0] && IsSubsequence(a[1..], b[1..]) {
      if i > 0 {
        SubsequenceElements(a[1..], b[1..], i - 1);
      }
    } else {
      SubsequenceElements(a, b[1..], i);
    }
  }
}
