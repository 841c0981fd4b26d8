/** Order-preserving filtering and pairwise properties of rows, the shape of every
    `WHERE` clause and `Array.prototype.filter` in the model. */
module Seqs {
  /** The elements of `s` that satisfy `keep`, in their original order. */
  function Filter<T(!new)>(s: seq<T>, keep: T -> bool): (r: seq<T>)
    ensures |r| <= |s|
    ensures forall x :: x in r <==> x in s && keep(x)
  {
    if s == [] then []
    else if keep(s[0]) then [s[0]] + Filter(s[1..], keep)
    else Filter(s[1..], keep)
  }

  /** Filtering distributes over concatenation, so the result keeps the relative order. */
  lemma {:induction false} FilterConcat<T(!new)>(a: seq<T>, b: seq<T>, keep: T -> bool)
    ensures Filter(a + b, keep) == Filter(a, keep) + Filter(b, keep)
  {
    if a != [] {
      assert (a + b)[1..] == a[1..] + b;
      FilterConcat(a[1..], b, keep);
    } else {
      assert a + b == b;
    }
  }

  /** When every element is kept, nothing changes. */
  lemma {:induction false} FilterKeepsAll<T(!new)>(s: seq<T>, keep: T -> bool)
    requires forall x :: x in s ==> keep(x)
    ensures Filter(s, keep) == s
  {
    if s != [] {
      FilterKeepsAll(s[1..], keep);
    }
  }

  /** Every pair of elements, in order, is related. */
  ghost predicate Pairwise<T(!new)>(s: seq<T>, rel: (T, T) -> bool) {
    forall i, j :: 0 <= i < j < |s| ==> rel(s[i], s[j])
  }

  lemma {:induction false} FilterPairwise<T(!new)>(s: seq<T>, keep: T -> bool, rel: (T, T) -> bool)
    requires Pairwise(s, rel)
    ensures Pairwise(Filter(s, keep), rel)
  {
    if s != [] {
      var tail := Filter(s[1..], keep);
      assert Pairwise(s[1..], rel) by {
        forall i, j | 0 <= i < j < |s| - 1 ensures rel(s[1..][i], s[1..][j]) {
          assert s[1..][i] == s[i + 1] && s[1..][j] == s[j + 1];
        }
      }
      FilterPairwise(s[1..], keep, rel);
      if keep(s[0]) {
        var r := [s[0]] + tail;
        forall i, j | 0 <= i < j < |r| ensures rel(r[i], r[j]) {
          if i == 0 {
            assert r[j] == tail[j - 1] && r[j] in s[1..];
            var k :| 0 <= k < |s[1..]| && s[1..][k] == r[j];
            assert s[k + 1] == r[j];
          } else {
            assert r[i] == tail[i - 1] && r[j] == tail[j - 1];
          }
        }
      }
    }
  }

  /** Appending an element related to every earlier one keeps the property. */
  lemma PairwiseAppend<T(!new)>(s: seq<T>, x: T, rel: (T, T) -> bool)
    requires Pairwise(s, rel) && forall y :: y in s ==> rel(y, x)
    ensures Pairwise(s + [x], rel)
  {
    var r := s + [x];
    forall i, j | 0 <= i < j < |r| ensures rel(r[i], r[j]) {
      if j == |s| { assert r[i] == s[i] && s[i] in s; } else { assert r[i] == s[i] && r[j] == s[j]; }
    }
  }

  /** Replacing one element by one related in the same way to all the others keeps the property. */
  lemma PairwiseUpdate<T(!new)>(s: seq<T>, k: nat, x: T, rel: (T, T) -> bool)
    requires Pairwise(s, rel) && k < |s|
    requires forall i :: 0 <= i < k ==> rel(s[i], x)
    requires forall j :: k < j < |s| ==> rel(x, s[j])
    ensures Pairwise(s[k := x], rel)
  {
  }
}
