/**
 * Sequence helpers shared by the build script and the data layer: the
 * `reduce((sum, x) => sum + w(x), 0)` total, and key lookup in the insertion
 * order of a JavaScript `Map`.
 */
module Seqs {
  import opened Wrappers

  /** `s.reduce((sum, x) => sum + w(x), 0)`. */
  function Sum<T>(s: seq<T>, w: T -> int): int {
    if s == [] then 0 else Sum(s[..|s| - 1], w) + w(s[|s| - 1])
  }

  /** Appending one element adds its weight. */
  lemma SumAppend<T>(s: seq<T>, x: T, w: T -> int)
    ensures Sum(s + [x], w) == Sum(s, w) + w(x)
  {
    assert (s + [x])[..|s|] == s;
  }

  /** Replacing one element changes the total by the difference of the weights. */
  lemma {:induction false} SumUpdate<T>(s: seq<T>, k: nat, x: T, w: T -> int)
    requires k < |s|
    ensures Sum(s[k := x], w) == Sum(s, w) - w(s[k]) + w(x)
  {
    var n := |s| - 1;
    if k < n {
      assert s[k := x][..n] == s[..n][k := x];
      SumUpdate(s[..n], k, x, w);
    } else {
      assert s[k := x][..n] == s[..n];
    }
  }

  /** The total of non-negative weights is non-negative. */
  lemma {:induction false} SumNonNegative<T>(s: seq<T>, w: T -> int)
    requires forall i | 0 <= i < |s| :: w(s[i]) >= 0
    ensures Sum(s, w) >= 0
  {
    if s != [] {
      SumNonNegative(s[..|s| - 1], w);
    }
  }

  /** Two sequences whose elements have the same weights, index by index, have the same total. */
  lemma {:induction false} SumPointwise<T, U>(s: seq<T>, w: T -> int, t: seq<U>, v: U -> int)
    requires |s| == |t| && forall i | 0 <= i < |s| :: w(s[i]) == v(t[i])
    ensures Sum(s, w) == Sum(t, v)
  {
    if s != [] {
      SumPointwise(s[..|s| - 1], w, t[..|t| - 1], v);
    }
  }

  /** Index of the first occurrence of `k`, as `Map.prototype.has`/`get` find an entry. */
  function IndexOf(keys: seq<string>, k: string): (r: Option<nat>)
    ensures r.Some? ==> r.value < |keys| && keys[r.value] == k
    ensures r.Some? ==> forall j | 0 <= j < r.value :: keys[j] != k
    ensures r.None? <==> k !in keys
  {
    if keys == [] then None
    else if keys[0] == k then Some(0)
    else match IndexOf(keys[1..], k)
      case None => None
      case Some(i) => Some(i + 1)
  }

  /** A key added at the end is found only if it was not there before. */
  lemma {:induction false} IndexOfAppend(keys: seq<string>, x: string, k: string)
    ensures IndexOf(keys + [x], k) ==
      if k in keys then IndexOf(keys, k) else if x == k then Some(|keys|) else None
  {
    if keys == [] {
      assert keys + [x] == [x];
    } else if keys[0] != k {
      assert (keys + [x])[1..] == keys[1..] + [x];
      IndexOfAppend(keys[1..], x, k);
    }
  }

  /** Each key occurs once. */
  predicate Distinct(keys: seq<string>) {
    forall i, j | 0 <= i < j < |keys| :: keys[i] != keys[j]
  }

  /** In a sequence of distinct keys, the index found is the only one holding the key. */
  lemma IndexOfDistinct(keys: seq<string>, i: nat)
    requires Distinct(keys) && i < |keys|
    ensures IndexOf(keys, keys[i]) == Some(i)
  {
  }

  /** Index of the first element satisfying `p`: what `Array.prototype.find` inspects. */
  function FindIndex<T>(s: seq<T>, p: T -> bool): (r: Option<nat>)
    ensures r.Some? ==> r.value < |s| && p(s[r.value])
    ensures r.Some? ==> forall j | 0 <= j < r.value :: !p(s[j])
    ensures r.None? <==> forall j | 0 <= j < |s| :: !p(s[j])
  {
    if s == [] then None
    else if p(s[0]) then Some(0)
    else match FindIndex(s[1..], p)
      case None => None
      case Some(i) => Some(i + 1)
  }

  /** `Array.prototype.find`: the first element satisfying `p`, or `undefined`. */
  function Find<T>(s: seq<T>, p: T -> bool): (r: Option<T>)
    ensures r.None? <==> forall j | 0 <= j < |s| :: !p(s[j])
    ensures r.Some? ==> exists i | 0 <= i < |s| :: s[i] == r.value && p(s[i]) && forall j | 0 <= j < i :: !p(s[j])
  {
    match FindIndex(s, p)
    case None => None
    case Some(i) => Some(s[i])
  }

  /** `a` is `b` with some elements dropped, the rest in order: what `Array.prototype.filter` returns. */
  predicate IsSubsequence<T(==)>(a: seq<T>, b: seq<T>)
    decreases |b|
  {
    a == [] || (b != [] && ((a[0] == b[0] && IsSubsequence(a[1..], b[1..])) || IsSubsequence(a, b[1..])))
  }

  /** A non-empty sequence is its front followed by its last element. */
  lemma FrontLast<T>(s: seq<T>)
    requires s != []
    ensures s == s[..|s| - 1] + [s[|s| - 1]]
  {
  }

  /** A slice of a slice is a slice of the whole. */
  lemma SliceOfSlice<T>(s: seq<T>, k: nat, l: nat, i: nat, j: nat)
    requires k <= l <= |s| && i <= j <= l - k
    ensures s[k..l][i..j] == s[k + i..k + j]
  {
    forall t | 0 <= t < j - i ensures s[k..l][i..j][t] == s[k + i..k + j][t] {
      assert s[k..l][i..j][t] == s[k..l][i + t] == s[k + i + t];
    }
  }

  /** A prefix one longer is the shorter prefix followed by the next element. */
  lemma TakeSnoc<T>(s: seq<T>, k: nat)
    requires k < |s|
    ensures s[..k + 1] == s[..k] + [s[k]]
  {
  }

  /** Sheet row numbers (index plus two) of the elements satisfying `p`, in order. */
  function RowsWhere<T>(s: seq<T>, p: T -> bool): (rows: seq<nat>)
    ensures forall m | m in rows :: 2 <= m < |s| + 2 && p(s[m - 2])
    ensures forall i | 0 <= i < |s| && p(s[i]) :: i + 2 in rows
  {
    if s == [] then []
    else
      var earlier := RowsWhere(s[..|s| - 1], p);
      RowsSnoc(s, p, earlier);
      if p(s[|s| - 1]) then earlier + [|s| + 1] else earlier
  }

  /**
   * Sheet row numbers (index plus two) of the elements satisfying `p`: those
   * of all but the last element, with the last one's added if it satisfies `p`.
   */
  lemma RowsSnoc<T>(s: seq<T>, p: T -> bool, earlier: seq<nat>)
    requires s != []
    requires var front := s[..|s| - 1];
      && (forall m | m in earlier :: 2 <= m < |front| + 2 && p(front[m - 2]))
      && (forall i | 0 <= i < |front| && p(front[i]) :: i + 2 in earlier)
    ensures var rows := if p(s[|s| - 1]) then earlier + [|s| + 1] else earlier;
      && (forall m | m in rows :: 2 <= m < |s| + 2 && p(s[m - 2]))
      && (forall i | 0 <= i < |s| && p(s[i]) :: i + 2 in rows)
  {
    var front := s[..|s| - 1];
    var rows := if p(s[|s| - 1]) then earlier + [|s| + 1] else earlier;
    forall m | m in rows ensures 2 <= m < |s| + 2 && p(s[m - 2]) {
      if m in earlier {
        assert front[m - 2] == s[m - 2];
      }
    }
    forall i | 0 <= i < |s| && p(s[i]) ensures i + 2 in rows {
      if i < |s| - 1 {
        assert front[i] == s[i];
      }
    }
  }

  /** An element appended to the larger sequence only may be dropped. */
  lemma {:induction false} SubsequenceAppendRight<T>(a: seq<T>, b: seq<T>, x: T)
    requires IsSubsequence(a, b)
    ensures IsSubsequence(a, b + [x])
    decreases |b|
  {
    if a != [] {
      assert (b + [x])[1..] == b[1..] + [x];
      if a[0] == b[0] && IsSubsequence(a[1..], b[1..]) {
        SubsequenceAppendRight(a[1..], b[1..], x);
      } else {
        SubsequenceAppendRight(a, b[1..], x);
      }
    }
  }

  /** An element appended to both is kept. */
  lemma {:induction false} SubsequenceAppendBoth<T>(a: seq<T>, b: seq<T>, x: T)
    requires IsSubsequence(a, b)
    ensures IsSubsequence(a + [x], b + [x])
    decreases |b|
  {
    if b == [] {
      assert a == [];
      assert ([x] + [])[1..] == [];
      assert a + [x] == [x] && b + [x] == [x];
    } else {
      assert (b + [x])[1..] == b[1..] + [x];
      if a == [] {
        SubsequenceAppendBoth(a, b[1..], x);
        assert a + [x] == [] + [x];
      } else if a[0] == b[0] && IsSubsequence(a[1..], b[1..]) {
        SubsequenceAppendBoth(a[1..], b[1..], x);
        assert (a + [x])[1..] == a[1..] + [x];
      } else {
        SubsequenceAppendBoth(a, b[1..], x);
      }
    }
  }
}
