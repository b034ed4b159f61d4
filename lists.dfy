/**
  The array operations the stores use on their loaded lists:
  `findIndex`, `find`, `filter` and a sum by `reduce`.
 */
module Lists {
  import opened Wrappers

  /** `findIndex(p)`: the first index whose entry satisfies `p`, or `None` (the source's `-1`). */
  function FindIndex<T>(xs: seq<T>, p: T -> bool): (r: Option<nat>)
    ensures r.Some? ==> r.value < |xs| && p(xs[r.value]) && forall k :: 0 <= k < r.value ==> !p(xs[k])
    ensures r.None? <==> forall k :: 0 <= k < |xs| ==> !p(xs[k])
  {
    if xs == [] then None
    else if p(xs[0]) then Some(0)
    else
      var rest := FindIndex(xs[1..], p);
      assert forall k :: 1 <= k < |xs| ==> xs[k] == xs[1..][k - 1];
      match rest
      case Some(i) => Some(i + 1)
      case None => None
  }

  /** `find(p)`: the first entry satisfying `p`. */
  function Find<T>(xs: seq<T>, p: T -> bool): (r: Option<T>)
    ensures r.Some? <==> FindIndex(xs, p).Some?
    ensures r.Some? ==> r.value == xs[FindIndex(xs, p).value]
  {
    match FindIndex(xs, p)
    case Some(i) => Some(xs[i])
    case None => None
  }

  /** Searching a concatenation searches the first part, then the second. */
  lemma FindConcat<T>(a: seq<T>, b: seq<T>, p: T -> bool)
    ensures Find(a + b, p) == if Find(a, p).Some? then Find(a, p) else Find(b, p)
  {
    var ab := a + b;
    assert forall k :: 0 <= k < |a| ==> ab[k] == a[k];
    assert forall k :: 0 <= k < |b| ==> ab[|a| + k] == b[k];
    match FindIndex(a, p)
    case Some(i) =>
      var j := FindIndex(ab, p).value;
      assert !(j < i) && !(i < j);
    case None =>
      match FindIndex(b, p)
      case Some(i) =>
        var j := FindIndex(ab, p).value;
        assert !(j < |a| + i) && !(|a| + i < j);
      case None =>
        assert forall k :: 0 <= k < |ab| ==> !p(ab[k]) by {
          forall k | 0 <= k < |ab| ensures !p(ab[k]) {
            if k >= |a| { assert ab[k] == b[k - |a|]; }
          }
        }
  }

  /** A one-entry list is found exactly when its entry passes. */
  lemma FindSingleton<T>(x: T, p: T -> bool)
    ensures Find([x], p) == if p(x) then Some(x) else None
  {
    assert [x][0] == x;
  }

  /** Searching an entry followed by two parts: the entry, then the first part, then the second. */
  lemma FindCons<T>(x: T, b: seq<T>, c: seq<T>, p: T -> bool)
    ensures Find([x] + (b + c), p) ==
      if p(x) then Some(x) else if Find(b, p).Some? then Find(b, p) else Find(c, p)
  {
    FindConcat([x], b + c, p);
    FindConcat(b, c, p);
    FindSingleton(x, p);
  }

  /** `filter(p)`: the entries satisfying `p`, in order. */
  function Filter<T>(xs: seq<T>, p: T -> bool): (r: seq<T>)
    ensures |r| <= |xs|
    ensures forall i :: 0 <= i < |r| ==> p(r[i])
  {
    if xs == [] then [] else (if p(xs[0]) then [xs[0]] else []) + Filter(xs[1..], p)
  }

  lemma {:induction false} FilterConcat<T>(a: seq<T>, b: seq<T>, p: T -> bool)
    ensures Filter(a + b, p) == Filter(a, p) + Filter(b, p)
  {
    if a == [] {
      assert a + b == b;
    } else {
      assert (a + b)[1..] == a[1..] + b;
      FilterConcat(a[1..], b, p);
    }
  }

  /** Every entry satisfying `p` survives the filter. */
  lemma {:induction false} FilterKeeps<T>(xs: seq<T>, p: T -> bool, i: nat)
    requires i < |xs| && p(xs[i])
    ensures xs[i] in Filter(xs, p)
  {
    if i > 0 {
      FilterKeeps(xs[1..], p, i - 1);
    }
  }

  /** Every entry of a filtered list is an entry of the list. */
  lemma {:induction false} FilterFrom<T>(xs: seq<T>, p: T -> bool, j: nat)
    requires j < |Filter(xs, p)|
    ensures Filter(xs, p)[j] in xs
  {
    if !p(xs[0]) {
      FilterFrom(xs[1..], p, j);
    } else if j > 0 {
      FilterFrom(xs[1..], p, j - 1);
    }
  }

  /** The filter keeps the length exactly when it drops nothing, and then it is the identity. */
  lemma {:induction false} FilterSameLength<T>(xs: seq<T>, p: T -> bool)
    ensures |Filter(xs, p)| == |xs| <==> forall i :: 0 <= i < |xs| ==> p(xs[i])
    ensures (forall i :: 0 <= i < |xs| ==> p(xs[i])) ==> Filter(xs, p) == xs
  {
    if xs != [] {
      FilterSameLength(xs[1..], p);
      assert forall i :: 1 <= i < |xs| ==> xs[i] == xs[1..][i - 1];
      if !p(xs[0]) {
        assert |Filter(xs[1..], p)| <= |xs| - 1;
      }
      assert xs == [xs[0]] + xs[1..];
    }
  }

  /** `reduce((total, x) => total + size(x), 0)`. */
  function Sum<T>(xs: seq<T>, size: T -> nat): nat {
    if xs == [] then 0 else size(xs[0]) + Sum(xs[1..], size)
  }

  lemma {:induction false} SumAppend<T>(xs: seq<T>, x: T, size: T -> nat)
    ensures Sum(xs + [x], size) == Sum(xs, size) + size(x)
  {
    if xs == [] {
      assert xs + [x] == [x];
      assert Sum([x], size) == size(x) + Sum([x][1..], size);
    } else {
      assert (xs + [x])[1..] == xs[1..] + [x];
      SumAppend(xs[1..], x, size);
    }
  }

  /** Dropping entries never raises the sum. */
  lemma {:induction false} SumFilter<T>(xs: seq<T>, p: T -> bool, size: T -> nat)
    ensures Sum(Filter(xs, p), size) <= Sum(xs, size)
  {
    if xs != [] {
      SumFilter(xs[1..], p, size);
      if p(xs[0]) {
        assert Filter(xs, p) == [xs[0]] + Filter(xs[1..], p);
        assert ([xs[0]] + Filter(xs[1..], p))[1..] == Filter(xs[1..], p);
      } else {
        assert Filter(xs, p) == Filter(xs[1..], p);
      }
    }
  }
}
