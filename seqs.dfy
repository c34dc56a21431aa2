/**
 * The array operations the stores are written with (`filter`, `some`, `findIndex`, `map`,
 * `slice(0, n)` and a stable `sort` by a numeric key, descending), as functions on sequences.
 */
module Seqs {
  import opened Wrappers

  /** `r` can be obtained from `s` by deleting elements: it keeps their relative order. */
  ghost predicate IsSubsequence<T(!new)>(r: seq<T>, s: seq<T>)
    decreases |s|
  {
    if r == [] then true
    else if s == [] then false
    else (r[0] == s[0] && IsSubsequence(r[1..], s[1..])) || IsSubsequence(r, s[1..])
  }

  /** Every prefix of `s` is a subsequence of it. */
  lemma {:induction false} PrefixIsSubsequence<T(!new)>(s: seq<T>, n: nat)
    requires n <= |s|
    ensures IsSubsequence(s[..n], s)
  {
    if n > 0 {
      PrefixIsSubsequence(s[1..], n - 1);
      assert s[..n][1..] == s[1..][..n - 1];
    }
  }

  /** A subsequence of a subsequence of `c` is a subsequence of `c`. */
  lemma {:induction false} SubsequenceTrans<T(!new)>(a: seq<T>, b: seq<T>, c: seq<T>)
    requires IsSubsequence(a, b) && IsSubsequence(b, c)
    ensures IsSubsequence(a, c)
    decreases |c|
  {
    if a != [] {
      if b[0] == c[0] && IsSubsequence(b[1..], c[1..]) {
        if a[0] == b[0] && IsSubsequence(a[1..], b[1..]) {
          SubsequenceTrans(a[1..], b[1..], c[1..]);
        } else {
          SubsequenceTrans(a, b[1..], c[1..]);
        }
      } else {
        SubsequenceTrans(a, b, c[1..]);
      }
    }
  }

  /** `s.filter(p)`. */
  function Filter<T(!new)>(s: seq<T>, p: T -> bool): (r: seq<T>)
    ensures |r| <= |s|
    ensures forall x :: x in r <==> x in s && p(x)
  {
    if s == [] then []
    else if p(s[0]) then [s[0]] + Filter(s[1..], p)
    else Filter(s[1..], p)
  }

  /** A filter keeps the order of what it keeps. */
  lemma {:induction false} FilterIsSubsequence<T(!new)>(s: seq<T>, p: T -> bool)
    ensures IsSubsequence(Filter(s, p), s)
  {
    if s != [] {
      FilterIsSubsequence(s[1..], p);
      if p(s[0]) {
        var r := Filter(s, p);
        assert r[0] == s[0] && r[1..] == Filter(s[1..], p);
      }
    }
  }

  /** A filter keeps the whole length exactly when every element passes. */
  lemma {:induction false} FilterLength<T(!new)>(s: seq<T>, p: T -> bool)
    ensures |Filter(s, p)| == |s| <==> forall i :: 0 <= i < |s| ==> p(s[i])
  {
    if s != [] {
      FilterLength(s[1..], p);
      assert forall i :: 1 <= i < |s| ==> s[i] == s[1..][i - 1];
      assert (forall i :: 0 <= i < |s| ==> p(s[i])) <==> p(s[0]) && forall i :: 0 <= i < |s[1..]| ==> p(s[1..][i]);
    }
  }

  /** A filter that no element passes is empty. */
  lemma {:induction false} FilterDropsAll<T(!new)>(s: seq<T>, p: T -> bool)
    requires forall i :: 0 <= i < |s| ==> !p(s[i])
    ensures Filter(s, p) == []
  {
    if s != [] {
      assert !p(s[0]);
      assert forall i :: 1 <= i < |s| ==> s[1..][i - 1] == s[i];
      FilterDropsAll(s[1..], p);
    }
  }

  /** A filter that every element passes keeps the whole sequence. */
  lemma {:induction false} FilterKeepsAll<T(!new)>(s: seq<T>, p: T -> bool)
    requires forall x :: x in s ==> p(x)
    ensures Filter(s, p) == s
  {
    if s != [] {
      assert s[0] in s;
      FilterKeepsAll(s[1..], p);
    }
  }

  /** Filtering by `q` after filtering by a weaker `p` is the same as filtering by `q` alone. */
  lemma {:induction false} FilterOfFilter<T(!new)>(s: seq<T>, p: T -> bool, q: T -> bool)
    requires forall x :: q(x) ==> p(x)
    ensures Filter(Filter(s, p), q) == Filter(s, q)
  {
    if s != [] {
      FilterOfFilter(s[1..], p, q);
      if p(s[0]) {
        assert Filter(s, p) == [s[0]] + Filter(s[1..], p);
        assert Filter(s, p)[1..] == Filter(s[1..], p);
      }
    }
  }

  /** The elements that pass `p` and those that pass its negation `q` together account for all of `s`. */
  lemma {:induction false} FilterSplitsLength<T(!new)>(s: seq<T>, p: T -> bool, q: T -> bool)
    requires forall x :: q(x) <==> !p(x)
    ensures |Filter(s, p)| + |Filter(s, q)| == |s|
  {
    if s != [] {
      FilterSplitsLength(s[1..], p, q);
    }
  }

  /** Filtering distributes over concatenation. */
  lemma {:induction false} FilterAppend<T(!new)>(s: seq<T>, t: seq<T>, p: T -> bool)
    ensures Filter(s + t, p) == Filter(s, p) + Filter(t, p)
  {
    if s == [] {
      assert s + t == t;
    } else {
      var u := s + t;
      assert u[0] == s[0] && u[1..] == s[1..] + t;
      FilterAppend(s[1..], t, p);
      if p(s[0]) {
        calc {
          Filter(u, p);
          [s[0]] + Filter(s[1..] + t, p);
          [s[0]] + (Filter(s[1..], p) + Filter(t, p));
          ([s[0]] + Filter(s[1..], p)) + Filter(t, p);
        }
      }
    }
  }

  /** Filters by two tests that agree on every element are equal. */
  lemma {:induction false} FilterCongruent<T(!new)>(s: seq<T>, p: T -> bool, q: T -> bool)
    requires forall x :: p(x) == q(x)
    ensures Filter(s, p) == Filter(s, q)
  {
    if s != [] {
      FilterCongruent(s[1..], p, q);
    }
  }

  /** `s.some(p)`. */
  function Any<T>(s: seq<T>, p: T -> bool): (r: bool)
    ensures r <==> exists i :: 0 <= i < |s| && p(s[i])
  {
    if s == [] then false
    else if p(s[0]) then true
    else
      assert forall i :: 1 <= i < |s| ==> s[i] == s[1..][i - 1];
      Any(s[1..], p)
  }

  /** `s.findIndex(p)`, with `None` for the result -1. */
  function FindIndex<T>(s: seq<T>, p: T -> bool): (r: Option<nat>)
    ensures r.None? <==> forall i :: 0 <= i < |s| ==> !p(s[i])
    ensures r.Some? ==> r.value < |s| && p(s[r.value])
    ensures r.Some? ==> forall j :: 0 <= j < r.value ==> !p(s[j])
  {
    if s == [] then None
    else if p(s[0]) then Some(0)
    else
      match FindIndex(s[1..], p)
      case None =>
        assert forall i :: 1 <= i < |s| ==> s[i] == s[1..][i - 1];
        None
      case Some(k) => Some(k + 1)
  }

  /** `i` is the first position of `s` whose element passes `p`. */
  predicate IsFirst<T>(s: seq<T>, p: T -> bool, i: nat)
  {
    i < |s| && p(s[i]) && forall j :: 0 <= j < i ==> !p(s[j])
  }

  /**
   * `const i = s.findIndex(p); if (i === -1) return null; s[i] = f(s[i])`: the first element
   * that passes `p` replaced by its image, or `None` when no element passes.
   */
  function ReplaceFirst<T>(s: seq<T>, p: T -> bool, f: T -> T): (r: Option<seq<T>>)
    ensures r.None? <==> forall i :: 0 <= i < |s| ==> !p(s[i])
    ensures r.Some? ==> |r.value| == |s|
    ensures r.Some? ==> exists i: nat :: IsFirst(s, p, i) && r.value[i] == f(s[i])
                          && forall j :: 0 <= j < |s| && j != i ==> r.value[j] == s[j]
  {
    match FindIndex(s, p)
    case None => None
    case Some(i) =>
      assert IsFirst(s, p, i);
      Some(s[i := f(s[i])])
  }

  /**
   * `const kept = s.filter(keep); if (kept.length === s.length) return false`: the kept
   * elements when the filter drops something, `None` when it keeps everything.
   */
  function KeepOnly<T(!new)>(s: seq<T>, keep: T -> bool): (r: Option<seq<T>>)
    ensures r.None? <==> forall i :: 0 <= i < |s| ==> keep(s[i])
    ensures r.Some? ==> r.value == Filter(s, keep) && |r.value| < |s|
    ensures r.Some? ==> IsSubsequence(r.value, s)
  {
    var kept := Filter(s, keep);
    FilterLength(s, keep);
    FilterIsSubsequence(s, keep);
    if |kept| == |s| then None else Some(kept)
  }

  /** `s.map(f)`. */
  function Map<T, U>(s: seq<T>, f: T -> U): (r: seq<U>)
    ensures |r| == |s|
    ensures forall i :: 0 <= i < |s| ==> r[i] == f(s[i])
  {
    seq(|s|, i requires 0 <= i < |s| => f(s[i]))
  }

  /** `s.slice(0, end)`: a negative `end` counts back from the end of `s`. */
  function SliceTo<T>(s: seq<T>, end: int): (r: seq<T>)
    ensures |r| <= |s| && r == s[..|r|]
    ensures forall x :: x in r ==> x in s
    ensures 0 <= end ==> |r| == if end < |s| then end else |s|
    ensures end < 0 ==> |r| == if |s| + end > 0 then |s| + end else 0
    ensures multiset(r) <= multiset(s)
  {
    var r := if end >= |s| then s
      else if end >= 0 then s[..end]
      else if |s| + end > 0 then s[..|s| + end]
      else [];
    assert s == r + s[|r|..];
    r
  }

  /** A prefix of a sequence sorted by descending key is sorted too. */
  lemma SliceOfSorted<T(!new)>(s: seq<T>, key: T -> int, end: int)
    requires SortedDesc(s, key)
    ensures SortedDesc(SliceTo(s, end), key)
  {
    var r := SliceTo(s, end);
    assert forall i :: 0 <= i < |r| ==> r[i] == s[i];
  }

  /** No element of `s` is followed by one with a larger key. */
  ghost predicate SortedDesc<T(!new)>(s: seq<T>, key: T -> int)
  {
    forall i, j :: 0 <= i < j < |s| ==> key(s[i]) >= key(s[j])
  }

  /** Inserts `x` in front of the first element whose key is not larger than its own. */
  function InsertDesc<T(!new)>(x: T, s: seq<T>, key: T -> int): (r: seq<T>)
    ensures |r| == |s| + 1
  {
    if s == [] || key(s[0]) <= key(x) then [x] + s
    else [s[0]] + InsertDesc(x, s[1..], key)
  }

  /** Inserting into a sorted sequence keeps it sorted. */
  lemma {:induction false} InsertDescSorted<T(!new)>(x: T, s: seq<T>, key: T -> int)
    requires SortedDesc(s, key)
    ensures SortedDesc(InsertDesc(x, s, key), key)
    ensures InsertDesc(x, s, key)[0] == x || (s != [] && InsertDesc(x, s, key)[0] == s[0])
  {
    if s != [] && key(s[0]) > key(x) {
      InsertDescSorted(x, s[1..], key);
      var rest := InsertDesc(x, s[1..], key);
      assert key(rest[0]) <= key(s[0]);
      assert forall j :: 0 <= j < |rest| ==> key(rest[j]) <= key(rest[0]);
      var r := InsertDesc(x, s, key);
      assert r == [s[0]] + rest;
      assert forall i, j :: 0 < i < j < |r| ==> r[i] == rest[i - 1] && r[j] == rest[j - 1];
    }
  }

  /** Inserting adds exactly the element inserted. */
  lemma {:induction false} InsertDescMultiset<T(!new)>(x: T, s: seq<T>, key: T -> int)
    ensures multiset(InsertDesc(x, s, key)) == multiset(s) + multiset{x}
  {
    if s != [] && key(s[0]) > key(x) {
      InsertDescMultiset(x, s[1..], key);
      assert s == [s[0]] + s[1..];
    }
  }

  /** No two elements of `s` share a key under `f`. */
  ghost predicate DistinctBy<T, U>(s: seq<T>, f: T -> U)
  {
    forall i, j :: 0 <= i < j < |s| ==> f(s[i]) != f(s[j])
  }

  /** Inserting an element whose key no element shares keeps the keys distinct. */
  lemma {:induction false} InsertDescDistinct<T(!new), U>(x: T, s: seq<T>, key: T -> int, f: T -> U)
    requires DistinctBy(s, f)
    requires forall y :: y in s ==> f(y) != f(x)
    ensures DistinctBy(InsertDesc(x, s, key), f)
  {
    var r := InsertDesc(x, s, key);
    if s == [] || key(s[0]) <= key(x) {
      assert forall j :: 0 < j < |r| ==> r[j] == s[j - 1];
    } else {
      var rest := InsertDesc(x, s[1..], key);
      assert DistinctBy(s[1..], f);
      InsertDescDistinct(x, s[1..], key, f);
      InsertDescMultiset(x, s[1..], key);
      forall y | y in rest ensures f(y) != f(s[0]) {
        assert y in multiset(rest);
        if y != x {
          var k :| 0 <= k < |s| - 1 && s[1..][k] == y;
          assert s[k + 1] == y;
        }
      }
      assert r == [s[0]] + rest;
      assert forall j :: 0 < j < |r| ==> r[j] == rest[j - 1] && r[j] in rest;
    }
  }

  /** Sorting keeps distinct keys distinct. */
  lemma {:induction false} SortDescDistinct<T(!new), U>(s: seq<T>, key: T -> int, f: T -> U)
    requires DistinctBy(s, f)
    ensures DistinctBy(SortDesc(s, key), f)
  {
    if s != [] {
      var rest := SortDesc(s[1..], key);
      assert DistinctBy(s[1..], f);
      SortDescDistinct(s[1..], key, f);
      forall y | y in rest ensures f(y) != f(s[0]) {
        assert y in multiset(s[1..]);
        var k :| 0 <= k < |s| - 1 && s[1..][k] == y;
        assert s[k + 1] == y;
      }
      InsertDescDistinct(s[0], rest, key, f);
    }
  }

  /**
   * `s.sort((a, b) => key(b) - key(a))`: a stable sort that puts larger keys first.
   * The result is a permutation of `s` in non-increasing key order.
   */
  function SortDesc<T(!new)>(s: seq<T>, key: T -> int): (r: seq<T>)
    ensures SortedDesc(r, key)
    ensures multiset(r) == multiset(s)
    ensures |r| == |s|
  {
    if s == [] then []
    else
      var rest := SortDesc(s[1..], key);
      InsertDescSorted(s[0], rest, key);
      InsertDescMultiset(s[0], rest, key);
      assert s == [s[0]] + s[1..];
      InsertDesc(s[0], rest, key)
  }

  /**
   * Inserting `x` leaves the elements with any one key in their order: `x` lands in front of the
   * elements that share its key, and only elements with a strictly larger key go before it.
   */
  lemma {:induction false} InsertDescStable<T(!new)>(x: T, s: seq<T>, key: T -> int, p: T -> bool, k: int)
    requires forall e :: p(e) == (key(e) == k)
    ensures Filter(InsertDesc(x, s, key), p) == (if p(x) then [x] else []) + Filter(s, p)
  {
    if s == [] || key(s[0]) <= key(x) {
      assert ([x] + s)[1..] == s;
    } else {
      InsertDescStable(x, s[1..], key, p, k);
      var rest := InsertDesc(x, s[1..], key);
      assert ([s[0]] + rest)[1..] == rest;
      if p(x) {
        assert !p(s[0]);
      }
    }
  }

  /** The sort is stable: the elements that share any one key keep their order in `s`. */
  lemma {:induction false} SortDescStable<T(!new)>(s: seq<T>, key: T -> int, p: T -> bool, k: int)
    requires forall e :: p(e) == (key(e) == k)
    ensures Filter(SortDesc(s, key), p) == Filter(s, p)
  {
    if s != [] {
      SortDescStable(s[1..], key, p, k);
      InsertDescStable(s[0], SortDesc(s[1..], key), key, p, k);
    }
  }

  /** Mapping commutes with the sort when the image keeps each element's key. */
  lemma {:induction false} MapSortDesc<T(!new), U(!new)>(s: seq<T>, f: T -> U, key: T -> int, key': U -> int)
    requires forall x :: key'(f(x)) == key(x)
    ensures SortDesc(Map(s, f), key') == Map(SortDesc(s, key), f)
  {
    if s != [] {
      MapSortDesc(s[1..], f, key, key');
      assert Map(s, f) == [f(s[0])] + Map(s[1..], f);
      assert Map(s, f)[1..] == Map(s[1..], f);
      MapInsertDesc(s[0], SortDesc(s[1..], key), f, key, key');
    }
  }

  /** Mapping commutes with one insertion when the image keeps each element's key. */
  lemma {:induction false} MapInsertDesc<T(!new), U(!new)>(x: T, s: seq<T>, f: T -> U, key: T -> int, key': U -> int)
    requires forall y :: key'(f(y)) == key(y)
    ensures InsertDesc(f(x), Map(s, f), key') == Map(InsertDesc(x, s, key), f)
  {
    var m := Map(s, f);
    if s == [] {
      assert Map([x], f) == [f(x)];
    } else if key(s[0]) <= key(x) {
      assert Map([x] + s, f) == [f(x)] + m;
    } else {
      MapInsertDesc(x, s[1..], f, key, key');
      var rest := InsertDesc(x, s[1..], key);
      assert m[1..] == Map(s[1..], f);
      assert Map([s[0]] + rest, f) == [f(s[0])] + Map(rest, f);
    }
  }

  /** Mapping commutes with `slice(0, end)`. */
  lemma MapSliceTo<T, U>(s: seq<T>, f: T -> U, end: int)
    ensures SliceTo(Map(s, f), end) == Map(SliceTo(s, end), f)
  {
  }

  /**
   * Sorting by key, descending, and then `slice(0, end)` keeps the largest keys: every element
   * that is left out has a key no larger than any element that is kept. A non-negative `end`
   * that leaves an element out keeps exactly `end` elements.
   */
  lemma {:induction false} TopOfSorted<T(!new)>(s: seq<T>, key: T -> int, end: int, x: T)
    requires x in multiset(s)
    requires x !in SliceTo(SortDesc(s, key), end)
    ensures 0 <= end ==> |SliceTo(SortDesc(s, key), end)| == end
    ensures forall y :: y in SliceTo(SortDesc(s, key), end) ==> key(y) >= key(x)
  {
    var sorted := SortDesc(s, key);
    var top := SliceTo(sorted, end);
    assert x in sorted by { assert x in multiset(sorted); }
    var k :| 0 <= k < |sorted| && sorted[k] == x;
    assert forall i :: 0 <= i < |top| ==> top[i] == sorted[i];
    assert k >= |top|;
    forall y | y in top ensures key(y) >= key(x) {
      var j :| 0 <= j < |top| && top[j] == y;
      assert sorted[j] == y;
    }
  }
}
