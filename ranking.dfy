/**
 * The ranking machinery behind `topZones` and `topBusySlots`: the string order
 * their comparators use for the zone tie-break, a sort, and what "the first k
 * entries of the ranked list" means, independently of how the list was produced.
 */
module Ranking {

  /** `std::string::operator<`: lexicographic by character, and a proper prefix comes first.
      Characters compare by code point, which for UTF-8 text is the same order as the
      unsigned byte comparison `std::char_traits<char>` performs. */
  predicate StrLess(a: string, b: string)
    decreases |a|
  {
    if a == [] then b != []
    else if b == [] then false
    else if a[0] != b[0] then a[0] < b[0]
    else StrLess(a[1..], b[1..])
  }

  lemma {:induction false} StrLessIrreflexive(a: string)
    ensures !StrLess(a, a)
    decreases |a|
  {
    if a != [] {
      StrLessIrreflexive(a[1..]);
    }
  }

  lemma {:induction false} StrLessTransitive(a: string, b: string, c: string)
    requires StrLess(a, b) && StrLess(b, c)
    ensures StrLess(a, c)
    decreases |a|
  {
    if a != [] && b != [] && c != [] && a[0] == b[0] && b[0] == c[0] {
      StrLessTransitive(a[1..], b[1..], c[1..]);
    }
  }

  /** Two different strings are always ordered one way or the other. */
  lemma {:induction false} StrLessTotal(a: string, b: string)
    requires a != b
    ensures StrLess(a, b) || StrLess(b, a)
    decreases |a|
  {
    if a != [] && b != [] && a[0] == b[0] {
      assert a == [a[0]] + a[1..] && b == [b[0]] + b[1..];
      StrLessTotal(a[1..], b[1..]);
    }
  }

  /** A comparator usable by `std::sort`: irreflexive and transitive (hence asymmetric). */
  ghost predicate StrictOrder<T(!new)>(less: (T, T) -> bool)
  {
    && (forall x :: !less(x, x))
    && (forall x, y, z :: less(x, y) && less(y, z) ==> less(x, z))
  }

  /** Any two different values are ordered, so the order is total and ties never arise. */
  ghost predicate Connected<T(!new)>(less: (T, T) -> bool)
  {
    forall x, y :: x != y ==> less(x, y) || less(y, x)
  }

  /** Every earlier element strictly precedes every later one. */
  predicate Sorted<T>(r: seq<T>, less: (T, T) -> bool)
  {
    forall i, j :: 0 <= i < j < |r| ==> less(r[i], r[j])
  }

  predicate Distinct<T(==)>(r: seq<T>)
  {
    forall i, j :: 0 <= i < j < |r| ==> r[i] != r[j]
  }

  function Elements<T>(r: seq<T>): set<T>
  {
    set x | x in r
  }

  /** The length the queries keep: `k` when `0 <= k < n`, all `n` otherwise
      (a negative `k` means no limit). */
  function TruncLen(k: int, n: nat): (m: nat)
    ensures m <= n
    ensures k >= 0 ==> m == if k < n then k else n
    ensures k < 0 ==> m == n
  {
    if 0 <= k < n then k else n
  }

  /** `r` is the top `k` of the population `s` under `less`: its length obeys the truncation
      rule, it is strictly sorted, it is drawn from `s`, and everything of `s` that it leaves
      out ranks after everything it keeps. */
  ghost predicate IsTopK<T>(r: seq<T>, s: set<T>, k: int, less: (T, T) -> bool)
  {
    && |r| == TruncLen(k, |s|)
    && Sorted(r, less)
    && (forall i :: 0 <= i < |r| ==> r[i] in s)
    && (forall x :: x in s && x !in r ==> forall i :: 0 <= i < |r| ==> less(r[i], x))
  }

  /** Putting `x` at the first position `p` whose element does not precede it keeps a
      strictly sorted sequence strictly sorted. */
  lemma InsertKeepsSorted<T(!new)>(r: seq<T>, p: nat, x: T, less: (T, T) -> bool)
    requires StrictOrder(less) && Connected(less)
    requires Sorted(r, less) && x !in r
    requires p <= |r|
    requires forall j :: 0 <= j < p ==> less(r[j], x)
    requires p < |r| ==> !less(r[p], x)
    ensures Sorted(r[..p] + [x] + r[p..], less)
  {
    var r' := r[..p] + [x] + r[p..];
    forall j | p < j < |r'|
      ensures less(x, r'[j])
    {
      assert r'[j] == r[j - 1];
      assert r[p] != x;
      if j - 1 > p {
        assert less(r[p], r[j - 1]);
      }
    }
  }

  /** Inserting `x` at any position adds exactly one `x` to the multiset. */
  lemma InsertMultiset<T>(r: seq<T>, p: nat, x: T)
    requires p <= |r|
    ensures multiset(r[..p] + [x] + r[p..]) == multiset(r) + multiset{x}
  {
    assert r == r[..p] + r[p..];
  }

  /** In a sequence of distinct elements, the element at `i` is not among those before it. */
  lemma DistinctNotBefore<T>(s: seq<T>, i: nat)
    requires Distinct(s) && i < |s|
    ensures s[i] !in multiset(s[..i])
  {
    assert s[i] !in s[..i];
  }

  /** The first position whose element does not precede `x`, found by a linear scan. */
  method InsertionPoint<T>(r: seq<T>, x: T, less: (T, T) -> bool) returns (p: nat)
    ensures p <= |r|
    ensures forall j :: 0 <= j < p ==> less(r[j], x)
    ensures p < |r| ==> !less(r[p], x)
  {
    p := 0;
    while p < |r| && less(r[p], x)
      invariant p <= |r|
      invariant forall j :: 0 <= j < p ==> less(r[j], x)
    {
      p := p + 1;
    }
  }

  /** A sort that plays the part of `std::sort` with a comparator that is a strict total
      order: the result is a strictly sorted permutation of its distinct input. */
  method InsertionSort<T(!new)>(s: seq<T>, less: (T, T) -> bool) returns (r: seq<T>)
    requires StrictOrder(less) && Connected(less)
    requires Distinct(s)
    ensures Sorted(r, less)
    ensures multiset(r) == multiset(s)
  {
    r := [];
    for i := 0 to |s|
      invariant Sorted(r, less)
      invariant multiset(r) == multiset(s[..i])
    {
      var x := s[i];
      DistinctNotBefore(s, i);
      var p := InsertionPoint(r, x, less);
      InsertKeepsSorted(r, p, x, less);
      InsertMultiset(r, p, x);
      assert s[..i + 1] == s[..i] + [x];
      r := r[..p] + [x] + r[p..];
    }
    assert s[..|s|] == s;
  }

  lemma {:induction false} DistinctCard<T>(r: seq<T>)
    requires Distinct(r)
    ensures |Elements(r)| == |r|
    decreases |r|
  {
    if r != [] {
      var r' := r[..|r| - 1];
      var x := r[|r| - 1];
      DistinctCard(r');
      assert Elements(r) == Elements(r') + {x};
      assert x !in Elements(r');
    }
  }

  lemma SortedDistinct<T(!new)>(r: seq<T>, less: (T, T) -> bool)
    requires StrictOrder(less) && Sorted(r, less)
    ensures Distinct(r)
  {
    forall i, j | 0 <= i < j < |r|
      ensures r[i] != r[j]
    {
      assert less(r[i], r[j]);
    }
  }

  lemma SubsetSameSize<T>(a: set<T>, b: set<T>)
    requires a <= b && |a| == |b|
    ensures a == b
  {
    if x :| x in b && x !in a {
      assert a <= b - {x};
      assert |b - {x}| == |b| - 1;
      SubsetCard(a, b - {x});
      assert false;
    }
  }

  lemma {:induction false} SubsetCard<T>(a: set<T>, b: set<T>)
    requires a <= b
    ensures |a| <= |b|
    decreases |a|
  {
    if a != {} {
      var x :| x in a;
      SubsetCard(a - {x}, b - {x});
    }
  }

  /** A permutation of a list that enumerates `s` enumerates `s` as well. */
  lemma PermutationElements<T>(entries: seq<T>, result: seq<T>, s: set<T>)
    requires multiset(result) == multiset(entries)
    requires forall i :: 0 <= i < |entries| ==> entries[i] in s
    requires forall x :: x in s ==> x in entries
    ensures Elements(result) == s
  {
    forall x | x in s
      ensures x in result
    {
      assert x in multiset(entries);
    }
    forall x | x in result
      ensures x in s
    {
      assert x in multiset(result);
    }
  }

  /** Cutting the complete ranking of `s` at the truncation length gives the top `k`. */
  lemma TruncatedIsTopK<T(!new)>(full: seq<T>, s: set<T>, k: int, less: (T, T) -> bool)
    requires StrictOrder(less)
    requires Sorted(full, less) && Elements(full) == s
    ensures |full| == |s|
    ensures IsTopK(full[..TruncLen(k, |s|)], s, k, less)
  {
    SortedDistinct(full, less);
    DistinctCard(full);
    var n := TruncLen(k, |s|);
    var r := full[..n];
    forall x | x in s && x !in r
      ensures forall i :: 0 <= i < |r| ==> less(r[i], x)
    {
      var j :| 0 <= j < |full| && full[j] == x;
    }
  }

  /** With no limit, the top list holds the whole population. */
  lemma TopAllCovers<T(!new)>(all: seq<T>, s: set<T>, k: int, less: (T, T) -> bool)
    requires StrictOrder(less)
    requires k < 0 && IsTopK(all, s, k, less)
    ensures Elements(all) == s
  {
    SortedDistinct(all, less);
    DistinctCard(all);
    SubsetSameSize(Elements(all), s);
  }

  /** The head of a non-empty top list precedes every other member of the population. */
  lemma HeadRanksFirst<T(!new)>(r: seq<T>, s: set<T>, k: int, less: (T, T) -> bool)
    requires IsTopK(r, s, k, less) && |r| > 0
    ensures r[0] in s
    ensures forall x :: x in s && x != r[0] ==> less(r[0], x)
  {
    forall x | x in s && x != r[0]
      ensures less(r[0], x)
    {
      if x in r {
        var j :| 0 <= j < |r| && r[j] == x;
        assert j > 0;
      }
    }
  }

  /** The top `k` is unique: the result does not depend on the order in which the
      population was listed before sorting. */
  lemma {:induction false} TopKUnique<T(!new)>(r1: seq<T>, r2: seq<T>, s: set<T>, k: int, less: (T, T) -> bool)
    requires StrictOrder(less)
    requires IsTopK(r1, s, k, less) && IsTopK(r2, s, k, less)
    ensures r1 == r2
    decreases |r1|
  {
    if |r1| > 0 {
      var m1, m2 := r1[0], r2[0];
      HeadRanksFirst(r1, s, k, less);
      HeadRanksFirst(r2, s, k, less);
      assert m1 == m2;
      var s' := s - {m1};
      var k' := if k < 0 then k else k - 1;
      assert |s'| == |s| - 1;
      forall x | x in s' && x !in r1[1..]
        ensures forall i :: 0 <= i < |r1[1..]| ==> less(r1[1..][i], x)
      {
        assert x !in r1;
      }
      forall x | x in s' && x !in r2[1..]
        ensures forall i :: 0 <= i < |r2[1..]| ==> less(r2[1..][i], x)
      {
        assert x !in r2;
      }
      forall i | 0 <= i < |r1[1..]|
        ensures r1[1..][i] in s'
      {
        assert less(r1[0], r1[i + 1]);
      }
      forall i | 0 <= i < |r2[1..]|
        ensures r2[1..][i] in s'
      {
        assert less(r2[0], r2[i + 1]);
      }
      TopKUnique(r1[1..], r2[1..], s', k', less);
      assert r1 == [m1] + r1[1..] && r2 == [m2] + r2[1..];
    }
  }

  /** `top(k)` is a prefix of `top(-1)`: asking for fewer entries only cuts the list. */
  lemma TopKPrefix<T(!new)>(r: seq<T>, all: seq<T>, s: set<T>, k: int, less: (T, T) -> bool)
    requires StrictOrder(less)
    requires IsTopK(r, s, k, less) && IsTopK(all, s, -1, less)
    ensures |r| <= |all| && r == all[..|r|]
  {
    TopAllCovers(all, s, -1, less);
    TruncatedIsTopK(all, s, k, less);
    TopKUnique(r, all[..TruncLen(k, |s|)], s, k, less);
  }
}
