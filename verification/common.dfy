/** Shared vocabulary of the service model: optional values, request outcomes,
    and the filters, folds and groupings the route handlers apply to the
    records they read. */
module Common {

  /** A field that may be absent (`None` in the service). */
  datatype Option<+T> = None | Some(value: T)

  /** The ways a request is refused before anything is stored. */
  datatype Error =
    | Invalid(field: string)     // a request field is outside its declared range (HTTP 422)
    | Conflict(detail: string)   // the record's identity is already taken (HTTP 409)

  datatype Result<+T> = Ok(value: T) | Err(error: Error)

  function Min(a: int, b: int): int
  {
    if a <= b then a else b
  }

  /** No element occurs twice. */
  ghost predicate Distinct<T>(s: seq<T>)
  {
    forall i, j :: 0 <= i < j < |s| ==> s[i] != s[j]
  }

  /** The elements of `s` that satisfy `p`, in their original order. */
  function Filter<T(!new)>(s: seq<T>, p: T -> bool): (r: seq<T>)
    ensures |r| <= |s|
    ensures forall x :: x in r <==> x in s && p(x)
  {
    if |s| == 0 then []
    else
      var init := s[..|s| - 1];
      assert s == init + [s[|s| - 1]];
      Filter(init, p) + (if p(s[|s| - 1]) then [s[|s| - 1]] else [])
  }

  /** Filtering only ever removes occurrences. */
  lemma {:induction false} FilterSubMultiset<T(!new)>(s: seq<T>, p: T -> bool)
    ensures multiset(Filter(s, p)) <= multiset(s)
  {
    if |s| > 0 {
      var init := s[..|s| - 1];
      assert s == init + [s[|s| - 1]];
      FilterSubMultiset(init, p);
    }
  }

  /** Tests that agree on every element of `s` filter it alike. */
  lemma {:induction false} FilterAgrees<T(!new)>(s: seq<T>, p: T -> bool, q: T -> bool)
    requires forall x :: x in s ==> (p(x) <==> q(x))
    ensures Filter(s, p) == Filter(s, q)
  {
    if |s| > 0 {
      var init := s[..|s| - 1];
      assert s == init + [s[|s| - 1]];
      FilterAgrees(init, p, q);
    }
  }

  /** Filtering drops nothing exactly when every element passes. */
  lemma {:induction false} FilterKeepsAll<T(!new)>(s: seq<T>, p: T -> bool)
    ensures |Filter(s, p)| == |s| <==> forall x :: x in s ==> p(x)
  {
    if |s| > 0 {
      var init := s[..|s| - 1];
      assert s == init + [s[|s| - 1]];
      FilterKeepsAll(init, p);
      if forall x :: x in s ==> p(x) {
        assert forall x :: x in init ==> p(x);
      }
    }
  }

  /** Filtering keeps nothing exactly when no element passes. */
  lemma FilterDropsAll<T(!new)>(s: seq<T>, p: T -> bool)
    ensures |Filter(s, p)| == 0 <==> forall x :: x in s ==> !p(x)
  {
    var r := Filter(s, p);
    if |r| > 0 {
      assert r[0] in r;
    }
  }

  /** Elements passing `p` plus elements failing it account for the whole sequence. */
  lemma {:induction false} FilterPartition<T(!new)>(s: seq<T>, p: T -> bool, q: T -> bool)
    requires forall x :: x in s ==> (q(x) <==> !p(x))
    ensures |Filter(s, p)| + |Filter(s, q)| == |s|
  {
    if |s| > 0 {
      var init := s[..|s| - 1];
      assert s == init + [s[|s| - 1]];
      FilterPartition(init, p, q);
    }
  }

  /** Elements passing `p` are exactly those passing one of two exclusive tests `q`, `r`. */
  lemma {:induction false} FilterSplit<T(!new)>(s: seq<T>, p: T -> bool, q: T -> bool, r: T -> bool)
    requires forall x :: x in s ==> (p(x) <==> q(x) || r(x)) && !(q(x) && r(x))
    ensures |Filter(s, p)| == |Filter(s, q)| + |Filter(s, r)|
  {
    if |s| > 0 {
      var init := s[..|s| - 1];
      assert s == init + [s[|s| - 1]];
      FilterSplit(init, p, q, r);
    }
  }

  /** Filtering a one-longer prefix adds at most its last element. */
  lemma FilterStep<T(!new)>(s: seq<T>, i: nat, p: T -> bool)
    requires i < |s|
    ensures Filter(s[..i + 1], p) == Filter(s[..i], p) + (if p(s[i]) then [s[i]] else [])
  {
    assert s[..i + 1][..i] == s[..i];
  }

  /** Summing over a one-longer prefix adds the last summand. */
  lemma SumIntStep<T>(s: seq<T>, i: nat, f: T -> int)
    requires i < |s|
    ensures SumInt(s[..i + 1], f) == SumInt(s[..i], f) + f(s[i])
  {
    assert s[..i + 1][..i] == s[..i];
  }

  /** A weaker test keeps at least as many elements. */
  lemma {:induction false} FilterMonotone<T(!new)>(s: seq<T>, p: T -> bool, q: T -> bool)
    requires forall x :: x in s && p(x) ==> q(x)
    ensures |Filter(s, p)| <= |Filter(s, q)|
  {
    if |s| > 0 {
      var init := s[..|s| - 1];
      assert s == init + [s[|s| - 1]];
      FilterMonotone(init, p, q);
    }
  }

  /** Sum of `f` over `s`. */
  function SumOf<T>(s: seq<T>, f: T -> real): real
  {
    if |s| == 0 then 0.0 else SumOf(s[..|s| - 1], f) + f(s[|s| - 1])
  }

  /** Sum of an integer-valued `f` over `s`. */
  function SumInt<T>(s: seq<T>, f: T -> int): int
  {
    if |s| == 0 then 0 else SumInt(s[..|s| - 1], f) + f(s[|s| - 1])
  }

  /** A pointwise smaller summand gives a smaller sum. */
  lemma {:induction false} SumIntMonotone<T>(s: seq<T>, f: T -> int, g: T -> int)
    requires forall x :: x in s ==> f(x) <= g(x)
    ensures SumInt(s, f) <= SumInt(s, g)
  {
    if |s| > 0 {
      var init := s[..|s| - 1];
      assert s == init + [s[|s| - 1]];
      SumIntMonotone(init, f, g);
    }
  }

  lemma {:induction false} SumIntNonNegative<T>(s: seq<T>, f: T -> int)
    requires forall x :: x in s ==> f(x) >= 0
    ensures SumInt(s, f) >= 0
  {
    if |s| > 0 {
      var init := s[..|s| - 1];
      assert s == init + [s[|s| - 1]];
      SumIntNonNegative(init, f);
    }
  }

  /** Largest value of `f` over a non-empty `s`. */
  function MaxOf<T>(s: seq<T>, f: T -> real): (m: real)
    requires |s| > 0
    ensures forall i :: 0 <= i < |s| ==> f(s[i]) <= m
  {
    if |s| == 1 then f(s[0])
    else
      var m := MaxOf(s[..|s| - 1], f);
      if f(s[|s| - 1]) > m then f(s[|s| - 1]) else m
  }

  /** Smallest value of `f` over a non-empty `s`. */
  function MinOf<T>(s: seq<T>, f: T -> real): (m: real)
    requires |s| > 0
    ensures forall i :: 0 <= i < |s| ==> m <= f(s[i])
  {
    if |s| == 1 then f(s[0])
    else
      var m := MinOf(s[..|s| - 1], f);
      if f(s[|s| - 1]) < m then f(s[|s| - 1]) else m
  }

  /** The maximum is the value of some element. */
  lemma {:induction false} MaxOfAttained<T>(s: seq<T>, f: T -> real)
    requires |s| > 0
    ensures exists i :: 0 <= i < |s| && f(s[i]) == MaxOf(s, f)
  {
    if |s| == 1 {
      assert f(s[0]) == MaxOf(s, f);
    } else {
      var init := s[..|s| - 1];
      MaxOfAttained(init, f);
      if f(s[|s| - 1]) <= MaxOf(init, f) {
        var i :| 0 <= i < |init| && f(init[i]) == MaxOf(init, f);
        assert f(s[i]) == MaxOf(s, f);
      } else {
        assert f(s[|s| - 1]) == MaxOf(s, f);
      }
    }
  }

  /** The minimum is the value of some element. */
  lemma {:induction false} MinOfAttained<T>(s: seq<T>, f: T -> real)
    requires |s| > 0
    ensures exists i :: 0 <= i < |s| && f(s[i]) == MinOf(s, f)
  {
    if |s| == 1 {
      assert f(s[0]) == MinOf(s, f);
    } else {
      var init := s[..|s| - 1];
      MinOfAttained(init, f);
      if f(s[|s| - 1]) >= MinOf(init, f) {
        var i :| 0 <= i < |init| && f(init[i]) == MinOf(init, f);
        assert f(s[i]) == MinOf(s, f);
      } else {
        assert f(s[|s| - 1]) == MinOf(s, f);
      }
    }
  }

  /** A non-empty sum is at most count times the maximum, so the mean never exceeds it. */
  lemma {:induction false} SumAtMostCountTimesMax<T>(s: seq<T>, f: T -> real)
    requires |s| > 0
    ensures SumOf(s, f) <= (|s| as real) * MaxOf(s, f)
  {
    if |s| > 1 {
      var init := s[..|s| - 1];
      SumAtMostCountTimesMax(init, f);
      var m, m' := MaxOf(init, f), MaxOf(s, f);
      AddUnderScaledBound(SumOf(init, f), f(s[|s| - 1]), |init| as real, m, m');
    }
  }

  /** A non-empty sum is at least count times the minimum, so the mean is never below it. */
  lemma {:induction false} SumAtLeastCountTimesMin<T>(s: seq<T>, f: T -> real)
    requires |s| > 0
    ensures (|s| as real) * MinOf(s, f) <= SumOf(s, f)
  {
    if |s| > 1 {
      var init := s[..|s| - 1];
      SumAtLeastCountTimesMin(init, f);
      var m, m' := MinOf(init, f), MinOf(s, f);
      AddOverScaledBound(SumOf(init, f), f(s[|s| - 1]), |init| as real, m, m');
    }
  }

  lemma AddUnderScaledBound(t: real, x: real, n: real, m: real, m': real)
    requires n >= 0.0 && t <= n * m && m <= m' && x <= m'
    ensures t + x <= (n + 1.0) * m'
  {
    assert n * m <= n * m' by {
      assert n * m' - n * m == n * (m' - m);
    }
  }

  lemma AddOverScaledBound(t: real, x: real, n: real, m: real, m': real)
    requires n >= 0.0 && n * m <= t && m' <= m && m' <= x
    ensures (n + 1.0) * m' <= t + x
  {
    assert n * m' <= n * m by {
      assert n * m - n * m' == n * (m - m');
    }
  }

  /** Arithmetic mean of `f` over a non-empty `s`. */
  function Mean<T>(s: seq<T>, f: T -> real): real
    requires |s| > 0
  {
    SumOf(s, f) / (|s| as real)
  }

  /** The mean lies between the minimum and the maximum, and count times mean is the sum. */
  lemma MeanBetweenExtremes<T>(s: seq<T>, f: T -> real)
    requires |s| > 0
    ensures MinOf(s, f) <= Mean(s, f) <= MaxOf(s, f)
    ensures Mean(s, f) * (|s| as real) == SumOf(s, f)
  {
    SumAtMostCountTimesMax(s, f);
    SumAtLeastCountTimesMin(s, f);
    DivideBounds(SumOf(s, f), |s| as real, MinOf(s, f), MaxOf(s, f));
  }

  lemma DivideBounds(sum: real, n: real, lo: real, hi: real)
    requires n > 0.0 && n * lo <= sum && sum <= n * hi
    ensures lo <= sum / n <= hi
    ensures (sum / n) * n == sum
  {
  }

  /** `c` out of `n`, in percent. */
  function Percent(c: nat, n: nat): real
    requires 0 < n && c <= n
  {
    (c as real / n as real) * 100.0
  }

  /** `p` is `part` per hundred of `whole`. */
  ghost predicate IsPercentOf(p: real, part: int, whole: int)
  {
    p * (whole as real) == 100.0 * (part as real)
  }

  /** `Percent(c, n)` is the share `c` of `n` on a 0..100 scale, reaching its ends only at none and all. */
  lemma PercentMeaning(c: nat, n: nat)
    requires 0 < n && c <= n
    ensures var p := Percent(c, n);
      && 0.0 <= p <= 100.0
      && (p == 0.0 <==> c == 0)
      && (p == 100.0 <==> c == n)
      && IsPercentOf(p, c, n)
  {
    var cr, nr := c as real, n as real;
    var q := cr / nr;
    DivideBounds(cr, nr, 0.0, 1.0);
    assert Percent(c, n) == q * 100.0;
    assert (q * 100.0) * nr == 100.0 * (q * nr);
    if q == 0.0 {
      assert cr == 0.0 * nr;
    }
    if q == 1.0 {
      assert cr == 1.0 * nr;
      assert Percent(c, n) == 100.0;
    } else {
      assert cr != nr;
      assert Percent(c, n) != 100.0;
    }
  }


  /** A sum of non-negative terms is non-negative. */
  lemma {:induction false} SumOfNonNegative<T>(s: seq<T>, f: T -> real)
    requires forall x :: x in s ==> f(x) >= 0.0
    ensures SumOf(s, f) >= 0.0
  {
    if |s| > 0 {
      var init := s[..|s| - 1];
      assert s == init + [s[|s| - 1]];
      SumOfNonNegative(init, f);
    }
  }

  /** The distinct values of `key` over `s`, in the order they are first seen
      (the insertion order of a dictionary keyed by `key`). */
  function Keys<T, K(==, !new)>(s: seq<T>, key: T -> K): (ks: seq<K>)
    ensures Distinct(ks)
    ensures forall k :: k in ks <==> exists i :: 0 <= i < |s| && key(s[i]) == k
  {
    if |s| == 0 then []
    else
      var init := s[..|s| - 1];
      var ks := Keys(init, key);
      assert forall i :: 0 <= i < |init| ==> init[i] == s[i];
      if key(s[|s| - 1]) in ks then ks else ks + [key(s[|s| - 1])]
  }

  /** `s` with repeats dropped, first occurrences kept in order. */
  function Dedup<T(==, !new)>(s: seq<T>): (r: seq<T>)
    ensures Distinct(r)
    ensures forall x :: x in r <==> x in s
    ensures |r| <= |s|
  {
    if |s| == 0 then []
    else
      var init := s[..|s| - 1];
      var r := Dedup(init);
      assert s == init + [s[|s| - 1]];
      if s[|s| - 1] in r then r else r + [s[|s| - 1]]
  }

  /** The number of distinct values in `s` is the size of its element set. */
  lemma DedupCountsElements<T(!new)>(s: seq<T>)
    ensures |Dedup(s)| == |Elements(s)|
  {
    DistinctCardinality(Dedup(s));
    assert Elements(Dedup(s)) == Elements(s);
  }

  /** When no two entries of `s` share a key, no two entries of a sub-multiset of `s` do. */
  lemma UniqueKeysSurvive<T, K>(r: seq<T>, s: seq<T>, key: T -> K)
    requires multiset(r) <= multiset(s)
    ensures (forall i, j :: 0 <= i < j < |s| ==> key(s[i]) != key(s[j])) ==>
              forall i, j :: 0 <= i < j < |r| ==> key(r[i]) != key(r[j])
  {
    if forall i, j :: 0 <= i < j < |s| ==> key(s[i]) != key(s[j]) {
      UniqueKeysInSubMultiset(r, s, key);
    }
  }

  lemma UniqueKeysInSubMultiset<T, K>(r: seq<T>, s: seq<T>, key: T -> K)
    requires forall i, j :: 0 <= i < j < |s| ==> key(s[i]) != key(s[j])
    requires multiset(r) <= multiset(s)
    ensures forall i, j :: 0 <= i < j < |r| ==> key(r[i]) != key(r[j])
  {
    SubMultisetOfDistinct(r, s);
    forall i, j | 0 <= i < j < |r|
      ensures key(r[i]) != key(r[j])
    {
      assert r[i] in multiset(s) && r[j] in multiset(s);
      var a :| 0 <= a < |s| && s[a] == r[i];
      var b :| 0 <= b < |s| && s[b] == r[j];
      assert a != b;
    }
  }

  /** A sub-multiset of a duplicate-free sequence is duplicate-free. */
  lemma SubMultisetOfDistinct<T>(r: seq<T>, s: seq<T>)
    requires Distinct(s)
    requires multiset(r) <= multiset(s)
    ensures Distinct(r)
  {
    DistinctMultiplicity(s);
    forall i, j | 0 <= i < j < |r|
      ensures r[i] != r[j]
    {
      RepeatCounted(r, i, j);
    }
  }

  /** A value that sits at two positions occurs at least twice. */
  lemma RepeatCounted<T>(r: seq<T>, i: int, j: int)
    requires 0 <= i < j < |r|
    ensures r[i] == r[j] ==> multiset(r)[r[i]] >= 2
  {
    assert r == r[..j] + r[j..];
    assert r[i] in r[..j] && r[j] in r[j..];
  }

  /** Every value occurs at most once in a duplicate-free sequence. */
  lemma {:induction false} DistinctMultiplicity<T>(s: seq<T>)
    requires Distinct(s)
    ensures forall x :: multiset(s)[x] <= 1
  {
    if |s| > 0 {
      var init := s[..|s| - 1];
      assert s == init + [s[|s| - 1]];
      DistinctMultiplicity(init);
      assert s[|s| - 1] !in init;
    }
  }

  /** The set of elements of `s`. */
  function Elements<T>(s: seq<T>): set<T>
  {
    set x | x in s
  }

  /** A duplicate-free sequence has as many elements as its set. */
  lemma {:induction false} DistinctCardinality<T>(s: seq<T>)
    requires Distinct(s)
    ensures |Elements(s)| == |s|
  {
    if |s| > 0 {
      var init := s[..|s| - 1];
      assert s == init + [s[|s| - 1]];
      DistinctCardinality(init);
      assert Elements(s) == Elements(init) + {s[|s| - 1]};
      assert s[|s| - 1] !in Elements(init);
    }
  }
}
