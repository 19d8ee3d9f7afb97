/** Orderings the listings use: a stable insertion sort under any total
    preorder, the code-point order on strings that the store's `sort` on a
    string field follows, and "sort descending, keep the first k". */
module Ordering {
  import opened Common

  ghost predicate TotalPreorder<T(!new)>(before: (T, T) -> bool)
  {
    && (forall a, b :: before(a, b) || before(b, a))
    && (forall a, b, c :: before(a, b) && before(b, c) ==> before(a, c))
  }

  ghost predicate SortedBy<T>(s: seq<T>, before: (T, T) -> bool)
  {
    forall i, j :: 0 <= i < j < |s| ==> before(s[i], s[j])
  }

  /** Places `x` ahead of the first element it may precede. */
  function Insert<T(!new)>(x: T, s: seq<T>, before: (T, T) -> bool): (r: seq<T>)
    requires TotalPreorder(before)
    requires SortedBy(s, before)
    ensures |r| == |s| + 1
    ensures multiset(r) == multiset(s) + multiset{x}
    ensures forall y :: y in r ==> y == x || y in s
    ensures SortedBy(r, before)
    decreases |s|
  {
    if |s| == 0 then [x]
    else if before(x, s[0]) then
      HeadPrecedesAll(x, s, before);
      ConsSorted(x, s, before);
      [x] + s
    else
      assert s == [s[0]] + s[1..];
      var rest := Insert(x, s[1..], before);
      assert forall y :: y in rest ==> before(s[0], y);
      ConsSorted(s[0], rest, before);
      [s[0]] + rest
  }

  /** An element that may precede the head of a sorted sequence may precede all of it. */
  lemma HeadPrecedesAll<T(!new)>(x: T, s: seq<T>, before: (T, T) -> bool)
    requires TotalPreorder(before)
    requires SortedBy(s, before)
    requires |s| > 0 && before(x, s[0])
    ensures forall y :: y in s ==> before(x, y)
  {
    forall y | y in s
      ensures before(x, y)
    {
      var j :| 0 <= j < |s| && s[j] == y;
      if j > 0 {
        assert before(s[0], s[j]);
      }
    }
  }

  /** Prefixing a sorted sequence with an element that may precede all of it keeps it sorted. */
  lemma ConsSorted<T>(x: T, s: seq<T>, before: (T, T) -> bool)
    requires SortedBy(s, before)
    requires forall y :: y in s ==> before(x, y)
    ensures SortedBy([x] + s, before)
  {
    var r := [x] + s;
    forall i, j | 0 <= i < j < |r|
      ensures before(r[i], r[j])
    {
      assert r[j] == s[j - 1];
      if i > 0 {
        assert r[i] == s[i - 1];
      } else {
        assert r[j] in s;
      }
    }
  }

  /** Insertion sort; elements that tie keep their input order. */
  function Sort<T(!new)>(s: seq<T>, before: (T, T) -> bool): (r: seq<T>)
    requires TotalPreorder(before)
    ensures |r| == |s|
    ensures multiset(r) == multiset(s)
    ensures SortedBy(r, before)
  {
    if |s| == 0 then []
    else
      assert s == [s[0]] + s[1..];
      Insert(s[0], Sort(s[1..], before), before)
  }

  /** Lexicographic order on code points: the order of a string field in an
      ascending store sort. */
  predicate StrLe(a: string, b: string)
  {
    if |a| == 0 then true
    else if |b| == 0 then false
    else if a[0] != b[0] then a[0] < b[0]
    else StrLe(a[1..], b[1..])
  }

  lemma {:induction false} StrLeTotal(a: string, b: string)
    ensures StrLe(a, b) || StrLe(b, a)
  {
    if |a| > 0 && |b| > 0 && a[0] == b[0] {
      StrLeTotal(a[1..], b[1..]);
    }
  }

  lemma {:induction false} StrLeTransitive(a: string, b: string, c: string)
    requires StrLe(a, b) && StrLe(b, c)
    ensures StrLe(a, c)
  {
    if |a| > 0 && |b| > 0 && |c| > 0 && a[0] == b[0] && b[0] == c[0] {
      StrLeTransitive(a[1..], b[1..], c[1..]);
    }
  }

  /** The order of a string field in an ascending store sort is a total preorder. */
  lemma StrLeByKeyIsTotalPreorder<T(!new)>(key: T -> string)
    ensures TotalPreorder((a: T, b: T) => StrLe(key(a), key(b)))
  {
    forall a: T, b: T
      ensures StrLe(key(a), key(b)) || StrLe(key(b), key(a))
    {
      StrLeTotal(key(a), key(b));
    }
    forall a: T, b: T, c: T | StrLe(key(a), key(b)) && StrLe(key(b), key(c))
      ensures StrLe(key(a), key(c))
    {
      StrLeTransitive(key(a), key(b), key(c));
    }
  }

  /** Ascending sort on a string field. */
  function SortByName<T(!new)>(s: seq<T>, key: T -> string): (r: seq<T>)
    ensures |r| == |s|
    ensures multiset(r) == multiset(s)
    ensures forall i, j :: 0 <= i < j < |r| ==> StrLe(key(r[i]), key(r[j]))
  {
    StrLeByKeyIsTotalPreorder(key);
    Sort(s, (a: T, b: T) => StrLe(key(a), key(b)))
  }

  /** Sort on a numeric field, descending or ascending. */
  function SortByNumber<T(!new)>(s: seq<T>, key: T -> real, descending: bool): (r: seq<T>)
    ensures |r| == |s|
    ensures multiset(r) == multiset(s)
    ensures descending ==> forall i, j :: 0 <= i < j < |r| ==> key(r[i]) >= key(r[j])
    ensures !descending ==> forall i, j :: 0 <= i < j < |r| ==> key(r[i]) <= key(r[j])
  {
    if descending then Sort(s, (a: T, b: T) => key(a) >= key(b))
    else Sort(s, (a: T, b: T) => key(a) <= key(b))
  }

  /** A field value as the store compares it in a sort: a null or missing value
      first, then numbers (timestamps included), then strings, then booleans.
      Apart from nulls, one field holds values of one kind. */
  datatype SortValue = Null | Number(num: real) | Text(text: string) | Flag(flag: bool)

  function KindRank(v: SortValue): nat
  {
    match v
    case Null => 0
    case Number(_) => 1
    case Text(_) => 2
    case Flag(_) => 3
  }

  /** The ascending order of field values; `false` precedes `true`. */
  predicate ValueLe(a: SortValue, b: SortValue)
  {
    if KindRank(a) != KindRank(b) then KindRank(a) < KindRank(b)
    else match a
      case Null => true
      case Number(x) => x <= b.num
      case Text(x) => StrLe(x, b.text)
      case Flag(x) => !x || b.flag
  }

  lemma ValueLeTotal(a: SortValue, b: SortValue)
    ensures ValueLe(a, b) || ValueLe(b, a)
  {
    if a.Text? && b.Text? {
      StrLeTotal(a.text, b.text);
    }
  }

  lemma ValueLeTransitive(a: SortValue, b: SortValue, c: SortValue)
    requires ValueLe(a, b) && ValueLe(b, c)
    ensures ValueLe(a, c)
  {
    if a.Text? && b.Text? && c.Text? {
      StrLeTransitive(a.text, b.text, c.text);
    }
  }

  /** Ordering by a field value, in either direction, is a total preorder. */
  lemma ValueByKeyIsTotalPreorder<T(!new)>(key: T -> SortValue, descending: bool)
    ensures TotalPreorder((a: T, b: T) => if descending then ValueLe(key(b), key(a)) else ValueLe(key(a), key(b)))
  {
    forall a: T, b: T
      ensures ValueLe(key(a), key(b)) || ValueLe(key(b), key(a))
    {
      ValueLeTotal(key(a), key(b));
    }
    forall a: T, b: T, c: T | ValueLe(key(a), key(b)) && ValueLe(key(b), key(c))
      ensures ValueLe(key(a), key(c))
    {
      ValueLeTransitive(key(a), key(b), key(c));
    }
  }

  /** Sort on a field of any kind, descending or ascending; nulls come first ascending and last descending. */
  function SortByValue<T(!new)>(s: seq<T>, key: T -> SortValue, descending: bool): (r: seq<T>)
    ensures |r| == |s|
    ensures multiset(r) == multiset(s)
    ensures descending ==> forall i, j :: 0 <= i < j < |r| ==> ValueLe(key(r[j]), key(r[i]))
    ensures !descending ==> forall i, j :: 0 <= i < j < |r| ==> ValueLe(key(r[i]), key(r[j]))
  {
    ValueByKeyIsTotalPreorder(key, descending);
    Sort(s, (a: T, b: T) => if descending then ValueLe(key(b), key(a)) else ValueLe(key(a), key(b)))
  }

  /** The `k` entries with the largest `key`, largest first. */
  function TopK<T(!new)>(s: seq<T>, key: T -> real, k: nat): (r: seq<T>)
    ensures |r| == Min(k, |s|)
    ensures forall i, j :: 0 <= i < j < |r| ==> key(r[i]) >= key(r[j])
  {
    var sorted := SortByNumber(s, key, true);
    sorted[..Min(k, |sorted|)]
  }

  /** What `TopK` keeps: some of the occurrences of `s` (all of them when `k`
      leaves room), and none left out ranks above one kept. */
  lemma TopKSelects<T(!new)>(s: seq<T>, key: T -> real, k: nat)
    ensures var r := TopK(s, key, k);
      && multiset(r) <= multiset(s)
      && (k >= |s| ==> multiset(r) == multiset(s))
      && (forall x :: x in r ==> x in s)
      && (k >= |s| ==> forall x :: x in s ==> x in r)
      && (forall x, y :: x in s && x !in r && y in r ==> key(x) <= key(y))
  {
    var sorted := SortByNumber(s, key, true);
    var n := Min(k, |sorted|);
    PrefixDominatesRest(sorted, key, n);
    PrefixMultiset(sorted, n);
    SameElements(s, sorted);
    assert forall x :: x in sorted[..n] ==> x in sorted;
  }

  /** Sequences that are permutations of each other have the same elements. */
  lemma SameElements<T>(s: seq<T>, t: seq<T>)
    requires multiset(s) == multiset(t)
    ensures forall x :: x in s <==> x in t
  {
    forall x
      ensures x in s <==> x in t
    {
      assert x in s <==> x in multiset(s);
      assert x in t <==> x in multiset(t);
    }
  }

  lemma PrefixMultiset<T>(s: seq<T>, n: nat)
    requires n <= |s|
    ensures multiset(s[..n]) <= multiset(s)
    ensures n == |s| ==> s[..n] == s
  {
    assert s == s[..n] + s[n..];
  }

  /** In a descending sequence, every element kept by a prefix is at least every
      element left out of it. */
  lemma PrefixDominatesRest<T>(s: seq<T>, key: T -> real, n: nat)
    requires n <= |s|
    requires forall i, j :: 0 <= i < j < |s| ==> key(s[i]) >= key(s[j])
    ensures forall x, y :: x in s && x !in s[..n] && y in s[..n] ==> key(x) <= key(y)
  {
    assert forall i :: 0 <= i < n ==> s[..n][i] == s[i];
    forall x, y | x in s && x !in s[..n] && y in s[..n]
      ensures key(x) <= key(y)
    {
      var i :| 0 <= i < |s| && s[i] == x;
      var j :| 0 <= j < n && s[..n][j] == y;
      assert j < i;
    }
  }
}
