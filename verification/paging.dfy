/** Page-number pagination shared by the listing endpoints: skip
    `(page - 1) * page_size` records of the ordered result, return at most
    `page_size` of them, and report whether a further page exists. */
module Paging {
  import opened Common

  datatype Page<T> = Page(items: seq<T>, total: nat, page: nat, pageSize: nat, hasNext: bool)

  /** How many ordered records precede the requested page. */
  function Skip(page: nat, pageSize: nat): nat
    requires page >= 1
  {
    (page - 1) * pageSize
  }

  /** How many records page `page` holds when `total` records are paged through. */
  function PageLength(total: nat, page: nat, pageSize: nat): nat
    requires page >= 1
  {
    var skip := Skip(page, pageSize);
    if skip >= total then 0 else Min(pageSize, total - skip)
  }

  /** One page of `s`; `total` counts every record, not only this page's. */
  function Paginate<T>(s: seq<T>, page: nat, pageSize: nat): (r: Page<T>)
    requires page >= 1 && pageSize >= 1
    ensures r.total == |s| && r.page == page && r.pageSize == pageSize
    ensures |r.items| <= pageSize
    ensures |r.items| == PageLength(|s|, page, pageSize)
    ensures forall k :: 0 <= k < |r.items| ==> r.items[k] == s[Skip(page, pageSize) + k]
    ensures r.hasNext <==> Skip(page, pageSize) + pageSize < |s|
  {
    var skip := Skip(page, pageSize);
    var items := if skip >= |s| then [] else s[skip..Min(skip + pageSize, |s|)];
    Page(items, |s|, page, pageSize, skip + pageSize < |s|)
  }

  /** `has_next` is set exactly when the following page would not be empty. */
  lemma HasNextIffNextPageNonEmpty<T>(s: seq<T>, page: nat, pageSize: nat)
    requires page >= 1 && pageSize >= 1
    ensures Paginate(s, page, pageSize).hasNext <==> |Paginate(s, page + 1, pageSize).items| > 0
  {
    assert Skip(page + 1, pageSize) == Skip(page, pageSize) + pageSize by {
      assert page * pageSize == (page - 1) * pageSize + pageSize;
    }
  }

  /** Every record appears on exactly the page its position determines, so
      walking the pages in order visits the whole ordered result. */
  lemma EveryRecordOnItsPage<T>(s: seq<T>, pageSize: nat, i: nat)
    requires pageSize >= 1 && i < |s|
    ensures var p := Paginate(s, i / pageSize + 1, pageSize);
      i % pageSize < |p.items| && p.items[i % pageSize] == s[i]
  {
    var q, k := i / pageSize, i % pageSize;
    assert i == q * pageSize + k && 0 <= k < pageSize;
    assert Skip(q + 1, pageSize) == q * pageSize;
  }

  /** Record `i` of `total` sits at position `k` of page `page`, the page
      numbered `i / pageSize + 1`. */
  lemma PageOfIndex(total: nat, pageSize: nat, i: nat) returns (page: nat, k: nat)
    requires pageSize >= 1 && i < total
    ensures page >= 1 && Skip(page, pageSize) + k == i && k < PageLength(total, page, pageSize)
  {
    page, k := i / pageSize + 1, i % pageSize;
    assert i == (page - 1) * pageSize + k && 0 <= k < pageSize;
  }

  /** Where a record of `m` is listed when `s`, a reordering of `m`, is paged
      through: at position `k` of page `page`. */
  lemma ListedPosition<T>(s: seq<T>, m: seq<T>, pageSize: nat, x: T) returns (page: nat, k: nat)
    requires pageSize >= 1 && x in m && multiset(s) == multiset(m)
    ensures page >= 1 && k < PageLength(|m|, page, pageSize)
    ensures Skip(page, pageSize) + k < |s| && s[Skip(page, pageSize) + k] == x
  {
    assert x in multiset(s);
    assert |s| == |multiset(s)| == |multiset(m)| == |m|;
    var i :| 0 <= i < |s| && s[i] == x;
    page, k := PageOfIndex(|s|, pageSize, i);
  }

  /** Page items are records of `s` (and hence satisfy whatever every record of `s` does). */
  lemma PageItemsFromSource<T>(s: seq<T>, page: nat, pageSize: nat)
    requires page >= 1 && pageSize >= 1
    ensures forall x :: x in Paginate(s, page, pageSize).items ==> x in s
  {
    var r := Paginate(s, page, pageSize);
    forall x | x in r.items
      ensures x in s
    {
      var k :| 0 <= k < |r.items| && r.items[k] == x;
      assert s[Skip(page, pageSize) + k] == x;
    }
  }

  /** The first `n` entries of `s` (a `limit` without a `skip`). */
  function Take<T>(s: seq<T>, n: nat): (r: seq<T>)
    ensures |r| == Min(n, |s|)
    ensures forall k :: 0 <= k < |r| ==> r[k] == s[k]
  {
    s[..Min(n, |s|)]
  }
}
