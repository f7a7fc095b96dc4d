/** The page/limit/skip/pages arithmetic shared by `Product::findAll` and
    `Order::findAll`. They differ only in the default limit. */
module Paging {
  import opened Common

  datatype PageInfo = PageInfo(page: int, limit: int, skip: int, pages: int)

  function Max(a: int, b: int): int { if a >= b then a else b }
  function Min(a: int, b: int): int { if a <= b then a else b }

  /** `ceil($n / $d)` for a positive divisor: the unique count of pages of
      size `d` that covers `n` items without an empty last page. */
  function CeilDiv(n: nat, d: int): (r: nat)
    requires d >= 1
    ensures r * d >= n && (r - 1) * d < n
  {
    var q := (n + d - 1) / d;
    assert q * d <= n + d - 1 < (q + 1) * d;
    q
  }

  lemma NonNegativeProduct(a: int, b: int)
    requires a >= 0 && b >= 0
    ensures a * b >= 0
  {
  }

  lemma PositiveFactor(a: int, b: int)
    requires b >= 1 && a * b > 0
    ensures a >= 1
  {
  }

  /** The pagination of a `findAll` call.  `page` and `limit` are the
      filters after PHP's `(int)` cast, or None when they are not set. */
  function Paginate(page: Option<int>, limit: Option<int>, defaultLimit: int, total: nat): (r: PageInfo)
    requires 1 <= defaultLimit <= 100
    ensures r.page >= 1
    ensures page.None? ==> r.page == 1
    ensures page.Some? && page.value >= 1 ==> r.page == page.value
    ensures page.Some? && page.value < 1 ==> r.page == 1
    ensures 1 <= r.limit <= 100
    ensures limit.None? ==> r.limit == defaultLimit
    ensures limit.Some? && 1 <= limit.value <= 100 ==> r.limit == limit.value
    ensures limit.Some? && limit.value < 1 ==> r.limit == 1
    ensures limit.Some? && limit.value > 100 ==> r.limit == 100
    ensures r.skip == (r.page - 1) * r.limit && r.skip >= 0
    ensures r.pages >= 0 && r.pages * r.limit >= total && (r.pages - 1) * r.limit < total
  {
    var p := if page.Some? then Max(1, page.value) else 1;
    var l := if limit.Some? then Max(1, Min(100, limit.value)) else defaultLimit;
    NonNegativeProduct(p - 1, l);
    PageInfo(p, l, (p - 1) * l, CeilDiv(total, l))
  }

  /** The documents the query returns for a page: `skip` documents are
      passed over and at most `limit` are kept. */
  function PageOf<T>(xs: seq<T>, info: PageInfo): (r: seq<T>)
    requires info.skip >= 0 && info.limit >= 1
    ensures |r| <= info.limit
    ensures |r| == Min(info.limit, Max(0, |xs| - info.skip))
    ensures forall k :: 0 <= k < |r| ==> info.skip + k < |xs| && r[k] == xs[info.skip + k]
  {
    var lo := Min(info.skip, |xs|);
    xs[lo..Min(info.skip + info.limit, |xs|)]
  }

  /** Every one of the `total` matching documents lies on some page
      between 1 and `pages`: item `i` is on page `i / limit + 1`. */
  lemma ItemOnPage(total: nat, limit: int, pages: int, i: nat)
    requires 1 <= limit && pages * limit >= total && i < total
    ensures var p := i / limit + 1; 1 <= p <= pages && (p - 1) * limit <= i < p * limit
  {
    var q := i / limit;
    assert q * limit <= i < (q + 1) * limit;
    assert (pages - q) * limit > 0;
    PositiveFactor(pages - q, limit);
  }

  /** The page `ItemOnPage` names for document `i` holds it, at position
      `i % limit`. */
  lemma ItemInPageOf<T>(xs: seq<T>, info: PageInfo, i: nat)
    requires 1 <= info.limit && i < |xs|
    requires info.page == i / info.limit + 1 && info.skip == (info.page - 1) * info.limit
    ensures i % info.limit < |PageOf(xs, info)| && PageOf(xs, info)[i % info.limit] == xs[i]
  {
    var q := i / info.limit;
    assert info.skip == q * info.limit;
    assert i == info.skip + i % info.limit;
  }
}
