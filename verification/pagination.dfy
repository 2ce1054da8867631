/** The page/limit normalisation and slicing of the course-enrollment listing. */
module Pagination {
  import opened Base

  /** The page number a listing uses: the parsed `page` query when it is positive,
      otherwise 1 (also when it is absent or does not parse). */
  function NormalizePage(page: Option<int>): (p: int)
    ensures p >= 1
    ensures page.Some? && page.value > 0 ==> p == page.value
    ensures page.None? || page.value <= 0 ==> p == 1
  {
    if page.Some? && page.value > 0 then page.value else 1
  }

  /** The page size a listing uses: the parsed `limit` query capped at 50 when it is
      positive, otherwise 10. */
  function NormalizeLimit(limit: Option<int>): (l: int)
    ensures 1 <= l <= 50
    ensures limit.Some? && limit.value > 0 ==> l == Min(limit.value, 50)
    ensures limit.None? || limit.value <= 0 ==> l == 10
  {
    if limit.Some? && limit.value > 0 then Min(limit.value, 50) else 10
  }

  /** How many documents the query skips to reach a page: every earlier page is full. */
  function Skip(page: int, limit: int): nat
    requires page >= 1 && limit >= 1
  {
    (page - 1) * limit
  }

  /** `Math.ceil(total / limit)`: the fewest pages of `limit` documents that hold
      `total` documents. */
  function TotalPages(total: nat, limit: int): (n: nat)
    requires limit >= 1
    ensures n * limit >= total
    ensures n > 0 ==> (n - 1) * limit < total
  {
    (total + limit - 1) / limit
  }

  /** `.skip(skip).limit(limit)` applied to a result list. */
  function PageSlice<T>(items: seq<T>, skip: nat, limit: nat): (r: seq<T>)
    ensures |r| <= limit
    ensures skip >= |items| ==> r == []
    ensures skip < |items| ==> |r| == Min(limit, |items| - skip)
    ensures forall i :: 0 <= i < |r| ==> skip + i < |items| && r[i] == items[skip + i]
  {
    if skip >= |items| then []
    else items[skip..skip + Min(limit, |items| - skip)]
  }

  /** Every listed document appears on exactly the page its position says, and that
      page is within `totalPages`. */
  lemma PageOfItem<T>(items: seq<T>, i: nat, limit: int)
    requires i < |items| && limit >= 1
    ensures var page := i / limit + 1;
      && page <= TotalPages(|items|, limit)
      && Skip(page, limit) <= i < Skip(page, limit) + limit
      && PageSlice(items, Skip(page, limit), limit)[i - Skip(page, limit)] == items[i]
  {
    var page := i / limit + 1;
    var skip := Skip(page, limit);
    assert skip == (i / limit) * limit;
    assert skip <= i < skip + limit;
  }

  /** A page past `totalPages` is empty. */
  lemma PagesPastTheEndAreEmpty<T>(items: seq<T>, page: int, limit: int)
    requires limit >= 1 && page > TotalPages(|items|, limit)
    ensures PageSlice(items, Skip(page, limit), limit) == []
  {
    MulMonotone(TotalPages(|items|, limit), page - 1, limit);
  }
}
