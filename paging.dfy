/** Client-side pagination as both list views do it: `Math.ceil(n / perPage)`
    pages, page p shows `items.slice((p - 1) * perPage, (p - 1) * perPage + perPage)`,
    and the Previous/Next buttons clamp the page with `Math.max` / `Math.min`. */
module Paging {
  import opened Js

  /** `Math.ceil(n / perPage)`. */
  function TotalPages(n: nat, perPage: nat): (t: nat)
    requires perPage > 0
    ensures t * perPage >= n
    ensures t > 0 ==> (t - 1) * perPage < n
  {
    (n + perPage - 1) / perPage
  }

  /** The index of the first item on page p. */
  function StartIndex(page: int, perPage: nat): (s: int)
    ensures page >= 1 ==> s >= 0
  {
    if page >= 1 then MulMonotone(0, page - 1, perPage); (page - 1) * perPage
    else (page - 1) * perPage
  }

  /** The items visible on page p. */
  function PageOf<T>(items: seq<T>, page: int, perPage: nat): (r: seq<T>)
    ensures |r| <= perPage
    ensures page >= 1 ==>
      r == items[Min(StartIndex(page, perPage), |items|)..Min(StartIndex(page, perPage) + perPage, |items|)]
  {
    Slice(items, StartIndex(page, perPage), StartIndex(page, perPage) + perPage)
  }

  /** A page past the last one is empty. */
  lemma PagePastEndIsEmpty<T>(items: seq<T>, page: int, perPage: nat)
    requires perPage > 0 && page > TotalPages(|items|, perPage)
    ensures PageOf(items, page, perPage) == []
  {
    var t := TotalPages(|items|, perPage);
    assert page - 1 >= t;
    MulMonotone(t, page - 1, perPage);
  }

  lemma MulMonotone(a: nat, b: nat, k: nat)
    requires a <= b
    ensures a * k <= b * k
  {
  }

  /** Every item is shown exactly where pagination puts it: item i is entry
      i % perPage of page i / perPage + 1, and that page exists. */
  lemma {:induction false} ItemOnItsPage<T>(items: seq<T>, i: nat, perPage: nat)
    requires perPage > 0 && i < |items|
    ensures 1 <= i / perPage + 1 <= TotalPages(|items|, perPage)
    ensures i % perPage < |PageOf(items, i / perPage + 1, perPage)|
    ensures PageOf(items, i / perPage + 1, perPage)[i % perPage] == items[i]
  {
    var p := i / perPage + 1;
    var q, r := i / perPage, i % perPage;
    assert i == q * perPage + r;
    assert StartIndex(p, perPage) == q * perPage;
    var t := TotalPages(|items|, perPage);
    if t < p {
      MulMonotone(t, q, perPage);
      assert false;
    }
  }

  /** The Previous button: `Math.max(1, currentPage - 1)`. */
  function Previous(currentPage: int): (p: int)
    ensures p >= 1
    ensures currentPage > 1 ==> p == currentPage - 1
    ensures currentPage <= 1 ==> p == 1
  {
    Max(1, currentPage - 1)
  }

  /** The Next button: `Math.min(totalPages, currentPage + 1)`. */
  function Next(currentPage: int, totalPages: nat): (p: int)
    ensures p <= totalPages
    ensures currentPage < totalPages ==> p == currentPage + 1
    ensures currentPage >= totalPages ==> p == totalPages
  {
    Min(totalPages, currentPage + 1)
  }

  /** Both buttons keep a page that is in range in range. */
  lemma NavigationStaysInRange(currentPage: int, totalPages: nat)
    requires 1 <= currentPage <= totalPages
    ensures 1 <= Previous(currentPage) <= totalPages
    ensures 1 <= Next(currentPage, totalPages) <= totalPages
  {
  }

  /** The pagination bar is rendered only when there is more than one page. */
  predicate ControlsVisible(totalPages: nat)
  {
    totalPages > 1
  }

  predicate PreviousDisabled(currentPage: int)
  {
    currentPage == 1
  }

  predicate NextDisabled(currentPage: int, totalPages: nat)
  {
    currentPage == totalPages
  }
}
