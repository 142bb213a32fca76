/** `PaginationView` of Cogs/LeagueCog.py: a list shown a page at a time,
    with a previous and a next button whose disabled flags follow the page. */
module Pagination {
  import opened LeagueTypes

  /** `(n + perPage - 1) // perPage`: the number of pages of `n` items. */
  function PageCount(n: nat, perPage: nat): (r: nat)
    requires perPage > 0
  {
    (n + perPage - 1) / perPage
  }

  /** The page count is the least number of pages that holds every item. */
  lemma PageCountIsCeiling(n: nat, perPage: nat)
    requires perPage > 0
    ensures PageCount(n, perPage) * perPage >= n
    ensures n > 0 ==> (PageCount(n, perPage) - 1) * perPage < n
    ensures PageCount(n, perPage) == 0 <==> n == 0
  {
    var c := PageCount(n, perPage);
    assert c * perPage <= n + perPage - 1 < (c + 1) * perPage;
  }

  /** There is at most one page exactly when the items fit on one. */
  lemma SinglePage(n: nat, perPage: nat)
    requires perPage > 0
    ensures PageCount(n, perPage) <= 1 <==> n <= perPage
  {
    var c := PageCount(n, perPage);
    PageCountIsCeiling(n, perPage);
    if c >= 2 {
      MulMonotone(1, c - 1, perPage);
    } else {
      MulMonotone(c, 1, perPage);
    }
  }

  lemma MulMonotone(a: nat, b: nat, k: nat)
    requires a <= b
    ensures a * k <= b * k
  {
  }

  /** Python's `items[start:end]` for `0 <= start <= end`: the part of the
      list between the two bounds, clipped to its length. */
  function Slice<T>(items: seq<T>, start: nat, end: nat): (r: seq<T>)
    requires start <= end
    ensures |r| <= end - start
    ensures start < end && start < |items| ==> |r| > 0
    ensures r == [] || start + |r| <= |items|
    ensures forall k :: 0 <= k < |r| ==> r[k] == items[start + k]
  {
    if start >= |items| then [] else items[start..if end <= |items| then end else |items|]
  }

  /** The items of page `p` (counted from 0). */
  function Page<T>(items: seq<T>, perPage: nat, p: nat): seq<T>
    requires perPage > 0
  {
    Slice(items, p * perPage, p * perPage + perPage)
  }

  /** Pages `0 .. p-1` one after the other. */
  function FirstPages<T>(items: seq<T>, perPage: nat, p: nat): seq<T>
    requires perPage > 0
    decreases p
  {
    if p == 0 then [] else FirstPages(items, perPage, p - 1) + Page(items, perPage, p - 1)
  }

  /** The first `p` pages are the first `p * perPage` items. */
  lemma {:induction false} FirstPagesPrefix<T>(items: seq<T>, perPage: nat, p: nat)
    requires perPage > 0
    ensures FirstPages(items, perPage, p) == items[..if p * perPage <= |items| then p * perPage else |items|]
    decreases p
  {
    if p > 0 {
      FirstPagesPrefix(items, perPage, p - 1);
      var start := (p - 1) * perPage;
      assert start + perPage == p * perPage;
      if start < |items| {
        var end := if p * perPage <= |items| then p * perPage else |items|;
        assert items[..start] + items[start..end] == items[..end];
      }
    }
  }

  /** Paging neither loses, repeats nor reorders an item: the pages, in
      order, are exactly the list. */
  lemma PagesCoverItems<T>(items: seq<T>, perPage: nat)
    requires perPage > 0
    ensures FirstPages(items, perPage, PageCount(|items|, perPage)) == items
    ensures forall p :: 0 <= p < PageCount(|items|, perPage) ==> 0 < |Page(items, perPage, p)| <= perPage
  {
    PageCountIsCeiling(|items|, perPage);
    FirstPagesPrefix(items, perPage, PageCount(|items|, perPage));
    forall p | 0 <= p < PageCount(|items|, perPage)
      ensures 0 < |Page(items, perPage, p)| <= perPage
    {
      MulMonotone(p, PageCount(|items|, perPage) - 1, perPage);
    }
  }

  class PaginationView<T> {
    var players: seq<T>
    var itemsPerPage: nat
    var currentPage: nat
    var totalPages: nat
    var prevDisabled: bool
    var nextDisabled: bool

    /** The page is within range, the page count matches the list, and the
        buttons are disabled exactly at the ends. */
    ghost predicate Valid()
      reads this
    {
      && itemsPerPage > 0
      && totalPages == PageCount(|players|, itemsPerPage)
      && (totalPages == 0 ==> currentPage == 0)
      && (totalPages > 0 ==> currentPage < totalPages)
      && prevDisabled == (currentPage == 0)
      && nextDisabled == (currentPage + 1 >= totalPages)
    }

    /** `__init__`: the first page, with the previous button disabled. */
    constructor (players: seq<T>, itemsPerPage: nat)
      requires itemsPerPage > 0
      ensures Valid()
      ensures this.players == players && this.itemsPerPage == itemsPerPage
      ensures currentPage == 0 && prevDisabled
      ensures nextDisabled <==> |players| <= itemsPerPage
    {
      this.players := players;
      this.itemsPerPage := itemsPerPage;
      currentPage := 0;
      totalPages := (|players| + itemsPerPage - 1) / itemsPerPage;
      new;
      prevDisabled := currentPage == 0;
      nextDisabled := currentPage + 1 >= totalPages;
      SinglePage(|players|, itemsPerPage);
    }

    /** The items `update_embed` shows. */
    function PageItems(): (r: seq<T>)
      reads this
      requires Valid()
      ensures r == Page(players, itemsPerPage, currentPage)
      ensures |r| <= itemsPerPage
      ensures r == [] <==> players == []
    {
      PageCountIsCeiling(|players|, itemsPerPage);
      if players != [] then
        MulMonotone(currentPage, totalPages - 1, itemsPerPage);
        assert currentPage * itemsPerPage < |players|;
        Slice(players, currentPage * itemsPerPage, currentPage * itemsPerPage + itemsPerPage)
      else
        []
    }

    /** The footer `Página {current + 1} de {total}` of a non-empty page:
        the current page counted from 1, and the page count, the first never
        above the second. */
    function Footer(): (r: Option<(nat, nat)>)
      reads this
      requires Valid()
      ensures r.None? <==> players == []
      ensures r.Some? ==> r.value == (currentPage + 1, totalPages)
      ensures r.Some? ==> 1 <= r.value.0 <= r.value.1
    {
      PageCountIsCeiling(|players|, itemsPerPage);
      if PageItems() == [] then None else Some((currentPage + 1, totalPages))
    }

    /** The previous button: one page back unless on the first page. */
    method Prev()
      requires Valid()
      modifies this`currentPage, this`prevDisabled, this`nextDisabled
      ensures Valid()
      ensures currentPage == if old(currentPage) > 0 then old(currentPage) - 1 else old(currentPage)
    {
      if currentPage > 0 {
        currentPage := currentPage - 1;
        prevDisabled := currentPage == 0;
        nextDisabled := currentPage + 1 >= totalPages;
      }
    }

    /** The next button: one page on unless on the last page. */
    method Next()
      requires Valid()
      modifies this`currentPage, this`prevDisabled, this`nextDisabled
      ensures Valid()
      ensures currentPage == if old(currentPage) + 1 < totalPages then old(currentPage) + 1 else old(currentPage)
    {
      if currentPage + 1 < totalPages {
        currentPage := currentPage + 1;
        prevDisabled := currentPage == 0;
        nextDisabled := currentPage + 1 >= totalPages;
      }
    }
  }
}
