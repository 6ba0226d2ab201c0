/**
 * The loader's pagination: the page count, the slice shown for a page number
 * and the previous/next flags, with JavaScript's `Array.prototype.slice`
 * index rules.
 */
module Pagination {

  /** Entries per page. */
  const PageSize: nat := 24

  function Min(a: int, b: int): int { if a <= b then a else b }
  function Max(a: int, b: int): int { if a >= b then a else b }

  /**
   * How `slice` reads an index against a length: a negative index counts back
   * from the end, and the result is clamped to `[0, len]`.
   */
  function RelativeIndex(i: int, len: nat): (r: nat)
    ensures r <= len
    ensures 0 <= i ==> r == Min(i, len)
    ensures i < 0 ==> r == Max(len + i, 0)
  {
    if i < 0 then (if len + i < 0 then 0 else len + i)
    else if i < len then i
    else len
  }

  /** JavaScript's `slice` on an array: the run between the two normalised indices. */
  function JsSlice<T>(s: seq<T>, start: int, end: int): (r: seq<T>)
    ensures |r| == Max(0, RelativeIndex(end, |s|) - RelativeIndex(start, |s|))
    ensures forall i :: 0 <= i < |r| ==> r[i] == s[RelativeIndex(start, |s|) + i]
  {
    var a := RelativeIndex(start, |s|);
    var b := RelativeIndex(end, |s|);
    if a < b then s[a..b] else []
  }

  /** The number of pages: the count divided by the page size, rounded up. */
  function TotalPages(count: nat): (pages: nat)
    ensures pages * PageSize >= count
    ensures pages > 0 ==> (pages - 1) * PageSize < count
  {
    (count + PageSize - 1) / PageSize
  }

  /** `r` is the run of `s` that starts at index `a`. */
  ghost predicate IsSegmentAt<T>(r: seq<T>, s: seq<T>, a: int)
  {
    0 <= a && a + |r| <= |s| && r == s[a..a + |r|]
  }

  /**
   * The entries shown for `page`: the slice from the page's first index,
   * `(page - 1)` page sizes in, up to the next page's first index.
   */
  function Page<T>(items: seq<T>, page: int): (r: seq<T>)
    ensures |r| <= PageSize
    ensures exists a :: IsSegmentAt(r, items, a)
    ensures page >= 1 ==> IsSegmentAt(r, items, Min((page - 1) * PageSize, |items|))
    ensures page >= 1 ==> |r| == Min(PageSize, Max(0, |items| - (page - 1) * PageSize))
    ensures page >= 1 ==> (r != [] <==> page <= TotalPages(|items|))
    ensures page == 0 ==> r == []
  {
    var r := JsSlice(items, (page - 1) * PageSize, page * PageSize);
    assert IsSegmentAt(r, items, if r == [] then 0 else RelativeIndex((page - 1) * PageSize, |items|));
    r
  }

  /** Pages `1..k` laid end to end. */
  function PagesUpTo<T>(items: seq<T>, k: nat): seq<T>
  {
    if k == 0 then [] else PagesUpTo(items, k - 1) + Page(items, k)
  }

  /** The first `k` pages together are the first `k * limit` entries (or all of them). */
  lemma {:induction false} PagesUpToIsPrefix<T>(items: seq<T>, k: nat)
    ensures PagesUpTo(items, k) == items[..Min(k * PageSize, |items|)]
  {
    if k > 0 {
      PagesUpToIsPrefix(items, k - 1);
      var lo := Min((k - 1) * PageSize, |items|);
      var hi := Min(k * PageSize, |items|);
      assert Page(items, k) == items[lo..hi];
      assert items[..lo] + items[lo..hi] == items[..hi];
    }
  }

  /** Concatenating every page, first to last, gives back the whole list. */
  lemma {:induction false} AllPagesCoverList<T>(items: seq<T>)
    ensures PagesUpTo(items, TotalPages(|items|)) == items
  {
    PagesUpToIsPrefix(items, TotalPages(|items|));
  }

  /** The pagination summary the loader returns. */
  datatype PageInfo = PageInfo(currentPage: int, totalPages: nat, hasNextPage: bool, hasPrevPage: bool)

  function Paginate(count: nat, page: int): (info: PageInfo)
    ensures info.currentPage == page && info.totalPages == TotalPages(count)
    ensures info.hasNextPage <==> page < info.totalPages
    ensures info.hasPrevPage <==> page > 1
  {
    var total := TotalPages(count);
    PageInfo(page, total, page < total, page > 1)
  }

  /** For a page number from one on, "next" is offered exactly when the next page has entries. */
  lemma {:induction false} NextPageMeaning<T>(items: seq<T>, page: int)
    requires page >= 1
    ensures Paginate(|items|, page).hasNextPage <==> Page(items, page + 1) != []
  {
  }

  /**
   * "Previous" is offered exactly from page two on; while the current page is
   * within the list, the previous page is a full page.
   */
  lemma {:induction false} PrevPageMeaning<T>(items: seq<T>, page: int)
    requires page >= 1
    ensures Paginate(|items|, page).hasPrevPage <==> page - 1 >= 1
    ensures Paginate(|items|, page).hasPrevPage && page <= TotalPages(|items|) ==>
              |Page(items, page - 1)| == PageSize
  {
  }

  /**
   * The page controls are shown when there is more than one page; on a page that
   * exists, that is exactly when a previous or a next link is offered.
   */
  lemma {:induction false} ControlsShownIffLinks(count: nat, page: int)
    requires 1 <= page <= TotalPages(count)
    ensures Paginate(count, page).totalPages > 1 <==>
              Paginate(count, page).hasNextPage || Paginate(count, page).hasPrevPage
  {
  }
}
