/**
 * Slicing an ordered listing into pages of ten, as the view layer's
 * `paginator` helper does through the framework's Paginator.get_page.
 *
 * The page number comes from the `page` query parameter: None stands for a
 * missing or non-numeric parameter. Out-of-range numbers are clamped to the
 * last page, as get_page does; a listing with no items still has one (empty)
 * page.
 */
module Pagination {
  import opened Models

  /** Posts per page. */
  const NUMBER_OF_POST_ON_PAGES: nat := 10

  /** A page object: its items, its 1-based number, the page count and the item count. */
  datatype Page<T> = Page(items: seq<T>, number: nat, numPages: nat, count: nat)

  /** The number of pages: ceil(count / 10), and one page for an empty listing. */
  function NumPages(count: nat): (n: nat)
    ensures n >= 1
    ensures count == 0 ==> n == 1
    ensures count > 0 ==> (n - 1) * NUMBER_OF_POST_ON_PAGES < count <= n * NUMBER_OF_POST_ON_PAGES
  {
    if count == 0 then 1 else (count + NUMBER_OF_POST_ON_PAGES - 1) / NUMBER_OF_POST_ON_PAGES
  }

  /** The page get_page serves: 1 for a missing number, the last page for one out of range. */
  function ClampPage(count: nat, requested: Option<int>): (n: nat)
    ensures 1 <= n <= NumPages(count)
    ensures requested.None? ==> n == 1
    ensures requested.Some? && 1 <= requested.value <= NumPages(count) ==> n == requested.value
    ensures requested.Some? && !(1 <= requested.value <= NumPages(count)) ==> n == NumPages(count)
  {
    match requested
    case None => 1
    case Some(k) => if 1 <= k <= NumPages(count) then k else NumPages(count)
  }

  /** The items of page n: positions (n-1)*10 up to n*10, cut at the end of the listing. */
  function Slice<T>(list: seq<T>, n: nat): seq<T>
    requires n >= 1
  {
    list[Min((n - 1) * NUMBER_OF_POST_ON_PAGES, |list|)..Min(n * NUMBER_OF_POST_ON_PAGES, |list|)]
  }

  /** The page object for a listing and a requested page number. */
  function Paginate<T>(list: seq<T>, requested: Option<int>): (r: Page<T>)
    ensures r.count == |list| && r.numPages == NumPages(|list|)
    ensures 1 <= r.number <= r.numPages
    ensures r.number == ClampPage(|list|, requested)
    ensures |r.items| == Min(NUMBER_OF_POST_ON_PAGES, |list| - (r.number - 1) * NUMBER_OF_POST_ON_PAGES)
    ensures r.items == list[(r.number - 1) * NUMBER_OF_POST_ON_PAGES..(r.number - 1) * NUMBER_OF_POST_ON_PAGES + |r.items|]
    ensures forall x :: x in r.items ==> x in list
  {
    var n := ClampPage(|list|, requested);
    Page(Slice(list, n), n, NumPages(|list|), |list|)
  }

  /** A page keeps the order of the listing it is cut from. */
  lemma PaginatePairwise<T>(list: seq<T>, requested: Option<int>, rel: (T, T) -> bool)
    requires Pairwise(list, rel)
    ensures Pairwise(Paginate(list, requested).items, rel)
  {
    var n := ClampPage(|list|, requested);
    var items := Slice(list, n);
    assert Paginate(list, requested).items == items;
    var lo := Min((n - 1) * NUMBER_OF_POST_ON_PAGES, |list|);
    forall i, j | 0 <= i < j < |items| ensures rel(items[i], items[j]) {
      assert items[i] == list[lo + i] && items[j] == list[lo + j];
    }
  }

  /** The items of pages n, n+1, ..., up to the last page, one after the other. */
  function PagesFrom<T>(list: seq<T>, n: nat): seq<T>
    requires n >= 1
    decreases NumPages(|list|) + 1 - n
  {
    if n > NumPages(|list|) then [] else Slice(list, n) + PagesFrom(list, n + 1)
  }

  lemma {:induction false} PagesFromIsSuffix<T>(list: seq<T>, n: nat)
    requires 1 <= n
    ensures PagesFrom(list, n) == list[Min((n - 1) * NUMBER_OF_POST_ON_PAGES, |list|)..]
    decreases NumPages(|list|) + 1 - n
  {
    var lo := Min((n - 1) * NUMBER_OF_POST_ON_PAGES, |list|);
    if n <= NumPages(|list|) {
      PagesFromIsSuffix(list, n + 1);
      var hi := Min(n * NUMBER_OF_POST_ON_PAGES, |list|);
      assert (n + 1 - 1) * NUMBER_OF_POST_ON_PAGES == n * NUMBER_OF_POST_ON_PAGES;
      assert lo <= hi;
      assert list[lo..] == list[lo..hi] + list[hi..];
    } else {
      assert (n - 1) * NUMBER_OF_POST_ON_PAGES >= NumPages(|list|) * NUMBER_OF_POST_ON_PAGES >= |list|;
      assert lo == |list|;
    }
  }

  /**
   * The pages partition the listing: read one after the other they give back
   * the listing itself, in order, with nothing repeated or missing.
   */
  lemma PagesPartitionList<T>(list: seq<T>)
    ensures PagesFrom(list, 1) == list
  {
    PagesFromIsSuffix(list, 1);
  }

  /** A listing of at most ten items is a single page that holds all of it. */
  lemma ShortListIsOnePage<T>(list: seq<T>, requested: Option<int>)
    requires |list| <= NUMBER_OF_POST_ON_PAGES
    ensures Paginate(list, requested).numPages == 1 && Paginate(list, requested).number == 1
    ensures Paginate(list, requested).items == list
  {
    assert NumPages(|list|) == 1;
    assert Slice(list, 1) == list[0..|list|] == list;
  }

  /** Thirteen posts fill a first page of ten and a second, last page of three. */
  lemma ThirteenPostsSplitTenThree<T>(list: seq<T>)
    requires |list| == 13
    ensures |Paginate(list, None).items| == 10 && |Paginate(list, Some(1)).items| == 10
    ensures |Paginate(list, Some(2)).items| == 3 && Paginate(list, Some(2)).numPages == 2
  {
  }
}
