/** `get_page`: a feed is cut into 1-indexed windows of `ElementQuantity`
    posts by a paginator with no orphans and an allowed empty first page;
    a missing or unreadable page number gives the first page and a number
    out of range gives the last one. */
module Pagination {
  import opened Common

  /** Posts per page (`ELEMENT_QUANTITY`). */
  const ElementQuantity: nat := 10

  /** The paginator's `orphans` setting, left at its default. */
  const Orphans: nat := 0

  /** The `page` query parameter as the request carries it. */
  datatype PageRequest = Absent | NotInteger | Number(n: int)

  /** A materialized page: its posts, its own number and the page count. */
  datatype Page<T> = Page(objectList: seq<T>, number: nat, numPages: nat) {
    predicate HasNext() { number < numPages }
    predicate HasPrevious() { number > 1 }
  }

  /** Number of pages for `count` items: the least page count whose pages
      hold them all, and never zero (an empty list still has one page). */
  function NumPages(count: nat): (r: nat)
    ensures 1 <= r
    ensures count <= r * ElementQuantity
    ensures r == 1 || (r - 1) * ElementQuantity < count
  {
    var hits := if count >= Orphans + 1 then count - Orphans else 1;
    (hits + ElementQuantity - 1) / ElementQuantity
  }

  /** The page number `get_page` settles on. */
  function ResolvePageNumber(req: PageRequest, count: nat): (r: nat)
    ensures 1 <= r <= NumPages(count)
    ensures req.Number? && 1 <= req.n <= NumPages(count) ==> r == req.n
    ensures req.Number? && (req.n < 1 || req.n > NumPages(count)) ==> r == NumPages(count)
    ensures !req.Number? ==> r == 1
  {
    match req
    case Absent => 1
    case NotInteger => 1
    case Number(n) =>
      if n < 1 then NumPages(count)
      else if n > NumPages(count) then NumPages(count)
      else n
  }

  /** The items on page `number`: the window starting at
      `(number - 1) * ElementQuantity`, cut short at the end of the list. */
  function PageAt<T>(items: seq<T>, number: nat): (r: seq<T>)
    requires 1 <= number <= NumPages(|items|)
    ensures |r| == Min(ElementQuantity, |items| - (number - 1) * ElementQuantity)
    ensures forall j :: 0 <= j < |r| ==> r[j] == items[(number - 1) * ElementQuantity + j]
    ensures |items| > 0 ==> |r| > 0
  {
    var bottom := (number - 1) * ElementQuantity;
    var top := bottom + ElementQuantity;
    var end := if top + Orphans >= |items| then |items| else top;
    items[bottom..end]
  }

  /** `get_page(posts, request)`. */
  function GetPage<T(==,!new)>(items: seq<T>, req: PageRequest): (r: Page<T>)
    ensures r.numPages == NumPages(|items|)
    ensures r.number == ResolvePageNumber(req, |items|)
    ensures 1 <= r.number <= r.numPages
    ensures |r.objectList| <= ElementQuantity
    ensures r.number < r.numPages ==> |r.objectList| == ElementQuantity
    ensures forall x :: x in r.objectList ==> x in items
    ensures r.objectList == PageAt(items, r.number)
  {
    var number := ResolvePageNumber(req, |items|);
    Page(PageAt(items, number), number, NumPages(|items|))
  }

  /** Thirteen items make two pages: ten on the first, three on the second;
      a page past the end, or below one, shows the second again, and a
      missing number shows the first. */
  lemma ThirteenItems<T(!new)>(items: seq<T>)
    requires |items| == 13
    ensures NumPages(|items|) == 2
    ensures |GetPage(items, Number(1)).objectList| == 10
    ensures |GetPage(items, Number(2)).objectList| == 3
    ensures GetPage(items, Number(2)).objectList == items[10..]
    ensures GetPage(items, Number(1)).HasNext() && !GetPage(items, Number(2)).HasNext()
    ensures GetPage(items, Number(3)) == GetPage(items, Number(2))
    ensures GetPage(items, Number(0)) == GetPage(items, Number(2))
    ensures GetPage(items, Absent) == GetPage(items, Number(1))
  {
  }

  /** Item `i` of a list sits at position `i % ElementQuantity` of page
      `i / ElementQuantity + 1`, so every item can be reached by paging. */
  lemma ItemOnPage<T(!new)>(items: seq<T>, i: nat)
    requires i < |items|
    ensures 1 <= i / ElementQuantity + 1 <= NumPages(|items|)
    ensures i % ElementQuantity < |GetPage(items, Number(i / ElementQuantity + 1)).objectList|
    ensures GetPage(items, Number(i / ElementQuantity + 1)).objectList[i % ElementQuantity] == items[i]
  {
  }

  /** Pages `p`, `p + 1`, ... up to the last one, laid end to end. */
  function PagesFrom<T>(items: seq<T>, p: nat): seq<T>
    requires 1 <= p
    decreases NumPages(|items|) + 1 - p
  {
    if p > NumPages(|items|) then []
    else PageAt(items, p) + PagesFrom(items, p + 1)
  }

  lemma {:induction false} PagesFromSuffix<T>(items: seq<T>, p: nat)
    requires 1 <= p <= NumPages(|items|) + 1
    ensures (p - 1) * ElementQuantity <= |items| || p == NumPages(|items|) + 1
    ensures PagesFrom(items, p) == items[Min((p - 1) * ElementQuantity, |items|)..]
    decreases NumPages(|items|) + 1 - p
  {
    var n := NumPages(|items|);
    if p > n {
      assert (p - 1) * ElementQuantity >= |items|;
    } else {
      var lo := (p - 1) * ElementQuantity;
      var page := PageAt(items, p);
      PagesFromSuffix(items, p + 1);
      var hi := Min(p * ElementQuantity, |items|);
      assert lo <= |items|;
      assert |page| == hi - lo;
      assert page == items[lo..hi];
      assert items[lo..] == items[lo..hi] + items[hi..];
    }
  }

  /** Paging through every page returns the whole list, once and in order:
      the pages partition it. */
  lemma PagesCoverList<T>(items: seq<T>)
    ensures PagesFrom(items, 1) == items
  {
    PagesFromSuffix(items, 1);
  }
}
