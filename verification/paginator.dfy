/**
 * Django's Paginator as the feeds use it: a fixed page size of 10, at least one page
 * even when the list is empty, and `get_page` turning a missing or non-integer page
 * number into page 1 and an out-of-range one into the last page.
 */
module Paginator {
  import opened Wrappers

  /** Every feed is built with `Paginator(post_list, 10)`. */
  const PerPage: nat := 10

  /** One page of a list: `items` is the slice shown, `objectList` the whole list paged. */
  datatype Page<T> = Page(number: nat, numPages: nat, items: seq<T>, objectList: seq<T>)

  /** `num_pages`: ceil(max(1, count) / 10). */
  function NumPages(count: nat): (n: nat)
    ensures n >= 1
    ensures (n - 1) * PerPage < count || (count == 0 && n == 1)
    ensures count <= n * PerPage
  {
    var hits := if count < 1 then 1 else count;
    (hits + PerPage - 1) / PerPage
  }

  /** `get_page`'s choice of page number; `None` is a missing or non-integer parameter. */
  function PageNumber(requested: Option<int>, numPages: nat): (n: nat)
    requires numPages >= 1
    ensures 1 <= n <= numPages
    ensures requested.Some? && 1 <= requested.value <= numPages ==> n == requested.value
  {
    match requested
    case None => 1
    case Some(k) => if 1 <= k <= numPages then k else numPages
  }

  /** The rows of page `number`: from (number - 1) * 10, at most 10 of them. */
  function PageSlice<T>(objects: seq<T>, number: nat): (r: seq<T>)
    requires 1 <= number <= NumPages(|objects|)
    ensures |r| <= PerPage
    ensures number < NumPages(|objects|) ==> |r| == PerPage
    ensures |objects| > 0 ==> |r| > 0
    ensures (number - 1) * PerPage + |r| <= |objects|
    ensures forall k :: 0 <= k < |r| ==> r[k] == objects[(number - 1) * PerPage + k]
  {
    var bottom := (number - 1) * PerPage;
    var top := if bottom + PerPage >= |objects| then |objects| else bottom + PerPage;
    objects[bottom..top]
  }

  function Paginate<T>(objects: seq<T>, requested: Option<int>): (p: Page<T>)
    ensures p.objectList == objects
    ensures p.numPages == NumPages(|objects|)
    ensures 1 <= p.number <= p.numPages
    ensures requested.None? ==> p.number == 1
    ensures requested.Some? && 1 <= requested.value <= p.numPages ==> p.number == requested.value
    ensures requested.Some? && !(1 <= requested.value <= p.numPages) ==> p.number == p.numPages
    ensures p.items == PageSlice(objects, p.number)
  {
    var n := NumPages(|objects|);
    var number := PageNumber(requested, n);
    Page(number, n, PageSlice(objects, number), objects)
  }

  /** Pages 1 to `n`, one after the other. */
  function Pages<T>(objects: seq<T>, n: nat): seq<T>
    requires n <= NumPages(|objects|)
  {
    if n == 0 then [] else Pages(objects, n - 1) + PageSlice(objects, n)
  }

  lemma {:induction false} PagesPrefix<T>(objects: seq<T>, n: nat)
    requires n <= NumPages(|objects|)
    ensures Pages(objects, n) == objects[..if n * PerPage < |objects| then n * PerPage else |objects|]
  {
    if n > 0 {
      PagesPrefix(objects, n - 1);
      var slice := PageSlice(objects, n);
      var lo := (n - 1) * PerPage;
      var hi := if n * PerPage < |objects| then n * PerPage else |objects|;
      assert lo <= |objects|;
      assert slice == objects[lo..hi];
      assert objects[..lo] + objects[lo..hi] == objects[..hi];
    }
  }

  /** The pages, read in order, give back the whole list: every row is on exactly one page. */
  lemma PagesCoverList<T>(objects: seq<T>)
    ensures Pages(objects, NumPages(|objects|)) == objects
  {
    PagesPrefix(objects, NumPages(|objects|));
  }

  /** Row `i` of the list is row `i % 10` of page `i / 10 + 1`. */
  lemma RowOnPage<T>(objects: seq<T>, i: nat)
    requires i < |objects|
    ensures 1 <= i / PerPage + 1 <= NumPages(|objects|)
    ensures i % PerPage < |PageSlice(objects, i / PerPage + 1)|
    ensures PageSlice(objects, i / PerPage + 1)[i % PerPage] == objects[i]
  {
  }
}
