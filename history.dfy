/**
 * The History tab (tabs/history.py): a searchable, paginated gallery of the
 * saved label images, kept in the session between renders.
 */
module History {
  import opened Text
  import opened Wrappers
  import opened PrintCalls

  /** A saved image is shown when its lower-cased base name contains the lower-cased query. */
  predicate Matches(image: string, query: string)
  {
    Contains(Lower(Basename(image)), Lower(query))
  }

  /** The list comprehension that filters the gallery by the search box. */
  function FilterImages(images: seq<string>, query: string): (shown: seq<string>)
    ensures |shown| <= |images|
  {
    if |images| == 0 then []
    else (if Matches(images[0], query) then [images[0]] else []) + FilterImages(images[1..], query)
  }

  /** The filtered list holds exactly the matching images. */
  lemma {:induction false} FilterImagesSpec(images: seq<string>, query: string)
    ensures forall x :: x in FilterImages(images, query) <==> x in images && Matches(x, query)
  {
    if |images| > 0 {
      FilterImagesSpec(images[1..], query);
      assert images == [images[0]] + images[1..];
    }
  }

  /** Filtering a concatenation filters each part: the original order is kept. */
  lemma {:induction false} FilterImagesAppend(a: seq<string>, b: seq<string>, query: string)
    ensures FilterImages(a + b, query) == FilterImages(a, query) + FilterImages(b, query)
  {
    if |a| > 0 {
      assert (a + b)[1..] == a[1..] + b;
      FilterImagesAppend(a[1..], b, query);
    } else {
      assert a + b == b;
    }
  }

  /** The empty search keeps every image. */
  lemma {:induction false} EmptyQueryKeepsAll(images: seq<string>)
    ensures FilterImages(images, "") == images
  {
    if |images| > 0 {
      EmptyQueryKeepsAll(images[1..]);
      assert Lower(Basename(images[0]))[..0] == "";
    }
  }

  /** `max((n - 1) // k + 1, 1)`: the number of pages for `n` images, `k` per page. */
  function TotalPages(n: nat, k: nat): (pages: int)
    requires k > 0
    ensures pages >= 1
  {
    var t := (n - 1) / k + 1;
    if t > 1 then t else 1
  }

  /** One page for no images, otherwise the ceiling of `n / k`. */
  lemma TotalPagesSpec(n: nat, k: nat)
    requires k > 0
    ensures n == 0 ==> TotalPages(n, k) == 1
    ensures n > 0 ==> (TotalPages(n, k) - 1) * k < n <= TotalPages(n, k) * k
  {
    if n > 0 {
      var q := (n - 1) / k;
      assert q * k <= n - 1 < q * k + k;
      assert (q + 1) * k == q * k + k;
    }
  }

  function Min(a: int, b: int): int
  {
    if a < b then a else b
  }

  /** `images[start_idx:end_idx]` with `start_idx = page * k` and `end_idx = min(start_idx + k, n)`. */
  function PageSlice(images: seq<string>, page: nat, k: nat): (slice: seq<string>)
    ensures |slice| <= k
  {
    var start := page * k;
    var end := Min(start + k, |images|);
    if start < end then images[start..end] else []
  }

  /** Item `j` of page `page` is image `page * k + j`, and the page never reaches past the list. */
  lemma PageSliceSpec(images: seq<string>, page: nat, k: nat)
    ensures page * k + |PageSlice(images, page, k)| <= |images| || |PageSlice(images, page, k)| == 0
    ensures forall j :: 0 <= j < |PageSlice(images, page, k)| ==>
      page * k + j < |images| && PageSlice(images, page, k)[j] == images[page * k + j]
  {
  }

  /** Every image appears on page `i / k`, at position `i % k`. */
  lemma PageOfIndex(images: seq<string>, i: nat, k: nat)
    requires k > 0 && i < |images|
    ensures i % k < |PageSlice(images, i / k, k)|
    ensures PageSlice(images, i / k, k)[i % k] == images[i]
  {
    var p := i / k;
    assert p * k + i % k == i;
    PageSliceSpec(images, p, k);
  }

  /** A page within range shows at least one image when there is one to show. */
  lemma PageNotEmpty(images: seq<string>, page: nat, k: nat)
    requires k > 0 && |images| > 0 && page < TotalPages(|images|, k)
    ensures |PageSlice(images, page, k)| > 0
  {
    var t := TotalPages(|images|, k);
    TotalPagesSpec(|images|, k);
    MulMonotone(page, t - 1, k);
    var start := page * k;
    assert start < |images|;
    assert start < Min(start + k, |images|);
  }

  lemma MulMonotone(a: nat, b: int, k: nat)
    requires a <= b
    ensures a * k <= b * k
  {
    assert b * k - a * k == (b - a) * k;
  }

  /** What the session keeps between renders. */
  datatype Gallery = Gallery(images: seq<string>, page: nat, filterDuplicates: bool)

  /** The Previous button: disabled at page 0, otherwise one page back. */
  function PreviousPage(g: Gallery): Gallery
  {
    if g.page <= 0 then g else g.(page := g.page - 1)
  }

  /** The Next button: disabled on the last page of the filtered list, otherwise one page on. */
  function NextPage(g: Gallery, query: string, k: nat): Gallery
    requires k > 0
  {
    if g.page >= TotalPages(|FilterImages(g.images, query)|, k) - 1 then g
    else g.(page := g.page + 1)
  }

  /** The Refresh button: reload with the current duplicate setting and go back to page 0. */
  function RefreshGallery(g: Gallery, list: bool -> seq<string>): Gallery
  {
    Gallery(list(g.filterDuplicates), 0, g.filterDuplicates)
  }

  /**
   * The duplicate checkbox as written: the new value is stored in the
   * session first, so the later comparison with the session never differs
   * and the list is not reloaded.
   */
  function ToggleFilterAsWritten(g: Gallery, checked: bool, list: bool -> seq<string>): Gallery
  {
    var stored := g.(filterDuplicates := checked);
    if checked != stored.filterDuplicates then Gallery(list(checked), 0, checked)
    else stored
  }

  /** The duplicate checkbox as intended: a change reloads the list and goes back to page 0. */
  function ToggleFilter(g: Gallery, checked: bool, list: bool -> seq<string>): Gallery
  {
    if checked != g.filterDuplicates then Gallery(list(checked), 0, checked)
    else g
  }

  /** The reload on a changed checkbox can never run: the shown list stays stale. */
  lemma ToggleFilterStale(g: Gallery, checked: bool, list: bool -> seq<string>)
    requires checked != g.filterDuplicates && list(checked) != g.images
    ensures ToggleFilterAsWritten(g, checked, list).images == g.images
    ensures ToggleFilterAsWritten(g, checked, list).images != list(checked)
    ensures ToggleFilter(g, checked, list).images == list(checked)
    ensures ToggleFilter(g, checked, list).page == 0
  {
  }

  /** A concrete case: switching duplicates off still shows the deduplicated list. */
  lemma ToggleFilterExample()
    ensures var list := (f: bool) => if f then ["a.png"] else ["a.png", "b.png"];
      var g := Gallery(["a.png"], 0, true);
      ToggleFilterAsWritten(g, false, list).images == ["a.png"] &&
      ToggleFilter(g, false, list).images == ["a.png", "b.png"]
  {
  }

  /** The page is one of the pages of the list filtered by `query`. */
  predicate PageInRange(g: Gallery, query: string, k: nat)
    requires k > 0
  {
    g.page < TotalPages(|FilterImages(g.images, query)|, k)
  }

  /** Previous and Next keep the page within range; Refresh and the checkbox restore it. */
  lemma PageInRangeKept(g: Gallery, query: string, k: nat, checked: bool, list: bool -> seq<string>)
    requires k > 0
    ensures PageInRange(g, query, k) ==> PageInRange(PreviousPage(g), query, k)
    ensures PageInRange(g, query, k) ==> PageInRange(NextPage(g, query, k), query, k)
    ensures PageInRange(RefreshGallery(g, list), query, k)
    ensures PageInRange(g, query, k) ==> PageInRange(ToggleFilter(g, checked, list), query, k)
  {
  }

  /** A click moves by exactly one page, and only when its button is enabled. */
  lemma ClicksMoveByOne(g: Gallery, query: string, k: nat)
    requires k > 0
    ensures PreviousPage(g).page == g.page - 1 <==> g.page > 0
    ensures PreviousPage(g).page == g.page <==> g.page == 0
    ensures NextPage(g, query, k).page == g.page + 1 <==>
      g.page < TotalPages(|FilterImages(g.images, query)|, k) - 1
    ensures NextPage(g, query, k).page == g.page <==>
      g.page >= TotalPages(|FilterImages(g.images, query)|, k) - 1
    ensures PreviousPage(g).images == g.images && NextPage(g, query, k).images == g.images
  {
  }

  /** The gallery's session state, updated in place by the tab's buttons. */
  class HistorySession {
    var images: seq<string>
    var page: nat
    var filterDuplicates: bool

    function State(): Gallery
      reads this
    {
      Gallery(images, page, filterDuplicates)
    }

    /** First render: the default listing (duplicates filtered), page 0. */
    constructor (list: bool -> seq<string>)
      ensures State() == Gallery(list(true), 0, true)
    {
      images := list(true);
      page := 0;
      filterDuplicates := true;
    }

    method Previous()
      modifies this
      ensures State() == PreviousPage(old(State()))
    {
      if page > 0 {
        page := page - 1;
      }
    }

    method Next(query: string, itemsPerPage: nat)
      requires itemsPerPage > 0
      modifies this
      ensures State() == NextPage(old(State()), query, itemsPerPage)
    {
      var total := TotalPages(|FilterImages(images, query)|, itemsPerPage);
      if page < total - 1 {
        page := page + 1;
      }
    }

    method Refresh(list: bool -> seq<string>)
      modifies this
      ensures State() == RefreshGallery(old(State()), list)
    {
      images := list(filterDuplicates);
      page := 0;
    }

    method SetFilter(checked: bool, list: bool -> seq<string>)
      modifies this
      ensures State() == ToggleFilter(old(State()), checked, list)
    {
      if checked != filterDuplicates {
        images := list(checked);
        page := 0;
        filterDuplicates := checked;
      }
    }
  }

  /** The grid: cell `t` of the page shows image `t` in column `t % 3`. */
  function Grid(count: nat): (cells: seq<(nat, nat)>)
    ensures |cells| == count
  {
    seq(count, t requires 0 <= t < count => (t, t % 3))
  }

  /** Rows of three columns, skipping the empty cells of the last row. */
  method GridCells(count: nat) returns (cells: seq<(nat, nat)>)
    ensures cells == Grid(count)
  {
    cells := [];
    var i := 0;
    while i < count
      invariant i % 3 == 0
      invariant i <= count + 2
      invariant cells == Grid(Min(i, count))
      decreases count - i
    {
      for j := 0 to 3
        invariant cells == Grid(Min(i + j, count))
      {
        var idx := i + j;
        if idx < count {
          cells := cells + [(idx, j)];
        }
      }
      i := i + 3;
    }
  }

  /** The grid visits each index of the page exactly once, in order. */
  lemma GridVisitsOnce(count: nat)
    ensures forall t :: 0 <= t < count ==> Grid(count)[t].0 == t && Grid(count)[t].1 < 3
  {
  }

  /** A gallery print: the grayscale image, dithered, never rotated. */
  function GalleryPrintCall(): Result<PrintCall, string>
  {
    Bind([Picture("grayscale_image")], [("dither", BoolArg(true))])
  }

  lemma GalleryPrintCallSpec()
    ensures GalleryPrintCall() == Ok(PrintCall(Picture("grayscale_image"), IntArg(0), BoolArg(true)))
  {
    FreshKeywordsBind(Positional([Picture("grayscale_image")]), [("dither", BoolArg(true))]);
  }
}
