/**
 The paginated table: ten rows per page, previous/next buttons clamped to
 the page range, and the text shown for each cell.
 */
module DataTable {
  import opened Basics
  import opened JsValues

  const RowsPerPage: nat := 10

  /** `Math.ceil(data.length / rowsPerPage)`: the fewest pages that hold every row. */
  function TotalPages(n: nat): (t: nat)
    ensures t * RowsPerPage >= n
    ensures t == 0 || (t - 1) * RowsPerPage < n
  {
    (n + RowsPerPage - 1) / RowsPerPage
  }

  function StartIndex(page: int): int {
    page * RowsPerPage
  }

  function EndIndex(page: int, n: nat): int {
    Min(StartIndex(page) + RowsPerPage, n)
  }

  /**
   `Array.prototype.slice(start, end)`: a negative position counts back from
   the end, positions are clamped to the array, and a range that ends before
   it starts is empty.
   */
  function JsSlice<T>(s: seq<T>, start: int, end: int): (r: seq<T>)
    ensures 0 <= start <= end <= |s| ==> r == s[start..end]
    ensures 0 <= end <= start ==> r == []
    ensures |s| <= start ==> r == []
    ensures 0 <= start <= |s| <= end ==> r == s[start..]
    ensures -|s| <= start < 0 && |s| + start <= end <= |s| ==> r == s[|s| + start..end]
    ensures start < -|s| && 0 <= end <= |s| ==> r == s[..end]
    ensures 0 <= start && -|s| <= end < 0 && start <= |s| + end ==> r == s[start..|s| + end]
    ensures end <= -|s| ==> r == []
    ensures -|s| <= start < 0 && -|s| <= end < 0 ==> r == (if start < end then s[|s| + start..|s| + end] else [])
    ensures start < 0 && |s| <= end ==> r == s[Max(|s| + start, 0)..]
    ensures 0 <= start && -|s| <= end < 0 && |s| + end < start ==> r == []
    ensures start < -|s| && -|s| <= end < 0 ==> r == s[..|s| + end]
    ensures -|s| <= start < 0 && 0 <= end < |s| + start ==> r == []
    ensures |r| <= |s|
  {
    var from := if start < 0 then Max(|s| + start, 0) else Min(start, |s|);
    var to := if end < 0 then Max(|s| + end, 0) else Min(end, |s|);
    if from < to then s[from..to] else []
  }

  /** `currentData`: the rows shown on a page. Never more than ten, whatever the page number. */
  function PageRows<T>(data: seq<T>, page: int): (r: seq<T>)
    ensures |r| <= RowsPerPage
  {
    JsSlice(data, StartIndex(page), EndIndex(page, |data|))
  }

  function NextPage(page: int, totalPages: nat): int {
    Min(page + 1, totalPages - 1)
  }

  function PreviousPage(page: int): int {
    Max(page - 1, 0)
  }

  /** The pager bar is rendered only when there is more than one page. */
  predicate ShowsNavigation(totalPages: nat) {
    totalPages > 1
  }

  predicate PreviousDisabled(page: int) {
    page == 0
  }

  predicate NextDisabled(page: int, totalPages: nat) {
    page == totalPages - 1
  }

  /** A page in range shows rows `10p` up to `min(10p + 10, n)`: between one and ten rows, matching the "Showing a to b of n" line. */
  lemma PageInRange<T>(data: seq<T>, page: int)
    requires 0 <= page < TotalPages(|data|)
    ensures 0 <= StartIndex(page) < EndIndex(page, |data|) <= |data|
    ensures PageRows(data, page) == data[StartIndex(page)..EndIndex(page, |data|)]
    ensures 1 <= |PageRows(data, page)| == EndIndex(page, |data|) - StartIndex(page) <= RowsPerPage
  {
  }

  /** A page past the end, as left behind when a smaller dataset replaces a larger one, shows no rows. */
  lemma PagePastEndIsEmpty<T>(data: seq<T>, page: int)
    requires page >= TotalPages(|data|)
    ensures PageRows(data, page) == []
  {
  }

  /** The rows of pages `0 .. k-1`, in page order. */
  function Pages<T>(data: seq<T>, k: nat): seq<T>
    decreases k
  {
    if k == 0 then [] else Pages(data, k - 1) + PageRows(data, k - 1)
  }

  lemma {:induction false} PagesArePrefix<T>(data: seq<T>, k: nat)
    requires k <= TotalPages(|data|)
    ensures Pages(data, k) == data[..Min(k * RowsPerPage, |data|)]
    decreases k
  {
    if k > 0 {
      PagesArePrefix(data, k - 1);
      PageInRange(data, k - 1);
      assert data[..Min(k * RowsPerPage, |data|)]
          == data[..Min((k - 1) * RowsPerPage, |data|)] + data[StartIndex(k - 1)..EndIndex(k - 1, |data|)];
    }
  }

  /** Paging loses and repeats nothing: the pages, concatenated in order, are the dataset. */
  lemma PagesReassembleData<T>(data: seq<T>)
    ensures Pages(data, TotalPages(|data|)) == data
  {
    PagesArePrefix(data, TotalPages(|data|));
    assert data[..|data|] == data;
  }

  /** The pager bar appears exactly when there are more than ten rows. */
  lemma NavigationIffMoreThanOnePage(n: nat)
    ensures ShowsNavigation(TotalPages(n)) <==> n > RowsPerPage
  {
  }

  /**
   The current page is kept when new data arrives. A page that was valid
   for a larger dataset can lie past the end of a dataset of at most ten
   rows: it shows no rows, and no pager is rendered to leave it.
   */
  lemma StrandedPage<T>(data: seq<T>, page: int)
    requires page >= 1 && |data| <= RowsPerPage
    ensures PageRows(data, page) == []
    ensures !ShowsNavigation(TotalPages(|data|))
  {
  }

  /** From a page in range, both buttons lead to a page in range. */
  lemma NavigationStaysInRange(page: int, totalPages: nat)
    requires 0 <= page < totalPages
    ensures 0 <= NextPage(page, totalPages) < totalPages
    ensures 0 <= PreviousPage(page) < totalPages
    ensures NextPage(page, totalPages) == page || NextPage(page, totalPages) == page + 1
    ensures PreviousPage(page) == page || PreviousPage(page) == page - 1
  {
  }

  /** On a page in range, a button is disabled exactly when pressing it would not move. */
  lemma DisabledExactlyWhenStuck(page: int, totalPages: nat)
    requires 0 <= page < totalPages
    ensures PreviousDisabled(page) <==> PreviousPage(page) == page
    ensures NextDisabled(page, totalPages) <==> NextPage(page, totalPages) == page
  {
  }

  /**
   The text of one table cell: `''` for `undefined`, otherwise
   `row[column].toString()`. On `null` that call throws a TypeError, shown
   here as `None`.
   */
  function RenderCell(h: Host, c: Cell): (r: Option<string>)
    ensures r.None? <==> c.Null?
    ensures c.Absent? ==> r == Some("")
    ensures !c.Absent? && !c.Null? ==> r == Some(ToText(h, c))
  {
    match c
    case Absent => Some("")
    case Null => None
    case _ => Some(ToText(h, c))
  }
}
