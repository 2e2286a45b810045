/** Pagination arithmetic of the card list: the visible slice, the window of page
    buttons, and how Previous, Next and a page button move the window and the page. */
module Pagination {

  /** Records per page. */
  const PageSize: int := 10
  /** Page buttons per window. */
  const PaginationSize: int := 5

  /** `Math.ceil(count / pageSize)`, in integer arithmetic. */
  function TotalPages(count: nat): (t: nat)
    ensures t * PageSize >= count
    ensures t > 0 ==> (t - 1) * PageSize < count
  {
    (count + PageSize - 1) / PageSize
  }

  /** Resolves a `slice` argument against a length: a negative argument counts from the
      end, and the result is clamped to `[0, len]`. */
  function SliceIndex(len: nat, k: int): (r: nat)
    ensures r <= len
    ensures 0 <= k ==> r == if k < len then k else len
  {
    if k < 0 then (if len + k < 0 then 0 else len + k)
    else if k < len then k else len
  }

  /** `s.slice(begin, end)`: an out-of-range window yields fewer elements or none. */
  function JsSlice<T>(s: seq<T>, begin: int, end: int): (r: seq<T>)
    ensures |r| <= |s|
    ensures |r| == if SliceIndex(|s|, begin) < SliceIndex(|s|, end)
                   then SliceIndex(|s|, end) - SliceIndex(|s|, begin) else 0
    ensures forall k :: 0 <= k < |r| ==> r[k] == s[SliceIndex(|s|, begin) + k]
  {
    var from, to := SliceIndex(|s|, begin), SliceIndex(|s|, end);
    if from < to then s[from..to] else []
  }

  /** The records drawn for page `page`: `s.slice((page - 1) * pageSize, page * pageSize)`. */
  function PageSlice<T>(s: seq<T>, page: int): (r: seq<T>)
    ensures page >= 1 ==> |r| <= PageSize
    ensures page >= 1 && (page - 1) * PageSize >= |s| ==> r == []
    ensures page >= 1 && (page - 1) * PageSize < |s| ==>
              r == s[(page - 1) * PageSize .. if page * PageSize < |s| then page * PageSize else |s|]
  {
    JsSlice(s, (page - 1) * PageSize, page * PageSize)
  }

  /** The last page button of the window that starts at `start`. */
  function WindowEnd(start: int, total: int): (r: int)
    ensures r <= start + PaginationSize - 1 && r <= total
    ensures r == start + PaginationSize - 1 || r == total
  {
    if start + PaginationSize - 1 < total then start + PaginationSize - 1 else total
  }

  /** `i` is one of the page buttons drawn: the loop runs for `start <= i <= start + 4`
      while `i <= total`. */
  predicate IsDrawn(start: int, total: int, i: int) {
    start <= i <= start + PaginationSize - 1 && i <= total
  }

  /** The number of page buttons drawn for a window start and a page count. */
  function ButtonCount(start: int, total: int): (n: nat)
    ensures n <= PaginationSize
    ensures start > total ==> n == 0
    ensures forall i :: IsDrawn(start, total, i) <==> start <= i < start + n
  {
    if WindowEnd(start, total) >= start then WindowEnd(start, total) - start + 1 else 0
  }

  /** The Previous button is disabled. */
  predicate PrevDisabled(start: int) {
    start == 1
  }

  /** The Next button is disabled. */
  predicate NextDisabled(start: int, total: int) {
    start + PaginationSize > total
  }

  /** The window start after Previous: `Math.max(1, start - 1)`. */
  function PrevStart(start: int): (r: int)
    ensures r >= 1
    ensures r <= start || start < 1
    ensures start >= 1 && !PrevDisabled(start) ==> r == start - 1
  {
    if start - 1 > 1 then start - 1 else 1
  }

  /** The window start after Next, as written: `Math.min(total - paginationSize + 1, start + 1)`. */
  function NextStart(start: int, total: int): (r: int)
    ensures r <= start + 1 && r <= total - PaginationSize + 1
    ensures !NextDisabled(start, total) ==> r == start + 1 && r + PaginationSize - 1 <= total
  {
    if total - PaginationSize + 1 < start + 1 then total - PaginationSize + 1 else start + 1
  }

  /** The page both Previous and Next jump to: `(start - 1) * paginationSize + 1`. */
  function WindowPage(start: int): (page: int)
    ensures start >= 1 ==> page >= 1
  {
    (start - 1) * PaginationSize + 1
  }

  /** The page a click on button `i` selects: `(i - 1) * pageSize + 1`. */
  function ClickPage(i: int): (page: int)
    ensures i >= 1 ==> page >= 1
  {
    (i - 1) * PageSize + 1
  }

  /** Button `i` is marked active. */
  predicate IsActive(i: int, currentPage: int) {
    ClickPage(i) == currentPage
  }

  /** Different buttons select different pages, so at most one button is active. */
  lemma ActiveUnique(i: int, j: int, currentPage: int)
    requires IsActive(i, currentPage) && IsActive(j, currentPage)
    ensures i == j
  {
  }

  /** The button just clicked is the active one. */
  lemma ClickedIsActive(i: int)
    ensures IsActive(i, ClickPage(i))
    ensures forall j :: IsActive(j, ClickPage(i)) ==> j == i
  {
  }

  /** Without the disabled guard, Next's clamp goes below 1 whenever there are fewer
      pages than buttons per window ... */
  lemma NextStartBelowOne(start: int, total: int)
    requires total < PaginationSize
    ensures NextStart(start, total) < 1
  {
  }

  /** ... but then Next is always disabled, so the handler never runs with such a value. */
  lemma NextDisabledWithFewPages(start: int, total: int)
    requires start >= 1 && total < PaginationSize
    ensures NextDisabled(start, total)
  {
  }

  /** After Previous or Next lands on a window start of 2 or more, no drawn button is
      active: the page they set is not the page any button of that window selects. */
  lemma NoActiveAfterWindowMove(start: int, total: int, i: int)
    requires start >= 2 && IsDrawn(start, total, i)
    ensures !IsActive(i, WindowPage(start))
  {
  }

  /** A click on button `i` shows records from index `(i - 1) * 100`: the click stores a
      record position in the page number. */
  lemma ClickPageFirstRecord(i: int)
    ensures (ClickPage(i) - 1) * PageSize == (i - 1) * PageSize * PageSize
  {
  }
}
