/** Per-block pagination of the ticket listing: the requested start offset of
    each block is snapped to a page boundary inside the block, once when the
    listing is planned and again after a quick filter has changed the count. */
module Pagination {
  import opened Results
  import Php

  /** Where the request asked a block to start: beyond the end of the block,
      the start of its last (full or partial) page; a block with no rows
      starts at 0. */
  function LastPageStart(count: nat, perPage: int): (r: nat)
    requires perPage > 0
    ensures r % perPage == 0
    ensures count == 0 ==> r == 0
    ensures count > 0 ==> r < count <= r + perPage
  {
    var tail := if count % perPage == 0 then perPage else count % perPage;
    LastPageAligned(count, perPage);
    if count - tail < 0 then 0 else count - tail
  }

  lemma LastPageAligned(count: nat, p: int)
    requires p > 0
    ensures count % p == 0 ==> (count == 0 || count - p >= 0) && (count - p < 0 || (count - p) % p == 0)
    ensures count % p != 0 ==> (count - count % p) % p == 0 && count - count % p >= 0
  {
    if count % p == 0 {
      if count > 0 {
        PositiveMultiple(count, p);
        ModOfMultiple(count / p - 1, p);
      }
    } else {
      assert count - count % p == (count / p) * p;
      ModOfMultiple(count / p, p);
    }
  }

  /** Division by a positive divisor is determined by quotient and remainder. */
  lemma ModUnique(a: int, p: int, q: int, r: int)
    requires p > 0 && 0 <= r < p && a == q * p + r
    ensures a % p == r && a / p == q
  {
    var q0 := a / p;
    var r0 := a % p;
    assert a == q0 * p + r0;
    var d := q - q0;
    assert d * p == q * p - q0 * p by { Distribute(q, q0, p); }
    assert d * p == r0 - r;
    if d >= 1 {
      MulAtLeast(d, p);
    } else if d <= -1 {
      MulAtLeast(-d, p);
    }
  }

  lemma Distribute(x: int, y: int, p: int)
    ensures (x - y) * p == x * p - y * p
  {
  }

  lemma MulAtLeast(d: int, p: int)
    requires d >= 1 && p > 0
    ensures d * p >= p
  {
    Distribute(d, 1, p);
    assert (d - 1) * p >= 0;
  }

  lemma ModOfMultiple(q: int, p: int)
    requires p > 0
    ensures (q * p) % p == 0
  {
    ModUnique(q * p, p, q, 0);
  }

  /** A positive count divisible by the page size holds at least one full page. */
  lemma PositiveMultiple(count: nat, p: int)
    requires p > 0 && count > 0 && count % p == 0
    ensures count >= p && count - p == (count / p - 1) * p
  {
    var q := count / p;
    assert count == q * p;
    if q <= 0 {
      assert false;
    }
    assert (q - 1) * p == q * p - p;
  }

  /** The start offset a block is shown from, given the requested offset, the
      number of rows and the page size. The result is page aligned, and when the
      block has rows it is the start of the page holding the requested row,
      where a request before the first row means the first row and one past
      the last row means the last row. */
  function ClampStart(start: int, count: nat, perPage: int): (r: nat)
    requires perPage > 0
    ensures r % perPage == 0
    ensures count == 0 ==> r == 0
    ensures count > 0 ==> r < count
    ensures count > 0 ==> r <= RequestedRow(start, count) < r + perPage
  {
    if start < 0 then 0
    else if start >= count then LastPageStart(count, perPage)
    else
      assert start - start % perPage == (start / perPage) * perPage;
      ModOfMultiple(start / perPage, perPage);
      start - start % perPage
  }

  /** The row a requested offset points at once it is moved inside the block. */
  function RequestedRow(start: int, count: nat): int
    requires count > 0
  {
    if start < 0 then 0 else if start >= count then count - 1 else start
  }

  /** A page-aligned offset inside the block is kept as it is. */
  lemma ClampKeepsAlignedStart(start: int, count: nat, perPage: int)
    requires perPage > 0
    requires 0 <= start < count && start % perPage == 0
    ensures ClampStart(start, count, perPage) == start
  {
  }

  /** Snapping an already snapped offset changes nothing. */
  lemma ClampIdempotent(start: int, count: nat, perPage: int)
    requires perPage > 0
    ensures ClampStart(ClampStart(start, count, perPage), count, perPage) == ClampStart(start, count, perPage)
  {
  }

  /** Worked cases: 23 rows in pages of 10 asked to start at 25 start at 20;
      20 rows start at 10; a negative offset starts at 0. */
  lemma ClampExamples()
    ensures ClampStart(25, 23, 10) == 20
    ensures ClampStart(25, 20, 10) == 10
    ensures ClampStart(-5, 23, 10) == 0
    ensures ClampStart(17, 23, 10) == 10
  {
  }

  /** The second pass made once a quick filter has recounted a block: an
      offset at or past the new count moves to the new last page, any other
      offset is left alone. */
  function ReclampAfterFilter(start: int, filteredCount: nat, perPage: int): (r: int)
    requires perPage > 0
    ensures start >= filteredCount ==> r == LastPageStart(filteredCount, perPage)
    ensures start < filteredCount ==> r == start
  {
    if start >= filteredCount then LastPageStart(filteredCount, perPage) else start
  }

  /** On an offset the first pass produced, the second pass agrees with
      snapping from scratch against the filtered count. */
  lemma ReclampMatchesClamp(start: nat, count: nat, filteredCount: nat, perPage: int, requested: int)
    requires perPage > 0
    requires start == ClampStart(requested, count, perPage)
    ensures ReclampAfterFilter(start, filteredCount, perPage) == ClampStart(start, filteredCount, perPage)
  {
  }

  /** The pagination window of one block and the sanitised `st_<block>`
      request parameter written back for links (absent when the start is 0). */
  datatype Window = Window(start: nat, perPage: int, startParam: Results.Option<int>)

  /** The page size a block uses: the viewer's per-block preference when set,
      the listing's page size otherwise. */
  function PageSize(preferred: int, itemsPerPage: int): int {
    if preferred != 0 then preferred else itemsPerPage
  }

  /** The window of one block. A block viewed on its own shows everything from
      the top: its page size is the listing's page size (set to the block's
      count by the caller) and its start is 0. Any other block reads its start
      from the `st_<block>` parameter, an empty or absent one meaning 0. */
  function BlockWindow(viewingAsBlock: bool, preferred: int, itemsPerPage: int,
                       requested: Option<string>, count: nat): (w: Window)
    requires viewingAsBlock ==> itemsPerPage > 0
    requires !viewingAsBlock ==> PageSize(preferred, itemsPerPage) > 0
    ensures w.perPage > 0 && w.start % w.perPage == 0
    ensures viewingAsBlock ==> w.start == 0 && w.perPage == itemsPerPage
    ensures !viewingAsBlock && count > 0 ==> w.start < count
    ensures !viewingAsBlock && count == 0 ==> w.start == 0
    ensures w.startParam.Some? <==> w.start != 0
    ensures w.startParam.Some? ==> w.startParam.value == w.start
  {
    var perPage := if viewingAsBlock then itemsPerPage else PageSize(preferred, itemsPerPage);
    var maxValue := if viewingAsBlock then itemsPerPage else count;
    var start := if viewingAsBlock then 0
                 else if requested.None? || Php.Empty(requested.value) then 0
                 else Php.IntCast(requested.value);
    var clamped := ClampStart(start, maxValue, perPage);
    Window(clamped, perPage, if clamped != 0 then Some(clamped) else None)
  }

  /** The parameter a page link carries for a window, as request text. */
  function StartParamText(w: Window): Option<string> {
    if w.startParam.Some? then Some(Php.IntText(w.startParam.value)) else None
  }

  /** Following a link built from the sanitised start parameter lands on the
      same window: the start survives the trip through the URL. */
  lemma WindowSurvivesLink(preferred: int, itemsPerPage: int, requested: Option<string>, count: nat)
    requires PageSize(preferred, itemsPerPage) > 0
    ensures BlockWindow(false, preferred, itemsPerPage,
                        StartParamText(BlockWindow(false, preferred, itemsPerPage, requested, count)), count)
            == BlockWindow(false, preferred, itemsPerPage, requested, count)
  {
    var w := BlockWindow(false, preferred, itemsPerPage, requested, count);
    if w.startParam.Some? {
      Php.IntCastOfIntText(w.start);
      assert Php.IntText(w.start) != "0" by {
        if Php.IntText(w.start) == "0" {
          Php.IntCastOfIntText(0);
        }
      }
    }
  }
}
