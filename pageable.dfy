/** List pagination (pkgs/utils/pageable/pageable.go): a query object whose
    page and size are set from query-string text, and the offset, limit and
    page-count arithmetic read off it. Go's int is modelled as an unbounded
    integer. */
module Pageable {
  import opened Errors
  import opened Strconv

  const DefaultSize: int := 15
  const MaxSize: int := 100
  const DefaultPage: int := 1

  /** The size SetSize stores for a query-string value, or the parse error
      it returns: empty text is the default, a decimal that fits in 32 bits
      is taken and clamped to MaxSize. */
  function ParsedSize(sizeQuery: string): (r: Result<int>)
    ensures sizeQuery == "" ==> r == Ok(DefaultSize)
    ensures sizeQuery != "" ==> (r.Err? <==> ParseUint32(sizeQuery).Err?)
    ensures sizeQuery != "" && r.Err? ==> r.error == ParseUint32(sizeQuery).error
    ensures r.Ok? ==> 0 <= r.value <= MaxSize
  {
    if sizeQuery == "" then Ok(DefaultSize)
    else
      var n := ParseUint32(sizeQuery);
      if n.Err? then Err(n.error)
      else if n.value > MaxSize then Ok(MaxSize)
      else Ok(n.value)
  }

  /** The page SetPage stores for a query-string value, or the parse error
      it returns: empty text is the first page, any decimal that fits in 32
      bits is taken as is. */
  function ParsedPage(pageQuery: string): (r: Result<int>)
    ensures pageQuery == "" ==> r == Ok(DefaultPage)
    ensures pageQuery != "" ==> (r.Err? <==> ParseUint32(pageQuery).Err?)
    ensures pageQuery != "" && r.Err? ==> r.error == ParseUint32(pageQuery).error
    ensures r.Ok? ==> 0 <= r.value <= MaxUint32
  {
    if pageQuery == "" then Ok(DefaultPage)
    else
      var n := ParseUint32(pageQuery);
      if n.Err? then Err(n.error) else Ok(n.value)
  }

  /** A size rendered in decimal is read back as itself up to MaxSize, and
      as MaxSize above it. */
  lemma ParsedSizeOfDecimal(n: nat)
    requires n <= MaxUint32
    ensures ParsedSize(FormatUint(n)) == Ok(if n > MaxSize then MaxSize else n)
  {
    ParseFormatRoundTrip(n);
  }

  /** A page rendered in decimal is read back as itself. */
  lemma ParsedPageOfDecimal(n: nat)
    requires n <= MaxUint32
    ensures ParsedPage(FormatUint(n)) == Ok(n)
  {
    ParseFormatRoundTrip(n);
  }

  /** The least integer r with totalCount <= r * limit: the ceiling of the
      quotient, which GetTotalPages computes in floating point. */
  function CeilDiv(totalCount: int, limit: int): (r: int)
    requires limit > 0
    ensures (r - 1) * limit < totalCount <= r * limit
  {
    var q := (-totalCount) / limit;
    assert q * limit <= -totalCount < q * limit + limit;
    -q
  }

  /** ListQuery: the paging fields the handlers fill from the request. */
  class ListQuery {
    var page: int
    var size: int

    /** The zero value, &ListQuery{}. */
    constructor ()
      ensures page == 0 && size == 0
    {
      page := 0;
      size := 0;
    }

    /** SetSize: store the parsed size, or return the parse error and keep
        the size as it was. The page is not touched. */
    method SetSize(sizeQuery: string) returns (r: Result<()>)
      modifies this
      ensures r.Ok? <==> ParsedSize(sizeQuery).Ok?
      ensures r.Err? ==> r.error == ParsedSize(sizeQuery).error && size == old(size)
      ensures r.Ok? ==> size == ParsedSize(sizeQuery).value
      ensures page == old(page)
    {
      if sizeQuery == "" {
        size := DefaultSize;
        return Ok(());
      }
      var n := ParseUint32(sizeQuery);
      if n.Err? {
        return Err(n.error);
      }
      size := n.value;
      if size > MaxSize {
        size := MaxSize;
      }
      return Ok(());
    }

    /** SetPage: store the parsed page, or return the parse error and keep
        the page as it was. The size is not touched. */
    method SetPage(pageQuery: string) returns (r: Result<()>)
      modifies this
      ensures r.Ok? <==> ParsedPage(pageQuery).Ok?
      ensures r.Err? ==> r.error == ParsedPage(pageQuery).error && page == old(page)
      ensures r.Ok? ==> page == ParsedPage(pageQuery).value
      ensures size == old(size)
    {
      if pageQuery == "" {
        page := DefaultPage;
        return Ok(());
      }
      var n := ParseUint32(pageQuery);
      if n.Err? {
        return Err(n.error);
      }
      page := n.value;
      return Ok(());
    }

    /** GetOffset as written: it reads the raw page and size, not the
        defaulted ones GetPage and GetLimit return. */
    function GetOffset(): (r: int)
      reads this
      ensures page >= 1 && size >= 1 ==> r == (GetPage() - 1) * GetLimit()
      ensures page == 0 ==> r == 0
    {
      if page == 0 then 0 else (page - 1) * size
    }

    /** The number of rows to fetch: the size, or the default when the size
        is not positive. */
    function GetLimit(): (r: int)
      reads this
      ensures r >= 1
      ensures size >= 1 <==> r == size
    {
      if size < 1 then DefaultSize else size
    }

    /** The page number, 1-based: the page, or the first page when it is
        not positive. */
    function GetPage(): (r: int)
      reads this
      ensures r >= 1
      ensures page >= 1 <==> r == page
    {
      if page < 1 then DefaultPage else page
    }

    /** GetSize: the same defaulting as GetLimit. */
    function GetSize(): (r: int)
      reads this
      ensures r == GetLimit()
    {
      if size < 1 then DefaultSize else size
    }

    /** The offset of the first row of GetPage() when pages hold
        GetLimit() rows each. */
    function PageStart(): (r: int)
      reads this
      ensures r >= 0
      ensures r < GetPage() * GetLimit()
    {
      (GetPage() - 1) * GetLimit()
    }

    /** GetTotalPages: the number of GetLimit()-row pages that hold
        totalCount rows. */
    function GetTotalPages(totalCount: int): (r: int)
      reads this
      ensures (r - 1) * GetLimit() < totalCount <= r * GetLimit()
      ensures totalCount >= 0 ==> r >= 0
    {
      CeilDiv(totalCount, GetLimit())
    }

    /** GetHasMore: the current page is not the last one. */
    function GetHasMore(total: int): (r: bool)
      reads this
    {
      GetPage() < GetTotalPages(total)
    }
  }

  lemma MulMonotone(a: int, b: int, l: int)
    requires a <= b && l >= 0
    ensures a * l <= b * l
  {
    assert b * l - a * l == (b - a) * l;
  }

  /** Ceiling bounds order their counts: if totalCount exceeds (a-1)*l and
      fits in b*l, then a <= b. */
  lemma CeilBoundsOrder(a: int, b: int, l: int, totalCount: int)
    requires l > 0 && (a - 1) * l < totalCount <= b * l
    ensures a <= b
  {
    if a > b {
      MulMonotone(b, a - 1, l);
    }
  }

  /** The page count is the only count satisfying the ceiling bounds. */
  lemma TotalPagesUnique(q: ListQuery, totalCount: int, n: int)
    requires (n - 1) * q.GetLimit() < totalCount <= n * q.GetLimit()
    ensures q.GetTotalPages(totalCount) == n
  {
    var l := q.GetLimit();
    var r := q.GetTotalPages(totalCount);
    CeilBoundsOrder(n, r, l, totalCount);
    CeilBoundsOrder(r, n, l, totalCount);
  }

  /** More pages follow exactly when some row lies beyond the current page. */
  lemma HasMoreIffRowsBeyondPage(q: ListQuery, total: int)
    ensures q.GetHasMore(total) <==> q.GetPage() * q.GetLimit() < total
  {
    var p, l, r := q.GetPage(), q.GetLimit(), q.GetTotalPages(total);
    if p < r {
      MulMonotone(p, r - 1, l);
    } else {
      MulMonotone(r, p, l);
    }
  }

  /** Consecutive pages of the same size are adjacent: the next page starts
      exactly one page further on. */
  lemma PagesAreAdjacent(q: ListQuery, next: ListQuery)
    requires q.page >= 1 && next.page == q.page + 1 && next.size == q.size
    ensures next.PageStart() == q.PageStart() + q.GetLimit()
  {
    assert next.GetPage() - 1 == q.GetPage();
  }

  /** A size of zero is accepted by SetSize ("0" parses) and then defaulted
      by GetLimit, but GetOffset multiplies by the raw zero: on page 2 the
      offset is 0, so page 2 fetches the same 15 rows as page 1 instead of
      the next 15. */
  lemma ZeroSizeOffsetRepeatsFirstPage(q: ListQuery)
    requires q.page == 2 && q.size == 0
    ensures q.GetOffset() == 0 && q.GetLimit() == DefaultSize
    ensures q.PageStart() == DefaultSize
  {
  }
}
