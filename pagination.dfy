/** The paging arithmetic shared by the feed and the post lists:
    `page = parseInt(q.page) || 1`, `limit = parseInt(q.limit) || d`, capped at 50, and
    `skip = (page - 1) * limit`. A query value is the result of `parseInt`, with None for NaN. */
module Pagination {
  import opened Wrappers

  const MaxLimit: int := 50

  /** `parseInt(q) || fallback`: NaN and 0 are falsy, every other number is kept. */
  function OrDefault(q: Option<int>, fallback: int): (r: int)
    ensures q.Some? && q.value != 0 ==> r == q.value
    ensures q.None? || q.value == 0 ==> r == fallback
  {
    match q
    case Some(n) => if n != 0 then n else fallback
    case None => fallback
  }

  datatype Window = Window(page: int, limit: int, skip: int)

  /** The page window a request asks for, with `defaultLimit` for a missing limit. */
  function PageWindow(pageQ: Option<int>, limitQ: Option<int>, defaultLimit: int): (w: Window)
    requires 0 < defaultLimit <= MaxLimit
    ensures w.page != 0 && w.limit != 0 && w.limit <= MaxLimit
    ensures w.skip == (w.page - 1) * w.limit
    ensures w.page == OrDefault(pageQ, 1)
    ensures w.limit == if OrDefault(limitQ, defaultLimit) > MaxLimit then MaxLimit else OrDefault(limitQ, defaultLimit)
  {
    var page := OrDefault(pageQ, 1);
    var l := OrDefault(limitQ, defaultLimit);
    var limit := if l > MaxLimit then MaxLimit else l;
    Window(page, limit, (page - 1) * limit)
  }

  /** Without query parameters the first page of `defaultLimit` items is asked for. */
  lemma DefaultWindow(defaultLimit: int)
    requires 0 < defaultLimit <= MaxLimit
    ensures PageWindow(None, None, defaultLimit) == Window(1, defaultLimit, 0)
  {
  }

  /** The skip is negative, so that the store refuses the query, exactly when the page and
      the limit lie on different sides: a page below 1 with a positive limit, or a page
      above 1 with a negative limit. */
  lemma NegativeSkipIff(pageQ: Option<int>, limitQ: Option<int>, defaultLimit: int)
    requires 0 < defaultLimit <= MaxLimit
    ensures var w := PageWindow(pageQ, limitQ, defaultLimit);
      w.skip < 0 <==> (w.page < 1 && w.limit > 0) || (w.page > 1 && w.limit < 0)
  {
    var w := PageWindow(pageQ, limitQ, defaultLimit);
    var p := w.page - 1;
    if p > 0 && w.limit > 0 {
      assert p * w.limit > 0;
    } else if p < 0 && w.limit < 0 {
      assert p * w.limit == (-p) * (-w.limit);
    } else if p < 0 && w.limit > 0 {
      assert p * w.limit == -((-p) * w.limit);
    } else if p > 0 && w.limit < 0 {
      assert p * w.limit == -(p * (-w.limit));
    }
  }
}
