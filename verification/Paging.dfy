/** The indexer API's paging and the SDK client that walks its pages. */
module Paging {
  import opened Prelude
  import opened Digits

  const MAX_LIMIT := 100
  const DEFAULT_LIMIT := 20
  const MAX_PAGE := MAX_SAFE_INTEGER / MAX_LIMIT

  // ----- Server -----

  /** `[1-9][0-9]*` */
  predicate PositiveText(s: string) {
    s != "" && AllDigits(s) && s[0] != '0'
  }

  function ParseBounded(text: Option<string>, fallback: nat, max: nat): Option<nat> {
    match text
    case None => Some(fallback)
    case Some(s) => if PositiveText(s) && Val(s) <= max then Some(Val(s)) else None
  }

  function ParsePage(text: Option<string>): Option<nat> {
    ParseBounded(text, 1, MAX_PAGE)
  }

  function ParseLimit(text: Option<string>): Option<nat> {
    ParseBounded(text, DEFAULT_LIMIT, MAX_LIMIT)
  }

  /** LIMIT ... OFFSET ... over a fixed ordered result. */
  function Select<T>(list: seq<T>, limit: nat, offset: nat): seq<T> {
    list[Min(offset, |list|)..Min(offset + limit, |list|)]
  }

  function ItemsAt<T>(list: seq<T>, limit: nat, page: nat): seq<T>
    requires page > 0
  {
    Select(list, limit, (page - 1) * limit)
  }

  function TotalPages(total: nat, limit: nat): nat
    requires limit > 0
  {
    (total + limit - 1) / limit
  }

  /** A JSON field that should be a number, or a boolean. */
  datatype Field = Missing | Number(n: int) | OtherKind
  datatype Flag = NoFlag | Flag(b: bool) | BadFlag

  datatype Envelope<T> = Envelope(items: Option<seq<T>>, page: Field, limit: Field, total: Field, totalPages: Field, hasMore: Flag)

  datatype Response<T> = BadRequest | Ok(body: Envelope<T>)

  /** A list endpoint; the history endpoints also report `hasMore`. */
  function Serve<T>(list: seq<T>, pageText: Option<string>, limitText: Option<string>, history: bool): Response<T> {
    match (ParsePage(pageText), ParseLimit(limitText))
    case (Some(page), Some(limit)) =>
      if page == 0 || limit == 0 then BadRequest
      else Ok(PageOf(list, page, limit, history))
    case _ => BadRequest
  }

  function PageOf<T>(list: seq<T>, page: nat, limit: nat, history: bool): Envelope<T>
    requires page > 0 && limit > 0
  {
    var totalPages := TotalPages(|list|, limit);
    Envelope(Some(ItemsAt(list, limit, page)), Number(page), Number(limit), Number(|list|), Number(totalPages),
             if history then Flag(page < totalPages) else NoFlag)
  }

  lemma {:induction false} PositiveVal(s: string)
    requires PositiveText(s)
    ensures Val(s) > 0
  {
    ValZero(s);
  }

  /** Every accepted page and limit are positive, and their offset is a safe integer. */
  lemma {:induction false} OffsetIsSafe(pageText: Option<string>, limitText: Option<string>)
    requires ParsePage(pageText).Some? && ParseLimit(limitText).Some?
    ensures ParsePage(pageText).value >= 1 && 1 <= ParseLimit(limitText).value <= MAX_LIMIT
    ensures (ParsePage(pageText).value - 1) * ParseLimit(limitText).value <= MAX_SAFE_INTEGER
  {
    if pageText.Some? {
      PositiveVal(pageText.value);
    }
    if limitText.Some? {
      PositiveVal(limitText.value);
    }
    var page, limit := ParsePage(pageText).value, ParseLimit(limitText).value;
    MulBound(page - 1, MAX_PAGE, limit, MAX_LIMIT);
  }

  lemma {:induction false} MulBound(a: nat, b: nat, c: nat, d: nat)
    requires a <= b && c <= d
    ensures a * c <= b * d
  {
    assert a * c <= b * c <= b * d;
  }

  /** The text of an accepted number is read as that number. */
  lemma {:induction false} AcceptsNumerals(n: nat, fallback: nat, max: nat)
    requires 0 < n
    ensures ParseBounded(Some(Dec(n)), fallback, max) == if n <= max then Some(n) else None
  {
    DecVal(n);
    DecLeads(n);
  }

  lemma {:induction false} DecLeads(n: nat)
    requires n > 0
    ensures Dec(n)[0] != '0'
  {
    if n >= 10 {
      DecLeads(n / 10);
    }
  }

  lemma {:induction false} PagesCover(total: nat, limit: nat, page: nat)
    requires limit > 0
    ensures page >= TotalPages(total, limit) <==> page * limit >= total
  {
    var c := TotalPages(total, limit);
    assert c * limit <= total + limit - 1 < c * limit + limit;
    if page >= c {
      assert page * limit >= c * limit;
    } else {
      assert (page + 1) * limit <= c * limit;
    }
  }

  // ----- Client -----

  predicate IsCount(f: Field, min: int) {
    f.Number? && f.n >= min
  }

  datatype Page<T> = Page(items: seq<T>, totalPages: nat, hasMore: Option<bool>)

  /** The envelope check: what a page must look like to answer this request. */
  function GetPage<T>(body: Envelope<T>, page: nat, limit: Option<nat>): Option<Page<T>> {
    if body.items.None? then None
    else if !IsCount(body.page, 1) || !IsCount(body.limit, 1) || !IsCount(body.total, 0) || !IsCount(body.totalPages, 0) then None
    else if body.hasMore.BadFlag? then None
    else if body.page.n != page then None
    else if limit.Some? && body.limit.n != limit.value then None
    else if |body.items.value| > body.limit.n then None
    else Some(Page(body.items.value, body.totalPages.n, if body.hasMore.Flag? then Some(body.hasMore.b) else None))
  }

  /** The server reads the page and limit that the client writes. */
  lemma {:induction false} RequestParses(page: nat, limit: Option<nat>)
    requires 0 < page <= MAX_PAGE && (limit.Some? ==> 0 < limit.value <= MAX_LIMIT)
    ensures ParsePage(Some(Dec(page))) == Some(page)
    ensures ParseLimit(if limit.Some? then Some(Dec(limit.value)) else None)
         == Some(if limit.Some? then limit.value else DEFAULT_LIMIT)
  {
    AcceptsNumerals(page, 1, MAX_PAGE);
    if limit.Some? {
      AcceptsNumerals(limit.value, DEFAULT_LIMIT, MAX_LIMIT);
    }
  }

  /** Every page the server produces passes the client's check for that request. */
  lemma {:induction false} ServedPagesPass<T>(list: seq<T>, page: nat, limit: Option<nat>, history: bool)
    requires 0 < page <= MAX_PAGE && (limit.Some? ==> 0 < limit.value <= MAX_LIMIT)
    ensures var l := if limit.Some? then limit.value else DEFAULT_LIMIT;
            var r := Serve(list, Some(Dec(page)), if limit.Some? then Some(Dec(limit.value)) else None, history);
            && r == Ok(PageOf(list, page, l, history))
            && GetPage(r.body, page, limit)
            == Some(Page(Select(list, l, (page - 1) * l), TotalPages(|list|, l),
                         if history then Some(page < TotalPages(|list|, l)) else None))
  {
    RequestParses(page, limit);
  }

  function Concat<T>(pages: seq<seq<T>>): seq<T> {
    if pages == [] then [] else Concat(pages[..|pages| - 1]) + pages[|pages| - 1]
  }

  /** The server answers every request of this walk from one fixed list. */
  ghost predicate Serves<T>(fetch: nat -> Option<Envelope<T>>, list: seq<T>, limit: nat, history: bool)
    requires limit > 0
  {
    forall page :: 0 < page <= MAX_PAGE ==> fetch(page) == Some(PageOf(list, page, limit, history))
  }

  /** The server answers from one fixed list, none of whose pages has a number past the accepted ones. */
  ghost predicate Reachable<T>(fetch: nat -> Option<Envelope<T>>, list: seq<T>, limit: nat, history: bool, start: nat)
    requires limit > 0
  {
    Serves(fetch, list, limit, history) && start <= MAX_PAGE && |list| <= MAX_PAGE * limit
  }

  /** The page the client reads off an answer that passes its check. */
  function Received<T>(fetch: nat -> Option<Envelope<T>>, page: nat, limit: Option<nat>): Option<Page<T>> {
    var body := fetch(page);
    if body.None? then None else GetPage(body.value, page, limit)
  }

  /** The page says that none follows. */
  predicate IsLast<T>(p: Page<T>, page: nat) {
    p.hasMore == Some(false) || page >= p.totalPages || |p.items| == 0
  }

  predicate LastAt<T>(fetch: nat -> Option<Envelope<T>>, page: nat, limit: Option<nat>) {
    Received(fetch, page, limit).Some? && IsLast(Received(fetch, page, limit).value, page)
  }

  predicate Gives<T(==)>(fetch: nat -> Option<Envelope<T>>, page: nat, limit: Option<nat>, items: seq<T>) {
    Received(fetch, page, limit).Some? && Received(fetch, page, limit).value.items == items
  }

  /** The pages are those of the answers from `start` on, none of which but the last said that it was the last. */
  ghost predicate Answered<T>(fetch: nat -> Option<Envelope<T>>, pages: seq<seq<T>>, start: nat, limit: Option<nat>)
    requires start > 0
  {
    pages != [] ==>
      var init := pages[..|pages| - 1];
      && Answered(fetch, init, start, limit) && !Over(fetch, init, start, limit)
      && Gives(fetch, start + |init|, limit, pages[|init|])
  }

  /** The walk was over: the last page said so. */
  ghost predicate Over<T>(fetch: nat -> Option<Envelope<T>>, pages: seq<seq<T>>, start: nat, limit: Option<nat>)
    requires start > 0
  {
    pages != [] && LastAt(fetch, start + |pages| - 1, limit)
  }

  lemma {:induction false} AnsweredNext<T>(fetch: nat -> Option<Envelope<T>>, pages: seq<seq<T>>, start: nat, limit: Option<nat>,
                                           items: seq<T>)
    requires start > 0 && Answered(fetch, pages, start, limit) && !Over(fetch, pages, start, limit)
    requires Gives(fetch, start + |pages|, limit, items)
    ensures Answered(fetch, pages + [items], start, limit)
    ensures Over(fetch, pages + [items], start, limit) <==> LastAt(fetch, start + |pages|, limit)
  {
    assert (pages + [items])[..|pages|] == pages;
  }

  /** Request page after page, whatever the server answers, until one is refused or says that it is the last. */
  method WalkPages<T(==)>(fetch: nat -> Option<Envelope<T>>, start: nat, limit: Option<nat>, maxPages: nat)
    returns (pages: seq<seq<T>>, failed: bool)
    requires start > 0
    ensures |pages| <= maxPages && Answered(fetch, pages, start, limit)
    ensures failed <==> |pages| < maxPages && !Over(fetch, pages, start, limit)
    ensures failed ==> Received(fetch, start + |pages|, limit).None?
  {
    pages, failed := [], false;
    var page := start;
    while |pages| < maxPages
      invariant |pages| <= maxPages && page == start + |pages| && !failed
      invariant Answered(fetch, pages, start, limit) && !Over(fetch, pages, start, limit)
      decreases maxPages - |pages|
    {
      var got := Received(fetch, page, limit);
      if got.None? {
        failed := true;
        return;
      }
      var p := got.value;
      AnsweredNext(fetch, pages, start, limit, p.items);
      pages := pages + [p.items];
      if IsLast(p, page) {
        return;
      }
      page := page + 1;
    }
  }

  /**
   * Walk pages from `start`; `fetch(p)` is the body the server sends for page `p`, if any.  At most
   * `maxPages` requests are made, and the walk fails only on an answer that is refused.  Against a fixed list
   * it does not fail, and the pages are consecutive: together they are the list from the first page's offset
   * on, up to the page bound.
   */
  method Paginate<T(==)>(fetch: nat -> Option<Envelope<T>>, start: nat, limit: Option<nat>, maxPages: nat,
                         ghost list: seq<T>, ghost applied: nat, ghost history: bool)
    returns (pages: seq<seq<T>>, failed: bool)
    requires start > 0 && 0 < applied <= MAX_LIMIT && (limit.Some? ==> limit.value == applied)
    ensures |pages| <= maxPages && Answered(fetch, pages, start, limit)
    ensures failed <==> |pages| < maxPages && !Over(fetch, pages, start, limit)
    ensures failed ==> Received(fetch, start + |pages|, limit).None?
    ensures Reachable(fetch, list, applied, history, start) ==>
      !failed && Walked(pages, list, start, applied) && (|pages| < maxPages ==> ReachesEnd(pages, list, start, applied))
  {
    pages, failed := WalkPages(fetch, start, limit, maxPages);
    if Reachable(fetch, list, applied, history, start) {
      FixedWalk(fetch, pages, start, limit, list, applied, history);
      if pages != [] {
        FixedWalk(fetch, pages[..|pages| - 1], start, limit, list, applied, history);
        FixedLast(fetch, pages[..|pages| - 1], start, limit, list, applied, history, pages);
      }
      FixedGoesOn(fetch, pages, start, limit, list, applied, history);
    }
  }

  /** What a fixed list gives on an accepted page. */
  lemma {:induction false} FixedPage<T>(fetch: nat -> Option<Envelope<T>>, page: nat, limit: Option<nat>, list: seq<T>, applied: nat,
                                        history: bool, start: nat)
    requires 0 < applied && (limit.Some? ==> limit.value == applied) && 0 < page <= MAX_PAGE
    requires Reachable(fetch, list, applied, history, start)
    ensures Received(fetch, page, limit).Some?
    ensures Gives(fetch, page, limit, ItemsAt(list, applied, page))
    ensures LastAt(fetch, page, limit) <==> page >= TotalPages(|list|, applied) || ItemsAt(list, applied, page) == []
    ensures !LastAt(fetch, page, limit) ==> page < MAX_PAGE
  {
    assert fetch(page) == Some(PageOf(list, page, applied, history));
    WithinBound(|list|, applied, page);
  }

  lemma {:induction false} FixedNext<T>(fetch: nat -> Option<Envelope<T>>, page: nat, limit: Option<nat>, list: seq<T>, applied: nat,
                                        history: bool, start: nat)
    requires 0 < applied && (limit.Some? ==> limit.value == applied) && 0 < page <= MAX_PAGE
    requires Reachable(fetch, list, applied, history, start) && !LastAt(fetch, page, limit)
    ensures page + 1 <= MAX_PAGE && Received(fetch, page + 1, limit).Some?
  {
    FixedPage(fetch, page, limit, list, applied, history, start);
    FixedPage(fetch, page + 1, limit, list, applied, history, start);
  }

  /** The walk is over, or there is another page. */
  lemma {:induction false} FixedGoesOn<T>(fetch: nat -> Option<Envelope<T>>, pages: seq<seq<T>>, start: nat, limit: Option<nat>,
                                          list: seq<T>, applied: nat, history: bool)
    requires start > 0 && 0 < applied && (limit.Some? ==> limit.value == applied)
    requires Reachable(fetch, list, applied, history, start) && Answered(fetch, pages, start, limit)
    ensures Over(fetch, pages, start, limit) ||
      (start + |pages| <= MAX_PAGE && Received(fetch, start + |pages|, limit).Some?)
  {
    if pages == [] {
      FixedPage(fetch, start, limit, list, applied, history, start);
    } else if !Over(fetch, pages, start, limit) {
      FixedGoesOn(fetch, pages[..|pages| - 1], start, limit, list, applied, history);
      FixedNext(fetch, start + |pages| - 1, limit, list, applied, history, start);
    }
  }

  lemma {:induction false} FixedStep<T>(fetch: nat -> Option<Envelope<T>>, init: seq<seq<T>>, start: nat, limit: Option<nat>,
                                        list: seq<T>, applied: nat, history: bool, items: seq<T>, page: nat, pages: seq<seq<T>>)
    requires start > 0 && 0 < applied && (limit.Some? ==> limit.value == applied)
    requires Reachable(fetch, list, applied, history, start) && Walked(init, list, start, applied)
    requires page == start + |init| && page <= MAX_PAGE && Gives(fetch, page, limit, items) && pages == init + [items]
    ensures Walked(pages, list, start, applied)
    ensures LastAt(fetch, page, limit) ==> ReachesEnd(pages, list, start, applied)
  {
    FixedPage(fetch, page, limit, list, applied, history, start);
    NextPage(init, list, start, applied, page);
  }

  lemma {:induction false} FixedWalk<T>(fetch: nat -> Option<Envelope<T>>, pages: seq<seq<T>>, start: nat, limit: Option<nat>,
                                        list: seq<T>, applied: nat, history: bool)
    requires start > 0 && 0 < applied && (limit.Some? ==> limit.value == applied)
    requires Reachable(fetch, list, applied, history, start) && Answered(fetch, pages, start, limit)
    ensures Walked(pages, list, start, applied)
  {
    if pages == [] {
      NothingYet<T>(list, start, applied);
    } else {
      var init := pages[..|pages| - 1];
      FixedWalk(fetch, init, start, limit, list, applied, history);
      FixedLast(fetch, init, start, limit, list, applied, history, pages);
    }
  }

  lemma {:induction false} FixedLast<T>(fetch: nat -> Option<Envelope<T>>, init: seq<seq<T>>, start: nat, limit: Option<nat>,
                                        list: seq<T>, applied: nat, history: bool, pages: seq<seq<T>>)
    requires start > 0 && 0 < applied && (limit.Some? ==> limit.value == applied)
    requires Reachable(fetch, list, applied, history, start) && Answered(fetch, pages, start, limit)
    requires pages != [] && init == pages[..|pages| - 1] && Walked(init, list, start, applied)
    ensures Walked(pages, list, start, applied)
    ensures Over(fetch, pages, start, limit) ==> ReachesEnd(pages, list, start, applied)
  {
    var page, items := LastAnswer(fetch, init, start, limit, pages);
    FixedNumber(fetch, init, start, limit, list, applied, history);
    FixedStep(fetch, init, start, limit, list, applied, history, items, page, pages);
  }

  lemma {:induction false} LastAnswer<T>(fetch: nat -> Option<Envelope<T>>, init: seq<seq<T>>, start: nat, limit: Option<nat>,
                                         pages: seq<seq<T>>) returns (page: nat, items: seq<T>)
    requires start > 0 && pages != [] && init == pages[..|pages| - 1] && Answered(fetch, pages, start, limit)
    ensures page == start + |init| && Gives(fetch, page, limit, items) && pages == init + [items]
    ensures Answered(fetch, init, start, limit) && !Over(fetch, init, start, limit)
    ensures Over(fetch, pages, start, limit) <==> LastAt(fetch, page, limit)
  {
    page, items := start + |init|, pages[|init|];
    assert page == start + |pages| - 1;
  }

  /** A walk that is not over asks for an accepted page next. */
  lemma {:induction false} FixedNumber<T>(fetch: nat -> Option<Envelope<T>>, init: seq<seq<T>>, start: nat, limit: Option<nat>,
                                          list: seq<T>, applied: nat, history: bool)
    requires start > 0 && 0 < applied && (limit.Some? ==> limit.value == applied)
    requires Reachable(fetch, list, applied, history, start)
    requires Answered(fetch, init, start, limit) && !Over(fetch, init, start, limit)
    ensures start + |init| <= MAX_PAGE
  {
    FixedGoesOn(fetch, init, start, limit, list, applied, history);
  }

  /** The pages together are the window of the list from the first page's offset on. */
  ghost predicate Walked<T>(pages: seq<seq<T>>, list: seq<T>, start: nat, limit: nat)
    requires start > 0
  {
    Concat(pages) == Select(list, |pages| * limit, (start - 1) * limit)
  }

  /** They reach the end of the list: each row from the offset on, once. */
  ghost predicate ReachesEnd<T>(pages: seq<seq<T>>, list: seq<T>, start: nat, limit: nat)
    requires start > 0
  {
    Concat(pages) == list[Min((start - 1) * limit, |list|)..]
  }

  lemma {:induction false} NothingYet<T>(list: seq<T>, start: nat, limit: nat)
    requires start > 0
    ensures Walked<T>([], list, start, limit)
  {
    assert 0 * limit == 0;
  }

  lemma {:induction false} OffsetsMeet(start: nat, count: nat, limit: nat, page: nat)
    requires start > 0 && page == start + count
    ensures (page - 1) * limit == (start - 1) * limit + count * limit
    ensures (count + 1) * limit == count * limit + limit
  {
  }

  /** One more page extends the window. */
  lemma {:induction false} WalkOn<T>(pages: seq<seq<T>>, list: seq<T>, start: nat, limit: nat, page: nat)
    requires start > 0 && page == start + |pages| && Walked(pages, list, start, limit)
    ensures Walked(pages + [Select(list, limit, (page - 1) * limit)], list, start, limit)
  {
    OffsetsMeet(start, |pages|, limit, page);
  }

  /** A last or empty page completes it. */
  lemma {:induction false} NextPage<T>(pages: seq<seq<T>>, list: seq<T>, start: nat, limit: nat, page: nat)
    requires start > 0 && limit > 0 && page == start + |pages| && Walked(pages, list, start, limit)
    ensures var items := ItemsAt(list, limit, page);
            && Walked(pages + [items], list, start, limit)
            && (page >= TotalPages(|list|, limit) || items == [] ==> ReachesEnd(pages + [items], list, start, limit))
  {
    WalkOn(pages, list, start, limit, page);
    if page >= TotalPages(|list|, limit) || Select(list, limit, (page - 1) * limit) == [] {
      StopsAtEnd(list, page, limit, start, |pages| + 1);
    }
  }

  lemma {:induction false} WithinBound(total: nat, limit: nat, page: nat)
    requires limit > 0 && total <= MAX_PAGE * limit && page <= MAX_PAGE
    ensures page < TotalPages(total, limit) ==> page < MAX_PAGE
  {
    PagesCover(total, limit, MAX_PAGE);
  }

  /** A page that is last, or empty, ends at the end of the list. */
  lemma {:induction false} StopsAtEnd<T>(list: seq<T>, page: nat, limit: nat, start: nat, count: nat)
    requires 0 < start && 0 < count && page == start + count - 1 && limit > 0
    requires page >= TotalPages(|list|, limit) || Select(list, limit, (page - 1) * limit) == []
    ensures Select(list, count * limit, (start - 1) * limit) == list[Min((start - 1) * limit, |list|)..]
  {
    PagesCover(|list|, limit, page);
    assert page * limit == (page - 1) * limit + limit;
    assert (start - 1 + count) * limit == page * limit;
  }
}
