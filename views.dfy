/**
 * The two list endpoints (sales/apps/sales/api/views.py): the records list,
 * newest sale first and paginated by `PageBasedPagination`, and the
 * aggregation list; both read through `cache_page` for 20 minutes under
 * their own key prefix.
 */
module SalesViews {
  import opened Wrappers
  import opened Text
  import opened SalesRecords
  import opened SalesAggregation
  import opened SalesFilters
  import opened ResponseCache
  import opened Signals

  // ---------------------------------------------------------------------------
  // Pagination

  /** `PageBasedPagination`: 20 per page, `page_size` may ask for up to 100. */
  const DefaultPageSize: nat := 20
  const MaxPageSize: nat := 100

  /** Python's `int(text)` on an optional sign followed by decimal digits. */
  function ParseInt(s: string): (r: Option<int>)
    ensures r.Some? <==> (|s| >= 1 && AllDigits(s)) || (|s| >= 2 && (s[0] == '-' || s[0] == '+') && AllDigits(s[1..]))
    ensures r.Some? && s[0] == '-' ==> r.value <= 0
    ensures r.Some? && s[0] != '-' ==> r.value >= 0
  {
    if |s| >= 1 && AllDigits(s) then Some(ParseDigits(s))
    else if |s| >= 2 && s[0] == '-' && AllDigits(s[1..]) then Some(-(ParseDigits(s[1..]) as int))
    else if |s| >= 2 && s[0] == '+' && AllDigits(s[1..]) then Some(ParseDigits(s[1..]))
    else None
  }

  /** `int(str(n)) == n`. */
  lemma ParseIntToString(n: int)
    ensures ParseInt(IntToString(n)) == Some(n)
  {
    if n < 0 {
      ParseNegative(-n);
    } else {
      ParseNatToString(n);
    }
  }

  /**
   * The text of a saved record with a product starts with the product's
   * name and a space, and the rest reads back as the record's id.
   */
  lemma StrShowsId(record: SalesRecord)
    requires record.product.Some? && record.pk.Some?
    ensures record.Str().Some?
    ensures var s, name := record.Str().value, record.product.value.name;
      s[..|name|] == name && s[|name|] == ' ' && ParseInt(s[|name| + 1..]) == record.pk
  {
    ParseIntToString(record.pk.value);
  }

  /** A '-' before the digits of `m` reads back as `-m`. */
  lemma ParseNegative(m: nat)
    ensures ParseInt("-" + NatToString(m)) == Some(-(m as int))
  {
    var digits := NatToString(m);
    var s := "-" + digits;
    assert s[1..] == digits;
    assert !AllDigits(s) by {
      assert !IsDigit(s[0]);
    }
    ParseNatToString(m);
  }

  /**
   * `get_page_size`: a positive integer `page_size` is honoured up to 100;
   * a missing, non-numeric, zero or negative one gives the default 20.
   */
  function PageSize(param: Option<string>): (n: nat)
    ensures 1 <= n <= MaxPageSize
    ensures (param.None? || ParseInt(param.value).None? || ParseInt(param.value).value < 1) ==> n == DefaultPageSize
    ensures param.Some? && ParseInt(param.value).Some? && 1 <= ParseInt(param.value).value <= MaxPageSize
            ==> n == ParseInt(param.value).value
    ensures param.Some? && ParseInt(param.value).Some? && ParseInt(param.value).value > MaxPageSize
            ==> n == MaxPageSize
  {
    match param
    case None => DefaultPageSize
    case Some(s) =>
      match ParseInt(s)
      case None => DefaultPageSize
      case Some(v) => if v < 1 then DefaultPageSize else if v > MaxPageSize then MaxPageSize else v
  }

  /** `Paginator.num_pages` without orphans: at least one page, and enough pages for every item. */
  function NumPages(count: nat, size: nat): (pages: nat)
    requires size >= 1
    ensures pages >= 1
    ensures PageStart(pages, size) < (if count == 0 then 1 else count) <= PageStart(pages + 1, size)
  {
    var hits := if count == 0 then 1 else count;
    var q := (hits + size - 1) / size;
    assert q * size <= hits + size - 1 < q * size + size;
    assert q >= 1;
    PageStartValue(q, size);
    PageStartValue(q + 1, size);
    q
  }

  /** `Paginator.validate_number` failed: not an integer, below 1 or past the last page (HTTP 404). */
  datatype PageError = InvalidPage

  /**
   * The page asked for: `page` absent or empty means 1, 'last' means the last
   * page, anything else must be an integer from 1 to the number of pages.
   */
  function PageNumber(param: Option<string>, pages: nat): (r: Result<nat, PageError>)
    ensures r.Ok? ==> 1 <= r.value <= pages
    ensures (param.None? || param == Some("")) ==> (r.Ok? <==> pages >= 1) && (r.Ok? ==> r.value == 1)
    ensures param == Some("last") ==> (r.Ok? <==> pages >= 1) && (r.Ok? ==> r.value == pages)
    ensures param.Some? && param.value != "" && param.value != "last" ==>
      (r.Ok? <==> ParseInt(param.value).Some? && 1 <= ParseInt(param.value).value <= pages)
      && (r.Ok? ==> r.value == ParseInt(param.value).value)
  {
    var requested :=
      match param
      case None => Some(1)
      case Some(s) => if s == "" then Some(1) else if s == "last" then Some(pages) else ParseInt(s);
    match requested
    case None => Err(InvalidPage)
    case Some(n) => if 1 <= n <= pages then Ok(n) else Err(InvalidPage)
  }

  /** DRF's page body: the total, this page's items, and the neighbouring page numbers when they exist. */
  datatype Page<T> = Page(count: nat, number: nat, results: seq<T>, next: Option<nat>, previous: Option<nat>)

  /** The position of the first item of page `n`: each page before it holds `size` items. */
  function PageStart(n: nat, size: nat): nat
    requires n >= 1
  {
    if n == 1 then 0 else PageStart(n - 1, size) + size
  }

  lemma {:induction false} PageStartValue(n: nat, size: nat)
    requires n >= 1
    ensures PageStart(n, size) == (n - 1) * size
  {
    if n > 1 {
      PageStartValue(n - 1, size);
    }
  }

  /** Later pages start no earlier, and a whole page further on when they are strictly later. */
  lemma {:induction false} PageStartGrows(a: nat, b: nat, size: nat)
    requires 1 <= a <= b
    ensures PageStart(a, size) <= PageStart(b, size)
    ensures a < b ==> PageStart(a, size) + size <= PageStart(b, size)
    decreases b
  {
    if a < b {
      PageStartGrows(a, b - 1, size);
    }
  }

  /** The items page `n` of `size` holds: up to `size` of them, from the page's start. */
  function PageSlice<T>(items: seq<T>, n: nat, size: nat): (s: seq<T>)
    requires n >= 1 && size >= 1
    requires PageStart(n, size) <= |items|
    ensures |s| == if PageStart(n, size) + size <= |items| then size else |items| - PageStart(n, size)
    ensures forall j :: 0 <= j < |s| ==> s[j] == items[PageStart(n, size) + j]
  {
    var start := PageStart(n, size);
    var end := if start + size <= |items| then start + size else |items|;
    items[start..end]
  }

  /** `PageNumberPagination.paginate_queryset` with `get_paginated_response`. */
  function Paginate<T>(items: seq<T>, pageParam: Option<string>, sizeParam: Option<string>)
    : (r: Result<Page<T>, PageError>)
    ensures r.Ok? ==> r.value.count == |items|
    ensures r.Ok? ==> 1 <= r.value.number <= NumPages(|items|, PageSize(sizeParam))
    ensures r.Ok? <==> PageNumber(pageParam, NumPages(|items|, PageSize(sizeParam))).Ok?
    ensures r.Ok? ==> r.value.number == PageNumber(pageParam, NumPages(|items|, PageSize(sizeParam))).value
    ensures r.Ok? ==> var size, n := PageSize(sizeParam), r.value.number;
      && PageStart(n, size) <= |items|
      && |r.value.results| == (if PageStart(n + 1, size) <= |items| then size else |items| - PageStart(n, size))
      && (forall j :: 0 <= j < |r.value.results| ==> r.value.results[j] == items[PageStart(n, size) + j])
      && (r.value.next.Some? <==> PageStart(n + 1, size) < |items|)
      && (r.value.next.Some? ==> r.value.next.value == n + 1)
      && (r.value.previous.Some? <==> n > 1)
      && (r.value.previous.Some? ==> r.value.previous.value == n - 1)
  {
    var size := PageSize(sizeParam);
    var pages := NumPages(|items|, size);
    match PageNumber(pageParam, pages)
    case Err(e) => Err(e)
    case Ok(n) => Ok(PageOf(items, n, pages, size))
  }

  /** Page `n` of `pages`: its items and the links to its neighbours. */
  function PageOf<T>(items: seq<T>, n: nat, pages: nat, size: nat): (p: Page<T>)
    requires 1 <= n <= pages && size >= 1
    requires PageStart(pages, size) < (if |items| == 0 then 1 else |items|) <= PageStart(pages + 1, size)
    ensures p.count == |items| && p.number == n
    ensures PageStart(n, size) <= |items|
    ensures |p.results| == (if PageStart(n + 1, size) <= |items| then size else |items| - PageStart(n, size))
    ensures forall j :: 0 <= j < |p.results| ==> p.results[j] == items[PageStart(n, size) + j]
    ensures p.next.Some? <==> PageStart(n + 1, size) < |items|
    ensures p.next.Some? ==> p.next.value == n + 1
    ensures p.previous.Some? <==> n > 1
    ensures p.previous.Some? ==> p.previous.value == n - 1
  {
    PageBounds(n, pages, size, |items|);
    Page(|items|, n, PageSlice(items, n, size),
         if n < pages then Some(n + 1) else None,
         if n > 1 then Some(n - 1) else None)
  }

  /** Page `n` of `pages` starts within the items, and has a successor exactly when items remain after it. */
  lemma PageBounds(n: nat, pages: nat, size: nat, count: nat)
    requires 1 <= n <= pages && size >= 1
    requires PageStart(pages, size) < (if count == 0 then 1 else count) <= PageStart(pages + 1, size)
    ensures PageStart(n, size) <= count
    ensures PageStart(n + 1, size) == PageStart(n, size) + size
    ensures n < pages <==> PageStart(n + 1, size) < count
  {
    PageStartGrows(1, pages, size);
    PageStartGrows(n, pages, size);
    if n < pages {
      PageStartGrows(n + 1, pages, size);
    }
  }

  /**
   * Every record is on exactly the page its position says: item `i` is the
   * `i % size`-th result of page `i / size + 1`.
   */
  lemma {:induction false} ItemOnPage<T>(items: seq<T>, sizeParam: Option<string>, i: nat)
    requires i < |items|
    ensures var size := PageSize(sizeParam);
      var r := Paginate(items, Some(IntToString(i / size + 1)), sizeParam);
      && r.Ok? && r.value.number == i / size + 1
      && i % size < |r.value.results| && r.value.results[i % size] == items[i]
  {
    var size := PageSize(sizeParam);
    var n, m := i / size + 1, i % size;
    ItemPage(|items|, size, i);
    PageHolds(items, Some(IntToString(n)), sizeParam, n, m);
    var r := Paginate(items, Some(IntToString(n)), sizeParam);
    assert r.Ok? && r.value.number == n && m < |r.value.results| && r.value.results[m] == items[i];
  }

  /** Item `i`'s page number, written out, selects the page that holds it. */
  lemma ItemPage(count: nat, size: nat, i: nat)
    requires size >= 1 && i < count
    ensures PageNumber(Some(IntToString(i / size + 1)), NumPages(count, size)) == Ok(i / size + 1)
    ensures i % size < size && PageStart(i / size + 1, size) + i % size == i
  {
    PageOfItem(count, size, i);
    PageParamParses(i / size + 1, NumPages(count, size));
  }

  /** The page a valid page parameter selects holds the item `m` places past its start. */
  lemma PageHolds<T>(items: seq<T>, pageParam: Option<string>, sizeParam: Option<string>, n: nat, m: nat)
    requires PageNumber(pageParam, NumPages(|items|, PageSize(sizeParam))) == Ok(n)
    requires m < PageSize(sizeParam) && PageStart(n, PageSize(sizeParam)) + m < |items|
    ensures var r := Paginate(items, pageParam, sizeParam);
      && r.Ok? && r.value.number == n
      && m < |r.value.results| && r.value.results[m] == items[PageStart(n, PageSize(sizeParam)) + m]
  {
  }

  /** Item `i` lies `i % size` into page `i / size + 1`, which exists. */
  lemma PageOfItem(count: nat, size: nat, i: nat)
    requires size >= 1 && i < count
    ensures i / size + 1 <= NumPages(count, size)
    ensures PageStart(i / size + 1, size) + i % size == i
  {
    var n: nat := i / size + 1;
    var pages := NumPages(count, size);
    Position(i, size);
    PageStartValue(n, size);
    if n > pages {
      PageStartGrows(pages + 1, n, size);
    }
  }

  /** A page number from 1 to the last, written out, selects that page. */
  lemma PageParamParses(n: nat, pages: nat)
    requires 1 <= n <= pages
    ensures PageNumber(Some(IntToString(n)), pages) == Ok(n)
  {
    ParseIntToString(n);
    NumberIsNoKeyword(n);
  }

  /** Where item `i` sits when items are laid out `size` to a row. */
  lemma Position(i: nat, size: nat)
    requires size >= 1
    ensures i / size >= 0 && 0 <= i % size < size && i == (i / size) * size + i % size
  {
  }

  /** A page number written out is neither empty nor the keyword 'last'. */
  lemma NumberIsNoKeyword(n: nat)
    ensures IntToString(n) != "" && IntToString(n) != "last"
  {
    assert AllDigits(IntToString(n));
    assert !IsDigit("last"[0]);
  }

  /** Sixteen records at `page_size=10`: the first page holds ten and links to the second. */
  lemma SixteenRecordsTenPerPage<T>(items: seq<T>)
    requires |items| == 16
    ensures var r := Paginate(items, None, Some("10"));
      r.Ok? && |r.value.results| == 10 && r.value.next == Some(2) && r.value.previous == None
  {
    assert ParseInt("10") == Some(10) by {
      assert AllDigits("10");
      assert ParseDigits("10") == ParseDigits("1") * 10 + 0;
    }
    assert NumPages(16, 10) == 2;
  }

  /** `page_size=-10` falls back to twenty per page; `page=invalid` is not found. */
  lemma BadPaginationParameters<T>(items: seq<T>)
    requires |items| == 31
    ensures var r := Paginate(items, None, Some("-10"));
      r.Ok? && |r.value.results| == DefaultPageSize
    ensures Paginate(items, Some("invalid"), None).Err?
  {
    assert ParseInt("-10").Some? && ParseInt("-10").value <= 0 by {
      assert "-10"[1..] == "10";
      assert AllDigits("10");
    }
    assert ParseInt("invalid") == None by {
      assert !IsDigit("invalid"[0]);
    }
    assert NumPages(31, 20) == 2;
  }

  // ---------------------------------------------------------------------------
  // The records list: `order_by('-date_of_sale')`, filtered, paginated

  /** Newest sale first. */
  predicate NewestFirst(rows: seq<SaleRow>)
  {
    forall i, j :: 0 <= i < j < |rows| ==> rows[i].dateOfSale >= rows[j].dateOfSale
  }

  /** Places one record among records already newest first. */
  function InsertByDate(x: SaleRow, sorted: seq<SaleRow>): (out: seq<SaleRow>)
    requires NewestFirst(sorted)
    ensures NewestFirst(out)
    ensures multiset(out) == multiset(sorted) + multiset{x}
  {
    if sorted == [] || x.dateOfSale >= sorted[0].dateOfSale then
      ConsKeepsOrder(x, sorted);
      [x] + sorted
    else
      var head, rest := sorted[0], InsertByDate(x, sorted[1..]);
      RestNotNewer(x, sorted, rest);
      ConsKeepsOrder(head, rest);
      HeadThenRest(sorted, rest, x);
      [head] + rest
  }

  /** A record no older than every record of a newest-first list can lead it. */
  lemma ConsKeepsOrder(h: SaleRow, rows: seq<SaleRow>)
    requires NewestFirst(rows)
    requires forall j :: 0 <= j < |rows| ==> rows[j].dateOfSale <= h.dateOfSale
    ensures NewestFirst([h] + rows)
  {
    var out := [h] + rows;
    forall i, j | 0 <= i < j < |out|
      ensures out[i].dateOfSale >= out[j].dateOfSale
    {
      assert out[j] == rows[j - 1];
      if i > 0 {
        assert out[i] == rows[i - 1];
      }
    }
  }

  lemma HeadThenRest(sorted: seq<SaleRow>, rest: seq<SaleRow>, x: SaleRow)
    requires sorted != []
    requires multiset(rest) == multiset(sorted[1..]) + multiset{x}
    ensures multiset([sorted[0]] + rest) == multiset(sorted) + multiset{x}
  {
    assert sorted == [sorted[0]] + sorted[1..];
  }

  /** Inserting an older record behind the head keeps every later record no newer than the head. */
  lemma RestNotNewer(x: SaleRow, sorted: seq<SaleRow>, rest: seq<SaleRow>)
    requires NewestFirst(sorted) && sorted != [] && x.dateOfSale < sorted[0].dateOfSale
    requires multiset(rest) == multiset(sorted[1..]) + multiset{x}
    ensures forall j :: 0 <= j < |rest| ==> rest[j].dateOfSale <= sorted[0].dateOfSale
  {
    forall j | 0 <= j < |rest|
      ensures rest[j].dateOfSale <= sorted[0].dateOfSale
    {
      assert rest[j] in multiset(rest);
      if rest[j] != x {
        assert rest[j] in multiset(sorted[1..]);
        var k :| 0 <= k < |sorted[1..]| && sorted[1..][k] == rest[j];
        assert sorted[k + 1] == rest[j];
      }
    }
  }

  /** `order_by('-date_of_sale')`: the same records, newest sale first. */
  function OrderByDateDesc(rows: seq<SaleRow>): (out: seq<SaleRow>)
    ensures NewestFirst(out)
    ensures multiset(out) == multiset(rows)
  {
    if rows == [] then []
    else
      assert rows == [rows[0]] + rows[1..];
      InsertByDate(rows[0], OrderByDateDesc(rows[1..]))
  }

  /** A page holds only items of the list it was cut from. */
  lemma PageWithinList(listed: seq<SaleRow>, pageParam: Option<string>, sizeParam: Option<string>)
    ensures var r := Paginate(listed, pageParam, sizeParam);
      r.Ok? ==> forall x :: x in r.value.results ==> x in listed
  {
    var r := Paginate(listed, pageParam, sizeParam);
    if r.Ok? {
      var start := PageStart(r.value.number, PageSize(sizeParam));
      RunWithin(listed, r.value.results, start);
    }
  }

  /** A page of a newest-first list is newest first. */
  lemma PageKeepsOrder(listed: seq<SaleRow>, pageParam: Option<string>, sizeParam: Option<string>)
    requires NewestFirst(listed)
    ensures var r := Paginate(listed, pageParam, sizeParam);
      r.Ok? ==> NewestFirst(r.value.results)
  {
    var r := Paginate(listed, pageParam, sizeParam);
    if r.Ok? {
      var start := PageStart(r.value.number, PageSize(sizeParam));
      RunKeepsOrder(listed, r.value.results, start);
    }
  }

  /** A run of consecutive items from `start` on. */
  predicate RunOf(listed: seq<SaleRow>, run: seq<SaleRow>, start: nat)
  {
    forall j :: 0 <= j < |run| ==> start + j < |listed| && run[j] == listed[start + j]
  }

  lemma RunWithin(listed: seq<SaleRow>, run: seq<SaleRow>, start: nat)
    requires RunOf(listed, run, start)
    ensures forall x :: x in run ==> x in listed
  {
    forall x | x in run
      ensures x in listed
    {
      var j :| 0 <= j < |run| && run[j] == x;
      assert listed[start + j] == x;
    }
  }

  lemma RunKeepsOrder(listed: seq<SaleRow>, run: seq<SaleRow>, start: nat)
    requires NewestFirst(listed) && RunOf(listed, run, start)
    ensures NewestFirst(run)
  {
    forall i, j | 0 <= i < j < |run|
      ensures run[i].dateOfSale >= run[j].dateOfSale
    {
      var a, b := run[i], run[j];
      assert start + i < start + j < |listed|;
      assert a == listed[start + i] && b == listed[start + j];
    }
  }

  /** Why the records list is refused: a rejected filter (400 or 500) or a page that does not exist (404). */
  datatype ListError = FilterRejected(error: FilterError) | PageNotFound

  /**
   * `SalesRecordViewSet.list` before rendering: filter, order newest first,
   * paginate. The page is the requested page of the matching records in
   * newest-first order: it holds only matching records, newest first, and
   * counts all matching records.
   */
  function ListSalesRecords(p: FilterParams, rows: seq<SaleRow>, offset: int,
                            pageParam: Option<string>, sizeParam: Option<string>)
    : (r: Result<Page<SaleRow>, ListError>)
    requires ValidParams(p)
    ensures FilterQueryset(p, rows, offset).Err? ==> r == Err(FilterRejected(FilterQueryset(p, rows, offset).error))
    ensures FilterQueryset(p, rows, offset).Ok? ==>
      var matching := FilterQueryset(p, rows, offset).value;
      && (r == Err(PageNotFound) <==> PageNumber(pageParam, NumPages(|matching|, PageSize(sizeParam))).Err?)
      && (r.Ok? ==> r.value.count == |matching|)
    ensures r.Ok? ==> NewestFirst(r.value.results)
    ensures r.Ok? ==> forall x :: x in r.value.results ==> x in rows && Matches(p, offset, x)
    ensures FilterQueryset(p, rows, offset).Ok? && r.Ok? ==>
      Paginate(OrderByDateDesc(FilterQueryset(p, rows, offset).value), pageParam, sizeParam) == Ok(r.value)
  {
    match FilterQueryset(p, rows, offset)
    case Err(e) => Err(FilterRejected(e))
    case Ok(matching) =>
      var listed := OrderByDateDesc(matching);
      match Paginate(listed, pageParam, sizeParam)
      case Err(_) => Err(PageNotFound)
      case Ok(page) =>
        PageWithinList(listed, pageParam, sizeParam);
        PageKeepsOrder(listed, pageParam, sizeParam);
        FilterQuerysetSpec(p, rows, offset);
        assert forall x :: x in listed ==> multiset(matching)[x] > 0;
        Ok(page)
  }

  // ---------------------------------------------------------------------------
  // `cache_page(60 * 20, key_prefix=…)`

  /** Both list responses are kept for twenty minutes. */
  const CacheTimeout: nat := 60 * 20

  /** The `key_prefix` of each list view. */
  const RecordListPrefix: string := "api_salesrecord_list"
  const AggregateListPrefix: string := "api_salesdataaggregate_list"

  const CachePageStem: string := "views.decorators.cache.cache_page."

  /**
   * The key `cache_page` stores a response under: the prefix, the request
   * method, digests of the URL and of the headers the response varies on,
   * then the language and time zone suffix. Computing the digests is not
   * modelled: they are given.
   */
  function CachePageKey(prefix: string, httpMethod: string, urlDigest: string, headersDigest: string, suffix: string)
    : string
  {
    CachePageStem + prefix + "." + httpMethod + "." + urlDigest + "." + headersDigest + suffix
  }

  /** Every page key of a view holds that view's prefix. */
  lemma PageKeyHoldsPrefix(prefix: string, httpMethod: string, urlDigest: string, headersDigest: string, suffix: string)
    ensures Contains(CachePageKey(prefix, httpMethod, urlDigest, headersDigest, suffix), prefix)
  {
    var tail := "." + httpMethod + "." + urlDigest + "." + headersDigest + suffix;
    assert CachePageKey(prefix, httpMethod, urlDigest, headersDigest, suffix) == CachePageStem + prefix + tail;
    ContainsInfix(CachePageStem, prefix, tail);
  }

  /**
   * A request through `cache_page`: a stored, unexpired response is served
   * as it is; otherwise the view's own response `rendered` is served, and
   * stored for twenty minutes only when its status is 200.
   */
  function ServeThrough(entries: map<string, Entry>, key: string, now: int, rendered: Response)
    : (Response, map<string, Entry>)
  {
    match Fetch(entries, key, now)
    case Some(cached) => (cached, entries)
    case None =>
      (rendered, if rendered.status == 200 then entries[key := Entry(rendered, now + CacheTimeout)] else entries)
  }

  /** The decorated `list`, on the shared cache; `rendered` is what the undecorated view renders now. */
  method CachedList(cache: Cache, key: string, now: int, rendered: Response) returns (served: Response)
    modifies cache
    ensures (served, cache.entries) == ServeThrough(old(cache.entries), key, now, rendered)
  {
    var stored := cache.Get(key, now);
    if stored.Some? {
      served := stored.value;
    } else {
      served := rendered;
      if rendered.status == 200 {
        cache.Set(key, rendered, CacheTimeout, now);
      }
    }
  }

  /**
   * For twenty minutes after a 200 response was rendered, the same request
   * is answered with it, whatever the view would render by then.
   */
  lemma RepeatServedFromCache(entries: map<string, Entry>, key: string, t0: int, t1: int,
                              rendered: Response, later: Response)
    requires Fetch(entries, key, t0).None? && rendered.status == 200
    requires t0 <= t1 < t0 + CacheTimeout
    ensures ServeThrough(ServeThrough(entries, key, t0, rendered).1, key, t1, later).0 == rendered
  {
  }

  /** A response other than 200 is not stored: the next request renders again. */
  lemma ErrorsNotCached(entries: map<string, Entry>, key: string, t0: int, t1: int,
                        rendered: Response, later: Response)
    requires Fetch(entries, key, t0).None? && rendered.status != 200
    requires Fetch(entries, key, t1).None?
    ensures ServeThrough(entries, key, t0, rendered).1 == entries
    ensures ServeThrough(ServeThrough(entries, key, t0, rendered).1, key, t1, later).0 == later
  {
  }

  /**
   * After a record is saved or deleted and the handler ran without backend
   * failure, no page of either list is served from the cache: the next
   * request renders the current data.
   */
  lemma WriteRefreshesLists(entries: map<string, Entry>, prefix: string, httpMethod: string, urlDigest: string,
                            headersDigest: string, suffix: string, now: int, rendered: Response)
    requires prefix == RecordListPrefix || prefix == AggregateListPrefix
    ensures var key := CachePageKey(prefix, httpMethod, urlDigest, headersDigest, suffix);
      ServeThrough(Invalidated(entries, NoFailure), key, now, rendered).0 == rendered
  {
    var key := CachePageKey(prefix, httpMethod, urlDigest, headersDigest, suffix);
    PageKeyHoldsPrefix(prefix, httpMethod, urlDigest, headersDigest, suffix);
    InvalidatedExactly(entries);
    assert key !in Invalidated(entries, NoFailure);
  }
}
