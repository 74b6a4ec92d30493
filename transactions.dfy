/** The listing route: query parameters, month filter, one page of records and the
    number of pages. */
module Transactions {
  import opened Text
  import opened Records

  /** The query parameters after `parseInt(…, 10)`; None stands for NaN. */
  datatype Params = Params(month: Option<int>, page: Option<int>, limit: Option<int>)

  /** `searchParams.get(name) || fallback`: a missing or empty parameter gives the fallback. */
  function ParamOr(raw: Option<string>, fallback: string): string
  {
    if raw.Some? && raw.value != "" then raw.value else fallback
  }

  /** The three parameters of a request, each read with `parseInt(…, 10)` from its own text,
      or from "13", "1" and "10" when the parameter is missing or empty. */
  function QueryParams(month: Option<string>, page: Option<string>, limit: Option<string>): (r: Params)
    ensures month.Some? && month.value != "" ==> r.month == ParseInt(month.value)
    ensures page.Some? && page.value != "" ==> r.page == ParseInt(page.value)
    ensures limit.Some? && limit.value != "" ==> r.limit == ParseInt(limit.value)
    ensures month.None? || month == Some("") ==> r.month == Some(13)
    ensures page.None? || page == Some("") ==> r.page == Some(1)
    ensures limit.None? || limit == Some("") ==> r.limit == Some(10)
  {
    DefaultsRead();
    Params(ParseInt(ParamOr(month, "13")), ParseInt(ParamOr(page, "1")), ParseInt(ParamOr(limit, "10")))
  }

  /** The three default texts read as the numbers they spell. */
  lemma DefaultsRead()
    ensures ParseInt("13") == Some(13) && ParseInt("1") == Some(1) && ParseInt("10") == Some(10)
  {
    ParseIntOfDigits("13");
    ParseIntOfDigits("1");
    ParseIntOfDigits("10");
  }

  /** Parameters written as integers are read back as those integers. */
  lemma QueryParamsOfIntegers(month: int, page: int, limit: int)
    ensures QueryParams(Some(IntToString(month)), Some(IntToString(page)), Some(IntToString(limit)))
      == Params(Some(month), Some(page), Some(limit))
  {
    ParseIntOfIntToString(month);
    ParseIntOfIntToString(page);
    ParseIntOfIntToString(limit);
  }

  function Min(a: int, b: int): int { if a <= b then a else b }

  /** A `slice` bound: a negative one counts from the end; both are clamped to `0..n`. */
  function RelativeIndex(k: int, n: nat): (r: nat)
    ensures r <= n
    ensures 0 <= k <= n ==> r == k
  {
    if k < 0 then (if n + k < 0 then 0 else n + k) else Min(k, n)
  }

  /** `xs.slice(start, end)`. */
  function Slice<T>(xs: seq<T>, start: int, end: int): (r: seq<T>)
    ensures |r| <= |xs| && forall x :: x in r ==> x in xs
    ensures 0 <= start <= end <= |xs| ==> r == xs[start..end]
    ensures 0 <= end <= start ==> r == []
    ensures -|xs| <= start < 0 && end >= |xs| ==> r == xs[|xs| + start..]
    ensures -|xs| <= end < 0 && 0 <= start <= |xs| + end ==> r == xs[start..|xs| + end]
  {
    var from, to := RelativeIndex(start, |xs|), RelativeIndex(end, |xs|);
    if from < to then xs[from..to] else []
  }

  /** A slice `limit` wide holds at most `limit` elements, wherever it starts (a page
      number below 1 gives a negative start, which counts from the end). */
  lemma SliceLength<T>(xs: seq<T>, start: int, width: int)
    requires width >= 0
    ensures |Slice(xs, start, start + width)| <= width
  {
  }

  /** `(page - 1) * limit`, NaN when either operand is. */
  function StartIndex(page: Option<int>, limit: Option<int>): Option<int>
  {
    if page.Some? && limit.Some? then Some((page.value - 1) * limit.value) else None
  }

  /** `transactions.slice(startInd, startInd + limit)`; a NaN bound reads as 0, so a NaN
      page or limit gives the empty page. */
  function PageOf<T>(xs: seq<T>, page: Option<int>, limit: Option<int>): (r: seq<T>)
    ensures page.None? || limit.None? ==> r == []
    ensures limit.Some? && limit.value >= 0 ==> |r| <= limit.value
    ensures forall x :: x in r ==> x in xs
    ensures page == Some(1) && limit.Some? && -|xs| <= limit.value < 0 ==>
      r == xs[..|xs| + limit.value]
  {
    match StartIndex(page, limit)
    case None => Slice(xs, 0, 0)
    case Some(s) =>
      if limit.value >= 0 then
        SliceLength(xs, s, limit.value);
        Slice(xs, s, s + limit.value)
      else Slice(xs, s, s + limit.value)
  }

  /** For a page and limit of at least 1 the page is the run of at most `limit` records
      that starts at `(page - 1) * limit`, and it is empty exactly when that start is
      past the end. */
  lemma PageOfSpec<T>(xs: seq<T>, page: int, limit: int)
    requires page >= 1 && limit >= 1
    ensures (page - 1) * limit >= |xs| ==> PageOf(xs, Some(page), Some(limit)) == []
    ensures (page - 1) * limit < |xs| ==>
      PageOf(xs, Some(page), Some(limit)) == xs[(page - 1) * limit..Min(|xs|, page * limit)]
    ensures |PageOf(xs, Some(page), Some(limit))| <= limit
    ensures PageOf(xs, Some(page), Some(limit)) == [] <==> (page - 1) * limit >= |xs|
  {
    var s := (page - 1) * limit;
    assert s >= 0;
    assert s + limit == page * limit;
  }

  /** `Math.ceil(a / b)` for a non-zero divisor. */
  function CeilDiv(a: int, b: int): int
    requires b != 0
  {
    if b > 0 then -((-a) / b) else -(a / (-b))
  }

  /** The quotient rounded up is the least number of `b`-sized pages that hold `a`. */
  lemma CeilDivBounds(a: nat, b: int)
    requires b >= 1
    ensures CeilDiv(a, b) >= 0
    ensures CeilDiv(a, b) * b >= a
    ensures (CeilDiv(a, b) - 1) * b < a
    ensures CeilDiv(a, b) == 0 <==> a == 0
  {
    var m: int := 0 - a;
    var q, r := m / b, m % b;
    assert q * b + r == m && 0 <= r < b;
    assert (0 - q) * b == a + r;
    assert (0 - q - 1) * b == a + r - b;
  }

  /** `Math.ceil(n / limit)` as a JSON value: None is `null`, which is what NaN (a NaN
      limit, or `0 / 0`) and Infinity (`n / 0` for n > 0) become. With a limit of at least
      1 it is the least page count that holds all `n` records, 0 exactly when there are
      none; a negative limit gives no page at all. */
  function TotalPages(n: nat, limit: Option<int>): (r: Option<int>)
    ensures r.None? <==> limit.None? || limit.value == 0
    ensures limit.Some? && limit.value >= 1 ==>
      var t := r.value;
      t >= 0 && t * limit.value >= n && (t - 1) * limit.value < n && (t == 0 <==> n == 0)
    ensures limit.Some? && limit.value < 0 ==> r.value <= 0
  {
    if limit.None? || limit.value == 0 then None
    else if limit.value >= 1 then
      CeilDivBounds(n, limit.value);
      Some(CeilDiv(n, limit.value))
    else Some(CeilDiv(n, limit.value))
  }

  lemma MulMonotone(a: int, b: int, l: int)
    requires a <= b && l >= 0
    ensures a * l <= b * l
  {
  }

  /** A page holds records exactly when its number is at most `totalPages`, so the pager's
      Next bound and the route agree. */
  lemma PageNonEmptyIff<T>(xs: seq<T>, page: int, limit: int)
    requires page >= 1 && limit >= 1
    ensures PageOf(xs, Some(page), Some(limit)) != [] <==> page <= TotalPages(|xs|, Some(limit)).value
  {
    PageOfSpec(xs, page, limit);
    var t := TotalPages(|xs|, Some(limit)).value;
    if page <= t {
      MulMonotone(page - 1, t - 1, limit);
    } else {
      MulMonotone(t, page - 1, limit);
    }
  }

  /** Pages `1..count` one after the other. */
  function Pages<T>(xs: seq<T>, limit: int, count: int): seq<T>
    decreases count
  {
    if count <= 0 then [] else Pages(xs, limit, count - 1) + PageOf(xs, Some(count), Some(limit))
  }

  /** The first `k` pages are the first `k * limit` records (or all of them). */
  lemma {:induction false} PagesPrefix<T>(xs: seq<T>, limit: int, k: nat)
    requires limit >= 1
    ensures Pages(xs, limit, k) == xs[..Min(|xs|, k * limit)]
  {
    if k > 0 {
      PagesPrefix(xs, limit, k - 1);
      PagesStep(xs, limit, k, (k - 1) * limit, k * limit);
    }
  }

  /** Page `k` continues the first `k - 1` pages up to record `k * limit`. */
  lemma PagesStep<T>(xs: seq<T>, limit: int, k: int, s: int, e: int)
    requires limit >= 1 && k >= 1 && s == (k - 1) * limit && e == k * limit
    requires Pages(xs, limit, k - 1) == xs[..Min(|xs|, s)]
    ensures Pages(xs, limit, k) == xs[..Min(|xs|, e)]
  {
    PageOfSpec(xs, k, limit);
    assert 0 <= s <= e by { MulMonotone(k - 1, k, limit); MulMonotone(0, k - 1, limit); }
    PrefixJoin(xs, s, e);
  }

  /** The records before `s` followed by those from `s` up to `e` are those before `e`. */
  lemma PrefixJoin<T>(xs: seq<T>, s: nat, e: int)
    requires s <= e
    ensures xs[..Min(|xs|, s)] + (if s >= |xs| then [] else xs[s..Min(|xs|, e)]) == xs[..Min(|xs|, e)]
  {
    if s < |xs| {
      assert xs[..s] + xs[s..Min(|xs|, e)] == xs[..Min(|xs|, e)];
    }
  }

  /** Pages `1..totalPages` concatenated give back the whole filtered list. */
  lemma PagesReconstruct<T>(xs: seq<T>, limit: int)
    requires limit >= 1
    ensures Pages(xs, limit, TotalPages(|xs|, Some(limit)).value) == xs
  {
    var t := TotalPages(|xs|, Some(limit)).value;
    PagesPrefix(xs, limit, t);
    assert xs[..|xs|] == xs;
  }

  /** The body of a successful reply. */
  datatype Listing = Listing(transactions: seq<Transaction>, totalPages: Option<int>)

  /** The listing route over the store's answer (`documents`, absent when the collection
      is empty) and the parsed query parameters. */
  function List(documents: Option<seq<Document>>, params: Params): (r: Reply<Listing>)
    ensures r.InternalServerError? <==> Query(documents, NormalizeFields, DateOf, params.month).None?
    ensures documents.None? ==> r == Ok(Listing([], TotalPages(0, params.limit)))
    ensures r.Ok? && params.limit.Some? && params.limit.value >= 1 ==>
      |r.value.transactions| <= params.limit.value
    ensures r.Ok? ==> forall t :: t in r.value.transactions ==>
      t in Query(documents, NormalizeFields, DateOf, params.month).value
    ensures r.Ok? ==>
      var ts := Query(documents, NormalizeFields, DateOf, params.month).value;
      r.value == Listing(PageOf(ts, params.page, params.limit), TotalPages(|ts|, params.limit))
  {
    match Query(documents, NormalizeFields, DateOf, params.month)
    case None => InternalServerError
    case Some(ts) =>
      Ok(Listing(PageOf(ts, params.page, params.limit), TotalPages(|ts|, params.limit)))
  }
}
