/** The record shapes every route shares: a document as the store returns it, the
    `Transaction` it is normalized to, and the month filter. */
module Records {
  import opened Text
  import opened Seqs

  /** A price in whole currency units, or a stored price value whose string form
      `parseFloat` does not read as a number (such as the text "n/a"). */
  datatype Price = Amount(units: nat) | Unparsable(text: string)

  /** JavaScript truthiness of a price value: `0` and `""` are falsy. */
  predicate PriceTruthy(p: Price)
  {
    match p
    case Amount(n) => n != 0
    case Unparsable(t) => t != ""
  }

  /** `price.toString()`. */
  function PriceText(p: Price): string
  {
    match p
    case Amount(n) => Decimal(n)
    case Unparsable(t) => t
  }

  /** `parseFloat(price.toString())`, with None for NaN. */
  function ParsedPrice(p: Price): Option<nat>
  {
    match p
    case Amount(n) => Some(n)
    case Unparsable(_) => None
  }

  /** The typed values a document carries, one per field name; None where the field is
      missing or holds a value of another type (`fields.title?.stringValue` is then
      `undefined`). Price may carry a `doubleValue`, an `integerValue`, or both. */
  datatype Fields = Fields(
    itemId: Option<int>,
    title: Option<string>,
    priceDouble: Option<Price>,
    priceInteger: Option<Price>,
    description: Option<string>,
    category: Option<string>,
    image: Option<string>,
    sold: Option<bool>,
    dateOfSale: Option<string>)

  /** One entry of `data.documents`; a document with no fields has no `fields` object. */
  datatype Document = Document(fields: Option<Fields>)

  datatype Transaction = Transaction(
    itemId: int,
    title: string,
    price: Price,
    description: string,
    category: string,
    image: string,
    sold: bool,
    dateOfSale: string)

  /** The answer of a route: its JSON body, or the 500 "Internal Server Error" reply. */
  datatype Reply<T> = Ok(value: T) | InternalServerError

  /** `v || d` for a number field. */
  function IntOr(v: Option<int>, d: int): int
  {
    if v.Some? && v.value != 0 then v.value else d
  }

  /** `v || d` for a string field. */
  function StringOr(v: Option<string>, d: string): string
  {
    if v.Some? && v.value != "" then v.value else d
  }

  /** `v || d` for a boolean field. */
  function BoolOr(v: Option<bool>, d: bool): bool
  {
    if v.Some? && v.value then v.value else d
  }

  /** `v || d` for a price value. */
  function PriceOr(v: Option<Price>, d: Price): Price
  {
    if v.Some? && PriceTruthy(v.value) then v.value else d
  }

  /** The fields of a normalized record that the store may hold: a price that is
      present is never the falsy `""`. */
  predicate WellFormedPrice(p: Price) { p != Unparsable("") }

  /** Normalization of one document's fields (`fields.x?.yValue || default` per field).
      Every field gets a value: the stored one if present, else `0`, `""` or `false`;
      for price, a truthy `doubleValue` wins over a truthy `integerValue`, else `0`. */
  function NormalizeFields(f: Fields): (t: Transaction)
    ensures t.itemId == (if f.itemId.Some? then f.itemId.value else 0)
    ensures t.title == (if f.title.Some? then f.title.value else "")
    ensures t.description == (if f.description.Some? then f.description.value else "")
    ensures t.category == (if f.category.Some? then f.category.value else "")
    ensures t.image == (if f.image.Some? then f.image.value else "")
    ensures t.sold == (f.sold == Some(true))
    ensures t.dateOfSale == (if f.dateOfSale.Some? then f.dateOfSale.value else "")
    ensures f.priceDouble.Some? && PriceTruthy(f.priceDouble.value) ==> t.price == f.priceDouble.value
    ensures (f.priceDouble.None? || !PriceTruthy(f.priceDouble.value)) ==>
      t.price == (if f.priceInteger.Some? && PriceTruthy(f.priceInteger.value) then f.priceInteger.value else Amount(0))
    ensures WellFormedPrice(t.price)
  {
    Transaction(
      IntOr(f.itemId, 0),
      StringOr(f.title, ""),
      PriceOr(f.priceDouble, PriceOr(f.priceInteger, Amount(0))),
      StringOr(f.description, ""),
      StringOr(f.category, ""),
      StringOr(f.image, ""),
      BoolOr(f.sold, false),
      StringOr(f.dateOfSale, ""))
  }

  /** The document the store holds for a record (every field present, price as
      `doubleValue`). */
  function ToFields(t: Transaction): Fields
  {
    Fields(Some(t.itemId), Some(t.title), Some(t.price), None, Some(t.description),
           Some(t.category), Some(t.image), Some(t.sold), Some(t.dateOfSale))
  }

  /** Normalizing an already normalized record gives it back unchanged. */
  lemma NormalizeIdempotent(t: Transaction)
    requires WellFormedPrice(t.price)
    ensures NormalizeFields(ToFields(t)) == t
  {
    if t.price.Amount? && t.price.units == 0 {
      assert NormalizeFields(ToFields(t)).price == Amount(0);
    } else {
      assert PriceTruthy(t.price);
    }
  }

  /** `data.documents?.map(doc => normalize(doc.fields)) || []`: no `documents` gives the
      empty list; a document without `fields` makes the callback throw (None). */
  function NormalizeWith<T>(documents: Option<seq<Document>>, normalize: Fields -> T): (r: Option<seq<T>>)
    ensures documents.None? ==> r == Some([])
    ensures documents.Some? ==>
      (r.Some? <==> forall i :: 0 <= i < |documents.value| ==> documents.value[i].fields.Some?)
    ensures documents.Some? && r.Some? ==>
      |r.value| == |documents.value| &&
      forall i :: 0 <= i < |r.value| ==> r.value[i] == normalize(documents.value[i].fields.value)
  {
    match documents
    case None => Some([])
    case Some(docs) => MapDocuments(docs, normalize)
  }

  function MapDocuments<T>(docs: seq<Document>, normalize: Fields -> T): (r: Option<seq<T>>)
    ensures r.Some? <==> forall i :: 0 <= i < |docs| ==> docs[i].fields.Some?
    ensures r.Some? ==>
      |r.value| == |docs| && forall i :: 0 <= i < |docs| ==> r.value[i] == normalize(docs[i].fields.value)
  {
    if docs == [] then Some([])
    else
      match MapDocuments(docs[..|docs| - 1], normalize)
      case None => None
      case Some(init) =>
        match docs[|docs| - 1].fields
        case None => None
        case Some(f) => Some(init + [normalize(f)])
  }

  /** The full normalizer of the listing, statistics and category routes. */
  function NormalizeAll(documents: Option<seq<Document>>): Option<seq<Transaction>>
  {
    NormalizeWith(documents, NormalizeFields)
  }

  /** The reduced record of the price-range route. */
  datatype PricePoint = PricePoint(itemId: int, price: Price, dateOfSale: string)

  /** The price-range route's normalizer: only `itemId`, `price` and `dateOfSale`. */
  function NormalizePoint(f: Fields): (r: PricePoint)
    ensures r == Reduce(NormalizeFields(f))
  {
    PricePoint(
      IntOr(f.itemId, 0),
      PriceOr(f.priceDouble, PriceOr(f.priceInteger, Amount(0))),
      StringOr(f.dateOfSale, ""))
  }

  /** The three fields the price-range route keeps of a record. */
  function Reduce(t: Transaction): PricePoint
  {
    PricePoint(t.itemId, t.price, t.dateOfSale)
  }

  function DateOf(t: Transaction): string { t.dateOfSale }

  function PointDateOf(p: PricePoint): string { p.dateOfSale }

  /** `date.split('T')[0]`: the date part of an ISO date-time. */
  function DatePart(date: string): (r: string)
    ensures 'T' !in r && r <= date
    ensures r == date <==> 'T' !in date
    ensures r != date ==> date[|r|] == 'T'
  {
    Split(date, 'T')[0]
  }

  /** `date.split('T')[0].split('-')[1]`, with None for `undefined`. */
  function MonthOf(date: string): (r: Option<string>)
    ensures r.Some? <==> '-' in DatePart(date)
    ensures r.Some? ==> '-' !in r.value && 'T' !in r.value
  {
    var pieces := Split(DatePart(date), '-');
    if |pieces| >= 2 then
      assert pieces[1] <= DatePart(date)[|pieces[0]| + 1..] by {
        SplitSecondPiece(DatePart(date), '-');
      }
      NoCharInPrefix(pieces[1], DatePart(date), |pieces[0]| + 1, 'T');
      Some(pieces[1])
    else None
  }

  /** A date written `year-month-day`, with an optional time after a `T`, has `month`
      as its month piece. */
  lemma MonthOfIsoDate(year: string, month: string, day: string, time: string)
    requires '-' !in year && '-' !in month && '-' !in day
    requires 'T' !in year && 'T' !in month && 'T' !in day
    requires time == [] || time[0] == 'T'
    ensures MonthOf(year + "-" + month + "-" + day + time) == Some(month)
  {
    var ymd := year + "-" + month + "-" + day;
    assert [year, month, day][1..] == [month, day] && [month, day][1..] == [day];
    assert Join([month, day], '-') == month + "-" + day;
    assert ymd == Join([year, month, day], '-');
    SplitJoin([year, month, day], '-');
    assert 'T' !in ymd;
    if time == [] {
      assert ymd + time == ymd;
      SplitFree(ymd, 'T');
    } else {
      assert ymd + time == ymd + ['T'] + time[1..];
      SplitPrefix(ymd, time[1..], 'T');
    }
    assert DatePart(ymd + time) == ymd;
  }

  lemma NoCharInPrefix(p: string, whole: string, k: nat, c: char)
    requires k <= |whole| && p <= whole[k..] && c !in whole
    ensures c !in p
  {
    forall i | 0 <= i < |p| ensures p[i] != c {
      assert p[i] == whole[k + i];
    }
  }

  /** The second piece of a split starts right after the first separator. */
  lemma {:induction false} SplitSecondPiece(s: string, c: char)
    requires |Split(s, c)| >= 2
    ensures |Split(s, c)[0]| < |s|
    ensures Split(s, c)[1] <= s[|Split(s, c)[0]| + 1..]
  {
    var p := Split(s, c)[0];
    var rest := s[|p| + 1..];
    JoinSplit(s, c);
    var pieces := Split(s, c);
    assert s == pieces[0] + [c] + Join(pieces[1..], c);
    assert rest == Join(pieces[1..], c);
    JoinHead(pieces[1..], c);
  }

  lemma JoinHead(pieces: seq<string>, c: char)
    requires |pieces| >= 1
    ensures pieces[0] <= Join(pieces, c)
  {
  }

  /** `String(x)` for a number that is an integer or NaN (None). */
  function NumberString(x: Option<int>): string
  {
    match x
    case None => "NaN"
    case Some(i) => IntToString(i)
  }

  /** `month.toString().padStart(2, '0')`; the month is the result of `parseInt`, so it
      may be NaN (None), whose token "NaN" is already longer than two. */
  function MonthToken(month: Option<int>): (r: string)
    ensures |r| >= 2
    ensures month.None? ==> r == "NaN"
    ensures month.Some? && month.value >= 0 ==> AllDigits(r) && DigitsValue(r) == month.value
  {
    if month.Some? && month.value >= 0 then
      DigitsValuePadStart(Decimal(month.value), 2);
      DigitsValueOfDecimal(month.value);
      PadStart(NumberString(month), 2, '0')
    else PadStart(NumberString(month), 2, '0')
  }

  /** For a calendar month the token is two digits that read back as the month. */
  lemma MonthTokenOfCalendarMonth(month: int)
    requires 1 <= month <= 12
    ensures |MonthToken(Some(month))| == 2 && AllDigits(MonthToken(Some(month)))
    ensures DigitsValue(MonthToken(Some(month))) == month
  {
    assert NumberString(Some(month)) == Decimal(month);
    PaddedDecimal(month);
  }

  lemma PaddedDecimal(n: nat)
    requires 1 <= n <= 12
    ensures |PadStart(Decimal(n), 2, '0')| == 2 && AllDigits(PadStart(Decimal(n), 2, '0'))
    ensures DigitsValue(PadStart(Decimal(n), 2, '0')) == n
  {
    ShortDecimal(n);
    DigitsValuePadStart(Decimal(n), 2);
    DigitsValueOfDecimal(n);
  }

  /** A number below 100 has at most two digits. */
  lemma ShortDecimal(n: nat)
    requires n < 100
    ensures |Decimal(n)| <= 2
  {
    if n >= 10 {
      var q := n / 10;
      assert q < 10;
      assert |Decimal(q)| == 1;
    }
  }

  /** Distinct calendar months have distinct tokens, so a record is in at most one of them. */
  lemma MonthTokenInjective(a: int, b: int)
    requires 1 <= a <= 12 && 1 <= b <= 12
    ensures MonthToken(Some(a)) == MonthToken(Some(b)) <==> a == b
  {
    MonthTokenOfCalendarMonth(a);
    MonthTokenOfCalendarMonth(b);
  }

  /** A record dated `date` belongs to `month`: the month piece of its date equals the
      padded month number (`undefined` never does). */
  predicate InMonth(date: string, month: Option<int>)
  {
    MonthOf(date) == Some(MonthToken(month))
  }

  function MonthPredicate<T>(dateOf: T -> string, month: Option<int>): T -> bool
  {
    x => InMonth(dateOf(x), month)
  }

  /** The month filter: month 13 keeps every record, any other month (NaN included) keeps
      the records dated in that month. */
  function FilterMonth<T>(xs: seq<T>, dateOf: T -> string, month: Option<int>): (r: seq<T>)
    ensures month == Some(13) ==> r == xs
    ensures month != Some(13) ==> forall i :: 0 <= i < |r| ==> r[i] in xs && InMonth(dateOf(r[i]), month)
    ensures month != Some(13) ==> forall i :: 0 <= i < |xs| && InMonth(dateOf(xs[i]), month) ==> xs[i] in r
  {
    if month == Some(13) then xs
    else
      MonthFilterMembers(xs, dateOf, month);
      Filter(xs, MonthPredicate(dateOf, month))
  }

  lemma MonthFilterMembers<T>(xs: seq<T>, dateOf: T -> string, month: Option<int>)
    ensures forall i :: 0 <= i < |Filter(xs, MonthPredicate(dateOf, month))| ==>
      Filter(xs, MonthPredicate(dateOf, month))[i] in xs &&
      InMonth(dateOf(Filter(xs, MonthPredicate(dateOf, month))[i]), month)
    ensures forall i :: 0 <= i < |xs| && InMonth(dateOf(xs[i]), month) ==>
      xs[i] in Filter(xs, MonthPredicate(dateOf, month))
  {
    FilterAt(xs, MonthPredicate(dateOf, month));
  }

  /** Any other month keeps, in order, exactly the records whose date carries that month;
      a date with no `-` before its `T` is never kept. */
  lemma FilterMonthSpec<T>(xs: seq<T>, dateOf: T -> string, month: Option<int>)
    requires month != Some(13)
    ensures IsSubsequence(FilterMonth(xs, dateOf, month), xs)
    ensures |FilterMonth(xs, dateOf, month)| == Count(xs, MonthPredicate(dateOf, month))
    ensures forall x :: x in FilterMonth(xs, dateOf, month) <==> x in xs && InMonth(dateOf(x), month)
    ensures forall x :: x in FilterMonth(xs, dateOf, month) ==> '-' in DatePart(dateOf(x))
  {
    FilterSpec(xs, MonthPredicate(dateOf, month));
  }

  /** Filtering twice by the same month is filtering once. */
  lemma FilterMonthIdempotent<T>(xs: seq<T>, dateOf: T -> string, month: Option<int>)
    ensures FilterMonth(FilterMonth(xs, dateOf, month), dateOf, month) == FilterMonth(xs, dateOf, month)
  {
    if month != Some(13) {
      FilterIdempotent(xs, MonthPredicate(dateOf, month));
    }
  }

  /** The records a route works on: the normalized documents, filtered by month; None
      when a document has no `fields` and the route answers 500. */
  function Query<T>(documents: Option<seq<Document>>, normalize: Fields -> T,
                    dateOf: T -> string, month: Option<int>): (r: Option<seq<T>>)
    ensures r.None? <==> NormalizeWith(documents, normalize).None?
    ensures documents.None? ==> r == Some([])
    ensures r.Some? ==> r.value == FilterMonth(NormalizeWith(documents, normalize).value, dateOf, month)
  {
    match NormalizeWith(documents, normalize)
    case None => None
    case Some(xs) => Some(FilterMonth(xs, dateOf, month))
  }
}
