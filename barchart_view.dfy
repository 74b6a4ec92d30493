/** The price-range chart: buckets re-sorted by their lower bound, the label and data
    series, and the title. */
module BarChartView {
  import opened Text
  import opened Seqs
  import opened Counters
  import opened Records
  import opened BarChartApi

  /** `parseInt(range.split('-')[0], 10)`, with None for NaN. */
  function LeadingNumber(range: string): (r: Option<int>)
    ensures var first := Split(range, '-')[0];
      first != [] && AllDigits(first) ==> r == Some(DigitsValue(first))
    ensures Split(range, '-')[0] == [] ==> r.None?
  {
    var first := Split(range, '-')[0];
    if first != [] && AllDigits(first) then ParseIntOfDigits(first); ParseInt(first)
    else ParseInt(first)
  }

  /** The comparator only orders the buckets consistently when every lower bound parses. */
  predicate Sortable(ranges: seq<PriceRange>)
  {
    forall i :: 0 <= i < |ranges| ==> LeadingNumber(ranges[i].range).Some?
  }

  /** The sort key of a bucket. */
  function RangeMin(r: PriceRange): int
  {
    match LeadingNumber(r.range)
    case None => 0
    case Some(v) => v
  }

  /** `[...priceRanges].sort((a, b) => aMin - bMin)`: a sorted copy, which is a permutation
      of the buckets, non-decreasing by lower bound, and keeps buckets with equal lower
      bounds in their original order. */
  function SortRanges(ranges: seq<PriceRange>): (r: seq<PriceRange>)
    requires Sortable(ranges)
    ensures multiset(r) == multiset(ranges) && |r| == |ranges|
    ensures SortedBy(r, RangeMin)
    ensures forall k :: WithKey(r, RangeMin, k) == WithKey(ranges, RangeMin, k)
  {
    forall k ensures WithKey(SortBy(ranges, RangeMin), RangeMin, k) == WithKey(ranges, RangeMin, k) {
      SortByStable(ranges, RangeMin, k);
    }
    SortBy(ranges, RangeMin)
  }

  /** The data the chart is built from. */
  datatype ChartData = ChartData(labels: seq<string>, data: seq<nat>)

  function Labels(ranges: seq<PriceRange>): (ls: seq<string>)
    ensures |ls| == |ranges| && forall i :: 0 <= i < |ranges| ==> ls[i] == ranges[i].range
  {
    if ranges == [] then [] else [ranges[0].range] + Labels(ranges[1..])
  }

  function Counts(ranges: seq<PriceRange>): (cs: seq<nat>)
    ensures |cs| == |ranges| && forall i :: 0 <= i < |ranges| ==> cs[i] == ranges[i].count
  {
    if ranges == [] then [] else [ranges[0].count] + Counts(ranges[1..])
  }

  /** The chart for the fetched buckets: none while the list is empty; otherwise the
      labels and the counts of the sorted buckets, position by position. */
  function Chart(priceRanges: seq<PriceRange>): (c: Option<ChartData>)
    requires Sortable(priceRanges)
    ensures c.None? <==> priceRanges == []
    ensures c.Some? ==>
      |c.value.labels| == |c.value.data| == |priceRanges| &&
      forall i :: 0 <= i < |priceRanges| ==>
        c.value.labels[i] == SortRanges(priceRanges)[i].range &&
        c.value.data[i] == SortRanges(priceRanges)[i].count
  {
    if |priceRanges| > 0 then
      var sorted := SortRanges(priceRanges);
      Some(ChartData(Labels(sorted), Counts(sorted)))
    else None
  }

  lemma LeadingNumberOfRangeLabel(start: nat)
    ensures LeadingNumber(RangeLabel(start)) == Some(start)
  {
    RangeLabelSplit(start);
    ParseIntOfDigits(Decimal(start));
    DigitsValueOfDecimal(start);
  }

  /** The buckets the route answers are sortable, and once sorted their lower bounds are
      strictly increasing: each bucket appears once, in price order. */
  lemma HistogramChartOrder(ps: seq<PricePoint>)
    ensures Sortable(ToPriceRanges(HistogramOf(ps)))
    ensures var s := SortRanges(ToPriceRanges(HistogramOf(ps)));
      forall i, j :: 0 <= i < j < |s| ==> RangeMin(s[i]) < RangeMin(s[j])
  {
    var d := HistogramOf(ps);
    var ranges := ToPriceRanges(d);
    HistogramCounts(ps);
    HistogramSpec(ps);
    forall i | 0 <= i < |ranges|
      ensures LeadingNumber(ranges[i].range) == Some(LabelStart(d[i].key))
    {
      LeadingNumberOfRangeLabel(LabelStart(d[i].key));
    }
    DistinctStarts(d, ranges);
    var s := SortRanges(ranges);
    DistinctMinsOfPermutation(ranges, s);
  }

  /** Distinct labels of the form `RangeLabel(start)` have distinct sort keys. */
  lemma DistinctStarts(d: seq<Entry<string>>, ranges: seq<PriceRange>)
    requires DistinctKeys(d) && ranges == ToPriceRanges(d)
    requires forall i :: 0 <= i < |d| ==> d[i].key == RangeLabel(LabelStart(d[i].key))
    requires forall i :: 0 <= i < |ranges| ==> LeadingNumber(ranges[i].range) == Some(LabelStart(d[i].key))
    ensures forall i, j :: 0 <= i < j < |ranges| ==> RangeMin(ranges[i]) != RangeMin(ranges[j])
  {
    forall i, j | 0 <= i < j < |ranges| ensures RangeMin(ranges[i]) != RangeMin(ranges[j]) {
      assert d[i].key != d[j].key;
      assert RangeMin(ranges[i]) == LabelStart(d[i].key);
      assert RangeMin(ranges[j]) == LabelStart(d[j].key);
    }
  }

  /** Distinct keys stay distinct under a permutation, so a sorted permutation is strictly
      increasing. */
  lemma DistinctMinsOfPermutation(a: seq<PriceRange>, b: seq<PriceRange>)
    requires forall i, j :: 0 <= i < j < |a| ==> RangeMin(a[i]) != RangeMin(a[j])
    requires multiset(a) == multiset(b) && SortedBy(b, RangeMin)
    ensures forall i, j :: 0 <= i < j < |b| ==> RangeMin(b[i]) < RangeMin(b[j])
  {
    forall i, j | 0 <= i < j < |b| ensures RangeMin(b[i]) < RangeMin(b[j]) {
      assert b[i] in multiset(a) && b[j] in multiset(a);
      var p :| 0 <= p < |a| && a[p] == b[i];
      var q :| 0 <= q < |a| && a[q] == b[j];
      if p == q {
        RepeatMultiplicity(b, i, j);
        SingleRange(a, RangeMin, p);
        assert false;
      }
    }
  }

  /** With distinct sort keys, each bucket occurs once. */
  lemma {:induction false} SingleRange<T>(a: seq<T>, key: T -> int, p: nat)
    requires p < |a|
    requires forall i, j :: 0 <= i < j < |a| ==> key(a[i]) != key(a[j])
    ensures multiset(a)[a[p]] == 1
  {
    assert a == a[..p] + [a[p]] + a[p + 1..];
    forall k | 0 <= k < |a| && k != p ensures a[k] != a[p] {
      if k < p {
        assert key(a[k]) != key(a[p]);
      } else {
        assert key(a[p]) != key(a[k]);
      }
    }
    NotIn(a[..p], a[p]);
    NotIn(a[p + 1..], a[p]);
  }

  lemma NotIn<T>(xs: seq<T>, x: T)
    requires forall k :: 0 <= k < |xs| ==> xs[k] != x
    ensures multiset(xs)[x] == 0
  {
  }

  const MonthNames: seq<string> := ["January", "February", "March", "April", "May", "June", "July",
    "August", "September", "October", "November", "December"]

  /** The month in the chart heading, read with `parseInt(selectedMonth)` (no radix):
      "All Months" for 13, the month's name for 1 to 12, and `undefined` (None, which
      renders as nothing) for anything else. */
  function Title(selectedMonth: string): (r: Option<string>)
    ensures r == Some("All Months") <==> ParseIntAnyRadix(selectedMonth) == Some(13)
    ensures forall m :: 1 <= m <= 12 && ParseIntAnyRadix(selectedMonth) == Some(m) ==> r == Some(MonthNames[m - 1])
    ensures r.None? <==> !(ParseIntAnyRadix(selectedMonth).Some? && 1 <= ParseIntAnyRadix(selectedMonth).value <= 13)
  {
    var m := ParseIntAnyRadix(selectedMonth);
    if m == Some(13) then Some("All Months")
    else if m.Some? && 1 <= m.value <= 12 then
      MonthNameShort(m.value - 1);
      Some(MonthNames[m.value - 1])
    else None
  }

  /** Every month name is shorter than "All Months". */
  lemma MonthNameShort(k: nat)
    requires k < 12
    ensures |MonthNames[k]| < |"All Months"|
  {
  }

  /** The options of the month selector carry `String(index + 1)`, so each selection shows
      its own month's name, and the last one "All Months". */
  lemma TitleOfSelection(m: int)
    requires 1 <= m <= 13
    ensures Title(IntToString(m)) == if m == 13 then Some("All Months") else Some(MonthNames[m - 1])
  {
    ParseIntAnyRadixOfIntToString(m);
  }

  /** Without a radix a `0x` prefix reads hexadecimal: "0xC" is December and "0xD" is
      all months. */
  lemma TitleOfHexadecimal()
    ensures Title("0xC") == Some("December")
    ensures Title("0xD") == Some("All Months")
  {
    assert "0xC" == "0x" + "C" && "0xD" == "0x" + "D";
    ParseIntAnyRadixOfHex("C");
    ParseIntAnyRadixOfHex("D");
    assert HexValue("C") == 12 by { assert "C"[..0] == []; }
    assert HexValue("D") == 13 by { assert "D"[..0] == []; }
  }
}
