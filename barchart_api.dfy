/** The price-range route: a histogram of the month's prices in buckets of 100, as a
    counter object keyed by the bucket's label. */
module BarChartApi {
  import opened Text
  import opened Seqs
  import opened Counters
  import opened Records

  /** `Math.floor(price / 100) * 100`: the bucket that holds a price. */
  function BucketStart(price: nat): (start: nat)
    ensures start % 100 == 0 && start <= price < start + 100
  {
    (price / 100) * 100
  }

  /** Exactly one bucket start holds each price. */
  lemma BucketStartUnique(price: nat, start: nat)
    requires start % 100 == 0 && start <= price < start + 100
    ensures start == BucketStart(price)
  {
    var b := BucketStart(price);
    assert start / 100 * 100 == start && b / 100 * 100 == b;
    assert start / 100 == price / 100;
  }

  /** `` `${rangeStart}-${rangeEnd}` `` with `rangeEnd = rangeStart + 99`. */
  function RangeLabel(start: nat): string
  {
    Decimal(start) + "-" + Decimal(start + 99)
  }

  /** The label splits back into the decimal forms of its two ends. */
  lemma RangeLabelSplit(start: nat)
    ensures Split(RangeLabel(start), '-') == [Decimal(start), Decimal(start + 99)]
  {
    var pieces := [Decimal(start), Decimal(start + 99)];
    assert Join(pieces[1..], '-') == Decimal(start + 99);
    assert Join(pieces, '-') == RangeLabel(start);
    forall i | 0 <= i < |pieces| ensures '-' !in pieces[i] {
      assert AllDigits(pieces[i]);
    }
    SplitJoin(pieces, '-');
  }

  /** The bucket start written in a label. */
  function LabelStart(key: string): nat
  {
    var first := Split(key, '-')[0];
    if AllDigits(first) then DigitsValue(first) else 0
  }

  lemma LabelStartOfRangeLabel(start: nat)
    ensures LabelStart(RangeLabel(start)) == start
  {
    RangeLabelSplit(start);
    DigitsValueOfDecimal(start);
  }

  /** Distinct buckets have distinct labels. */
  lemma RangeLabelInjective(a: nat, b: nat)
    ensures RangeLabel(a) == RangeLabel(b) <==> a == b
  {
    LabelStartOfRangeLabel(a);
    LabelStartOfRangeLabel(b);
  }

  /** A label holds a `-`, so it is never an array index and `Object.keys` keeps the
      labels in creation order. */
  lemma RangeLabelNotIndex(start: nat)
    ensures !IsArrayIndex(RangeLabel(start))
  {
    var l := RangeLabel(start);
    assert l[|Decimal(start)|] == '-';
  }

  predicate HasNumericPrice(p: PricePoint) { ParsedPrice(p.price).Some? }

  /** The labels counted, one per record whose price parses, in the order of the records. */
  function LabelKeys(ps: seq<PricePoint>): (ks: seq<string>)
    ensures |ks| == Count(ps, HasNumericPrice)
  {
    if ps == [] then [] else LabelKeys(ps[..|ps| - 1]) + PointLabel(ps[|ps| - 1])
  }

  /** The label a record counts under: none when its price does not parse. */
  function PointLabel(p: PricePoint): (ks: seq<string>)
    ensures |ks| == if HasNumericPrice(p) then 1 else 0
  {
    match ParsedPrice(p.price)
    case None => []
    case Some(v) => [RangeLabel(BucketStart(v))]
  }

  /** The number of records whose price parses and falls in the bucket at `start`. */
  function InBucket(ps: seq<PricePoint>, start: nat): nat
  {
    if ps == [] then 0
    else
      InBucket(ps[..|ps| - 1], start) +
      match ParsedPrice(ps[|ps| - 1].price)
      case None => 0
      case Some(v) => if BucketStart(v) == start then 1 else 0
  }

  /** Every label counted is the label of a bucket. */
  lemma {:induction false} LabelKeysAreLabels(ps: seq<PricePoint>)
    ensures forall i :: 0 <= i < |LabelKeys(ps)| ==>
      LabelKeys(ps)[i] == RangeLabel(LabelStart(LabelKeys(ps)[i]))
  {
    if ps != [] {
      LabelKeysAreLabels(ps[..|ps| - 1]);
      var v := ParsedPrice(ps[|ps| - 1].price);
      if v.Some? {
        LabelStartOfRangeLabel(BucketStart(v.value));
      }
    }
  }

  /** A bucket's label is counted once per record in the bucket. */
  lemma {:induction false} OccurrencesOfLabel(ps: seq<PricePoint>, start: nat)
    ensures Occurrences(LabelKeys(ps), RangeLabel(start)) == InBucket(ps, start)
  {
    if ps != [] {
      var init := ps[..|ps| - 1];
      OccurrencesOfLabel(init, start);
      var ks := LabelKeys(ps);
      var v := ParsedPrice(ps[|ps| - 1].price);
      if v.Some? {
        assert ks == LabelKeys(init) + [RangeLabel(BucketStart(v.value))];
        assert ks[..|ks| - 1] == LabelKeys(init);
        RangeLabelInjective(BucketStart(v.value), start);
      } else {
        assert ks == LabelKeys(init) + [];
        assert ks == LabelKeys(init);
      }
    }
  }

  /** The histogram the route answers: the counter over the labels, listed by `Object.keys`. */
  function HistogramOf(ps: seq<PricePoint>): (r: seq<Entry<string>>)
    ensures multiset(r) == multiset(Tally(LabelKeys(ps)))
    ensures Total(r) == Count(ps, HasNumericPrice)
  {
    TotalOfPermutation(Tally(LabelKeys(ps)), Enumerate(Tally(LabelKeys(ps))));
    Enumerate(Tally(LabelKeys(ps)))
  }

  /** No label is an array index, so `Object.keys` lists the buckets in the order in which
      they were first met. */
  lemma HistogramInCreationOrder(ps: seq<PricePoint>)
    ensures HistogramOf(ps) == Tally(LabelKeys(ps))
    ensures InFirstOccurrenceOrder(HistogramOf(ps), LabelKeys(ps))
  {
    var d := Tally(LabelKeys(ps));
    TallyKeysOccur(LabelKeys(ps));
    LabelKeysAreLabels(ps);
    forall i | 0 <= i < |d| ensures !IsArrayIndex(d[i].key) {
      var k := d[i].key;
      assert k in LabelKeys(ps);
      var j :| 0 <= j < |LabelKeys(ps)| && LabelKeys(ps)[j] == k;
      RangeLabelNotIndex(LabelStart(k));
    }
    EnumerateNamed(d);
    TallyFirstOccurrenceOrder(LabelKeys(ps));
  }

  /** Each bucket listed is the bucket of its label and counts the records whose price
      falls in it, which is at least one. */
  lemma HistogramCounts(ps: seq<PricePoint>)
    ensures forall i :: 0 <= i < |HistogramOf(ps)| ==>
      var e := HistogramOf(ps)[i];
      e.key == RangeLabel(LabelStart(e.key)) && e.count == InBucket(ps, LabelStart(e.key)) && e.count >= 1
  {
    HistogramInCreationOrder(ps);
    var xs := LabelKeys(ps);
    var d := Tally(xs);
    TallyCounts(xs);
    TallyKeysOccur(xs);
    forall i | 0 <= i < |d|
      ensures d[i].key == RangeLabel(LabelStart(d[i].key)) && d[i].count == InBucket(ps, LabelStart(d[i].key))
    {
      BucketOfLabel(ps, d[i].key);
    }
  }

  /** A counted label is the label of its bucket, and occurs once per record in that bucket. */
  lemma BucketOfLabel(ps: seq<PricePoint>, k: string)
    requires k in LabelKeys(ps)
    ensures k == RangeLabel(LabelStart(k))
    ensures Occurrences(LabelKeys(ps), k) == InBucket(ps, LabelStart(k))
  {
    LabelKeysAreLabels(ps);
    var j :| 0 <= j < |LabelKeys(ps)| && LabelKeys(ps)[j] == k;
    OccurrencesOfLabel(ps, LabelStart(k));
  }

  /** The histogram is sparse: a bucket is listed exactly when some record's price falls
      in it; labels are pairwise distinct; the counts add up to the number of records
      whose price parses. */
  lemma HistogramSpec(ps: seq<PricePoint>)
    ensures forall start: nat :: RangeLabel(start) in Keys(HistogramOf(ps)) <==> InBucket(ps, start) > 0
    ensures DistinctKeys(HistogramOf(ps))
    ensures Total(HistogramOf(ps)) == Count(ps, HasNumericPrice)
  {
    HistogramInCreationOrder(ps);
    TallySpec(LabelKeys(ps));
    forall start: nat ensures RangeLabel(start) in Keys(HistogramOf(ps)) <==> InBucket(ps, start) > 0 {
      OccurrencesOfLabel(ps, start);
    }
  }

  /** One `{ range, count }` object of the reply. */
  datatype PriceRange = PriceRange(range: string, count: nat)

  /** `Object.keys(priceRanges).map(key => ({ range: key, count: priceRanges[key] }))`,
      given the keys in `Object.keys` order. */
  function ToPriceRanges(d: seq<Entry<string>>): (r: seq<PriceRange>)
    ensures |r| == |d|
    ensures forall i :: 0 <= i < |d| ==> r[i] == PriceRange(d[i].key, d[i].count)
  {
    if d == [] then [] else [PriceRange(d[0].key, d[0].count)] + ToPriceRanges(d[1..])
  }

  /** The counter after one more record: one more count for its label if its price parses. */
  lemma LabelKeysStep(ps: seq<PricePoint>, i: nat)
    requires i < |ps|
    ensures ParsedPrice(ps[i].price).None? ==> Tally(LabelKeys(ps[..i + 1])) == Tally(LabelKeys(ps[..i]))
    ensures ParsedPrice(ps[i].price).Some? ==>
      Tally(LabelKeys(ps[..i + 1])) == Bump(Tally(LabelKeys(ps[..i])), RangeLabel(BucketStart(ParsedPrice(ps[i].price).value)))
  {
    assert ps[..i + 1][..i] == ps[..i];
    var before := LabelKeys(ps[..i]);
    assert LabelKeys(ps[..i + 1]) == before + PointLabel(ps[i]);
    var price := ParsedPrice(ps[i].price);
    if price.Some? {
      TallySnoc(before, RangeLabel(BucketStart(price.value)));
    } else {
      assert before + PointLabel(ps[i]) == before;
    }
  }

  /** The `forEach` that fills the counter: a record whose price parses adds one to the
      property of its bucket's label, created at 0 when missing. */
  method CountRanges(ps: seq<PricePoint>) returns (priceRanges: seq<Entry<string>>)
    ensures priceRanges == Tally(LabelKeys(ps))
  {
    priceRanges := [];
    var i := 0;
    assert ps[..0] == [];
    while i < |ps|
      invariant 0 <= i <= |ps|
      invariant priceRanges == Tally(LabelKeys(ps[..i]))
    {
      var price := ParsedPrice(ps[i].price);
      LabelKeysStep(ps, i);
      if price.Some? {
        var rangeStart := BucketStart(price.value);
        var rangeKey := RangeLabel(rangeStart);
        priceRanges := Increment(priceRanges, rangeKey);
      }
      i := i + 1;
    }
    assert ps[..i] == ps;
  }

  /** The price-range route over the store's answer and the parsed month. */
  method PriceRanges(documents: Option<seq<Document>>, month: Option<int>) returns (r: Reply<seq<PriceRange>>)
    ensures Query(documents, NormalizePoint, PointDateOf, month).None? ==> r == InternalServerError
    ensures Query(documents, NormalizePoint, PointDateOf, month).Some? ==>
      r == Ok(ToPriceRanges(HistogramOf(Query(documents, NormalizePoint, PointDateOf, month).value)))
    ensures documents.None? ==> r == Ok([])
  {
    var ps := Query(documents, NormalizePoint, PointDateOf, month);
    if ps.None? {
      r := InternalServerError;
    } else {
      var priceRanges := CountRanges(ps.value);
      HistogramInCreationOrder(ps.value);
      r := Ok(ToPriceRanges(Enumerate(priceRanges)));
    }
  }
}
