/** The statistics route: total sale of the sold records, and how many records are sold
    and not sold, over the month-filtered list. */
module Statistics {
  import opened Text
  import opened Seqs
  import opened Records

  datatype Stats = Stats(totalSale: nat, totalItemsSold: nat, totalItemsNotSold: nat)

  predicate IsSold(t: Transaction) { t.sold }

  predicate IsUnsold(t: Transaction) { !t.sold }

  /** What a record's price adds to a sum: its parsed value, nothing when `parseFloat`
      gives NaN. */
  function PriceValue(t: Transaction): nat
  {
    match ParsedPrice(t.price)
    case None => 0
    case Some(p) => p
  }

  /** The sum of the parsed prices of all the records. */
  function PriceSum(ts: seq<Transaction>): nat
  {
    if ts == [] then 0 else PriceSum(ts[..|ts| - 1]) + PriceValue(ts[|ts| - 1])
  }

  /** The parsed prices of the sold records, added up; unsold records add nothing. */
  function SoldRevenue(ts: seq<Transaction>): nat
  {
    if ts == [] then 0
    else SoldRevenue(ts[..|ts| - 1]) + (if ts[|ts| - 1].sold then PriceValue(ts[|ts| - 1]) else 0)
  }

  /** The `forEach` over the filtered records with its three accumulators. */
  method Summarize(ts: seq<Transaction>) returns (stats: Stats)
    ensures stats.totalSale == SoldRevenue(ts)
    ensures stats.totalItemsSold == Count(ts, IsSold)
    ensures stats.totalItemsNotSold == Count(ts, IsUnsold)
    ensures stats.totalItemsSold + stats.totalItemsNotSold == |ts|
    ensures ts == [] ==> stats == Stats(0, 0, 0)
  {
    var totalSale: nat := 0;
    var totalItemsSold: nat := 0;
    var totalItemsNotSold: nat := 0;
    var i := 0;
    while i < |ts|
      invariant 0 <= i <= |ts|
      invariant totalSale == SoldRevenue(ts[..i])
      invariant totalItemsSold == Count(ts[..i], IsSold)
      invariant totalItemsNotSold == Count(ts[..i], IsUnsold)
      invariant totalItemsSold + totalItemsNotSold == i
    {
      var t := ts[i];
      if t.sold {
        var price := ParsedPrice(t.price);
        if price.Some? {
          totalSale := totalSale + price.value;
        }
        totalItemsSold := totalItemsSold + 1;
      } else {
        totalItemsNotSold := totalItemsNotSold + 1;
      }
      assert ts[..i + 1][..i] == ts[..i];
      i := i + 1;
    }
    assert ts[..i] == ts;
    stats := Stats(totalSale, totalItemsSold, totalItemsNotSold);
  }

  /** The total sale is the price sum of the sold records alone. */
  lemma {:induction false} SoldRevenueOfSold(ts: seq<Transaction>)
    ensures SoldRevenue(ts) == PriceSum(Filter(ts, IsSold))
  {
    if ts != [] {
      var init, last := ts[..|ts| - 1], ts[|ts| - 1];
      SoldRevenueOfSold(init);
      var f := Filter(ts, IsSold);
      if last.sold {
        assert f == Filter(init, IsSold) + [last];
        assert f[..|f| - 1] == Filter(init, IsSold);
      } else {
        assert f == Filter(init, IsSold) + [];
        assert f == Filter(init, IsSold);
      }
    }
  }

  /** A sold record whose price does not parse is counted as sold and adds nothing to
      the sale. */
  lemma UnparsableSoldRecord(ts: seq<Transaction>, t: Transaction)
    requires t.sold && t.price.Unparsable?
    ensures SoldRevenue(ts + [t]) == SoldRevenue(ts)
    ensures Count(ts + [t], IsSold) == Count(ts, IsSold) + 1
    ensures Count(ts + [t], IsUnsold) == Count(ts, IsUnsold)
  {
    assert (ts + [t])[..|ts|] == ts;
  }

  /** The statistics route over the store's answer and the parsed month. */
  method Summary(documents: Option<seq<Document>>, month: Option<int>) returns (r: Reply<Stats>)
    ensures Query(documents, NormalizeFields, DateOf, month).None? ==> r == InternalServerError
    ensures Query(documents, NormalizeFields, DateOf, month).Some? ==>
      var ts := Query(documents, NormalizeFields, DateOf, month).value;
      r == Ok(Stats(SoldRevenue(ts), Count(ts, IsSold), Count(ts, IsUnsold))) &&
      Count(ts, IsSold) + Count(ts, IsUnsold) == |ts|
    ensures month == Some(13) && NormalizeAll(documents).Some? ==>
      var all := NormalizeAll(documents).value;
      r == Ok(Stats(SoldRevenue(all), Count(all, IsSold), Count(all, IsUnsold)))
    ensures documents.None? ==> r == Ok(Stats(0, 0, 0))
  {
    var ts := Query(documents, NormalizeFields, DateOf, month);
    if ts.None? {
      r := InternalServerError;
    } else {
      var stats := Summarize(ts.value);
      r := Ok(stats);
    }
  }
}
