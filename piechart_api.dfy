/** The category route: how many of the month's records fall in each category, as a
    counter object keyed by the category name. */
module PieChartApi {
  import opened Text
  import opened Seqs
  import opened Counters
  import opened Records

  /** `if (transaction.category)`: only a non-empty category is counted. */
  predicate HasCategory(t: Transaction) { t.category != "" }

  /** The categories counted, one per record with a non-empty category, in record order. */
  function CategoryKeys(ts: seq<Transaction>): (ks: seq<string>)
    ensures |ks| == Count(ts, HasCategory)
  {
    if ts == [] then [] else CategoryKeys(ts[..|ts| - 1]) + RecordCategory(ts[|ts| - 1])
  }

  function RecordCategory(t: Transaction): (ks: seq<string>)
    ensures |ks| == if HasCategory(t) then 1 else 0
  {
    if HasCategory(t) then [t.category] else []
  }

  /** The number of records whose category is `c`. */
  function WithCategory(ts: seq<Transaction>, c: string): nat
  {
    if ts == [] then 0
    else WithCategory(ts[..|ts| - 1], c) + (if ts[|ts| - 1].category == c then 1 else 0)
  }

  /** A non-empty category is counted once per record that has it; the empty one never. */
  lemma {:induction false} OccurrencesOfCategory(ts: seq<Transaction>, c: string)
    ensures Occurrences(CategoryKeys(ts), c) == if c == "" then 0 else WithCategory(ts, c)
  {
    if ts != [] {
      var init := ts[..|ts| - 1];
      OccurrencesOfCategory(init, c);
      var ks := CategoryKeys(ts);
      if HasCategory(ts[|ts| - 1]) {
        assert ks == CategoryKeys(init) + [ts[|ts| - 1].category];
        assert ks[..|ks| - 1] == CategoryKeys(init);
      } else {
        assert ks == CategoryKeys(init) + [];
        assert ks == CategoryKeys(init);
      }
    }
  }

  /** The categories the route answers, in `Object.keys` order. */
  function CategoriesOf(ts: seq<Transaction>): (r: seq<Entry<string>>)
    ensures multiset(r) == multiset(Tally(CategoryKeys(ts)))
    ensures Total(r) == Count(ts, HasCategory)
  {
    TotalOfPermutation(Tally(CategoryKeys(ts)), Enumerate(Tally(CategoryKeys(ts))));
    Enumerate(Tally(CategoryKeys(ts)))
  }

  /** Each category listed is non-empty and counts the records that have it, which is at
      least one. */
  lemma CategoriesCounts(ts: seq<Transaction>)
    ensures forall i :: 0 <= i < |CategoriesOf(ts)| ==>
      var e := CategoriesOf(ts)[i];
      e.key != "" && e.count == WithCategory(ts, e.key) && e.count >= 1
  {
    var xs := CategoryKeys(ts);
    var d := Tally(xs);
    var r := CategoriesOf(ts);
    TallyCounts(xs);
    EnumerateMembers(d);
    forall i | 0 <= i < |r| ensures r[i].key != "" && r[i].count == WithCategory(ts, r[i].key) && r[i].count >= 1 {
      assert r[i] in d;
      var j :| 0 <= j < |d| && d[j] == r[i];
      assert d[j].count == Occurrences(xs, d[j].key) >= 1;
      OccurrencesOfCategory(ts, r[i].key);
    }
  }

  /** A category is listed exactly when it is non-empty and some record has it; categories
      are pairwise distinct; the counts add up to the number of records with a non-empty
      category. */
  lemma CategoriesSpec(ts: seq<Transaction>)
    ensures forall c :: c in Keys(CategoriesOf(ts)) <==> c != "" && WithCategory(ts, c) > 0
    ensures DistinctKeys(CategoriesOf(ts))
    ensures Total(CategoriesOf(ts)) == Count(ts, HasCategory)
  {
    var xs := CategoryKeys(ts);
    TallyKeys(xs);
    EnumerateSpec(Tally(xs));
    forall c ensures c in Keys(CategoriesOf(ts)) <==> c != "" && WithCategory(ts, c) > 0 {
      OccurrencesOfCategory(ts, c);
    }
  }

  /** When no category is an array index (such as "12"), `Object.keys` lists the
      categories in the order in which they were first met. */
  lemma CategoriesInCreationOrder(ts: seq<Transaction>)
    requires forall i :: 0 <= i < |ts| ==> !IsArrayIndex(ts[i].category)
    ensures CategoriesOf(ts) == Tally(CategoryKeys(ts))
    ensures InFirstOccurrenceOrder(CategoriesOf(ts), CategoryKeys(ts))
  {
    var xs := CategoryKeys(ts);
    var d := Tally(xs);
    TallyKeysOccur(xs);
    CategoryKeysNamed(ts);
    EnumerateNamed(d);
    TallyFirstOccurrenceOrder(xs);
  }

  lemma {:induction false} CategoryKeysNamed(ts: seq<Transaction>)
    requires forall i :: 0 <= i < |ts| ==> !IsArrayIndex(ts[i].category)
    ensures forall k :: k in CategoryKeys(ts) ==> !IsArrayIndex(k)
  {
    if ts != [] {
      var init := ts[..|ts| - 1];
      CategoryKeysNamed(init);
      assert CategoryKeys(ts) == CategoryKeys(init) + RecordCategory(ts[|ts| - 1]);
    }
  }

  /** The counter after one more record: one more count for its category if it has one. */
  lemma CategoryKeysStep(ts: seq<Transaction>, i: nat)
    requires i < |ts|
    ensures !HasCategory(ts[i]) ==> Tally(CategoryKeys(ts[..i + 1])) == Tally(CategoryKeys(ts[..i]))
    ensures HasCategory(ts[i]) ==>
      Tally(CategoryKeys(ts[..i + 1])) == Bump(Tally(CategoryKeys(ts[..i])), ts[i].category)
  {
    assert ts[..i + 1][..i] == ts[..i];
    var before := CategoryKeys(ts[..i]);
    assert CategoryKeys(ts[..i + 1]) == before + RecordCategory(ts[i]);
    if HasCategory(ts[i]) {
      TallySnoc(before, ts[i].category);
    } else {
      assert before + RecordCategory(ts[i]) == before;
    }
  }

  /** The `forEach` that fills `categoryCounts`. */
  method CountCategories(ts: seq<Transaction>) returns (categoryCounts: seq<Entry<string>>)
    ensures categoryCounts == Tally(CategoryKeys(ts))
  {
    categoryCounts := [];
    var i := 0;
    assert ts[..0] == [];
    while i < |ts|
      invariant 0 <= i <= |ts|
      invariant categoryCounts == Tally(CategoryKeys(ts[..i]))
    {
      CategoryKeysStep(ts, i);
      if ts[i].category != "" {
        categoryCounts := Increment(categoryCounts, ts[i].category);
      }
      i := i + 1;
    }
    assert ts[..i] == ts;
  }

  /** One `{ category, count }` object of the reply. */
  datatype CategoryData = CategoryData(category: string, count: nat)

  /** `Object.keys(categoryCounts).map(category => ({ category, count: categoryCounts[category] }))`,
      given the keys in `Object.keys` order. */
  function ToCategoryData(d: seq<Entry<string>>): (r: seq<CategoryData>)
    ensures |r| == |d|
    ensures forall i :: 0 <= i < |d| ==> r[i] == CategoryData(d[i].key, d[i].count)
  {
    if d == [] then [] else [CategoryData(d[0].key, d[0].count)] + ToCategoryData(d[1..])
  }

  /** The category route over the store's answer and the parsed month. */
  method Categories(documents: Option<seq<Document>>, month: Option<int>) returns (r: Reply<seq<CategoryData>>)
    ensures Query(documents, NormalizeFields, DateOf, month).None? ==> r == InternalServerError
    ensures Query(documents, NormalizeFields, DateOf, month).Some? ==>
      r == Ok(ToCategoryData(CategoriesOf(Query(documents, NormalizeFields, DateOf, month).value)))
    ensures month == Some(13) && NormalizeAll(documents).Some? ==>
      r == Ok(ToCategoryData(CategoriesOf(NormalizeAll(documents).value)))
    ensures documents.None? ==> r == Ok([])
  {
    var ts := Query(documents, NormalizeFields, DateOf, month);
    if ts.None? {
      r := InternalServerError;
    } else {
      var categoryCounts := CountCategories(ts.value);
      r := Ok(ToCategoryData(Enumerate(categoryCounts)));
    }
  }
}
