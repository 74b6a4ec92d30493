/** The transaction table: the date shown for a record, the search box over the fetched
    page, and the Previous / Next pager. */
module TransactionTable {
  import opened Text
  import opened Seqs
  import opened Records
  import opened Transactions

  /** `dateString.split('T')[0]`: the same date part the month filter reads. */
  function FormatDate(date: string): string
  {
    DatePart(date)
  }

  /** The record matches the search text: its lower-cased title, description or category
      contains the lower-cased search, or the text of its price contains the search as typed. */
  predicate Matches(t: Transaction, search: string)
    ensures search == [] ==> Matches(t, search)
  {
    assert Lower([]) == [];
    || Contains(Lower(t.title), Lower(search))
    || Contains(Lower(t.description), Lower(search))
    || Contains(Lower(t.category), Lower(search))
    || Contains(PriceText(t.price), search)
  }

  function SearchPredicate(search: string): Transaction -> bool
  {
    t => Matches(t, search)
  }

  /** `filteredTransactions`: the fetched records that match the search. */
  function Search(ts: seq<Transaction>, search: string): (r: seq<Transaction>)
    ensures |r| <= |ts|
    ensures forall t :: t in r <==> t in ts && Matches(t, search)
  {
    FilterMembers(ts, SearchPredicate(search));
    Filter(ts, SearchPredicate(search))
  }

  /** The search keeps, in order, exactly the matching records. */
  lemma SearchSpec(ts: seq<Transaction>, search: string)
    ensures IsSubsequence(Search(ts, search), ts)
    ensures forall t :: t in Search(ts, search) <==> t in ts && Matches(t, search)
    ensures |Search(ts, search)| == Count(ts, SearchPredicate(search))
  {
    FilterSpec(ts, SearchPredicate(search));
  }

  /** A search text that occurs in the record's title, whatever the case of either, keeps it. */
  lemma TitleMatch(t: Transaction, search: string, i: nat)
    requires i <= |t.title| && Lower(search) <= Lower(t.title)[i..]
    ensures Matches(t, search)
  {
    ContainsAt(Lower(t.title), Lower(search));
  }

  /** The empty search keeps every record. */
  lemma SearchEmpty(ts: seq<Transaction>)
    ensures Search(ts, "") == ts
  {
    forall i | 0 <= i < |ts| ensures Matches(ts[i], "") {
      assert Lower("") == "";
    }
    FilterAll(ts, SearchPredicate(""));
  }

  /** `transactionsPerPage`. */
  const TransactionsPerPage := 10

  /** The `params` of the table's request. */
  datatype Request = Request(month: string, page: int, limit: int)

  /** The pager state of the table: the current page and the `totalPages` of the last reply. */
  class Pager {
    var page: int
    var totalPages: int

    /** The page never goes below 1. */
    ghost predicate Valid()
      reads this
    {
      page >= 1
    }

    /** `useState(1)` for both. */
    constructor ()
      ensures Valid()
      ensures page == 1 && totalPages == 1
    {
      page := 1;
      totalPages := 1;
    }

    /** `disabled={page <= 1}`. */
    predicate PreviousDisabled()
      reads this
    {
      page <= 1
    }

    /** `disabled={page >= totalPages}`. */
    predicate NextDisabled()
      reads this
    {
      page >= totalPages
    }

    /** Previous: one page back unless disabled. */
    method Previous()
      requires Valid()
      modifies this
      ensures Valid()
      ensures old(PreviousDisabled()) ==> page == old(page)
      ensures !old(PreviousDisabled()) ==> page == old(page) - 1
      ensures totalPages == old(totalPages)
    {
      if !PreviousDisabled() {
        page := page - 1;
      }
    }

    /** Next: one page forward unless disabled. */
    method Next()
      requires Valid()
      modifies this
      ensures Valid()
      ensures old(NextDisabled()) ==> page == old(page)
      ensures !old(NextDisabled()) ==> page == old(page) + 1
      ensures totalPages == old(totalPages)
    {
      if !NextDisabled() {
        page := page + 1;
      }
    }

    /** `setTotalPages(response.data.totalPages)` after a reply. */
    method Loaded(total: int)
      requires Valid()
      modifies this
      ensures Valid()
      ensures totalPages == total && page == old(page)
    {
      totalPages := total;
    }

    /** The request for the current page; the route reads it back as this page, 10
        records per page and the selected month. */
    function RequestFor(selectedMonth: string): (r: Request)
      reads this
      ensures QueryParams(Some(r.month), Some(IntToString(r.page)), Some(IntToString(r.limit)))
        == Params(ParseInt(ParamOr(Some(selectedMonth), "13")), Some(page), Some(TransactionsPerPage))
    {
      ParseIntOfIntToString(page);
      ParseIntOfIntToString(TransactionsPerPage);
      Request(selectedMonth, page, TransactionsPerPage)
    }
  }

  /** Once the pager holds the `totalPages` of the reply for `xs`, Next is enabled
      exactly when the next page holds records. */
  lemma NextEnabledIffMoreRecords(xs: seq<Transaction>, page: int)
    requires page >= 1
    ensures !(page >= TotalPages(|xs|, Some(TransactionsPerPage)).value) <==>
      PageOf(xs, Some(page + 1), Some(TransactionsPerPage)) != []
  {
    PageNonEmptyIff(xs, page + 1, TransactionsPerPage);
  }
}
