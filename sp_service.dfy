/** The search half of `SPService.getSearchResults`: the request it sends
    (select properties, page window, fixed flags) and the page it returns
    (items, total with its fallback chain, and the empty page on error).
    The search call itself is a parameter of type `SearchQuery -> SearchOutcome`. */
module SPService {
  import opened Strings

  /** One search result row: managed property name to value. A property the
      row does not carry, or carries as null, is absent (null or undefined). */
  type SearchResult = map<string, string>

  /** `ISearchPage`. */
  datatype SearchPage = SearchPage(items: seq<SearchResult>, total: int)

  /** What the page is when the search throws. */
  const EmptyPage: SearchPage := SearchPage([], 0)

  const DefaultPage: int := 1
  const DefaultPageSize: int := 12

  /** The properties every request selects, before the filter property. */
  const FixedSelectProperties: seq<string> := [
    "Description", "DocId", "Author", "AuthorOWSUSER", "Path",
    "NormUniqueID", "PictureThumbnailURL", "PromotedState", "O3CSortableTitle", "Title"
  ]

  /** An optional string argument is truthy when it is given and not empty. */
  predicate IsTruthy(s: Option<string>) {
    s.Some? && s.value != ""
  }

  /** The `SelectProperties` list: the ten fixed names, then the filter
      property, then the display property when it is truthy. */
  function SelectProperties(filterManagedPropertyName: string, displayManagedPropertyName: Option<string>): (props: seq<string>)
    ensures |props| == if IsTruthy(displayManagedPropertyName) then 12 else 11
    ensures props[..10] == FixedSelectProperties
    ensures props[10] == filterManagedPropertyName
    ensures IsTruthy(displayManagedPropertyName) ==> props[11] == displayManagedPropertyName.value
  {
    var selectProps := FixedSelectProperties + [filterManagedPropertyName];
    if IsTruthy(displayManagedPropertyName) then selectProps + [displayManagedPropertyName.value]
    else selectProps
  }

  /** `ISearchQuery`, with the fields the service sets. */
  datatype SearchQuery = SearchQuery(
    queryTemplate: string,
    queryText: string,
    rowLimit: int,
    startRow: int,
    enableInterleaving: bool,
    trimDuplicates: bool,
    selectProperties: seq<string>)

  /** First row of a 1-based page. `page` is not clamped. */
  function StartRow(page: int, pageSize: int): int {
    (page - 1) * pageSize
  }

  /** The request `getSearchResults` sends: the template passed through,
      query text `*`, interleaving on, duplicate trimming off, and the page
      window `[StartRow, StartRow + pageSize)`. */
  function BuildSearchQuery(
    queryTemplate: string,
    filterManagedPropertyName: string,
    displayManagedPropertyName: Option<string> := None,
    page: int := DefaultPage,
    pageSize: int := DefaultPageSize): (q: SearchQuery)
    ensures q.queryTemplate == queryTemplate
    ensures q.queryText == "*" && q.enableInterleaving && !q.trimDuplicates
    ensures q.rowLimit == pageSize && q.startRow == StartRow(page, pageSize)
    ensures q.selectProperties == SelectProperties(filterManagedPropertyName, displayManagedPropertyName)
  {
    SearchQuery(
      queryTemplate := queryTemplate,
      queryText := "*",
      rowLimit := pageSize,
      startRow := StartRow(page, pageSize),
      enableInterleaving := true,
      trimDuplicates := false,
      selectProperties := SelectProperties(filterManagedPropertyName, displayManagedPropertyName))
  }

  // ---------------------------------------------------------------------
  // The page window
  // ---------------------------------------------------------------------

  /** With the default arguments the first twelve rows are requested. */
  lemma DefaultWindow(queryTemplate: string, filterManagedPropertyName: string)
    ensures BuildSearchQuery(queryTemplate, filterManagedPropertyName).startRow == 0
    ensures BuildSearchQuery(queryTemplate, filterManagedPropertyName).rowLimit == 12
    ensures |BuildSearchQuery(queryTemplate, filterManagedPropertyName).selectProperties| == 11
  {
  }

  /** A page number of at least 1 never asks for a negative row. */
  lemma {:induction false} StartRowNonNegative(page: int, pageSize: int)
    requires page >= 1 && pageSize >= 0
    ensures StartRow(page, pageSize) >= 0
  {
    var p: nat := page - 1;
    var n: nat := pageSize;
    assert StartRow(page, pageSize) == p * n;
  }

  /** Without clamping, a page below 1 asks for a negative start row. */
  lemma {:induction false} StartRowUnclamped(page: int, pageSize: int)
    requires page < 1 && pageSize >= 1
    ensures StartRow(page, pageSize) < 0
  {
    var p: nat := 1 - page;
    assert p >= 1;
    assert p * pageSize >= pageSize by {
      assert p * pageSize == pageSize + (p - 1) * pageSize;
      var q: nat := p - 1;
      var n: nat := pageSize;
      assert q * n >= 0;
    }
    assert StartRow(page, pageSize) == -(p * pageSize);
  }

  /** Consecutive pages are adjacent windows. */
  lemma NextPageFollows(page: int, pageSize: int)
    ensures StartRow(page + 1, pageSize) == StartRow(page, pageSize) + pageSize
  {
    assert (page + 1 - 1) * pageSize == (page - 1) * pageSize + pageSize;
  }

  /** Every row belongs to the window of page `row / pageSize + 1`, and
      to no other page: the windows of pages 1, 2, ... tile the rows. */
  lemma {:induction false} RowOnExactlyOnePage(row: nat, pageSize: int, page: int)
    requires pageSize >= 1
    ensures var home := row / pageSize + 1;
      StartRow(home, pageSize) <= row < StartRow(home, pageSize) + pageSize
    ensures StartRow(page, pageSize) <= row < StartRow(page, pageSize) + pageSize
      ==> page == row / pageSize + 1
  {
    var q := row / pageSize;
    var m := row % pageSize;
    assert row == q * pageSize + m;
    assert StartRow(q + 1, pageSize) == q * pageSize;
    if StartRow(page, pageSize) <= row < StartRow(page, pageSize) + pageSize {
      var d := page - 1 - q;
      assert StartRow(page, pageSize) == q * pageSize + d * pageSize;
      assert d * pageSize <= m < d * pageSize + pageSize;
      SlotOfMultiple(d, pageSize, m);
    }
  }

  /** A multiple `d * n` within one step `n` below the offset `m < n` is
      zero. */
  lemma SlotOfMultiple(d: int, n: int, m: int)
    requires n >= 1 && 0 <= m < n
    requires d * n <= m < d * n + n
    ensures d == 0
  {
  }

  // ---------------------------------------------------------------------
  // Result normalisation
  // ---------------------------------------------------------------------

  /** `RawSearchResults.PrimaryQueryResult.RelevantResults`, each level
      possibly absent. */
  datatype RelevantResults = RelevantResults(totalRows: Option<int>)
  datatype PrimaryQueryResult = PrimaryQueryResult(relevantResults: Option<RelevantResults>)
  datatype RawSearchResults = RawSearchResults(primaryQueryResult: Option<PrimaryQueryResult>)

  /** The parts of PnP's `SearchResults` the service reads; `None` stands
      for null or undefined. */
  datatype SearchResults = SearchResults(
    primarySearchResults: Option<seq<SearchResult>>,
    totalRows: Option<int>,
    rawSearchResults: Option<RawSearchResults>)

  /** How the awaited search call ends: it throws, it resolves to null or
      undefined (so reading `PrimarySearchResults` throws), or it resolves. */
  datatype SearchOutcome = Rejected | ResolvedNullish | Resolved(results: SearchResults)

  /** `RawSearchResults?.PrimaryQueryResult?.RelevantResults?.TotalRows`. */
  function NestedTotalRows(results: SearchResults): (n: Option<int>)
    ensures n.Some? <==>
      && results.rawSearchResults.Some?
      && results.rawSearchResults.value.primaryQueryResult.Some?
      && results.rawSearchResults.value.primaryQueryResult.value.relevantResults.Some?
      && results.rawSearchResults.value.primaryQueryResult.value.relevantResults.value.totalRows.Some?
    ensures n.Some? ==>
      n == results.rawSearchResults.value.primaryQueryResult.value.relevantResults.value.totalRows
  {
    match results.rawSearchResults
    case None => None
    case Some(raw) =>
      match raw.primaryQueryResult
      case None => None
      case Some(pqr) =>
        match pqr.relevantResults
        case None => None
        case Some(rel) => rel.totalRows
  }

  /** `{ items, total }` from a resolved search: items are the primary
      results (or none), and the first of `TotalRows`, the nested
      `TotalRows` and the item count that is not null or undefined is the total. */
  function NormaliseResults(results: SearchResults): (p: SearchPage)
    ensures results.primarySearchResults.None? ==> p.items == []
    ensures results.primarySearchResults.Some? ==> p.items == results.primarySearchResults.value
    ensures results.totalRows.Some? ==> p.total == results.totalRows.value
    ensures results.totalRows.None? && NestedTotalRows(results).Some? ==>
      p.total == NestedTotalRows(results).value
    ensures results.totalRows.None? && NestedTotalRows(results).None? ==> p.total == |p.items|
  {
    var items := if results.primarySearchResults.Some? then results.primarySearchResults.value else [];
    var total :=
      if results.totalRows.Some? then results.totalRows.value
      else if NestedTotalRows(results).Some? then NestedTotalRows(results).value
      else |items|;
    SearchPage(items, total)
  }

  /** `getSearchResults`: sends `BuildSearchQuery(...)` to `search` and
      normalises what comes back; any thrown error gives `EmptyPage`. */
  function GetSearchResults(
    search: SearchQuery -> SearchOutcome,
    queryTemplate: string,
    filterManagedPropertyName: string,
    displayManagedPropertyName: Option<string> := None,
    page: int := DefaultPage,
    pageSize: int := DefaultPageSize): (p: SearchPage)
    ensures var outcome := search(BuildSearchQuery(queryTemplate, filterManagedPropertyName, displayManagedPropertyName, page, pageSize));
      && (outcome.Resolved? ==> p == NormaliseResults(outcome.results))
      && (!outcome.Resolved? ==> p == EmptyPage)
  {
    var query := BuildSearchQuery(queryTemplate, filterManagedPropertyName, displayManagedPropertyName, page, pageSize);
    match search(query)
    case Rejected => EmptyPage
    case ResolvedNullish => EmptyPage
    case Resolved(results) => NormaliseResults(results)
  }

  /** A reported count of 0 is kept even when items came back (`??` only
      skips null and undefined). */
  lemma ZeroTotalRowsKept(results: SearchResults)
    requires results.totalRows == Some(0)
    ensures NormaliseResults(results).total == 0
  {
  }

  /** When the service reports no count at all, the total is the number of
      items; in particular an error or an empty answer gives total 0. */
  lemma {:induction false} TotalMatchesItemsWithoutCounts(outcome: SearchOutcome)
    requires outcome.Resolved? ==> outcome.results.totalRows.None? && NestedTotalRows(outcome.results).None?
    ensures var p := match outcome
      case Resolved(results) => NormaliseResults(results)
      case _ => EmptyPage;
      p.total == |p.items|
  {
  }
}
