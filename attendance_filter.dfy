/** The attendance page's search box and department filter: the two revisions
    of `applyFilters` (static/js/main2.js and static/js/main4.js). Each card
    and each table row carries three attributes; an attribute that is missing
    reads as the empty string, as `|| ""` makes it in both scripts. Cards and
    rows are tested by one and the same predicate. */
module AttendanceFilter {
  import opened Wrappers
  import opened Text

  datatype EmployeeEntry = EmployeeEntry(name: string, id: string, dept: string)

  /** The search part: an empty (normalised) query matches everything,
      otherwise the query must occur in the lower-cased name or id. */
  predicate MatchesSearch(query: string, e: EmployeeEntry) {
    query == [] || Contains(Lower(e.name), query) || Contains(Lower(e.id), query)
  }

  /** The department part: "all" matches everything, otherwise the entry's
      department must equal the filter exactly. */
  predicate MatchesDept(deptFilter: string, e: EmployeeEntry) {
    deptFilter == "all" || e.dept == deptFilter
  }

  // ---------------------------------------------------------------------
  // static/js/main2.js

  /** main2.js normalises the query as `value.toLowerCase().trim()` and uses
      the select's value as it is. */
  predicate Visible(rawQuery: string, deptFilter: string, e: EmployeeEntry) {
    MatchesSearch(Trim(Lower(rawQuery)), e) && MatchesDept(deptFilter, e)
  }

  // ---------------------------------------------------------------------
  // static/js/main4.js

  /** main4.js reads `(searchInput?.value || "").trim().toLowerCase()`: a
      missing search box is an empty query. */
  function QueryOf(searchBox: Option<string>): (q: string)
    ensures searchBox.None? ==> q == []
    ensures searchBox.Some? ==>
      (q == [] <==> Blank(searchBox.value))
  {
    TrimEmptyIffBlank(searchBox.GetOr(""));
    Lower(Trim(searchBox.GetOr("")))
  }

  /** main4.js reads `deptSelect?.value || "all"`: a missing select and an
      empty selection both mean "all". */
  function DeptFilterOf(select: Option<string>): (d: string)
    ensures d != []
    ensures select.None? || select.value == [] ==> d == "all"
    ensures select.Some? && select.value != [] ==> d == select.value
  {
    if select.None? || select.value == [] then "all" else select.value
  }

  /** main4.js's test of one card or row. */
  predicate VisibleMain4(searchBox: Option<string>, select: Option<string>, e: EmployeeEntry) {
    MatchesSearch(QueryOf(searchBox), e) && MatchesDept(DeptFilterOf(select), e)
  }

  // ---------------------------------------------------------------------
  // Properties

  /** An entry is shown exactly when the query is blank or occurs in its
      lower-cased name or id, and the department filter is "all" or its
      own department. */
  lemma VisibleIff(rawQuery: string, deptFilter: string, e: EmployeeEntry)
    ensures Visible(rawQuery, deptFilter, e) <==>
      && (Blank(rawQuery)
          || Contains(Lower(e.name), Trim(Lower(rawQuery)))
          || Contains(Lower(e.id), Trim(Lower(rawQuery))))
      && (deptFilter == "all" || e.dept == deptFilter)
  {
    TrimLowerEmptyIffBlank(rawQuery);
  }

  /** A blank search with the "all" filter shows every entry, in both
      revisions. */
  lemma BlankSearchShowsEverything(rawQuery: string, e: EmployeeEntry)
    requires Blank(rawQuery)
    ensures Visible(rawQuery, "all", e)
    ensures VisibleMain4(Some(rawQuery), Some("all"), e)
    ensures VisibleMain4(None, None, e)
  {
    TrimEmptyIffBlank(rawQuery);
    TrimLowerCommute(rawQuery);
  }

  /** A department filter other than "all" shows only that department. */
  lemma DeptFilterIsExact(rawQuery: string, deptFilter: string, e: EmployeeEntry)
    requires deptFilter != "all" && Visible(rawQuery, deptFilter, e)
    ensures e.dept == deptFilter
  {
  }

  /** Shortening the query to a piece of itself never hides an entry: what
      matches "smith" also matches "mit". */
  lemma ShorterQueryShowsMore(query: string, piece: string, e: EmployeeEntry)
    requires MatchesSearch(query, e) && Contains(query, piece)
    ensures MatchesSearch(piece, e)
  {
    if piece != [] && query != [] {
      if Contains(Lower(e.name), query) {
        ContainsTransitive(Lower(e.name), query, piece);
      } else {
        ContainsTransitive(Lower(e.id), query, piece);
      }
    }
  }

  /** The query's case does not matter. */
  lemma QueryCaseIgnored(rawQuery: string, deptFilter: string, e: EmployeeEntry)
    ensures Visible(Lower(rawQuery), deptFilter, e) == Visible(rawQuery, deptFilter, e)
  {
    LowerIdempotent(rawQuery);
  }

  /** On every card or row that both revisions test, they agree whenever
      both controls are present and a department is selected (main4.js
      lower-cases after trimming, main2.js before, which comes to the same). */
  lemma RevisionsAgree(rawQuery: string, deptFilter: string, e: EmployeeEntry)
    requires deptFilter != []
    ensures VisibleMain4(Some(rawQuery), Some(deptFilter), e) == Visible(rawQuery, deptFilter, e)
  {
    TrimLowerCommute(rawQuery);
  }

  /** They differ on an empty selection: main4.js treats it as "all", while
      main2.js shows only the entries without a department. */
  lemma RevisionsDifferOnEmptySelection(rawQuery: string, e: EmployeeEntry)
    requires e.dept != []
    ensures VisibleMain4(Some(rawQuery), Some([]), e) == MatchesSearch(Lower(Trim(rawQuery)), e)
    ensures !Visible(rawQuery, [], e)
  {
  }
}
