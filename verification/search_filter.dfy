/**
 The search-and-filter panel: whether any filter is active, the clear
 action, and the status values its buttons offer.
 */
module SearchFilter {
  import opened ReportTypes
  import opened IndexPage

  /** The status buttons, in the order shown. */
  const StatusOptions: seq<string> := ["all", "lost", "found", "resolved"]

  /**
   `hasFilters`: some query is non-empty or the status filter is not `"all"`;
   that is, the criteria differ from the cleared ones.
   */
  predicate HasFilters(c: Criteria): (b: bool)
    ensures b <==> c != Criteria("", "", AllStatuses)
  {
    c.search != "" || c.location != "" || c.status != AllStatuses
  }

  /**
   `clearFilters`: the criteria the panel resets to. They are the only
   criteria with no active filter.
   */
  function ClearFilters(): (c: Criteria)
    ensures !HasFilters(c)
    ensures forall d :: !HasFilters(d) <==> d == c
  {
    Criteria("", "", AllStatuses)
  }

  /** The status buttons offer `"all"` and then the name of each report status. */
  lemma StatusOptionsAreAllPlusStatuses()
    ensures StatusOptions == [AllStatuses, StatusName(Lost), StatusName(Found), StatusName(Resolved)]
    ensures forall s: ReportStatus :: StatusName(s) in StatusOptions
    ensures forall o :: o in StatusOptions ==> o == AllStatuses || exists s: ReportStatus :: StatusName(s) == o
  {
    assert StatusName(Lost) == StatusOptions[1];
    assert StatusName(Found) == StatusOptions[2];
    assert StatusName(Resolved) == StatusOptions[3];
  }

  /** With no active filter, the page shows every report. */
  lemma NoFiltersShowsAll(rs: seq<Report>, c: Criteria)
    requires !HasFilters(c)
    ensures FilterReports(rs, c) == rs
  {
    EmptyCriteriaKeepAll(rs);
  }

  /** Clearing the filters and then filtering gives back the full list. */
  lemma ClearThenFilterShowsAll(rs: seq<Report>)
    ensures FilterReports(rs, ClearFilters()) == rs
  {
    NoFiltersShowsAll(rs, ClearFilters());
  }
}
