/**
 The portal page: the filtered view of the report list under the current
 search, location and status criteria, its split into active and resolved
 groups, and the two handlers that forward user intents to the store.
 */
module IndexPage {
  import opened ReportTypes
  import opened Seqs
  import opened Text
  import ReportStore
  import ReportForm

  /** The status filter value that lets every status through. */
  const AllStatuses: string := "all"

  /**
   The page's filter state. The status filter is a plain string, as in the
   source: `"all"` or the name of a status.
   */
  datatype Criteria = Criteria(search: string, location: string, status: string)

  /** Case-insensitive substring match of the query against the item name. */
  predicate MatchesSearch(c: Criteria, r: Report)
  {
    Includes(Lower(r.itemName), Lower(c.search))
  }

  /** Case-insensitive substring match of the location filter against the location. */
  predicate MatchesLocation(c: Criteria, r: Report)
  {
    Includes(Lower(r.location), Lower(c.location))
  }

  /** The status filter is `"all"` or names the report's status exactly. */
  predicate MatchesStatus(c: Criteria, r: Report)
  {
    c.status == AllStatuses || StatusName(r.status) == c.status
  }

  /** A report is shown when all three tests pass. */
  predicate Matches(c: Criteria, r: Report)
  {
    MatchesSearch(c, r) && MatchesLocation(c, r) && MatchesStatus(c, r)
  }

  /** The predicate `filteredReports` filters with. */
  function MatchesAll(c: Criteria): Report -> bool
  {
    (r: Report) => Matches(c, r)
  }

  /**
   `filteredReports`: the reports that match, in list order. A report is kept
   exactly when it matches.
   */
  function FilterReports(rs: seq<Report>, c: Criteria): (r: seq<Report>)
    ensures forall x :: x in r <==> x in rs && Matches(c, x)
    ensures IsSubsequence(r, rs)
    ensures |r| <= |rs|
    ensures forall x :: multiset(r)[x] == if Matches(c, x) then multiset(rs)[x] else 0
  {
    Filter(MatchesAll(c), rs)
  }

  /** The predicate of the active group: not resolved. */
  function IsActive(r: Report): bool
  {
    r.status != Resolved
  }

  /** The predicate of the resolved group. */
  function IsResolved(r: Report): bool
  {
    r.status == Resolved
  }

  /** `activeReports`: the filtered reports that are not resolved, in order. */
  function ActiveReports(fs: seq<Report>): (r: seq<Report>)
    ensures forall x :: x in r <==> x in fs && x.status != Resolved
    ensures IsSubsequence(r, fs)
    ensures forall x :: multiset(r)[x] == if x.status != Resolved then multiset(fs)[x] else 0
  {
    Filter(IsActive, fs)
  }

  /** `resolvedReports`: the filtered reports that are resolved, in order. */
  function ResolvedReports(fs: seq<Report>): (r: seq<Report>)
    ensures forall x :: x in r <==> x in fs && x.status == Resolved
    ensures IsSubsequence(r, fs)
    ensures forall x :: multiset(r)[x] == if x.status == Resolved then multiset(fs)[x] else 0
  {
    Filter(IsResolved, fs)
  }

  // ---------------------------------------------------------------------------
  // Facts about the filter

  /**
   A report that fails any one test is hidden, and one that passes all of
   them is shown.
   */
  lemma ShownIffAllTestsPass(rs: seq<Report>, c: Criteria, x: Report)
    requires x in rs
    ensures x in FilterReports(rs, c) <==>
      MatchesSearch(c, x) && MatchesLocation(c, x) && MatchesStatus(c, x)
  {
  }

  /** The empty query, the empty location and `"all"` let every report through. */
  lemma EmptyCriteriaKeepAll(rs: seq<Report>)
    ensures FilterReports(rs, Criteria("", "", AllStatuses)) == rs
  {
    var c := Criteria("", "", AllStatuses);
    forall x | x in rs
      ensures Matches(c, x)
    {
      IncludesEmpty(Lower(x.itemName));
      IncludesEmpty(Lower(x.location));
    }
    FilterKeepsAll(MatchesAll(c), rs);
  }

  /**
   Queries that differ only in letter case give the same view: the filter
   looks only at the lower-cased query.
   */
  lemma FilterIgnoresQueryCase(rs: seq<Report>, c: Criteria, d: Criteria)
    requires Lower(c.search) == Lower(d.search)
    requires Lower(c.location) == Lower(d.location)
    requires c.status == d.status
    ensures FilterReports(rs, c) == FilterReports(rs, d)
  {
    FilterAgreeing(MatchesAll(c), MatchesAll(d), rs);
  }

  /** In particular, lower-casing the queries beforehand changes nothing. */
  lemma FilterSameForLowerCasedQuery(rs: seq<Report>, c: Criteria)
    ensures FilterReports(rs, c.(search := Lower(c.search), location := Lower(c.location)))
         == FilterReports(rs, c)
  {
    LowerIdempotent(c.search);
    LowerIdempotent(c.location);
    FilterIgnoresQueryCase(rs, c.(search := Lower(c.search), location := Lower(c.location)), c);
  }

  /** Filtering the view again with the same criteria leaves it unchanged. */
  lemma FilterReportsIdempotent(rs: seq<Report>, c: Criteria)
    ensures FilterReports(FilterReports(rs, c), c) == FilterReports(rs, c)
  {
    FilterIdempotent(MatchesAll(c), rs);
  }

  /**
   The active and resolved groups are disjoint, ordered subsequences of the
   view, and together they account for every report in it.
   */
  lemma PartitionIsExact(fs: seq<Report>)
    ensures forall x :: !(x in ActiveReports(fs) && x in ResolvedReports(fs))
    ensures forall x :: x in fs <==> x in ActiveReports(fs) || x in ResolvedReports(fs)
    ensures |ActiveReports(fs)| + |ResolvedReports(fs)| == |fs|
  {
    FilterSplitLength(IsActive, IsResolved, fs);
  }

  /** With the status filter on `"resolved"`, the active group is empty. */
  lemma ResolvedFilterHasNoActive(rs: seq<Report>, c: Criteria)
    requires c.status == StatusName(Resolved)
    ensures ActiveReports(FilterReports(rs, c)) == []
  {
    var fs := FilterReports(rs, c);
    forall x | x in fs
      ensures !IsActive(x)
    {
      StatusNameInjective(x.status, Resolved);
    }
    FilterKeepsNone(IsActive, fs);
  }

  /** With the status filter on `"lost"` or `"found"`, the resolved group is empty. */
  lemma OpenFilterHasNoResolved(rs: seq<Report>, c: Criteria)
    requires c.status == StatusName(Lost) || c.status == StatusName(Found)
    ensures ResolvedReports(FilterReports(rs, c)) == []
  {
    var fs := FilterReports(rs, c);
    forall x | x in fs
      ensures !IsResolved(x)
    {
      StatusNameInjective(x.status, Lost);
      StatusNameInjective(x.status, Found);
    }
    FilterKeepsNone(IsResolved, fs);
  }

  // ---------------------------------------------------------------------------
  // Handlers

  /** `handleSubmit`: hand the submitted draft to the store. */
  function HandleSubmit(s: ReportStore.Session, d: Draft, id: string, createdAt: string): (r: ReportStore.Session)
    ensures ReportStore.Persisted(r)
    ensures |r.reports| == |s.reports| + 1 && r.reports[1..] == s.reports
    ensures DraftOf(r.reports[0]) == d && r.reports[0].status == d.kind
    ensures r.reports[0].id == id && r.reports[0].createdAt == createdAt
    ensures r.storage == s.storage[ReportStore.StorageKey := r.reports]
  {
    ReportStore.Add(s, d, id, createdAt)
  }

  /** `handleResolve`: ask the store to resolve the report with the id. */
  function HandleResolve(s: ReportStore.Session, id: string): (r: ReportStore.Session)
    ensures ReportStore.Persisted(r)
    ensures |r.reports| == |s.reports|
    ensures forall i :: 0 <= i < |s.reports| ==> MayBecome(s.reports[i], r.reports[i])
    ensures forall i :: 0 <= i < |s.reports| ==>
      (r.reports[i].status == Resolved <==> s.reports[i].id == id || s.reports[i].status == Resolved)
    ensures forall i :: 0 <= i < |s.reports| && s.reports[i].id != id ==> r.reports[i] == s.reports[i]
    ensures r.storage == s.storage[ReportStore.StorageKey := r.reports]
  {
    ReportStore.Resolve(s, id)
  }

  /**
   Once a report is resolved it shows in the resolved group and not in the
   active one, whenever the criteria still select it.
   */
  lemma ResolvedReportMovesGroup(s: ReportStore.Session, id: string, c: Criteria, i: nat)
    requires i < |s.reports| && s.reports[i].id == id
    ensures var x := HandleResolve(s, id).reports[i];
      var fs := FilterReports(HandleResolve(s, id).reports, c);
      x.status == Resolved && x !in ActiveReports(fs) &&
      (Matches(c, x) ==> x in ResolvedReports(fs))
  {
    var r := HandleResolve(s, id).reports;
    assert r[i] in r;
  }

  /**
   What a user types into the dialog becomes the newest report: same text
   fields, status equal to the dialog's type, image present exactly when a
   preview was shown.
   */
  lemma SubmittedFormBecomesNewest(s: ReportStore.Session, kind: ReportType, st: ReportForm.FormState,
                                   id: string, createdAt: string)
    ensures var r := HandleSubmit(s, ReportForm.Submit(kind, st).draft, id, createdAt).reports[0];
      && r.id == id && r.createdAt == createdAt
      && r.kind == kind && r.status == kind
      && r.personName == st.fields.personName && r.itemName == st.fields.itemName
      && r.description == st.fields.description && r.dateTime == st.fields.dateTime
      && r.location == st.fields.location && r.contactNumber == st.fields.contactNumber
      && (r.imageUrl.None? <==> st.imagePreview == "")
  {
  }

  // ---------------------------------------------------------------------------
  // Worked examples

  /** A lost "Blue Backpack" at the "Library". */
  function Backpack(): Report
  {
    Report("1", Lost, Lost, "Asha", "Blue Backpack", "navy, two straps", "2024-03-01T10:00",
           "Library", "555-0100", None, "2024-03-01T10:05:00Z")
  }

  /** A found "iPhone" at the "Cafeteria". */
  function Phone(): Report
  {
    Report("2", Found, Found, "Ravi", "iPhone", "black case", "2024-03-02T12:00",
           "Cafeteria", "555-0101", None, "2024-03-02T12:30:00Z")
  }

  /** Lower-casing the example strings. */
  lemma LowerExamples()
    ensures Lower("BackPack") == "backpack"
    ensures Lower("Blue Backpack") == "blue backpack"
    ensures Lower("iPhone") == "iphone"
    ensures Lower("library") == "library"
    ensures Lower("Library") == "library"
    ensures Lower("Cafeteria") == "cafeteria"
  {
  }

  /** "BackPack" matches the backpack but not the phone. */
  lemma SearchExampleMatches()
    ensures Matches(Criteria("BackPack", "", AllStatuses), Backpack())
    ensures !Matches(Criteria("BackPack", "", AllStatuses), Phone())
  {
    LowerExamples();
    IncludesEmpty(Lower(Backpack().location));
    assert "blue backpack"[5..13] == "backpack";
    assert OccursAt("blue backpack", "backpack", 5);
    NotIncludedWithoutFirstChar("iphone", "backpack");
  }

  /** Searching "BackPack" on the two-report list finds only the backpack. */
  lemma SearchExample()
    ensures FilterReports([Backpack(), Phone()], Criteria("BackPack", "", AllStatuses)) == [Backpack()]
  {
    var b, p := Backpack(), Phone();
    var c := Criteria("BackPack", "", AllStatuses);
    SearchExampleMatches();
    FilterCons(MatchesAll(c), b, [p]);
    FilterCons(MatchesAll(c), p, []);
  }

  /** The status filter "found" on the two-report list finds only the phone. */
  lemma StatusExample()
    ensures FilterReports([Backpack(), Phone()], Criteria("", "", "found")) == [Phone()]
  {
    var b, p := Backpack(), Phone();
    var c := Criteria("", "", "found");
    IncludesEmpty(Lower(p.itemName));
    IncludesEmpty(Lower(p.location));
    FilterCons(MatchesAll(c), b, [p]);
    FilterCons(MatchesAll(c), p, []);
  }

  /** "library" together with status "found" finds nothing on the two-report list. */
  lemma CombinedExample()
    ensures FilterReports([Backpack(), Phone()], Criteria("", "library", "found")) == []
  {
    var b, p := Backpack(), Phone();
    var c := Criteria("", "library", "found");
    assert !MatchesStatus(c, b);
    assert !MatchesLocation(c, p) by {
      LowerExamples();
      NotIncludedWithoutFirstChar("cafeteria", "library");
    }
    FilterCons(MatchesAll(c), b, [p]);
    FilterCons(MatchesAll(c), p, []);
  }

  /**
   Adding a lost "Student ID Card" at "Block A" gives a lost report; resolving
   it by its id moves it out of the active group and into the resolved one.
   */
  lemma StudentIdScenario(s: ReportStore.Session, id: string, createdAt: string)
    ensures var d := Draft(Lost, "Mei", "Student ID Card", "blue lanyard", "2024-03-03T09:00",
                           "Block A", "555-0102", None);
      var added := HandleSubmit(s, d, id, createdAt);
      var resolved := HandleResolve(added, id);
      var all := Criteria("", "", AllStatuses);
      && added.reports[0].status == Lost
      && resolved.reports[0].status == Resolved
      && resolved.reports[0] !in ActiveReports(FilterReports(resolved.reports, all))
      && resolved.reports[0] in ResolvedReports(FilterReports(resolved.reports, all))
  {
    var d := Draft(Lost, "Mei", "Student ID Card", "blue lanyard", "2024-03-03T09:00",
                   "Block A", "555-0102", None);
    var added := HandleSubmit(s, d, id, createdAt);
    var all := Criteria("", "", AllStatuses);
    ResolvedReportMovesGroup(added, id, all, 0);
    EmptyCriteriaKeepAll(HandleResolve(added, id).reports);
    var x := HandleResolve(added, id).reports[0];
    assert x in HandleResolve(added, id).reports;
  }
}
