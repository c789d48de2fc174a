/**
 The statistics bar: the total number of reports and how many are lost,
 found and resolved.
 */
module StatsBar {
  import opened ReportTypes
  import opened Seqs
  import ReportStore

  /** The four numbers the bar shows. */
  datatype Stats = Stats(total: nat, lost: nat, found: nat, resolved: nat)

  /** The predicate each per-status count filters with. */
  function HasStatus(s: ReportStatus): Report -> bool
  {
    (r: Report) => r.status == s
  }

  /** How many reports have exactly this status. */
  function CountStatus(rs: seq<Report>, s: ReportStatus): (n: nat)
    ensures n <= |rs|
    ensures n == 0 <==> forall i :: 0 <= i < |rs| ==> rs[i].status != s
  {
    var f := Filter(HasStatus(s), rs);
    assert f != [] ==> f[0] in f;
    assert forall i :: 0 <= i < |rs| ==> rs[i] in rs;
    |f|
  }

  /** The count of a list with a report in front. */
  lemma CountStatusCons(x: Report, rs: seq<Report>, s: ReportStatus)
    ensures CountStatus([x] + rs, s) == CountStatus(rs, s) + (if x.status == s then 1 else 0)
  {
    FilterCons(HasStatus(s), x, rs);
  }

  /** Every report has exactly one of the three statuses, so the counts add up. */
  lemma {:induction false} CountsSumToTotal(rs: seq<Report>)
    ensures CountStatus(rs, Lost) + CountStatus(rs, Found) + CountStatus(rs, Resolved) == |rs|
    decreases |rs|
  {
    if rs != [] {
      var x, t := rs[0], rs[1..];
      assert rs == [x] + t;
      CountsSumToTotal(t);
      CountStatusCons(x, t, Lost);
      CountStatusCons(x, t, Found);
      CountStatusCons(x, t, Resolved);
    }
  }

  /**
   The `stats` object: the total is the number of reports, each of the other
   three is the number with that exact status, each is at most the total,
   and the three add up to the total.
   */
  function ComputeStats(rs: seq<Report>): (st: Stats)
    ensures st.total == |rs|
    ensures st.lost == CountStatus(rs, Lost)
    ensures st.found == CountStatus(rs, Found)
    ensures st.resolved == CountStatus(rs, Resolved)
    ensures st.lost <= st.total && st.found <= st.total && st.resolved <= st.total
    ensures st.lost + st.found + st.resolved == st.total
  {
    CountsSumToTotal(rs);
    Stats(|rs|, CountStatus(rs, Lost), CountStatus(rs, Found), CountStatus(rs, Resolved))
  }

  /**
   After `addReport`, the total and the count for the draft's type each grow
   by one and every other count stays the same.
   */
  lemma StatsAfterAdd(rs: seq<Report>, d: Draft, id: string, createdAt: string)
    ensures var before, after := ComputeStats(rs), ComputeStats(ReportStore.AddReport(rs, d, id, createdAt));
      && after.total == before.total + 1
      && after.lost == before.lost + (if d.kind == Lost then 1 else 0)
      && after.found == before.found + (if d.kind == Found then 1 else 0)
      && after.resolved == before.resolved
  {
    var n := ReportStore.NewReport(d, id, createdAt);
    CountStatusCons(n, rs, Lost);
    CountStatusCons(n, rs, Found);
    CountStatusCons(n, rs, Resolved);
  }

  /** Resolving never lowers the resolved count and never changes the total. */
  lemma {:induction false} ResolvedCountMonotonic(rs: seq<Report>, id: string)
    ensures ComputeStats(ReportStore.MarkAsResolved(rs, id)).total == |rs|
    ensures CountStatus(rs, Resolved) <= CountStatus(ReportStore.MarkAsResolved(rs, id), Resolved)
    decreases |rs|
  {
    if rs != [] {
      var x, t := rs[0], rs[1..];
      var m, mt := ReportStore.MarkAsResolved(rs, id), ReportStore.MarkAsResolved(t, id);
      var head := ReportStore.ResolveIfMatching(x, id);
      assert rs == [x] + t;
      ResolvedCountMonotonic(t, id);
      ReportStore.MarkAsResolvedCons(x, t, id);
      assert m == [head] + mt;
      CountStatusCons(head, mt, Resolved);
      CountStatusCons(x, t, Resolved);
    }
  }
}
