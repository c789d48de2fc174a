/**
 The report store behind the `useReports` hook: the in-memory list of
 reports (newest first), the three mutations, and the whole-list snapshot
 written under one storage key after every mutation.

 The browser's key-value storage is a map from keys to report lists; the
 JSON encoding in between is taken to round-trip exactly. The fresh id and
 the creation timestamp are parameters.
 */
module ReportStore {
  import opened ReportTypes
  import opened Seqs

  /** The single key the whole list is written under. */
  const StorageKey: string := "campus-lost-found-reports"

  /** Persistent key-value storage, with each value already decoded. */
  type Storage = map<string, seq<Report>>

  /** The hook's state: the list it renders and the storage it writes. */
  datatype Session = Session(reports: seq<Report>, storage: Storage)

  /** No two reports in the list share an id. */
  ghost predicate UniqueIds(rs: seq<Report>)
  {
    UniqueBy((r: Report) => r.id, rs)
  }

  /** Some report in the list has this id. */
  ghost predicate HasId(rs: seq<Report>, id: string)
  {
    exists i :: 0 <= i < |rs| && rs[i].id == id
  }

  /** The store's invariant: unique ids, and every status still its type or resolved. */
  ghost predicate Valid(rs: seq<Report>)
  {
    UniqueIds(rs) && forall i :: 0 <= i < |rs| ==> WellFormed(rs[i])
  }

  /** The snapshot under the storage key is exactly the list in memory. */
  ghost predicate Persisted(s: Session)
  {
    StorageKey in s.storage && s.storage[StorageKey] == s.reports
  }

  // ---------------------------------------------------------------------------
  // Operations on the list

  /** The record `addReport` builds from a draft, a fresh id and the current time. */
  function NewReport(d: Draft, id: string, createdAt: string): (r: Report)
    ensures DraftOf(r) == d
    ensures r.id == id && r.createdAt == createdAt
    ensures r.status == d.kind && r.status != Resolved
    ensures WellFormed(r)
  {
    Report(id, d.kind, d.kind, d.personName, d.itemName, d.description,
           d.dateTime, d.location, d.contactNumber, d.imageUrl, createdAt)
  }

  /** `addReport`: the new record goes in front of the existing ones. */
  function AddReport(rs: seq<Report>, d: Draft, id: string, createdAt: string): (r: seq<Report>)
    ensures |r| == |rs| + 1
    ensures r[0].id == id && r[0].createdAt == createdAt
    ensures DraftOf(r[0]) == d && r[0].status == d.kind
    ensures r[1..] == rs
  {
    [NewReport(d, id, createdAt)] + rs
  }

  /** The per-record step of `markAsResolved`. */
  function ResolveIfMatching(r: Report, id: string): Report
  {
    if r.id == id then r.(status := Resolved) else r
  }

  /**
   `markAsResolved`: every report with the id becomes resolved; the list
   keeps its length and order, and nothing else about any report changes.
   */
  function MarkAsResolved(rs: seq<Report>, id: string): (r: seq<Report>)
    ensures |r| == |rs|
    ensures forall i :: 0 <= i < |rs| ==> MayBecome(rs[i], r[i])
    ensures forall i :: 0 <= i < |rs| ==>
      (r[i].status == Resolved <==> rs[i].id == id || rs[i].status == Resolved)
    ensures forall i :: 0 <= i < |rs| && rs[i].id != id ==> r[i] == rs[i]
  {
    seq(|rs|, i requires 0 <= i < |rs| => ResolveIfMatching(rs[i], id))
  }

  /** The predicate `deleteReport` filters with. */
  function KeepsId(id: string): Report -> bool
  {
    (r: Report) => r.id != id
  }

  /**
   `deleteReport`: every report with the id is gone; all others remain, in
   their original order.
   */
  function DeleteReport(rs: seq<Report>, id: string): (r: seq<Report>)
    ensures forall x :: x in r <==> x in rs && x.id != id
    ensures !HasId(r, id)
    ensures IsSubsequence(r, rs)
    ensures forall x :: multiset(r)[x] == if x.id != id then multiset(rs)[x] else 0
  {
    var r := Filter(KeepsId(id), rs);
    assert forall i :: 0 <= i < |r| ==> r[i] in r;
    r
  }

  // ---------------------------------------------------------------------------
  // Facts about the list operations

  /** Resolving a non-empty list resolves its head and then the rest. */
  lemma MarkAsResolvedCons(x: Report, rs: seq<Report>, id: string)
    ensures MarkAsResolved([x] + rs, id) == [ResolveIfMatching(x, id)] + MarkAsResolved(rs, id)
  {
    var a, b := MarkAsResolved([x] + rs, id), [ResolveIfMatching(x, id)] + MarkAsResolved(rs, id);
    assert forall i :: 0 <= i < |a| ==> a[i] == b[i];
  }

  /** Resolving twice is the same as resolving once. */
  lemma MarkAsResolvedIdempotent(rs: seq<Report>, id: string)
    ensures MarkAsResolved(MarkAsResolved(rs, id), id) == MarkAsResolved(rs, id)
  {
  }

  /**
   Resolving twice, with any two ids, leaves every report an allowed change
   of the original: nothing but the status moves, and only towards resolved.
   */
  lemma MarkAsResolvedTwice(rs: seq<Report>, id1: string, id2: string)
    ensures var r := MarkAsResolved(MarkAsResolved(rs, id1), id2);
      |r| == |rs| && forall i :: 0 <= i < |rs| ==> MayBecome(rs[i], r[i])
  {
    var m := MarkAsResolved(rs, id1);
    var r := MarkAsResolved(m, id2);
    forall i | 0 <= i < |rs|
      ensures MayBecome(rs[i], r[i])
    {
      MayBecomeTransitive(rs[i], m[i], r[i]);
    }
  }

  /** Resolving an id no report carries leaves the list as it was. */
  lemma MarkAsResolvedUnknownId(rs: seq<Report>, id: string)
    requires !HasId(rs, id)
    ensures MarkAsResolved(rs, id) == rs
  {
  }

  /** Deleting an id no report carries leaves the list as it was. */
  lemma DeleteReportUnknownId(rs: seq<Report>, id: string)
    requires !HasId(rs, id)
    ensures DeleteReport(rs, id) == rs
  {
    FilterKeepsAll(KeepsId(id), rs);
  }

  /** With unique ids, deleting a present id removes exactly one report. */
  lemma DeleteReportRemovesOne(rs: seq<Report>, id: string)
    requires UniqueIds(rs)
    requires HasId(rs, id)
    ensures |DeleteReport(rs, id)| == |rs| - 1
  {
    FilterDropsOneKey((r: Report) => r.id, id, KeepsId(id), rs);
  }

  /** Deleting a report just added with a fresh id gives back the list before. */
  lemma DeleteUndoesAdd(rs: seq<Report>, d: Draft, id: string, createdAt: string)
    requires !HasId(rs, id)
    ensures DeleteReport(AddReport(rs, d, id, createdAt), id) == rs
  {
    var n := NewReport(d, id, createdAt);
    FilterCons(KeepsId(id), n, rs);
    DeleteReportUnknownId(rs, id);
  }

  /** Adding with an id not already in use keeps the store's invariant. */
  lemma AddReportPreservesValid(rs: seq<Report>, d: Draft, id: string, createdAt: string)
    requires Valid(rs)
    requires !HasId(rs, id)
    ensures Valid(AddReport(rs, d, id, createdAt))
  {
    var r := AddReport(rs, d, id, createdAt);
    forall i, j | 0 <= i < j < |r|
      ensures r[i].id != r[j].id
    {
      assert r[j] == rs[j - 1];
      if i > 0 {
        assert r[i] == rs[i - 1];
      }
    }
    forall i | 0 <= i < |r|
      ensures WellFormed(r[i])
    {
      if i > 0 {
        assert r[i] == rs[i - 1];
      }
    }
  }

  /** Resolving keeps the store's invariant. */
  lemma MarkAsResolvedPreservesValid(rs: seq<Report>, id: string)
    requires Valid(rs)
    ensures Valid(MarkAsResolved(rs, id))
  {
    var r := MarkAsResolved(rs, id);
    forall i | 0 <= i < |r|
      ensures WellFormed(r[i]) && r[i].id == rs[i].id
    {
      MayBecomeIsMonotonic(rs[i], r[i]);
    }
  }

  /** Deleting keeps the store's invariant. */
  lemma DeleteReportPreservesValid(rs: seq<Report>, id: string)
    requires Valid(rs)
    ensures Valid(DeleteReport(rs, id))
  {
    var r := DeleteReport(rs, id);
    FilterPreservesUniqueBy((x: Report) => x.id, KeepsId(id), rs);
    forall i | 0 <= i < |r|
      ensures WellFormed(r[i])
    {
      assert r[i] in r;
      var k :| 0 <= k < |rs| && rs[k] == r[i];
    }
  }

  // ---------------------------------------------------------------------------
  // The session: in-memory list plus persisted snapshot

  /**
   The initial load: start from the empty list and, when the storage key
   holds a snapshot, take that snapshot instead.
   */
  function Load(storage: Storage): (s: Session)
    ensures s.storage == storage
    ensures StorageKey !in storage ==> s.reports == []
    ensures StorageKey in storage ==> Persisted(s)
  {
    if StorageKey in storage then Session(storage[StorageKey], storage)
    else Session([], storage)
  }

  /**
   `saveToStorage`: write the whole list under the storage key and make it
   the list in memory; every other key is left alone.
   */
  function Save(s: Session, rs: seq<Report>): (r: Session)
    ensures Persisted(r) && r.reports == rs
    ensures r.storage.Keys == s.storage.Keys + {StorageKey}
    ensures forall k :: k in s.storage && k != StorageKey ==> r.storage[k] == s.storage[k]
  {
    Session(rs, s.storage[StorageKey := rs])
  }

  /** `addReport` on the session: prepend, then persist. */
  function Add(s: Session, d: Draft, id: string, createdAt: string): (r: Session)
    ensures Persisted(r)
    ensures r.reports == AddReport(s.reports, d, id, createdAt)
    ensures r.storage == s.storage[StorageKey := r.reports]
  {
    Save(s, AddReport(s.reports, d, id, createdAt))
  }

  /** `markAsResolved` on the session: update, then persist. */
  function Resolve(s: Session, id: string): (r: Session)
    ensures Persisted(r)
    ensures r.reports == MarkAsResolved(s.reports, id)
    ensures r.storage == s.storage[StorageKey := r.reports]
  {
    Save(s, MarkAsResolved(s.reports, id))
  }

  /** `deleteReport` on the session: filter, then persist. */
  function Delete(s: Session, id: string): (r: Session)
    ensures Persisted(r)
    ensures r.reports == DeleteReport(s.reports, id)
    ensures r.storage == s.storage[StorageKey := r.reports]
  {
    Save(s, DeleteReport(s.reports, id))
  }

  /**
   A reload from what a session persisted brings back exactly the list that
   session held in memory.
   */
  lemma ReloadRestores(s: Session)
    requires Persisted(s)
    ensures Load(s.storage) == s
  {
  }

  /** The order-of-insertion guarantee: after adding `a` and then `b`, `b` is first. */
  lemma NewestFirst(s: Session, a: Draft, ida: string, ta: string, b: Draft, idb: string, tb: string)
    ensures var r := Add(Add(s, a, ida, ta), b, idb, tb).reports;
      |r| == |s.reports| + 2 && DraftOf(r[0]) == b && DraftOf(r[1]) == a && r[2..] == s.reports
  {
    var r := Add(Add(s, a, ida, ta), b, idb, tb).reports;
    assert r[1..][1..] == r[2..];
  }
}
