/**
 The portal's one persisted entity: a lost or found item report, and the
 draft the submission form produces before the store assigns identity.
 */
module ReportTypes {

  /** An optional value; the report's image is the only optional field. */
  datatype Option<+T> = None | Some(value: T)

  /** Where a report is in its life: still lost, found and waiting, or resolved. */
  datatype ReportStatus = Lost | Found | Resolved

  /**
   Which form produced a report. It is a restriction of `ReportStatus`, so
   every type is also a status, which is what lets a new report start with
   `status == type`.
   */
  type ReportType = s: ReportStatus | s != Resolved witness Lost

  /** A stored report. The source's `type` field is called `kind` here. */
  datatype Report = Report(
    id: string,
    kind: ReportType,
    status: ReportStatus,
    personName: string,
    itemName: string,
    description: string,
    dateTime: string,
    location: string,
    contactNumber: string,
    imageUrl: Option<string>,
    createdAt: string)

  /** A report without `id`, `status` and `createdAt`: what the form submits. */
  datatype Draft = Draft(
    kind: ReportType,
    personName: string,
    itemName: string,
    description: string,
    dateTime: string,
    location: string,
    contactNumber: string,
    imageUrl: Option<string>)

  /** The string a status is stored and compared as. */
  function StatusName(s: ReportStatus): string
  {
    match s
    case Lost => "lost"
    case Found => "found"
    case Resolved => "resolved"
  }

  /** Distinct statuses have distinct names, so comparing names compares statuses. */
  lemma StatusNameInjective(a: ReportStatus, b: ReportStatus)
    ensures StatusName(a) == StatusName(b) <==> a == b
  {
    assert StatusName(a)[0] != StatusName(b)[0] || a == b;
  }

  /** A report's status is either still its type or `Resolved`. */
  predicate WellFormed(r: Report)
  {
    r.status == r.kind || r.status == Resolved
  }

  /**
   The only change a stored report may undergo: none, or its status
   becoming `Resolved`; every other field, the type included, stays put.
   */
  predicate MayBecome(before: Report, after: Report)
  {
    after == before || after == before.(status := Resolved)
  }

  /**
   Allowed changes keep a report well formed, never alter its type or
   identity, and never move a resolved report back to lost or found.
   */
  lemma MayBecomeIsMonotonic(a: Report, b: Report)
    requires MayBecome(a, b)
    ensures WellFormed(a) ==> WellFormed(b)
    ensures b.id == a.id && b.kind == a.kind && b.createdAt == a.createdAt
    ensures a.status == Resolved ==> b.status == Resolved
    ensures b.status == a.status || b.status == Resolved
  {
  }

  /** Allowed changes compose: several steps are still one allowed change. */
  lemma MayBecomeTransitive(a: Report, b: Report, c: Report)
    requires MayBecome(a, b) && MayBecome(b, c)
    ensures MayBecome(a, c)
  {
  }

  /** The fields a report shares with its draft. */
  function DraftOf(r: Report): Draft
  {
    Draft(r.kind, r.personName, r.itemName, r.description, r.dateTime,
          r.location, r.contactNumber, r.imageUrl)
  }
}
