/** The incident record shared by the dashboard, the list and the detail
    page, the status names it is stored and compared under, and the
    browser-storage layout the pages share. */
module Incidents {
  import opened Wrappers

  datatype Status = Open | InProgress | Resolved

  datatype Priority = High | Medium | Low

  /** One reported problem. The map coordinates are left out. */
  datatype Incident = Incident(
    id: string,
    title: string,
    description: string,
    status: Status,
    priority: Priority,
    location: string,
    createdAt: string,
    assignee: Option<string>,
    notes: seq<string>)

  /** The string a status is written as in records and in select options. */
  function StatusName(s: Status): string {
    match s
    case Open => "open"
    case InProgress => "in-progress"
    case Resolved => "resolved"
  }

  /** Reads a status name back; any other string is not a status. */
  function ParseStatus(name: string): Option<Status> {
    if name == StatusName(Open) then Some(Open)
    else if name == StatusName(InProgress) then Some(InProgress)
    else if name == StatusName(Resolved) then Some(Resolved)
    else None
  }

  /** Status names round-trip, and a string parses to a status exactly when
      it is that status's name. */
  lemma StatusNameRoundTrip(s: Status, name: string)
    ensures ParseStatus(StatusName(s)) == Some(s)
    ensures ParseStatus(name) == Some(s) <==> name == StatusName(s)
  {
  }

  /** Prefix of every incident's key in browser storage. */
  const StoragePrefix := "incident_"

  /** The storage key `incident_${id}`. */
  function StorageKey(id: string): string {
    StoragePrefix + id
  }

  /** Distinct ids never share a storage key. */
  lemma StorageKeyInjective(a: string, b: string)
    ensures StorageKey(a) == StorageKey(b) ==> a == b
  {
    if StorageKey(a) == StorageKey(b) {
      assert a == StorageKey(a)[|StoragePrefix|..];
      assert b == StorageKey(b)[|StoragePrefix|..];
    }
  }

  /** Browser storage, as far as incidents go: key to stored record. The
      JSON encoding is the browser's business and is not modelled. */
  type Store = map<string, Incident>

  /** `b` is `a` with at most its status replaced. */
  ghost predicate SameExceptStatus(a: Incident, b: Incident) {
    && a.id == b.id && a.title == b.title && a.description == b.description
    && a.priority == b.priority && a.location == b.location
    && a.createdAt == b.createdAt && a.assignee == b.assignee && a.notes == b.notes
  }

  /** `b` is `a` with at most its notes replaced. */
  ghost predicate SameExceptNotes(a: Incident, b: Incident) {
    && a.id == b.id && a.title == b.title && a.description == b.description
    && a.status == b.status && a.priority == b.priority && a.location == b.location
    && a.createdAt == b.createdAt && a.assignee == b.assignee
  }
}
