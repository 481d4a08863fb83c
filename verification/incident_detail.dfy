/** The incident detail page: choosing the record to show, the status panel
    and its gate, the status update, and appending notes. */
module IncidentDetail {
  import opened Wrappers
  import opened JsBuiltins
  import opened Auth
  import opened Incidents

  /** The page's state: the incident shown (none until loaded or when not
      found), the status chosen in the select, the note being typed, and
      whether loading is still under way. */
  datatype Page = Page(incident: Option<Incident>, newStatus: Status, draft: string, loading: bool)

  /** The state before the load effect runs. */
  const InitialPage := Page(None, Open, "", true)

  /** The mock id used when the route supplies none (or an empty one). */
  const DefaultId := "1"

  /** The key the load effect reads: `incident_${id}`, where an absent id is
      written out as "undefined". */
  function LoadKey(id: Option<string>): string {
    match id
    case Some(s) => StorageKey(s)
    case None => StorageKey("undefined")
  }

  /** The mock looked up when nothing is stored: `id || '1'`. */
  function MockId(id: Option<string>): string {
    match id
    case Some(s) => if s == "" then DefaultId else s
    case None => DefaultId
  }

  /** The load effect: a stored record wins; otherwise the mock for the id is
      shown and saved under the key; with neither, nothing is shown. The
      chosen status starts at the shown incident's status. Loading ends in
      every case. */
  function Load(page: Page, id: Option<string>, store: Store, mocks: map<string, Incident>): (r: (Page, Store))
    ensures !r.0.loading && r.0.draft == page.draft
    ensures LoadKey(id) in store ==> r.0.incident == Some(store[LoadKey(id)]) && r.1 == store
    ensures LoadKey(id) !in store && MockId(id) in mocks ==>
      && r.0.incident == Some(mocks[MockId(id)])
      && r.1.Keys == store.Keys + {LoadKey(id)}
      && r.1[LoadKey(id)] == mocks[MockId(id)]
      && forall k :: k in store ==> r.1[k] == store[k]
    ensures LoadKey(id) !in store && MockId(id) !in mocks ==>
      r.0.incident == page.incident && r.0.newStatus == page.newStatus && r.1 == store
    ensures LoadKey(id) in store || MockId(id) in mocks ==>
      r.0.incident.Some? && r.0.newStatus == r.0.incident.value.status
  {
    var key := LoadKey(id);
    var (selected, store') :=
      if key in store then (Some(store[key]), store)
      else if MockId(id) in mocks then (Some(mocks[MockId(id)]), store[key := mocks[MockId(id)]])
      else (None, store);
    match selected
    case Some(inc) => (Page(Some(inc), inc.status, page.draft, false), store')
    case None => (page.(loading := false), store')
  }

  /** The status panel is rendered for supervisors and coordinators, and for
      handlers while the incident's current status is in-progress. */
  function StatusPanelOffered(user: Option<User>, inc: Incident): (b: bool)
    ensures b <==> (user.Some? &&
      (user.value.role == Supervisor || user.value.role == Coordinator ||
       (user.value.role == Handler && inc.status == InProgress)))
  {
    HasPermission(user, [Supervisor, Coordinator]) ||
    (HasPermission(user, [Handler]) && inc.status == InProgress)
  }

  /** The update button and the select are disabled for a handler unless the
      incident is in-progress. */
  function UpdateDisabled(user: Option<User>, inc: Incident): (b: bool)
    ensures b <==> user.Some? && user.value.role == Handler && inc.status != InProgress
  {
    HasPermission(user, [Handler]) && inc.status != InProgress
  }

  /** Whenever the panel is shown its button is enabled, so the disabled
      condition never takes effect. */
  lemma OfferedPanelIsEnabled(user: Option<User>, inc: Incident)
    ensures StatusPanelOffered(user, inc) ==> !UpdateDisabled(user, inc)
  {
  }

  /** The select's change handler: any of its three options may be chosen. */
  function ChooseStatus(page: Page, s: Status): Page {
    page.(newStatus := s)
  }

  /** The textarea's change handler. */
  function TypeNote(page: Page, text: string): Page {
    page.(draft := text)
  }

  /** `handleStatusUpdate`: with an incident shown, its status becomes the
      chosen one, nothing else in it changes, and the result is saved under
      its key; without one nothing happens. */
  function HandleStatusUpdate(page: Page, store: Store): (r: (Page, Store))
    ensures page.incident.None? ==> r == (page, store)
    ensures page.incident.Some? ==>
      var before := page.incident.value;
      && r.0.incident.Some?
      && r.0.incident.value.status == page.newStatus
      && SameExceptStatus(before, r.0.incident.value)
      && r.0.newStatus == page.newStatus && r.0.draft == page.draft && r.0.loading == page.loading
      && r.1.Keys == store.Keys + {StorageKey(before.id)}
      && r.1[StorageKey(before.id)] == r.0.incident.value
      && forall k :: k in store && k != StorageKey(before.id) ==> r.1[k] == store[k]
  {
    match page.incident
    case None => (page, store)
    case Some(inc) =>
      var updated := inc.(status := page.newStatus);
      (page.(incident := Some(updated)), store[StorageKey(inc.id) := updated])
  }

  /** Pressing the update button. The button exists only once loading is over,
      an incident is shown and the panel is offered, and it must be enabled;
      otherwise the click cannot happen and the result is `None`. */
  function ClickStatusUpdate(user: Option<User>, page: Page, store: Store): (r: Option<(Page, Store)>)
    ensures r.Some? <==> MayUpdateStatus(user, page)
    ensures r.Some? ==> r.value == HandleStatusUpdate(page, store)
  {
    if page.loading then None
    else match page.incident
      case None => None
      case Some(inc) =>
        if StatusPanelOffered(user, inc) && !UpdateDisabled(user, inc)
        then Some(HandleStatusUpdate(page, store))
        else None
  }

  /** Who can update, stated on the state before the change: a signed-in
      supervisor or coordinator always, a handler only while the incident is
      in-progress. */
  ghost predicate MayUpdateStatus(user: Option<User>, page: Page) {
    && !page.loading && page.incident.Some? && user.Some?
    && (|| user.value.role == Supervisor || user.value.role == Coordinator
        || (user.value.role == Handler && page.incident.value.status == InProgress))
  }

  /** Whether the click goes through does not depend on the status chosen, and
      there is no transition graph: where one target is allowed, all are. */
  lemma GateIgnoresTarget(user: Option<User>, page: Page, store: Store, s1: Status, s2: Status)
    ensures ClickStatusUpdate(user, ChooseStatus(page, s1), store).Some? <==>
            ClickStatusUpdate(user, ChooseStatus(page, s2), store).Some?
    ensures MayUpdateStatus(user, page) ==>
      && ClickStatusUpdate(user, ChooseStatus(page, s1), store).Some?
      && ClickStatusUpdate(user, ChooseStatus(page, s1), store).value.0.incident.value.status == s1
  {
  }

  /** `handleAddNote`: a note whose trimmed text is empty, or a page without an
      incident, changes nothing; otherwise the untrimmed text is appended,
      nothing else in the incident changes, the result is saved under its key
      and the draft is cleared. */
  function HandleAddNote(page: Page, store: Store): (r: (Page, Store))
    ensures IsBlank(page.draft) || page.incident.None? ==> r == (page, store)
    ensures !IsBlank(page.draft) && page.incident.Some? ==>
      var before := page.incident.value;
      && r.0.incident.Some?
      && r.0.incident.value.notes == before.notes + [page.draft]
      && SameExceptNotes(before, r.0.incident.value)
      && r.0.draft == "" && r.0.newStatus == page.newStatus && r.0.loading == page.loading
      && r.1.Keys == store.Keys + {StorageKey(before.id)}
      && r.1[StorageKey(before.id)] == r.0.incident.value
      && forall k :: k in store && k != StorageKey(before.id) ==> r.1[k] == store[k]
  {
    if Trim(page.draft) != "" && page.incident.Some? then
      var inc := page.incident.value;
      var updated := inc.(notes := inc.notes + [page.draft]);
      (Page(Some(updated), page.newStatus, "", page.loading), store[StorageKey(inc.id) := updated])
    else
      (page, store)
  }

  /** A note grows the list by one and keeps the earlier notes as a prefix. */
  lemma AddNoteExtends(page: Page, store: Store)
    requires page.incident.Some? && !IsBlank(page.draft)
    ensures var after := HandleAddNote(page, store).0.incident.value.notes;
      && |after| == |page.incident.value.notes| + 1
      && page.incident.value.notes <= after
      && after[|after| - 1] == page.draft
  {
  }

  /** Adding the same text twice records it twice: notes are not deduplicated. */
  lemma AddSameNoteTwice(page: Page, store: Store, text: string)
    requires page.incident.Some? && !IsBlank(text)
    ensures
      var (p1, s1) := HandleAddNote(TypeNote(page, text), store);
      var (p2, s2) := HandleAddNote(TypeNote(p1, text), s1);
      && p2.incident.Some?
      && p2.incident.value.notes == page.incident.value.notes + [text, text]
  {
  }

  /** An update is saved where a fresh load of the same id finds it: coming
      back to the page shows the updated incident. */
  lemma UpdateSurvivesReload(page: Page, store: Store, mocks: map<string, Incident>, id: string)
    requires page.incident.Some? && page.incident.value.id == id
    ensures
      var (p1, s1) := HandleStatusUpdate(page, store);
      Load(InitialPage, Some(id), s1, mocks).0.incident == p1.incident
  {
  }

  /** Loading twice shows the same incident, and the second load writes
      nothing: once the mock is saved, the stored copy is what is read. */
  lemma LoadIsStable(page: Page, id: Option<string>, store: Store, mocks: map<string, Incident>)
    ensures
      var (p1, s1) := Load(page, id, store, mocks);
      var (p2, s2) := Load(p1, id, s1, mocks);
      p2.incident == p1.incident && s2 == s1
  {
  }

  /** The mocks are never consulted while a record is stored under the key. */
  lemma StoredRecordWins(page: Page, id: Option<string>, store: Store, m1: map<string, Incident>, m2: map<string, Incident>)
    requires LoadKey(id) in store
    ensures Load(page, id, store, m1) == Load(page, id, store, m2)
  {
  }

  /** The handler scenario: an open incident cannot be moved by a handler; a
      supervisor moves it to in-progress; then the handler may resolve it. */
  lemma HandlerScenario(inc: Incident, store: Store, handler: User, supervisor: User)
    requires inc.status == Open && handler.role == Handler && supervisor.role == Supervisor
    ensures
      var page := Page(Some(inc), Open, "", false);
      && ClickStatusUpdate(Some(handler), ChooseStatus(page, InProgress), store).None?
      && var r1 := ClickStatusUpdate(Some(supervisor), ChooseStatus(page, InProgress), store);
      && r1.Some? && r1.value.0.incident.value.status == InProgress
      && var r2 := ClickStatusUpdate(Some(handler), ChooseStatus(r1.value.0, Resolved), r1.value.1);
      && r2.Some? && r2.value.0.incident.value.status == Resolved
  {
  }
}
