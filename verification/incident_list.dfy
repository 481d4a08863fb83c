/** The incident list page: the status filter and search box, the role gate
    on the create button, and the status labels. */
module IncidentList {
  import opened Wrappers
  import opened JsBuiltins
  import opened Auth
  import opened Incidents

  /** The filter value that selects every status. */
  const AllStatuses := "all"

  /** What the list promises to show: the filter is "all" or names the
      incident's status, and the lowered search term occurs in the lowered
      title or the lowered location. */
  ghost predicate Matches(filterStatus: string, searchTerm: string, lower: string -> string, inc: Incident) {
    && (filterStatus == AllStatuses || ParseStatus(filterStatus) == Some(inc.status))
    && (|| (exists k :: OccursAt(lower(searchTerm), lower(inc.title), k))
        || (exists k :: OccursAt(lower(searchTerm), lower(inc.location), k)))
  }

  /** The test `filteredIncidents` applies to each incident; it holds exactly
      when the incident `Matches`. `lower` stands for `toLowerCase`, which is
      not modelled. */
  function Keeps(filterStatus: string, searchTerm: string, lower: string -> string, inc: Incident): (b: bool)
    ensures b <==> Matches(filterStatus, searchTerm, lower, inc)
  {
    StatusNameRoundTrip(inc.status, filterStatus);
    var matchesStatus := filterStatus == AllStatuses || StatusName(inc.status) == filterStatus;
    var term := lower(searchTerm);
    var matchesSearch := StringIncludes(lower(inc.title), term) || StringIncludes(lower(inc.location), term);
    matchesStatus && matchesSearch
  }

  function KeepTest(filterStatus: string, searchTerm: string, lower: string -> string): Incident -> bool {
    inc => Keeps(filterStatus, searchTerm, lower, inc)
  }

  /** The function value handed to `filter` applies the same test. */
  lemma KeepsIffMatches(filterStatus: string, searchTerm: string, lower: string -> string)
    ensures forall inc :: KeepTest(filterStatus, searchTerm, lower)(inc) <==> Matches(filterStatus, searchTerm, lower, inc)
  {
  }

  /** `filteredIncidents`: an order-preserving subsequence of the incidents
      holding every incident that matches and nothing else. */
  function FilteredIncidents(incidents: seq<Incident>, filterStatus: string, searchTerm: string, lower: string -> string): (r: seq<Incident>)
    ensures IsSubsequence(r, incidents)
    ensures |r| <= |incidents|
    ensures forall k :: 0 <= k < |r| ==> Matches(filterStatus, searchTerm, lower, r[k])
    ensures forall k :: 0 <= k < |incidents| && Matches(filterStatus, searchTerm, lower, incidents[k]) ==> incidents[k] in r
  {
    KeepsIffMatches(filterStatus, searchTerm, lower);
    FilterIsSubsequence(incidents, KeepTest(filterStatus, searchTerm, lower));
    Filter(incidents, KeepTest(filterStatus, searchTerm, lower))
  }

  /** The filtered list is determined position by position: it is the
      incidents at exactly the matching positions, in increasing order. */
  lemma FilteredAtMatchingPositions(incidents: seq<Incident>, filterStatus: string, searchTerm: string, lower: string -> string)
    ensures exists idx ::
      && Embeds(idx, FilteredIncidents(incidents, filterStatus, searchTerm, lower), incidents)
      && forall j :: 0 <= j < |incidents| ==> (j in idx <==> Matches(filterStatus, searchTerm, lower, incidents[j]))
  {
    var keep := KeepTest(filterStatus, searchTerm, lower);
    var idx := KeptIndices(incidents, keep);
    KeepsIffMatches(filterStatus, searchTerm, lower);
    forall j | 0 <= j < |incidents|
      ensures j in idx <==> Matches(filterStatus, searchTerm, lower, incidents[j])
    {
      KeptIndicesExact(incidents, keep, j);
    }
    assert Embeds(idx, FilteredIncidents(incidents, filterStatus, searchTerm, lower), incidents);
  }

  /** With the filter on "all" and an empty search box every incident is
      shown, provided lowering leaves the empty string empty. */
  lemma AllWithEmptySearchShowsEverything(incidents: seq<Incident>, lower: string -> string)
    requires lower("") == ""
    ensures FilteredIncidents(incidents, AllStatuses, "", lower) == incidents
  {
    var keep := KeepTest(AllStatuses, "", lower);
    forall k | 0 <= k < |incidents| ensures keep(incidents[k]) {
      assert "" <= lower(incidents[k].title);
    }
    FilterAllKept(incidents, keep);
  }

  /** A filter value that is neither "all" nor a status name shows nothing. */
  lemma UnknownFilterShowsNothing(incidents: seq<Incident>, filterStatus: string, searchTerm: string, lower: string -> string)
    requires filterStatus != AllStatuses && ParseStatus(filterStatus).None?
    ensures FilteredIncidents(incidents, filterStatus, searchTerm, lower) == []
  {
    var r := FilteredIncidents(incidents, filterStatus, searchTerm, lower);
    assert |r| > 0 ==> Matches(filterStatus, searchTerm, lower, r[0]);
  }

  /** The create button is shown to supervisors and coordinators only. Its
      click merely announces that creating is not available yet. */
  function CreateButtonVisible(user: Option<User>): (b: bool)
    ensures b <==> user.Some? && (user.value.role == Supervisor || user.value.role == Coordinator)
  {
    HasPermission(user, [Supervisor, Coordinator])
  }

  /** The display label of each status. */
  function LabelOf(s: Status): string {
    match s
    case Open => "Ch\U{1EDD} x\U{1EED} l\U{FD}"
    case InProgress => "\U{0110}ang x\U{1EED} l\U{FD}"
    case Resolved => "\U{0110}\U{E3} gi\U{1EA3}i quy\U{1EBF}t"
  }

  /** `getStatusLabel`: a status name gets its label, any other string is
      returned as it is. */
  function StatusLabel(status: string): (text: string)
    ensures ParseStatus(status).Some? ==> text == LabelOf(ParseStatus(status).value)
    ensures ParseStatus(status).None? ==> text == status
  {
    if status == "open" then LabelOf(Open)
    else if status == "in-progress" then LabelOf(InProgress)
    else if status == "resolved" then LabelOf(Resolved)
    else status
  }

  /** The three labels are distinct and none of them is a status name, so a
      label tells which status it stands for. */
  lemma LabelsDistinguishStatuses(s: Status, t: Status)
    ensures StatusLabel(StatusName(s)) == LabelOf(s)
    ensures LabelOf(s) == LabelOf(t) ==> s == t
    ensures ParseStatus(LabelOf(s)).None?
  {
  }
}
