/** The dashboard: the fixture incidents with statuses saved by the detail
    page laid over them, the per-status counts, and the recent table. */
module Dashboard {
  import opened JsBuiltins
  import opened Incidents
  import IncidentDetail

  /** One incident with its stored status, if any, laid over it. */
  function WithOverride(inc: Incident, store: Store): Incident {
    var key := StorageKey(inc.id);
    if key in store then inc.(status := store[key].status) else inc
  }

  /** The override merge: same length and order as the fixtures; only the
      status is taken from a stored record, every other field stays the
      fixture's, and an incident with nothing stored is unchanged. */
  function MergeOverrides(incidents: seq<Incident>, store: Store): (r: seq<Incident>)
    ensures |r| == |incidents|
    ensures forall k :: 0 <= k < |r| ==> SameExceptStatus(incidents[k], r[k])
    ensures forall k :: 0 <= k < |r| && StorageKey(incidents[k].id) in store ==>
      r[k].status == store[StorageKey(incidents[k].id)].status
    ensures forall k :: 0 <= k < |r| && StorageKey(incidents[k].id) !in store ==> r[k] == incidents[k]
  {
    seq(|incidents|, k requires 0 <= k < |incidents| => WithOverride(incidents[k], store))
  }

  /** Merging a second time against the same storage changes nothing. */
  lemma MergeIdempotent(incidents: seq<Incident>, store: Store)
    ensures MergeOverrides(MergeOverrides(incidents, store), store) == MergeOverrides(incidents, store)
  {
  }

  /** A status saved on the detail page is the status the dashboard shows for
      that incident. */
  lemma DashboardShowsSavedStatus(page: IncidentDetail.Page, store: Store, incidents: seq<Incident>, k: int)
    requires page.incident.Some? && 0 <= k < |incidents|
    requires incidents[k].id == page.incident.value.id
    ensures MergeOverrides(incidents, IncidentDetail.HandleStatusUpdate(page, store).1)[k].status == page.newStatus
  {
  }

  /** Adding a note saves the whole record, so from then on the dashboard shows
      the status the detail page had for it. */
  lemma NoteFreezesShownStatus(page: IncidentDetail.Page, store: Store, incidents: seq<Incident>, k: int)
    requires page.incident.Some? && !IsBlank(page.draft) && 0 <= k < |incidents|
    requires incidents[k].id == page.incident.value.id
    ensures MergeOverrides(incidents, IncidentDetail.HandleAddNote(page, store).1)[k].status == page.incident.value.status
  {
  }

  datatype Stats = Stats(total: nat, open: nat, inProgress: nat, resolved: nat)

  function StatusIs(st: Status): Incident -> bool {
    (inc: Incident) => inc.status == st
  }

  /** The positions of the incidents whose status is `st`. */
  ghost function PositionsWith(incidents: seq<Incident>, st: Status): set<int> {
    set k | 0 <= k < |incidents| && incidents[k].status == st
  }

  /** Appending an incident adds its own position exactly when it has the status. */
  lemma PositionsWithStep(init: seq<Incident>, last: Incident, st: Status)
    ensures PositionsWith(init + [last], st) ==
      PositionsWith(init, st) + (if last.status == st then {|init|} else {})
    ensures |init| !in PositionsWith(init, st)
  {
  }

  lemma {:induction false} FilterCountsPositions(incidents: seq<Incident>, st: Status)
    ensures |Filter(incidents, StatusIs(st))| == |PositionsWith(incidents, st)|
  {
    if |incidents| > 0 {
      var n := |incidents| - 1;
      var init, last := incidents[..n], incidents[n];
      FilterCountsPositions(init, st);
      assert incidents == init + [last];
      PositionsWithStep(init, last, st);
    }
  }

  /** `incidents.filter(i => i.status === st).length`: the number of
      positions holding an incident with status `st`. */
  function CountStatus(incidents: seq<Incident>, st: Status): (n: nat)
    ensures n == |PositionsWith(incidents, st)|
    ensures n <= |incidents|
  {
    FilterCountsPositions(incidents, st);
    |Filter(incidents, StatusIs(st))|
  }

  /** Counting is additive: an appended incident adds one to its own status
      and nothing to the others; the empty list counts zero. */
  lemma CountStatusStep(incidents: seq<Incident>, inc: Incident, st: Status)
    ensures CountStatus([], st) == 0
    ensures CountStatus(incidents + [inc], st) == CountStatus(incidents, st) + (if inc.status == st then 1 else 0)
  {
  }

  /** Every incident has exactly one of the three statuses, so the three
      counts add up to the total. */
  lemma {:induction false} CountsPartition(incidents: seq<Incident>)
    ensures CountStatus(incidents, Open) + CountStatus(incidents, InProgress) + CountStatus(incidents, Resolved) == |incidents|
  {
    if |incidents| > 0 {
      var init := incidents[..|incidents| - 1];
      var last := incidents[|incidents| - 1];
      assert incidents == init + [last];
      CountsPartition(init);
      CountStatusStep(init, last, Open);
      CountStatusStep(init, last, InProgress);
      CountStatusStep(init, last, Resolved);
    }
  }

  /** `statsData`: the total is the number of incidents, each status count is
      the number of incidents with that status, no count exceeds the total,
      and the three counts add up to it. */
  function ComputeStats(incidents: seq<Incident>): (r: Stats)
    ensures r.total == |incidents|
    ensures r.open == |PositionsWith(incidents, Open)|
    ensures r.inProgress == |PositionsWith(incidents, InProgress)|
    ensures r.resolved == |PositionsWith(incidents, Resolved)|
    ensures r.open <= r.total && r.inProgress <= r.total && r.resolved <= r.total
    ensures r.open + r.inProgress + r.resolved == r.total
  {
    CountsPartition(incidents);
    Stats(|incidents|, CountStatus(incidents, Open), CountStatus(incidents, InProgress), CountStatus(incidents, Resolved))
  }

  /** The number of rows in the recent table. */
  const RecentLimit := 5

  /** `incidents.slice(0, 5)`: the first five incidents, or all of them when
      there are fewer, in order. */
  function RecentIncidents(incidents: seq<Incident>): (r: seq<Incident>)
    ensures |r| <= RecentLimit
    ensures r <= incidents
    ensures |incidents| >= RecentLimit ==> |r| == RecentLimit
    ensures |incidents| <= RecentLimit ==> r == incidents
  {
    if |incidents| <= RecentLimit then incidents else incidents[..RecentLimit]
  }

  datatype View = View(recent: seq<Incident>, stats: Stats)

  /** What the dashboard shows for the given fixtures and storage: counts over
      the merged incidents and the first rows of the merged list. */
  function DashboardView(incidents: seq<Incident>, store: Store): (v: View)
    ensures v.stats.total == |incidents|
    ensures v.stats.open == |PositionsWith(MergeOverrides(incidents, store), Open)|
    ensures v.stats.inProgress == |PositionsWith(MergeOverrides(incidents, store), InProgress)|
    ensures v.stats.resolved == |PositionsWith(MergeOverrides(incidents, store), Resolved)|
    ensures v.recent <= MergeOverrides(incidents, store)
    ensures |v.recent| == if |incidents| < RecentLimit then |incidents| else RecentLimit
  {
    var merged := MergeOverrides(incidents, store);
    View(RecentIncidents(merged), ComputeStats(merged))
  }

  /** A status saved on the detail page moves that fixture into the dashboard
      count for the new status and out of the counts for the other two. */
  lemma SavedStatusIsCounted(page: IncidentDetail.Page, store: Store, incidents: seq<Incident>, k: int, st: Status)
    requires page.incident.Some? && 0 <= k < |incidents|
    requires incidents[k].id == page.incident.value.id
    ensures var merged := MergeOverrides(incidents, IncidentDetail.HandleStatusUpdate(page, store).1);
      k in PositionsWith(merged, st) <==> st == page.newStatus
  {
  }
}
