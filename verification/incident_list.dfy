/** The incident list's client-side filters: the owner restriction for citizens, the
    free-text search, the status filter and the two date bounds, applied in that order
    to the incidents loaded from the server. */
module IncidentFilter {

  import opened Types
  import opened Sequences

  /** The filter controls of the list. */
  datatype Criteria = Criteria(searchTerm: string, statusFilter: string, startDate: string, endDate: string)

  /** What the "Limpiar" button resets the controls to. */
  const DefaultCriteria: Criteria := Criteria("", "all", "", "")

  /** The signed-in user as the list sees it: `profile?.role` and `user?.id`, either possibly absent. */
  datatype Viewer = Viewer(role: Option<Role>, userId: Option<string>)

  /** `hay.includes(needle)`. */
  predicate Contains(hay: string, needle: string)
    decreases |hay|
  {
    needle <= hay || (hay != [] && Contains(hay[1..], needle))
  }

  predicate OccursAt(hay: string, needle: string, i: int) {
    0 <= i <= |hay| - |needle| && hay[i..i + |needle|] == needle
  }

  /** `Contains` holds exactly when `needle` occurs at some offset of `hay`. */
  lemma {:induction false} ContainsAt(hay: string, needle: string)
    ensures Contains(hay, needle) <==> exists i :: OccursAt(hay, needle, i)
    decreases |hay|
  {
    if needle <= hay {
      assert hay[0..|needle|] == needle;
      assert OccursAt(hay, needle, 0);
    }
    if hay != [] {
      ContainsAt(hay[1..], needle);
      if Contains(hay[1..], needle) {
        var i :| OccursAt(hay[1..], needle, i);
        assert hay[i + 1..i + 1 + |needle|] == hay[1..][i..i + |needle|];
        assert OccursAt(hay, needle, i + 1);
      }
      if exists i :: OccursAt(hay, needle, i) {
        var i :| OccursAt(hay, needle, i);
        if i == 0 {
          assert needle <= hay;
        } else {
          assert hay[1..][i - 1..i - 1 + |needle|] == hay[i..i + |needle|];
          assert OccursAt(hay[1..], needle, i - 1);
        }
      }
    } else {
      if exists i :: OccursAt(hay, needle, i) {
        var i :| OccursAt(hay, needle, i);
        assert needle == [];
      }
    }
  }

  /** `incident.user_id === user?.id`. */
  predicate OwnedBy(viewer: Viewer, v: IncidentView) {
    viewer.userId == Some(v.incident.userId)
  }

  /** The search term, lowercased, occurs in the lowercased title, description or address. */
  predicate MatchesSearch(term: string, lower: string -> string, v: IncidentView) {
    var t := lower(term);
    || Contains(lower(v.incident.title), t)
    || Contains(lower(v.incident.description), t)
    || (v.incident.address.Some? && Contains(lower(v.incident.address.value), t))
  }

  /** `new Date(a) >= new Date(b)`: false when either date is invalid. */
  predicate NotBefore(toTime: string -> Option<int>, a: string, b: string) {
    toTime(a).Some? && toTime(b).Some? && toTime(a).value >= toTime(b).value
  }

  /** `new Date(a) <= new Date(b)`: false when either date is invalid. */
  predicate NotAfter(toTime: string -> Option<int>, a: string, b: string) {
    toTime(a).Some? && toTime(b).Some? && toTime(a).value <= toTime(b).value
  }

  /** Everything an incident must satisfy to stay in the list, as one predicate. */
  predicate Shown(viewer: Viewer, c: Criteria, lower: string -> string, toTime: string -> Option<int>, v: IncidentView) {
    && (viewer.role == Some(Citizen) ==> OwnedBy(viewer, v))
    && (c.searchTerm != "" ==> MatchesSearch(c.searchTerm, lower, v))
    && (c.statusFilter != "all" ==> StatusName(v.incident.status) == c.statusFilter)
    && (c.startDate != "" ==> NotBefore(toTime, v.incident.incidentDate, c.startDate))
    && (c.endDate != "" ==> NotAfter(toTime, v.incident.incidentDate, c.endDate))
  }

  // The test of each stage, as a named predicate value.

  function OwnerTest(viewer: Viewer): IncidentView -> bool {
    (v: IncidentView) => OwnedBy(viewer, v)
  }

  function SearchTest(term: string, lower: string -> string): IncidentView -> bool {
    (v: IncidentView) => MatchesSearch(term, lower, v)
  }

  function StatusTest(statusFilter: string): IncidentView -> bool {
    (v: IncidentView) => StatusName(v.incident.status) == statusFilter
  }

  function StartTest(toTime: string -> Option<int>, startDate: string): IncidentView -> bool {
    (v: IncidentView) => NotBefore(toTime, v.incident.incidentDate, startDate)
  }

  function EndTest(toTime: string -> Option<int>, endDate: string): IncidentView -> bool {
    (v: IncidentView) => NotAfter(toTime, v.incident.incidentDate, endDate)
  }

  /** `enabled ==> p`: what an optional stage lets through. */
  function Guard(enabled: bool, p: IncidentView -> bool): IncidentView -> bool {
    (v: IncidentView) => enabled ==> p(v)
  }

  /** `if (enabled) filtered = filtered.filter(p)`. */
  function Stage(s: seq<IncidentView>, enabled: bool, p: IncidentView -> bool): (r: seq<IncidentView>)
    ensures r == Filter(s, Guard(enabled, p))
  {
    if enabled then
      FilterExtensional(s, p, Guard(enabled, p));
      Filter(s, p)
    else
      assert forall v :: v in s ==> Guard(enabled, p)(v);
      s
  }

  function ShownTest(viewer: Viewer, c: Criteria, lower: string -> string, toTime: string -> Option<int>): IncidentView -> bool {
    (v: IncidentView) => Shown(viewer, c, lower, toTime, v)
  }

  /** All five guarded stages at once. */
  function AllStages(viewer: Viewer, c: Criteria, lower: string -> string, toTime: string -> Option<int>): IncidentView -> bool {
    Both(Both(Both(Both(
      Guard(viewer.role == Some(Citizen), OwnerTest(viewer)),
      Guard(c.searchTerm != "", SearchTest(c.searchTerm, lower))),
      Guard(c.statusFilter != "all", StatusTest(c.statusFilter))),
      Guard(c.startDate != "", StartTest(toTime, c.startDate))),
      Guard(c.endDate != "", EndTest(toTime, c.endDate)))
  }

  /** `filterIncidents`: each enabled control narrows the list in turn; the result is
      the loaded list filtered, order kept, by `Shown`. */
  function FilterIncidents(list: seq<IncidentView>, viewer: Viewer, c: Criteria,
                           lower: string -> string, toTime: string -> Option<int>): (r: seq<IncidentView>)
    ensures r == Filter(list, ShownTest(viewer, c, lower, toTime))
  {
    var owned := Stage(list, viewer.role == Some(Citizen), OwnerTest(viewer));
    var searched := Stage(owned, c.searchTerm != "", SearchTest(c.searchTerm, lower));
    var byStatus := Stage(searched, c.statusFilter != "all", StatusTest(c.statusFilter));
    var fromStart := Stage(byStatus, c.startDate != "", StartTest(toTime, c.startDate));
    var toEnd := Stage(fromStart, c.endDate != "", EndTest(toTime, c.endDate));
    StagesCompose(list, viewer, c, lower, toTime);
    toEnd
  }

  /** Five filters in a row are one filter by the conjunction of their guards, which is `Shown`. */
  lemma StagesCompose(list: seq<IncidentView>, viewer: Viewer, c: Criteria,
                      lower: string -> string, toTime: string -> Option<int>)
    ensures var g1 := Guard(viewer.role == Some(Citizen), OwnerTest(viewer));
            var g2 := Guard(c.searchTerm != "", SearchTest(c.searchTerm, lower));
            var g3 := Guard(c.statusFilter != "all", StatusTest(c.statusFilter));
            var g4 := Guard(c.startDate != "", StartTest(toTime, c.startDate));
            var g5 := Guard(c.endDate != "", EndTest(toTime, c.endDate));
            Filter(Filter(Filter(Filter(Filter(list, g1), g2), g3), g4), g5) == Filter(list, ShownTest(viewer, c, lower, toTime))
  {
    var g1 := Guard(viewer.role == Some(Citizen), OwnerTest(viewer));
    var g2 := Guard(c.searchTerm != "", SearchTest(c.searchTerm, lower));
    var g3 := Guard(c.statusFilter != "all", StatusTest(c.statusFilter));
    var g4 := Guard(c.startDate != "", StartTest(toTime, c.startDate));
    var g5 := Guard(c.endDate != "", EndTest(toTime, c.endDate));
    FilterFilter(list, g1, g2);
    FilterFilter(list, Both(g1, g2), g3);
    FilterFilter(list, Both(Both(g1, g2), g3), g4);
    FilterFilter(list, Both(Both(Both(g1, g2), g3), g4), g5);
    forall v ensures AllStages(viewer, c, lower, toTime)(v) == ShownTest(viewer, c, lower, toTime)(v) {
      StagesAgreeWithShown(viewer, c, lower, toTime, v);
    }
    FilterExtensional(list, AllStages(viewer, c, lower, toTime), ShownTest(viewer, c, lower, toTime));
  }

  lemma StagesAgreeWithShown(viewer: Viewer, c: Criteria, lower: string -> string, toTime: string -> Option<int>, v: IncidentView)
    ensures AllStages(viewer, c, lower, toTime)(v) == Shown(viewer, c, lower, toTime, v)
  {
    var g1 := Guard(viewer.role == Some(Citizen), OwnerTest(viewer));
    var g2 := Guard(c.searchTerm != "", SearchTest(c.searchTerm, lower));
    var g3 := Guard(c.statusFilter != "all", StatusTest(c.statusFilter));
    var g4 := Guard(c.startDate != "", StartTest(toTime, c.startDate));
    var g5 := Guard(c.endDate != "", EndTest(toTime, c.endDate));
    var a1, a2, a3 := Both(g1, g2), Both(Both(g1, g2), g3), Both(Both(Both(g1, g2), g3), g4);
    assert a1(v) == (g1(v) && g2(v));
    assert a2(v) == (a1(v) && g3(v));
    assert a3(v) == (a2(v) && g4(v));
    assert AllStages(viewer, c, lower, toTime)(v) == (a3(v) && g5(v));
  }

  /** What each enabled control guarantees about the incidents kept, and that the list
      keeps its loaded order. */
  lemma KeptIncidents(list: seq<IncidentView>, viewer: Viewer, c: Criteria,
                      lower: string -> string, toTime: string -> Option<int>)
    ensures var r := FilterIncidents(list, viewer, c, lower, toTime);
            && IsSubseq(r, list)
            && (forall v :: v in r <==> v in list && Shown(viewer, c, lower, toTime, v))
            && (viewer.role == Some(Citizen) ==> forall v :: v in r ==> viewer.userId == Some(v.incident.userId))
            && (c.statusFilter != "all" ==> forall v :: v in r ==> StatusName(v.incident.status) == c.statusFilter)
            && (c.startDate != "" && c.endDate != "" ==>
                  forall v :: v in r ==> (NotBefore(toTime, v.incident.incidentDate, c.startDate)
                                          && NotAfter(toTime, v.incident.incidentDate, c.endDate)))
  {
  }

  /** Applying the same criteria to the filtered list changes nothing. */
  lemma FilterIdempotent(list: seq<IncidentView>, viewer: Viewer, c: Criteria,
                         lower: string -> string, toTime: string -> Option<int>)
    ensures var once := FilterIncidents(list, viewer, c, lower, toTime);
            FilterIncidents(once, viewer, c, lower, toTime) == once
  {
  }

  /** After a reset, an authority (or a viewer whose profile has not loaded) sees every
      loaded incident, and a citizen sees exactly their own, in loaded order. */
  lemma ResetShowsAll(list: seq<IncidentView>, viewer: Viewer, lower: string -> string, toTime: string -> Option<int>)
    ensures viewer.role != Some(Citizen) ==> FilterIncidents(list, viewer, DefaultCriteria, lower, toTime) == list
    ensures viewer.role == Some(Citizen) ==>
              FilterIncidents(list, viewer, DefaultCriteria, lower, toTime) == Filter(list, OwnerTest(viewer))
  {
    var shown := ShownTest(viewer, DefaultCriteria, lower, toTime);
    if viewer.role == Some(Citizen) {
      FilterExtensional(list, shown, OwnerTest(viewer));
    } else {
      assert forall v :: v in list ==> shown(v);
    }
  }
}
