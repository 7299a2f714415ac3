/** The authority dashboard's statistics over the listed incidents: totals per status,
    counts per category name (with the colour of the last incident seen) sorted by count,
    and counts per priority sorted from urgent to low. */
module Statistics {

  import opened Types
  import opened Sequences

  const FallbackCategoryName: string := "Sin categoría"
  const FallbackCategoryColor: string := "#6B7280"

  datatype CategoryStat = CategoryStat(name: string, count: nat, color: string)

  datatype PriorityStat = PriorityStat(priority: Priority, count: nat)

  datatype Stats = Stats(
    total: nat,
    pending: nat,
    inProgress: nat,
    resolved: nat,
    rejected: nat,
    byCategory: seq<CategoryStat>,
    byPriority: seq<PriorityStat>)

  /** `incidents.filter((i) => i.status === s).length`. */
  function CountStatus(incidents: seq<IncidentView>, s: Status): nat {
    |Filter(incidents, (v: IncidentView) => v.incident.status == s)|
  }

  /** With four statuses, the four counts add up to the total. */
  lemma {:induction false} StatusCountsAddUp(incidents: seq<IncidentView>)
    ensures CountStatus(incidents, Pending) + CountStatus(incidents, InProgress)
            + CountStatus(incidents, Resolved) + CountStatus(incidents, Rejected) == |incidents|
    decreases |incidents|
  {
    if incidents != [] {
      StatusCountsAddUp(incidents[1..]);
      CountStatusStep(incidents, Pending);
      CountStatusStep(incidents, InProgress);
      CountStatusStep(incidents, Resolved);
      CountStatusStep(incidents, Rejected);
    }
  }

  /** The first incident adds one to the count of its own status and nothing to the others. */
  lemma CountStatusStep(incidents: seq<IncidentView>, s: Status)
    requires incidents != []
    ensures CountStatus(incidents, s) == CountStatus(incidents[1..], s) + (if incidents[0].incident.status == s then 1 else 0)
  {
  }

  // ----- grouping by category name -----

  /** `incident.category_name || 'Sin categoría'`. */
  function CategoryNameOf(v: IncidentView): string {
    if v.categoryName == "" then FallbackCategoryName else v.categoryName
  }

  /** `incident.category_color || '#6B7280'`. */
  function CategoryColorOf(v: IncidentView): string {
    if v.categoryColor == "" then FallbackCategoryColor else v.categoryColor
  }

  /** How many incidents fall under the category name `name`. */
  function CountCategory(incidents: seq<IncidentView>, name: string): nat
    decreases |incidents|
  {
    if incidents == [] then 0
    else
      var last := incidents[|incidents| - 1];
      CountCategory(incidents[..|incidents| - 1], name) + (if CategoryNameOf(last) == name then 1 else 0)
  }

  /** The colour of the last incident under the category name `name`. */
  function LastColor(incidents: seq<IncidentView>, name: string): string
    decreases |incidents|
  {
    if incidents == [] then FallbackCategoryColor
    else
      var last := incidents[|incidents| - 1];
      if CategoryNameOf(last) == name then CategoryColorOf(last) else LastColor(incidents[..|incidents| - 1], name)
  }

  lemma {:induction false} CountCategoryZero(incidents: seq<IncidentView>, name: string)
    requires forall k :: 0 <= k < |incidents| ==> CategoryNameOf(incidents[k]) != name
    ensures CountCategory(incidents, name) == 0
    decreases |incidents|
  {
    if incidents != [] {
      CountCategoryZero(incidents[..|incidents| - 1], name);
    }
  }

  function NameOf(e: CategoryStat): string {
    e.name
  }

  function CountOf(e: CategoryStat): int {
    e.count
  }

  function Names(entries: seq<CategoryStat>): set<string> {
    set e | e in entries :: e.name
  }

  /** The `categoryMap.get(name)` lookup. */
  function FindCategory(entries: seq<CategoryStat>, name: string): (r: Option<nat>)
    ensures r.Some? ==> r.value < |entries| && entries[r.value].name == name
    ensures r.None? <==> name !in Names(entries)
  {
    FindBy(entries, NameOf, name)
  }

  /** What the category map holds once the incidents `seen` have been counted:
      one entry per name, each with its count and last colour, and no name missing. */
  ghost predicate CategoryMapAfter(entries: seq<CategoryStat>, seen: seq<IncidentView>) {
    && DistinctBy(entries, NameOf)
    && CategoryEntriesCount(entries, seen)
    && CategoryNamesCovered(entries, seen)
    && SumBy(entries, CountOf) == |seen|
  }

  ghost predicate CategoryEntriesCount(entries: seq<CategoryStat>, seen: seq<IncidentView>) {
    forall e :: e in entries ==>
      e.count == CountCategory(seen, e.name) && e.count > 0 && e.color == LastColor(seen, e.name)
  }

  ghost predicate CategoryNamesCovered(entries: seq<CategoryStat>, seen: seq<IncidentView>) {
    forall k :: 0 <= k < |seen| ==> CategoryNameOf(seen[k]) in Names(entries)
  }

  /** The first `i + 1` incidents are the first `i` and one more. */
  lemma Extend(incidents: seq<IncidentView>, i: nat)
    requires i < |incidents|
    ensures incidents[..i + 1] == incidents[..i] + [incidents[i]]
  {
  }

  /** The `forEach` that fills `categoryMap`, one incident at a time. */
  method GroupByCategory(incidents: seq<IncidentView>) returns (entries: seq<CategoryStat>)
    ensures CategoryMapAfter(entries, incidents)
  {
    entries := [];
    var i := 0;
    while i < |incidents|
      invariant 0 <= i <= |incidents|
      invariant CategoryMapAfter(entries, incidents[..i])
    {
      var v := incidents[i];
      var name := CategoryNameOf(v);
      var color := CategoryColorOf(v);
      Extend(incidents, i);
      match FindCategory(entries, name) {
        case Some(j) =>
          CategoryHit(entries, incidents[..i], v, j);
          entries := entries[j := CategoryStat(name, entries[j].count + 1, color)];
        case None =>
          CategoryNew(entries, incidents[..i], v);
          entries := entries + [CategoryStat(name, 1, color)];
      }
      i := i + 1;
    }
    assert incidents[..i] == incidents;
  }

  /** An incident whose category name is already in the map bumps that entry. */
  lemma CategoryHit(entries: seq<CategoryStat>, seen: seq<IncidentView>, v: IncidentView, j: nat)
    requires CategoryMapAfter(entries, seen)
    requires j < |entries| && entries[j].name == CategoryNameOf(v)
    ensures CategoryMapAfter(entries[j := CategoryStat(CategoryNameOf(v), entries[j].count + 1, CategoryColorOf(v))], seen + [v])
  {
    var name := CategoryNameOf(v);
    var seen' := seen + [v];
    assert seen'[..|seen'| - 1] == seen;
    var e' := CategoryStat(name, entries[j].count + 1, CategoryColorOf(v));
    var entries' := entries[j := e'];
    SumByUpdate(entries, j, e', CountOf);
    forall i, k | 0 <= i < k < |entries'| ensures NameOf(entries'[i]) != NameOf(entries'[k]) {
      assert NameOf(entries[i]) != NameOf(entries[k]);
    }
    forall e | e in entries'
      ensures e.count == CountCategory(seen', e.name) && e.count > 0 && e.color == LastColor(seen', e.name)
    {
      var i :| 0 <= i < |entries'| && entries'[i] == e;
      if i != j {
        assert e == entries[i] && NameOf(entries[i]) != NameOf(entries[j]);
      }
    }
    forall k | 0 <= k < |seen'| ensures CategoryNameOf(seen'[k]) in Names(entries') {
      var n := CategoryNameOf(seen'[k]);
      if k < |seen| {
        assert seen'[k] == seen[k];
        var e :| e in entries && e.name == n;
        var i :| 0 <= i < |entries| && entries[i] == e;
        assert entries'[i].name == n;
      } else {
        assert entries'[j] == e';
      }
    }
  }

  /** An incident with a category name not yet in the map adds an entry counting one. */
  lemma CategoryNew(entries: seq<CategoryStat>, seen: seq<IncidentView>, v: IncidentView)
    requires CategoryMapAfter(entries, seen)
    requires CategoryNameOf(v) !in Names(entries)
    ensures CategoryMapAfter(entries + [CategoryStat(CategoryNameOf(v), 1, CategoryColorOf(v))], seen + [v])
  {
    var name := CategoryNameOf(v);
    var seen' := seen + [v];
    assert seen'[..|seen'| - 1] == seen;
    var e' := CategoryStat(name, 1, CategoryColorOf(v));
    var entries' := entries + [e'];
    SumByAppend(entries, e', CountOf);
    forall k | 0 <= k < |seen| ensures CategoryNameOf(seen[k]) != name {
    }
    CountCategoryZero(seen, name);
    forall i, k | 0 <= i < k < |entries'| ensures NameOf(entries'[i]) != NameOf(entries'[k]) {
      if k == |entries| {
        assert entries'[i] in entries;
      }
    }
    forall e | e in entries'
      ensures e.count == CountCategory(seen', e.name) && e.count > 0 && e.color == LastColor(seen', e.name)
    {
      if e != e' {
        assert e in entries;
      }
    }
    forall k | 0 <= k < |seen'| ensures CategoryNameOf(seen'[k]) in Names(entries') {
      if k < |seen| {
        assert seen'[k] == seen[k];
        var n := CategoryNameOf(seen[k]);
        var e :| e in entries && e.name == n;
        assert e in entries';
      } else {
        assert e' in entries';
      }
    }
  }

  // ----- grouping by priority -----

  function CountPriority(incidents: seq<IncidentView>, p: Priority): nat
    decreases |incidents|
  {
    if incidents == [] then 0
    else
      var last := incidents[|incidents| - 1];
      CountPriority(incidents[..|incidents| - 1], p) + (if last.incident.priority == p then 1 else 0)
  }

  lemma {:induction false} CountPriorityZero(incidents: seq<IncidentView>, p: Priority)
    requires forall k :: 0 <= k < |incidents| ==> incidents[k].incident.priority != p
    ensures CountPriority(incidents, p) == 0
    decreases |incidents|
  {
    if incidents != [] {
      CountPriorityZero(incidents[..|incidents| - 1], p);
    }
  }

  function PriorityOf(e: PriorityStat): Priority {
    e.priority
  }

  function PriorityCountOf(e: PriorityStat): int {
    e.count
  }

  function Priorities(entries: seq<PriorityStat>): set<Priority> {
    set e | e in entries :: e.priority
  }

  function FindPriority(entries: seq<PriorityStat>, p: Priority): (r: Option<nat>)
    ensures r.Some? ==> r.value < |entries| && entries[r.value].priority == p
    ensures r.None? <==> p !in Priorities(entries)
  {
    FindBy(entries, PriorityOf, p)
  }

  /** What the priority map holds once the incidents `seen` have been counted. */
  ghost predicate PriorityMapAfter(entries: seq<PriorityStat>, seen: seq<IncidentView>) {
    && DistinctBy(entries, PriorityOf)
    && PriorityEntriesCount(entries, seen)
    && PrioritiesCovered(entries, seen)
    && SumBy(entries, PriorityCountOf) == |seen|
  }

  ghost predicate PriorityEntriesCount(entries: seq<PriorityStat>, seen: seq<IncidentView>) {
    forall e :: e in entries ==> e.count == CountPriority(seen, e.priority) && e.count > 0
  }

  ghost predicate PrioritiesCovered(entries: seq<PriorityStat>, seen: seq<IncidentView>) {
    forall k :: 0 <= k < |seen| ==> seen[k].incident.priority in Priorities(entries)
  }

  /** The `forEach` that fills `priorityMap`. */
  method GroupByPriority(incidents: seq<IncidentView>) returns (entries: seq<PriorityStat>)
    ensures PriorityMapAfter(entries, incidents)
  {
    entries := [];
    var i := 0;
    while i < |incidents|
      invariant 0 <= i <= |incidents|
      invariant PriorityMapAfter(entries, incidents[..i])
    {
      var v := incidents[i];
      var p := v.incident.priority;
      Extend(incidents, i);
      match FindPriority(entries, p) {
        case Some(j) =>
          PriorityHit(entries, incidents[..i], v, j);
          entries := entries[j := PriorityStat(p, entries[j].count + 1)];
        case None =>
          PriorityNew(entries, incidents[..i], v);
          entries := entries + [PriorityStat(p, 1)];
      }
      i := i + 1;
    }
    assert incidents[..i] == incidents;
  }

  lemma PriorityHit(entries: seq<PriorityStat>, seen: seq<IncidentView>, v: IncidentView, j: nat)
    requires PriorityMapAfter(entries, seen)
    requires j < |entries| && entries[j].priority == v.incident.priority
    ensures PriorityMapAfter(entries[j := PriorityStat(v.incident.priority, entries[j].count + 1)], seen + [v])
  {
    var p := v.incident.priority;
    var seen' := seen + [v];
    assert seen'[..|seen'| - 1] == seen;
    var e' := PriorityStat(p, entries[j].count + 1);
    var entries' := entries[j := e'];
    SumByUpdate(entries, j, e', PriorityCountOf);
    forall i, k | 0 <= i < k < |entries'| ensures PriorityOf(entries'[i]) != PriorityOf(entries'[k]) {
      assert PriorityOf(entries[i]) != PriorityOf(entries[k]);
    }
    forall e | e in entries' ensures e.count == CountPriority(seen', e.priority) && e.count > 0 {
      var i :| 0 <= i < |entries'| && entries'[i] == e;
      if i != j {
        assert e == entries[i] && PriorityOf(entries[i]) != PriorityOf(entries[j]);
      }
    }
    forall k | 0 <= k < |seen'| ensures seen'[k].incident.priority in Priorities(entries') {
      var q := seen'[k].incident.priority;
      if k < |seen| {
        assert seen'[k] == seen[k];
        var e :| e in entries && e.priority == q;
        var i :| 0 <= i < |entries| && entries[i] == e;
        assert entries'[i].priority == q;
      } else {
        assert entries'[j] == e';
      }
    }
  }

  lemma PriorityNew(entries: seq<PriorityStat>, seen: seq<IncidentView>, v: IncidentView)
    requires PriorityMapAfter(entries, seen)
    requires v.incident.priority !in Priorities(entries)
    ensures PriorityMapAfter(entries + [PriorityStat(v.incident.priority, 1)], seen + [v])
  {
    var p := v.incident.priority;
    var seen' := seen + [v];
    assert seen'[..|seen'| - 1] == seen;
    var e' := PriorityStat(p, 1);
    var entries' := entries + [e'];
    SumByAppend(entries, e', PriorityCountOf);
    forall k | 0 <= k < |seen| ensures seen[k].incident.priority != p {
    }
    CountPriorityZero(seen, p);
    forall i, k | 0 <= i < k < |entries'| ensures PriorityOf(entries'[i]) != PriorityOf(entries'[k]) {
      if k == |entries| {
        assert entries'[i] in entries;
      }
    }
    forall e | e in entries' ensures e.count == CountPriority(seen', e.priority) && e.count > 0 {
      if e != e' {
        assert e in entries;
      }
    }
    forall k | 0 <= k < |seen'| ensures seen'[k].incident.priority in Priorities(entries') {
      if k < |seen| {
        assert seen'[k] == seen[k];
        var q := seen[k].incident.priority;
        var e :| e in entries && e.priority == q;
        assert e in entries';
      } else {
        assert e' in entries';
      }
    }
  }

  // ----- the two sorts and the whole aggregation -----

  /** Sort key of `(a, b) => b.count - a.count`: larger counts first. */
  function MostFirst(e: CategoryStat): int {
    -(e.count as int)
  }

  /** Sort key of `order = { urgent: 0, high: 1, medium: 2, low: 3 }`. */
  function Rank(e: PriorityStat): int {
    match e.priority
    case Urgent => 0
    case High => 1
    case Medium => 2
    case Low => 3
  }

  /** The body of `loadStatistics` once the incidents are loaded. */
  method ComputeStats(incidents: seq<IncidentView>) returns (stats: Stats)
    ensures stats.total == |incidents|
    ensures stats.pending == CountStatus(incidents, Pending) && stats.inProgress == CountStatus(incidents, InProgress)
    ensures stats.resolved == CountStatus(incidents, Resolved) && stats.rejected == CountStatus(incidents, Rejected)
    ensures stats.pending + stats.inProgress + stats.resolved + stats.rejected == stats.total
    // byCategory: one entry per category name, counts summing to the total, largest first
    ensures CategoryMapAfter(stats.byCategory, incidents)
    ensures forall i, j :: 0 <= i < j < |stats.byCategory| ==> stats.byCategory[i].count >= stats.byCategory[j].count
    // byPriority: one entry per priority present, counts summing to the total, urgent to low
    ensures PriorityMapAfter(stats.byPriority, incidents)
    ensures forall i, j :: 0 <= i < j < |stats.byPriority| ==> Rank(stats.byPriority[i]) < Rank(stats.byPriority[j])
  {
    var total := |incidents|;
    var pending := CountStatus(incidents, Pending);
    var inProgress := CountStatus(incidents, InProgress);
    var resolved := CountStatus(incidents, Resolved);
    var rejected := CountStatus(incidents, Rejected);
    StatusCountsAddUp(incidents);

    var categoryMap := GroupByCategory(incidents);
    var byCategory := SortBy(categoryMap, MostFirst);
    SortedCategories(incidents, categoryMap, byCategory);

    var priorityMap := GroupByPriority(incidents);
    var byPriority := SortBy(priorityMap, Rank);
    SortedPriorities(incidents, priorityMap, byPriority);

    stats := Stats(total, pending, inProgress, resolved, rejected, byCategory, byPriority);
  }

  /** Sorting the category map by count keeps what it says about each name. */
  lemma SortedCategories(incidents: seq<IncidentView>, entries: seq<CategoryStat>, sorted: seq<CategoryStat>)
    requires CategoryMapAfter(entries, incidents)
    requires sorted == SortBy(entries, MostFirst)
    ensures CategoryMapAfter(sorted, incidents)
    ensures forall i, j :: 0 <= i < j < |sorted| ==> sorted[i].count >= sorted[j].count
  {
    DistinctBySort(entries, MostFirst, NameOf);
    SumBySort(entries, MostFirst, CountOf);
    SortByMembers(entries, MostFirst);
    CategoryFactsTransfer(incidents, entries, sorted);
    forall i, j | 0 <= i < j < |sorted| ensures sorted[i].count >= sorted[j].count {
      assert MostFirst(sorted[i]) <= MostFirst(sorted[j]);
    }
  }

  lemma CategoryFactsTransfer(incidents: seq<IncidentView>, entries: seq<CategoryStat>, sorted: seq<CategoryStat>)
    requires CategoryEntriesCount(entries, incidents) && CategoryNamesCovered(entries, incidents)
    requires forall e :: e in sorted <==> e in entries
    ensures CategoryEntriesCount(sorted, incidents) && CategoryNamesCovered(sorted, incidents)
  {
    assert Names(sorted) == Names(entries);
  }

  /** Sorting the priority map by rank keeps what it says about each priority and, the
      priorities being distinct, orders them strictly. */
  lemma SortedPriorities(incidents: seq<IncidentView>, entries: seq<PriorityStat>, sorted: seq<PriorityStat>)
    requires PriorityMapAfter(entries, incidents)
    requires sorted == SortBy(entries, Rank)
    ensures PriorityMapAfter(sorted, incidents)
    ensures forall i, j :: 0 <= i < j < |sorted| ==> Rank(sorted[i]) < Rank(sorted[j])
  {
    DistinctBySort(entries, Rank, PriorityOf);
    SumBySort(entries, Rank, PriorityCountOf);
    SortByMembers(entries, Rank);
    PriorityFactsTransfer(incidents, entries, sorted);
    RankStrict(sorted);
  }

  lemma PriorityFactsTransfer(incidents: seq<IncidentView>, entries: seq<PriorityStat>, sorted: seq<PriorityStat>)
    requires PriorityEntriesCount(entries, incidents) && PrioritiesCovered(entries, incidents)
    requires forall e :: e in sorted <==> e in entries
    ensures PriorityEntriesCount(sorted, incidents) && PrioritiesCovered(sorted, incidents)
  {
    assert Priorities(sorted) == Priorities(entries);
  }

  /** Entries sorted by rank with distinct priorities are strictly ordered by rank. */
  lemma RankStrict(sorted: seq<PriorityStat>)
    requires SortedBy(sorted, Rank) && DistinctBy(sorted, PriorityOf)
    ensures forall i, j :: 0 <= i < j < |sorted| ==> Rank(sorted[i]) < Rank(sorted[j])
  {
    forall i, j | 0 <= i < j < |sorted| ensures Rank(sorted[i]) < Rank(sorted[j]) {
      assert Rank(sorted[i]) <= Rank(sorted[j]);
      assert PriorityOf(sorted[i]) != PriorityOf(sorted[j]);
    }
  }
}
