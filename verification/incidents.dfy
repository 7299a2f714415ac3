/** The incident register: the `incidents` table and the append-only `incident_updates`
    audit table, with the four handlers of the incidents routes (list, detail, create,
    authority update). Each handler is one sequential step over the tables. */
module Incidents {

  import opened Types
  import opened Sequences
  import opened DateTime

  /** The largest number of rows a listing answers with. */
  const ListLimit: nat := 100

  function IdOf(row: Incident): string {
    row.id
  }

  function UpdateIdOf(u: IncidentUpdate): string {
    u.id
  }

  /** Sort key that puts later `created_at` first. */
  function NewestFirst(row: Incident): int {
    -row.createdAt
  }

  function Ids(rows: seq<Incident>): set<string> {
    set row | row in rows :: row.id
  }

  /** `resolved_at` is set exactly on the terminal statuses, and a resolution has an author. */
  predicate ResolutionConsistent(row: Incident) {
    (row.resolvedAt.Some? <==> IsTerminal(row.status))
    && (row.resolvedAt.Some? ==> row.resolvedBy.Some?)
  }

  /** The listing's WHERE clause: not soft-deleted and, for a citizen, owned by the caller. */
  predicate VisibleTo(row: Incident, requester: Principal) {
    row.deletedAt.None? && (requester.role == Citizen ==> row.userId == requester.id)
  }

  /** The inner joins with `incident_categories` and `profiles` find a partner row. */
  predicate Joinable(row: Incident, categories: map<string, Category>, people: map<string, Profile>) {
    row.categoryId in categories && row.userId in people
  }

  function Join(row: Incident, categories: map<string, Category>, people: map<string, Profile>): IncidentView
    requires Joinable(row, categories, people)
  {
    IncidentView(row, categories[row.categoryId].name, categories[row.categoryId].color,
                 people[row.userId].fullName, people[row.userId].email)
  }

  /** A row a listing for `requester` may contain. */
  predicate Listed(row: Incident, requester: Principal, categories: map<string, Category>, people: map<string, Profile>) {
    VisibleTo(row, requester) && Joinable(row, categories, people)
  }

  function JoinAll(rows: seq<Incident>, categories: map<string, Category>, people: map<string, Profile>): (r: seq<IncidentView>)
    requires forall x :: x in rows ==> Joinable(x, categories, people)
    ensures |r| == |rows|
    ensures forall i :: 0 <= i < |rows| ==> r[i] == Join(rows[i], categories, people) && r[i].incident == rows[i]
  {
    seq(|rows|, i requires 0 <= i < |rows| => Join(rows[i], categories, people))
  }

  /** The joined row, or nothing when a join partner is missing (`rows[0]` is then undefined). */
  function JoinOpt(row: Incident, categories: map<string, Category>, people: map<string, Profile>): Option<IncidentView> {
    if Joinable(row, categories, people) then Some(Join(row, categories, people)) else None
  }

  /** Position of the row with primary key `id`: the `WHERE i.id = ?` lookup. */
  function IndexOf(rows: seq<Incident>, id: string): (r: Option<nat>)
    ensures r.Some? ==> r.value < |rows| && rows[r.value].id == id
    ensures r.None? <==> id !in Ids(rows)
  {
    FindBy(rows, IdOf, id)
  }

  predicate UpdateIdTaken(updates: seq<IncidentUpdate>, id: string) {
    exists u :: u in updates && u.id == id
  }

  // ----- POST / -----

  /** The JSON body of POST /. A text field that is absent or empty is "", as both are falsy. */
  datatype NewIncidentBody = NewIncidentBody(
    categoryId: string,
    title: string,
    description: string,
    latitude: Option<real>,
    longitude: Option<real>,
    address: string,
    incidentDate: string,
    priority: Option<Priority>)

  predicate MissingRequired(body: NewIncidentBody) {
    body.categoryId == "" || body.title == "" || body.description == "" || body.incidentDate == ""
  }

  /** `x || null` on a number: absent and 0 are both falsy. */
  function NumberOrNull(x: Option<real>): (r: Option<real>)
    ensures r.Some? <==> x.Some? && x.value != 0.0
    ensures r.Some? ==> r == x
  {
    if x.Some? && x.value != 0.0 then x else None
  }

  /** `s || null` on a string. */
  function TextOrNull(s: string): (r: Option<string>)
    ensures r.None? <==> s == ""
    ensures r.Some? ==> r.value == s
  {
    if s == "" then None else Some(s)
  }

  /** The row the INSERT of POST / writes; `toLocal` stands for `new Date(d)` read in local time. */
  function NewRow(requester: Principal, body: NewIncidentBody, id: string, now: int,
                  toLocal: string -> DateParts): (row: Incident)
    ensures row.id == id && row.userId == requester.id
    ensures row.status == Pending && row.priority == (if body.priority.Some? then body.priority.value else Medium)
    ensures row.resolvedAt.None? && row.resolvedBy.None? && row.deletedAt.None?
    ensures ResolutionConsistent(row)
    ensures row.categoryId == body.categoryId && row.title == body.title && row.description == body.description
    ensures row.latitude == NumberOrNull(body.latitude) && row.longitude == NumberOrNull(body.longitude)
    ensures row.address == TextOrNull(body.address)
    ensures row.createdAt == now && row.updatedAt == now
    ensures row.incidentDate == ToMySQLDateTime(toLocal(body.incidentDate))
  {
    Incident(id, requester.id, body.categoryId, body.title, body.description,
             NumberOrNull(body.latitude), NumberOrNull(body.longitude), TextOrNull(body.address),
             Pending, if body.priority.Some? then body.priority.value else Medium,
             ToMySQLDateTime(toLocal(body.incidentDate)), now, now, None, None, None)
  }

  // ----- PATCH /:id -----

  /** The first UPDATE of PATCH /:id. */
  function WriteStatus(row: Incident, s: Status, actor: string, now: int): Incident {
    row.(status := s, updatedAt := now,
         resolvedAt := if IsTerminal(s) then Some(now) else None,
         resolvedBy := Some(actor))
  }

  /** The second UPDATE of PATCH /:id. */
  function WritePriority(row: Incident, p: Priority, now: int): Incident {
    row.(priority := p, updatedAt := now)
  }

  /** The row after the conditional status write and then the conditional priority write. */
  function Patch(row: Incident, status: Option<Status>, priority: Option<Priority>, actor: string, now: int): (r: Incident)
    ensures r.id == row.id && r.userId == row.userId && r.categoryId == row.categoryId
    ensures r.deletedAt == row.deletedAt && r.createdAt == row.createdAt
    ensures r.title == row.title && r.description == row.description && r.latitude == row.latitude
            && r.longitude == row.longitude && r.address == row.address && r.incidentDate == row.incidentDate
    ensures status.Some? ==> r.status == status.value && r.resolvedBy == Some(actor)
                              && r.resolvedAt == (if IsTerminal(status.value) then Some(now) else None)
    ensures status.Some? || priority.Some? ==> r.updatedAt == now
    ensures status.None? && priority.None? ==> r == row
    ensures status.None? ==> r.status == row.status && r.resolvedAt == row.resolvedAt && r.resolvedBy == row.resolvedBy
    ensures r.priority == if priority.Some? then priority.value else row.priority
    ensures ResolutionConsistent(row) ==> ResolutionConsistent(r)
  {
    var afterStatus := if status.Some? then WriteStatus(row, status.value, actor, now) else row;
    if priority.Some? then WritePriority(afterStatus, priority.value, now) else afterStatus
  }

  /** An audit row is written when a comment or a status is supplied. */
  predicate AuditNeeded(status: Option<Status>, comment: string) {
    comment != "" || status.Some?
  }

  /** The INSERT into `incident_updates`, as a sequence of zero or one rows. */
  function AuditRows(updateId: string, incidentId: string, actor: string, oldStatus: Status,
                     status: Option<Status>, comment: string, now: int): (r: seq<IncidentUpdate>)
    ensures |r| == if AuditNeeded(status, comment) then 1 else 0
    ensures forall u :: u in r ==>
      u.id == updateId && u.incidentId == incidentId && u.userId == actor && u.oldStatus == oldStatus
      && u.newStatus == (if status.Some? then status.value else oldStatus)
      && u.comment == TextOrNull(comment) && u.createdAt == now
  {
    if AuditNeeded(status, comment) then
      [IncidentUpdate(updateId, incidentId, actor, oldStatus,
                      if status.Some? then status.value else oldStatus, TextOrNull(comment), now)]
    else []
  }

  /** Some statement between `beginTransaction` and `commit` throws. A repeated audit id
      breaks the table's primary key. */
  predicate TransactionFails(fails: set<Stmt>, status: Option<Status>, priority: Option<Priority>,
                             comment: string, updates: seq<IncidentUpdate>, updateId: string) {
    Begin in fails
    || (status.Some? && StatusWrite in fails)
    || (priority.Some? && PriorityWrite in fails)
    || (AuditNeeded(status, comment) && (AuditInsert in fails || UpdateIdTaken(updates, updateId)))
    || Commit in fails
  }

  /** The table invariants: primary keys are distinct, every row's resolution stamps agree with its
      status, and every audit row points at an incident. */
  ghost predicate Consistent(rows: seq<Incident>, updates: seq<IncidentUpdate>) {
    && DistinctBy(rows, IdOf)
    && DistinctBy(updates, UpdateIdOf)
    && (forall row :: row in rows ==> ResolutionConsistent(row))
    && (forall u :: u in updates ==> u.incidentId in Ids(rows))
  }

  /** The tables the incidents routes read and write. */
  class IncidentRegister {
    var incidents: seq<Incident>
    var updates: seq<IncidentUpdate>

    ghost predicate Valid()
      reads this
    {
      Consistent(incidents, updates)
    }

    constructor ()
      ensures Valid() && incidents == [] && updates == []
    {
      incidents := [];
      updates := [];
    }

    /** GET /: the caller's visible rows, newest first, at most `ListLimit` of them. */
    function List(requester: Principal, categories: map<string, Category>, people: map<string, Profile>): (r: seq<IncidentView>)
      reads this
      requires Valid()
      ensures |r| <= ListLimit
      ensures forall i :: 0 <= i < |r| ==>
        var row := r[i].incident;
        row in incidents && VisibleTo(row, requester) && Joinable(row, categories, people)
        && r[i] == Join(row, categories, people)
      ensures forall i, j :: 0 <= i < j < |r| ==> r[i].incident.createdAt >= r[j].incident.createdAt
      ensures forall i, j :: 0 <= i < j < |r| ==> r[i].incident.id != r[j].incident.id
      ensures forall row :: row in incidents && VisibleTo(row, requester) && Joinable(row, categories, people)
                && (forall i :: 0 <= i < |r| ==> r[i].incident != row)
                ==> |r| == ListLimit && row.createdAt <= r[ListLimit - 1].incident.createdAt
    {
      var r := Listing(incidents, requester, categories, people);
      ListingSound(incidents, requester, categories, people);
      ListingOrdered(incidents, requester, categories, people);
      ListingComplete(incidents, requester, categories, people);
      r
    }

    /** GET /:id: the joined row with that id, soft-deleted or not, whoever asks. */
    function Get(id: string, categories: map<string, Category>, people: map<string, Profile>): (r: Result<IncidentView>)
      reads this
      requires Valid()
      ensures r.Ok? <==> exists row :: row in incidents && row.id == id && Joinable(row, categories, people)
      ensures r.Ok? ==> r.value.incident in incidents && r.value.incident.id == id
                        && Joinable(r.value.incident, categories, people)
                        && r.value == Join(r.value.incident, categories, people)
      ensures r.Err? ==> r.failure == NotFound("Incident not found")
    {
      match IndexOf(incidents, id)
      case None => Err(NotFound("Incident not found"))
      case Some(k) =>
        if Joinable(incidents[k], categories, people) then Ok(Join(incidents[k], categories, people))
        else
          assert forall row :: row in incidents && row.id == id ==> row == incidents[k] by {
            forall row | row in incidents && row.id == id ensures row == incidents[k] {
              var j :| 0 <= j < |incidents| && incidents[j] == row;
              assert IdOf(incidents[j]) == IdOf(incidents[k]);
            }
          }
          Err(NotFound("Incident not found"))
    }

    /** POST /: validates the body, then inserts a `pending` row owned by the caller and reads it back. */
    method Create(requester: Principal, body: NewIncidentBody, newId: string, now: int,
                  toLocal: string -> DateParts, fails: set<Stmt>,
                  categories: map<string, Category>, people: map<string, Profile>)
      returns (r: Result<Option<IncidentView>>)
      requires Valid()
      modifies this
      ensures Valid()
      ensures updates == old(updates)
      ensures MissingRequired(body) ==> r == Err(BadRequest("Missing required fields")) && incidents == old(incidents)
      ensures !MissingRequired(body) && (Insert in fails || newId in Ids(old(incidents))) ==>
                r == Err(Internal) && incidents == old(incidents)
      ensures !MissingRequired(body) && Insert !in fails && newId !in Ids(old(incidents)) ==>
                var row := NewRow(requester, body, newId, now, toLocal);
                incidents == old(incidents) + [row]
                && r == (if ReadBack in fails then Err(Internal) else Ok(JoinOpt(row, categories, people)))
    {
      if MissingRequired(body) {
        return Err(BadRequest("Missing required fields"));
      }
      if Insert in fails || IndexOf(incidents, newId).Some? {
        return Err(Internal);
      }
      var row := NewRow(requester, body, newId, now, toLocal);
      InsertKeepsValid(incidents, updates, row);
      incidents := incidents + [row];
      if ReadBack in fails {
        return Err(Internal);
      }
      r := Ok(JoinOpt(row, categories, people));
    }

    /** PATCH /:id (authority only): optional status and priority writes and an audit row,
        all inside one transaction that is rolled back if any statement throws. */
    method UpdateStatus(actor: Principal, id: string, status: Option<Status>, priority: Option<Priority>,
                        comment: string, updateId: string, now: int, fails: set<Stmt>,
                        categories: map<string, Category>, people: map<string, Profile>)
      returns (r: Result<Option<IncidentView>>)
      requires Valid()
      requires actor.role == Authority  // enforced by the route's role middleware
      modifies this
      ensures Valid()
      ensures Select in fails ==> r == Err(Internal) && unchanged(this)
      ensures Select !in fails && id !in Ids(old(incidents)) ==>
                r == Err(NotFound("Incident not found")) && unchanged(this)
      ensures Select !in fails && id in Ids(old(incidents)) ==>
                var k := IndexOf(old(incidents), id).value;
                var before := old(incidents)[k];
                if TransactionFails(fails, status, priority, comment, old(updates), updateId) then
                  r == Err(Internal) && incidents == old(incidents) && updates == old(updates)
                else
                  && incidents == old(incidents)[k := Patch(before, status, priority, actor.id, now)]
                  && updates == old(updates) + AuditRows(updateId, id, actor.id, before.status, status, comment, now)
                  && r == (if ReadBack in fails then Err(Internal) else Ok(JoinOpt(incidents[k], categories, people)))
    {
      if Select in fails {
        return Err(Internal);
      }
      var found := IndexOf(incidents, id);
      if found.None? {
        return Err(NotFound("Incident not found"));
      }
      var k := found.value;
      var committed := Transaction(k, actor.id, status, priority, comment, updateId, now, fails);
      if !committed || ReadBack in fails {
        return Err(Internal);
      }
      r := Ok(JoinOpt(incidents[k], categories, people));
    }

    /** The writes between `beginTransaction` and `commit`: the conditional status write, the
        conditional priority write and the conditional audit insert on row `k`. When a
        statement throws, the rollback restores both tables. */
    method Transaction(k: nat, actor: string, status: Option<Status>, priority: Option<Priority>,
                       comment: string, updateId: string, now: int, fails: set<Stmt>)
      returns (committed: bool)
      requires Valid() && k < |incidents|
      modifies this
      ensures Valid()
      ensures committed == !TransactionFails(fails, status, priority, comment, old(updates), updateId)
      ensures !committed ==> incidents == old(incidents) && updates == old(updates)
      ensures committed ==>
                && incidents == old(incidents)[k := Patch(old(incidents)[k], status, priority, actor, now)]
                && updates == old(updates) + AuditRows(updateId, old(incidents)[k].id, actor, old(incidents)[k].status,
                                                       status, comment, now)
    {
      var id := incidents[k].id;
      var oldStatus := incidents[k].status;
      var savedIncidents, savedUpdates := incidents, updates;
      if Begin in fails {
        return false;
      }
      if status.Some? {
        if StatusWrite in fails {
          incidents, updates := savedIncidents, savedUpdates;
          return false;
        }
        incidents := incidents[k := WriteStatus(incidents[k], status.value, actor, now)];
      }
      if priority.Some? {
        if PriorityWrite in fails {
          incidents, updates := savedIncidents, savedUpdates;
          return false;
        }
        incidents := incidents[k := WritePriority(incidents[k], priority.value, now)];
      }
      if comment != "" || status.Some? {
        if AuditInsert in fails || UpdateIdTaken(updates, updateId) {
          incidents, updates := savedIncidents, savedUpdates;
          return false;
        }
        var audit := IncidentUpdate(updateId, id, actor, oldStatus,
                                    if status.Some? then status.value else oldStatus, TextOrNull(comment), now);
        updates := updates + [audit];
      }
      if Commit in fails {
        incidents, updates := savedIncidents, savedUpdates;
        return false;
      }
      assert incidents == savedIncidents[k := Patch(savedIncidents[k], status, priority, actor, now)];
      assert updates == savedUpdates + AuditRows(updateId, id, actor, oldStatus, status, comment, now);
      CommitKeepsValid(savedIncidents, savedUpdates, k, status, priority, actor, now, updateId, comment);
      committed := true;
    }
  }

  /** A new row with a fresh key keeps the tables consistent and adds its key. */
  lemma InsertKeepsValid(rows: seq<Incident>, updates: seq<IncidentUpdate>, row: Incident)
    requires Consistent(rows, updates) && row.id !in Ids(rows) && ResolutionConsistent(row)
    ensures Consistent(rows + [row], updates) && Ids(rows + [row]) == Ids(rows) + {row.id}
  {
    AppendKeepsDistinct(rows, row);
    assert Ids(rows + [row]) == Ids(rows) + {row.id};
  }

  /** The tables after a committed transaction are still consistent. */
  lemma CommitKeepsValid(rows: seq<Incident>, updates: seq<IncidentUpdate>, k: nat, status: Option<Status>,
                         priority: Option<Priority>, actor: string, now: int, updateId: string, comment: string)
    requires k < |rows| && Consistent(rows, updates)
    requires AuditNeeded(status, comment) ==> !UpdateIdTaken(updates, updateId)
    ensures Consistent(rows[k := Patch(rows[k], status, priority, actor, now)],
                       updates + AuditRows(updateId, rows[k].id, actor, rows[k].status, status, comment, now))
  {
    var row' := Patch(rows[k], status, priority, actor, now);
    var rows' := rows[k := row'];
    var extra := AuditRows(updateId, rows[k].id, actor, rows[k].status, status, comment, now);
    ReplaceKeepsIds(rows, k, row');
    AppendUpdateKeepsDistinct(updates, extra);
    forall row | row in rows' ensures ResolutionConsistent(row) {
      var i :| 0 <= i < |rows'| && rows'[i] == row;
      assert i == k || row == rows[i];
    }
    assert rows[k] in rows;
  }

  // ----- properties relating the handlers -----

  /** A soft-deleted row never appears in a listing, yet the detail route still serves it. */
  lemma DetailIgnoresSoftDelete(reg: IncidentRegister, row: Incident, requester: Principal,
                                categories: map<string, Category>, people: map<string, Profile>)
    requires reg.Valid()
    requires row in reg.incidents && row.deletedAt.Some? && Joinable(row, categories, people)
    ensures reg.Get(row.id, categories, people) == Ok(Join(row, categories, people))
    ensures forall v :: v in reg.List(requester, categories, people) ==> v.incident != row
  {
    var r := reg.Get(row.id, categories, people);
    var found := r.value.incident;
    var i :| 0 <= i < |reg.incidents| && reg.incidents[i] == row;
    var j :| 0 <= j < |reg.incidents| && reg.incidents[j] == found;
    assert IdOf(reg.incidents[i]) == IdOf(reg.incidents[j]);
  }

  /** The audit row of an update records the transition the row went through: from the
      status read before the transaction to the status the row holds after it. */
  lemma AuditRecordsTransition(row: Incident, status: Option<Status>, priority: Option<Priority>,
                               comment: string, updateId: string, actor: string, now: int)
    ensures var after := Patch(row, status, priority, actor, now);
            forall u :: u in AuditRows(updateId, row.id, actor, row.status, status, comment, now) ==>
              u.oldStatus == row.status && u.newStatus == after.status && u.incidentId == after.id
    ensures status.Some? ==> |AuditRows(updateId, row.id, actor, row.status, status, comment, now)| == 1
  {
  }

  /** A citizen files an incident and an authority resolves it with a comment: the row ends
      `resolved`, stamped with the authority and the time, and exactly one audit row records
      the move from `pending`. */
  method ResolveAfterCreate(reg: IncidentRegister, citizen: Principal, authority: Principal,
                            body: NewIncidentBody, newId: string, updateId: string,
                            filedAt: int, resolvedAt: int, toLocal: string -> DateParts,
                            categories: map<string, Category>, people: map<string, Profile>)
    returns (created: Result<Option<IncidentView>>, resolved: Result<Option<IncidentView>>)
    requires reg.Valid() && authority.role == Authority
    requires !MissingRequired(body) && newId !in Ids(reg.incidents) && !UpdateIdTaken(reg.updates, updateId)
    modifies reg
    ensures reg.Valid() && created.Ok? && resolved.Ok?
    ensures |reg.incidents| == |old(reg.incidents)| + 1
    ensures var row := reg.incidents[|reg.incidents| - 1];
            && row.id == newId && row.userId == citizen.id
            && row.status == Resolved && row.resolvedAt == Some(resolvedAt) && row.resolvedBy == Some(authority.id)
    ensures reg.updates == old(reg.updates) + [IncidentUpdate(updateId, newId, authority.id, Pending, Resolved, Some("fixed"), resolvedAt)]
  {
    created := reg.Create(citizen, body, newId, filedAt, toLocal, {}, categories, people);
    assert reg.incidents[|reg.incidents| - 1].id == newId;
    resolved := reg.UpdateStatus(authority, newId, Some(Resolved), None, "fixed", updateId, resolvedAt, {}, categories, people);
  }

  // ----- proofs about the tables -----

  /** The prefix a listing keeps of the rows it sorted. */
  function Top(sorted: seq<Incident>): (top: seq<Incident>)
    ensures |top| <= ListLimit && |top| <= |sorted|
    ensures top == sorted[..|top|]
    ensures |top| < ListLimit ==> top == sorted
  {
    sorted[..if |sorted| < ListLimit then |sorted| else ListLimit]
  }

  function ListedTest(requester: Principal, categories: map<string, Category>, people: map<string, Profile>): Incident -> bool {
    (row: Incident) => Listed(row, requester, categories, people)
  }

  /** `WHERE ... ORDER BY i.created_at DESC`: the rows a listing may contain, newest first. */
  function Ranked(rows: seq<Incident>, requester: Principal, categories: map<string, Category>, people: map<string, Profile>): seq<Incident> {
    SortBy(Filter(rows, ListedTest(requester, categories, people)), NewestFirst)
  }

  /** The listing query: the first `ListLimit` ranked rows, each joined with its category and author. */
  function Listing(rows: seq<Incident>, requester: Principal, categories: map<string, Category>, people: map<string, Profile>): seq<IncidentView> {
    var sorted := Ranked(rows, requester, categories, people);
    TopMembers(Filter(rows, ListedTest(requester, categories, people)), sorted);
    JoinAll(Top(sorted), categories, people)
  }

  /** A listing is short enough and holds only visible, joined rows of the table. */
  lemma ListingSound(rows: seq<Incident>, requester: Principal, categories: map<string, Category>, people: map<string, Profile>)
    ensures var r := Listing(rows, requester, categories, people);
            && |r| <= ListLimit
            && forall i :: 0 <= i < |r| ==>
                 var row := r[i].incident;
                 row in rows && VisibleTo(row, requester) && Joinable(row, categories, people)
                 && r[i] == Join(row, categories, people)
  {
    var test := ListedTest(requester, categories, people);
    var eligible := Filter(rows, test);
    var sorted := Ranked(rows, requester, categories, people);
    TopMembers(eligible, sorted);
    var top := Top(sorted);
    var r := Listing(rows, requester, categories, people);
    assert r == JoinAll(top, categories, people);
    forall i | 0 <= i < |r|
      ensures r[i].incident in rows && Listed(r[i].incident, requester, categories, people)
              && r[i] == Join(r[i].incident, categories, people)
    {
      var row := top[i];
      assert row in top && row in eligible;
      assert test(row);
    }
  }

  /** A listing is newest first and, the table's keys being distinct, repeats no incident. */
  lemma ListingOrdered(rows: seq<Incident>, requester: Principal, categories: map<string, Category>, people: map<string, Profile>)
    requires DistinctBy(rows, IdOf)
    ensures var r := Listing(rows, requester, categories, people);
            && (forall i, j :: 0 <= i < j < |r| ==> r[i].incident.createdAt >= r[j].incident.createdAt)
            && (forall i, j :: 0 <= i < j < |r| ==> r[i].incident.id != r[j].incident.id)
  {
    var eligible := Filter(rows, ListedTest(requester, categories, people));
    var sorted := Ranked(rows, requester, categories, people);
    DistinctByFilter(rows, ListedTest(requester, categories, people), IdOf);
    DistinctBySort(eligible, NewestFirst, IdOf);
    TopSorted(sorted);
    TopDistinct(sorted);
    var top := Top(sorted);
    var r := Listing(rows, requester, categories, people);
    forall i, j | 0 <= i < j < |r| ensures r[i].incident.createdAt >= r[j].incident.createdAt && r[i].incident.id != r[j].incident.id {
      assert r[i].incident == top[i] && r[j].incident == top[j];
      assert IdOf(top[i]) != IdOf(top[j]);
    }
  }

  /** A listing leaves out a visible row only when it is full and that row is no newer
      than the last row listed. */
  lemma ListingComplete(rows: seq<Incident>, requester: Principal, categories: map<string, Category>, people: map<string, Profile>)
    ensures var r := Listing(rows, requester, categories, people);
            forall row :: row in rows && VisibleTo(row, requester) && Joinable(row, categories, people)
              && (forall i :: 0 <= i < |r| ==> r[i].incident != row)
              ==> |r| == ListLimit && row.createdAt <= r[ListLimit - 1].incident.createdAt
  {
    var eligible := Filter(rows, ListedTest(requester, categories, people));
    var sorted := Ranked(rows, requester, categories, people);
    TopComplete(eligible, sorted);
    var top := Top(sorted);
    var r := Listing(rows, requester, categories, people);
    forall row | row in rows && VisibleTo(row, requester) && Joinable(row, categories, people)
                 && (forall i :: 0 <= i < |r| ==> r[i].incident != row)
      ensures |r| == ListLimit && row.createdAt <= r[ListLimit - 1].incident.createdAt
    {
      assert ListedTest(requester, categories, people)(row);
    }
  }

  lemma TopSorted(sorted: seq<Incident>)
    requires SortedBy(sorted, NewestFirst)
    ensures forall i, j :: 0 <= i < j < |Top(sorted)| ==> Top(sorted)[i].createdAt >= Top(sorted)[j].createdAt
  {
    var top := Top(sorted);
    forall i, j | 0 <= i < j < |top| ensures top[i].createdAt >= top[j].createdAt {
      assert NewestFirst(sorted[i]) <= NewestFirst(sorted[j]);
    }
  }

  lemma TopDistinct(sorted: seq<Incident>)
    requires DistinctBy(sorted, IdOf)
    ensures DistinctBy(Top(sorted), IdOf)
  {
    var top := Top(sorted);
    forall i, j | 0 <= i < j < |top| ensures IdOf(top[i]) != IdOf(top[j]) {
      assert top[i] == sorted[i] && top[j] == sorted[j];
    }
  }

  lemma TopMembers(eligible: seq<Incident>, sorted: seq<Incident>)
    requires multiset(sorted) == multiset(eligible)
    ensures forall x :: x in Top(sorted) ==> x in eligible
  {
    forall x | x in Top(sorted) ensures x in eligible {
      assert x in multiset(sorted);
    }
  }

  lemma TopComplete(eligible: seq<Incident>, sorted: seq<Incident>)
    requires multiset(sorted) == multiset(eligible) && SortedBy(sorted, NewestFirst)
    ensures forall x :: x in eligible && x !in Top(sorted) ==>
              |Top(sorted)| == ListLimit && x.createdAt <= Top(sorted)[ListLimit - 1].createdAt
  {
    var top := Top(sorted);
    forall x | x in eligible && x !in top
      ensures |top| == ListLimit && x.createdAt <= top[ListLimit - 1].createdAt
    {
      assert x in multiset(sorted);
      var j :| 0 <= j < |sorted| && sorted[j] == x;
      assert j >= |top|;
      assert NewestFirst(sorted[ListLimit - 1]) <= NewestFirst(sorted[j]);
    }
  }

  lemma AppendKeepsDistinct(rows: seq<Incident>, row: Incident)
    requires DistinctBy(rows, IdOf) && row.id !in Ids(rows)
    ensures DistinctBy(rows + [row], IdOf)
  {
    var s := rows + [row];
    forall i, j | 0 <= i < j < |s| ensures IdOf(s[i]) != IdOf(s[j]) {
      if j == |rows| {
        assert s[i] in rows;
      }
    }
  }

  lemma ReplaceKeepsIds(rows: seq<Incident>, k: nat, row: Incident)
    requires k < |rows| && row.id == rows[k].id
    requires DistinctBy(rows, IdOf)
    ensures Ids(rows[k := row]) == Ids(rows)
    ensures DistinctBy(rows[k := row], IdOf)
  {
    var s := rows[k := row];
    forall x | x in Ids(s) ensures x in Ids(rows) {
      var y :| y in s && y.id == x;
      var i :| 0 <= i < |s| && s[i] == y;
      assert i == k || rows[i] == y;
    }
    forall x | x in Ids(rows) ensures x in Ids(s) {
      var y :| y in rows && y.id == x;
      var i :| 0 <= i < |rows| && rows[i] == y;
      assert s[i].id == x;
    }
  }

  lemma AppendUpdateKeepsDistinct(updates: seq<IncidentUpdate>, extra: seq<IncidentUpdate>)
    requires DistinctBy(updates, UpdateIdOf) && |extra| <= 1
    requires forall u :: u in extra ==> !UpdateIdTaken(updates, u.id)
    ensures DistinctBy(updates + extra, UpdateIdOf)
  {
    var s := updates + extra;
    forall i, j | 0 <= i < j < |s| ensures UpdateIdOf(s[i]) != UpdateIdOf(s[j]) {
      if j >= |updates| {
        assert s[j] in extra && s[i] in updates;
      }
    }
  }
}
