/** Records of the incident portal's relational store and the answers its HTTP handlers give. */
module Types {

  datatype Option<+T> = None | Some(value: T)

  /** Lifecycle state of an incident; `resolved` and `rejected` are terminal by convention only. */
  datatype Status = Pending | InProgress | Resolved | Rejected

  datatype Priority = Low | Medium | High | Urgent

  datatype Role = Citizen | Authority

  predicate IsTerminal(s: Status) {
    s == Resolved || s == Rejected
  }

  /** The text of a status as the store and the client compare it. */
  function StatusName(s: Status): string {
    match s
    case Pending => "pending"
    case InProgress => "in_progress"
    case Resolved => "resolved"
    case Rejected => "rejected"
  }

  /** The authenticated caller: what a verified token carries. */
  datatype Principal = Principal(id: string, email: string, role: Role)

  /** A row of the `profiles` table. */
  datatype Profile = Profile(
    id: string,
    email: string,
    passwordHash: string,
    fullName: string,
    phone: Option<string>,
    role: Role,
    createdAt: int,
    updatedAt: int)

  /** A row of the `incident_categories` table (the fields the joins read). */
  datatype Category = Category(id: string, name: string, color: string)

  /** A row of the `incidents` table; timestamps are instants of an abstract clock. */
  datatype Incident = Incident(
    id: string,
    userId: string,
    categoryId: string,
    title: string,
    description: string,
    latitude: Option<real>,
    longitude: Option<real>,
    address: Option<string>,
    status: Status,
    priority: Priority,
    incidentDate: string,
    createdAt: int,
    updatedAt: int,
    resolvedAt: Option<int>,
    resolvedBy: Option<string>,
    deletedAt: Option<int>)

  /** A row of the append-only `incident_updates` audit table. */
  datatype IncidentUpdate = IncidentUpdate(
    id: string,
    incidentId: string,
    userId: string,
    oldStatus: Status,
    newStatus: Status,
    comment: Option<string>,
    createdAt: int)

  /** An incident joined with its category's name and colour and its owner's name and email,
      the shape every incident query answers with and the client works on. */
  datatype IncidentView = IncidentView(
    incident: Incident,
    categoryName: string,
    categoryColor: string,
    fullName: string,
    email: string)

  /** Handled failures of the handlers, answered with 400, 401, 404, 409 and 500
      respectively; the text of a 500 answer is not modelled. */
  datatype Failure =
    | BadRequest(message: string)
    | Unauthorized(message: string)
    | NotFound(message: string)
    | Conflict(message: string)
    | Internal

  datatype Result<+T> = Ok(value: T) | Err(failure: Failure)

  /** The SQL statements a handler issues; a statement named in a handler's `fails`
      set throws when it is reached, as a driver or server error would. */
  datatype Stmt = Select | Insert | Begin | StatusWrite | PriorityWrite | AuditInsert | Commit | ReadBack
}
