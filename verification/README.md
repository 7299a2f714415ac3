# Incident reporting service — a Dafny model

This project models the core of a municipal incident-reporting service. Citizens file
incidents (a category, a title, a description, an optional location and the date of the
event). Authorities review them: they change an incident's status and priority, and every
such change leaves a row in an append-only audit table. The model covers four parts.

- **The incident register** (`incidents.dfy`, module `Incidents`). The class
  `IncidentRegister` holds the `incidents` table and the `incident_updates` audit table as
  sequences. It has the four handlers of the incidents routes:
  - the listing: role-filtered, soft-deleted rows excluded, newest first, at most 100;
  - the detail lookup;
  - creation, with the defaults and the `YYYY-MM-DD HH:MM:SS` date text from
    `datetime.dfy`;
  - the authority update of status and priority. Its writes form one transaction that is
    rolled back if any statement throws.
- **The account directory** (`accounts.dfy`, module `Accounts`). The class
  `AccountDirectory` holds the `profiles` table. Registration changes the table. Login is a
  read-only function over it.
- **The dashboard statistics** (`statistics.dfy`, module `Statistics`). These are:
  - the per-status counts;
  - the two `forEach` loops that fill the category and priority maps, as methods with loop
    invariants;
  - the two sorts.
- **The incident list filter** (`incident_list.dfy`, module `IncidentFilter`). This is the
  pipeline of client-side filters: owner, search, status, start date, end date. It is
  proved equal to a single filter by the conjunction of the enabled tests.

The shared pieces are:
- `types.dfy`: the records, statuses, priorities, roles and failures;
- `sequences.dfy`: lookup by key, filtering, subsequences, a stable insertion sort, sums
  and distinct labels.

Several effects become parameters:
- Statement failures: each mutating handler takes a set `fails` of the SQL statements that
  throw when reached. A repeated primary key also makes its INSERT throw.
- Clocks and ids: `NOW()` is a `now: int` parameter, and `uuidv4()` is a `newId` or
  `updateId` parameter.
- Foreign libraries: bcrypt hashing and comparison, JWT signing, `new Date(...)` (read
  either in local calendar fields or as a time value) and `toLowerCase` are function-typed
  parameters.
- Missing values: a text field that is absent or empty is `""`, since the code treats both
  as falsy.

On four points a reader might expect otherwise, the model follows the code:
- `resolved_by` is set to the acting authority on every status write, terminal or not, and
  it is never cleared.
- The detail lookup and the update's lookup do not filter on `deleted_at`, and they do not
  check ownership.
- Latitude and longitude are not forced to be both present or both absent.
- There are no edit, delete, media or password-reset routes.

## Model

| member | source | states |
|---|---|---|
| Incidents.IncidentRegister.List | server/src/routes/incidents.ts:8-40 | At most 100 rows. Every row is in the table, not soft-deleted, owned by the requester when the requester is a citizen, and joined with its category and author. Rows are ordered by `created_at` descending and have distinct ids. A visible row left out means the listing is full and that row is no newer than the last one listed. |
| Incidents.IncidentRegister.Get | server/src/routes/incidents.ts:42-67 | The answer is Ok exactly when a row with that id joins a category and a profile. This holds whether or not the row is soft-deleted and whoever asks. Otherwise the answer is 404 "Incident not found". |
| Incidents.IncidentRegister.Create | server/src/routes/incidents.ts:69-121 | A missing category, title, description or date gives 400 "Missing required fields" with no write. A failing or colliding INSERT gives 500 with no write. Otherwise exactly `NewRow` is appended and the audit table is untouched. A failing read-back gives 500 after the write. |
| Incidents.IncidentRegister.UpdateStatus | server/src/routes/incidents.ts:123-181 | A failing lookup gives 500 and an unknown id gives 404, both with no write. If any statement between begin and commit throws, both tables are back to their state before the call. Otherwise only row k changes, and it changes to `Patch` of its old value. The audit table grows by exactly `AuditRows`. A failing read-back after commit gives 500 with the writes kept. The invariants of both tables are kept. |
| Incidents.IncidentRegister.Transaction | server/src/routes/incidents.ts:138-175 | The transaction commits exactly when no reached statement throws and the audit key is fresh. On commit, row k becomes `Patch` of its old value and the audit table grows by `AuditRows`. On failure, the rollback restores both tables. |
| Incidents.NewRow | server/src/routes/incidents.ts:80-103 | The created row has the given fresh id and the requester as owner. It stores the category, title and description as given. Latitude, longitude and address are `x \|\| null` of the input. Its status is `pending` and its priority is `priority \|\| 'medium'`. `created_at` and `updated_at` are the current time, and it has no resolution and no deletion. Its date is the formatted local date. |
| Incidents.NumberOrNull | server/src/routes/incidents.ts:96-97 | `x \|\| null` on a coordinate: null exactly when the value is absent or 0, and otherwise the value itself. |
| Incidents.TextOrNull | server/src/routes/incidents.ts:98 | `s \|\| null` on a string: null exactly when the string is empty, and otherwise the string. |
| Incidents.Patch | server/src/routes/incidents.ts:140-152 | With a status, the row takes that status and `resolved_by` becomes the actor. `resolved_at` becomes the current time for a terminal status and null otherwise. Without a status, the status, `resolved_at` and `resolved_by` are unchanged. The priority changes exactly when one is supplied, and any write sets `updated_at` to the current time. Without a status or a priority, the row is unchanged. The id, owner, category, title, description, location, incident date, creation time and deletion mark are always kept. The resolution invariant is preserved. |
| Incidents.AuditRows | server/src/routes/incidents.ts:154-160 | One audit row when a comment or a status is supplied, none otherwise. The row carries the status read before the update, `status \|\| oldStatus`, `comment \|\| null`, the actor and the time. |
| Incidents.IndexOf | server/src/routes/incidents.ts:129-134 | Finds the position of the row with that id, and answers none exactly when no row has that id. |
| Sequences.FindBy | server/src/routes/incidents.ts:129 | A lookup by key: a position whose element has that key, or none exactly when no element has it. The lookups by id, by email, by category name and by priority are this lookup. |
| Incidents.ListingSound | server/src/routes/incidents.ts:13-31 | A listing has at most 100 rows. Each is a row of the table that is not soft-deleted, is owned by the requester when the requester is a citizen, and is joined with its category and author. |
| Incidents.ListingOrdered | server/src/routes/incidents.ts:26 | A listing is ordered by `created_at` descending. When the table's keys are distinct, no incident appears twice. |
| Incidents.ListingComplete | server/src/routes/incidents.ts:20-26 | A visible, joinable row missing from a listing means the listing holds 100 rows and that row is no newer than the last one listed. |
| Incidents.InsertKeepsValid | server/src/routes/incidents.ts:87-103 | Appending a row with a fresh key and a consistent resolution keeps the table invariants and adds exactly that key. |
| Incidents.CommitKeepsValid | server/src/routes/incidents.ts:138-162 | Committing the patched row and the audit rows keeps the table invariants: distinct keys, consistent resolution stamps, and audit rows that point at incidents. |
| Incidents.DetailIgnoresSoftDelete | server/src/routes/incidents.ts:20-53 | A soft-deleted row that joins is absent from every listing, yet the detail route returns it. |
| Incidents.AuditRecordsTransition | server/src/routes/incidents.ts:136-160 | The audit row of an update records the status before the transaction and the status the patched row holds after it. A supplied status always produces one audit row. |
| Incidents.ResolveAfterCreate | server/src/routes/incidents.ts:69-160 | After a create and then a resolve with a comment, the new row is `resolved`, with `resolved_at` and `resolved_by` set to the time and the authority. Exactly one audit row records `pending` to `resolved` with the comment. |
| DateTime.NatToString | server/src/routes/incidents.ts:84 | `String(n)` for a non-negative integer: decimal digits with no leading zero, a single character exactly when n < 10. |
| DateTime.Pad2 | server/src/routes/incidents.ts:83 | `padStart(2, '0')`: digits whose value is n, two characters for n < 100. |
| DateTime.PadOfTwoDigits | server/src/routes/incidents.ts:83 | Every two-digit text is the padding of its own value. |
| DateTime.NatToStringParse | server/src/routes/incidents.ts:84 | Every canonical decimal text is `String` of its value. |
| DateTime.ToMySQLDateTime | server/src/routes/incidents.ts:81-85 | For calendar fields in range, the text is the year followed by 15 characters. |
| DateTime.FormatLayout | server/src/routes/incidents.ts:84 | After the year come five three-character fields: `-` and month+1, `-` and the day, a space and the hours, `:` and the minutes, `:` and the seconds, each zero-padded to two digits. |
| DateTime.FieldThenParse | server/src/routes/incidents.ts:83-84 | A separator followed by a value below 100 padded to two digits reads back as that value. |
| DateTime.ParseThenField | server/src/routes/incidents.ts:83-84 | A three-character field that reads is exactly the separator followed by the padding of its value. |
| DateTime.FormatThenParse | server/src/routes/incidents.ts:81-85 | Formatting calendar fields in range and reading the text back gives the same fields, so the 0-based month is stored as month+1 and no field is lost. |
| DateTime.ParseThenFormat | server/src/routes/incidents.ts:81-85 | Every text the reader accepts is exactly the formatting of what it reads. |
| Accounts.AccountDirectory.Register | server/src/routes/auth.ts:9-46 | Missing email, password or full name gives 400 before the table is read. A taken email gives 409 "Email already registered" with the table unchanged. Otherwise exactly one profile is appended, with the fresh id, the hashed password, `phone \|\| null` and `role \|\| 'citizen'`. The answer's role and token use that same role. Ids and emails stay unique. |
| Accounts.AccountDirectory.Login | server/src/routes/auth.ts:48-87 | Missing email or password gives 400. Every other failure is the same 401 "Invalid credentials". Success happens exactly when a stored profile has that email and its hash matches. The answer and the token are built from that profile. |
| Accounts.PhoneOrNull | server/src/routes/auth.ts:30 | `phone \|\| null`: null exactly when the phone is absent or empty. |
| Accounts.FindByEmail | server/src/routes/auth.ts:58-67 | Finds the position of a profile with that email, and answers none exactly when no profile has it. |
| Accounts.RegisterThenLogin | server/src/routes/auth.ts:28-81 | Logging in right after registering gives the same user and token as the register answer. The one exception is the phone: login reports the stored `phone \|\| null`, while register echoes the phone it received. |
| Statistics.StatusCountsAddUp | src/components/dashboard/Statistics.tsx:36-40 | With four statuses, the pending, in-progress, resolved and rejected counts add up to the number of incidents. |
| Statistics.FindCategory | src/components/dashboard/Statistics.tsx:46 | `categoryMap.get(name)`: finds the entry with that name, and answers none exactly when no entry has it. |
| Statistics.GroupByCategory | src/components/dashboard/Statistics.tsx:42-48 | After the loop there is one entry per distinct category name, with a missing name counted under "Sin categoría". Each entry counts exactly the incidents under that name and has the colour of the last of them (or "#6B7280"). The counts sum to the number of incidents. |
| Statistics.CategoryHit | src/components/dashboard/Statistics.tsx:46-47 | Bumping the entry of a name already in the map keeps the map accurate for one more incident. |
| Statistics.CategoryNew | src/components/dashboard/Statistics.tsx:46-47 | Adding an entry with count 1 for a new name keeps the map accurate for one more incident. |
| Statistics.FindPriority | src/components/dashboard/Statistics.tsx:57 | `priorityMap.get(priority)`: finds the entry with that priority, and answers none exactly when no entry has it. |
| Statistics.GroupByPriority | src/components/dashboard/Statistics.tsx:54-58 | After the loop there is one entry per priority present. Each entry counts exactly the incidents with that priority, and the counts sum to the number of incidents. |
| Statistics.PriorityHit | src/components/dashboard/Statistics.tsx:57 | Bumping a priority already in the map keeps it accurate for one more incident. |
| Statistics.PriorityNew | src/components/dashboard/Statistics.tsx:57 | Adding a new priority with count 1 keeps the map accurate for one more incident. |
| Statistics.SortedCategories | src/components/dashboard/Statistics.tsx:50-52 | Sorting by count keeps every fact about the category entries and orders the counts non-increasing. |
| Statistics.SortedPriorities | src/components/dashboard/Statistics.tsx:60-65 | Sorting by rank keeps every fact about the priority entries and orders them strictly urgent, high, medium, low. |
| Statistics.ComputeStats | src/components/dashboard/Statistics.tsx:32-75 | `total` is the number of incidents, each status count is the number with that status, and the four add up to `total`. `byCategory` and `byPriority` satisfy the grouping facts above, are sorted as the two sorts say, and have counts summing to `total`. |
| IncidentFilter.ContainsAt | src/components/incidents/IncidentList.tsx:78-80 | `includes` holds exactly when the needle occurs at some offset of the text. |
| IncidentFilter.Stage | src/components/incidents/IncidentList.tsx:71-94 | A stage `if (enabled) filtered = filtered.filter(p)` is a filter by `enabled ==> p`. |
| IncidentFilter.FilterIncidents | src/components/incidents/IncidentList.tsx:68-97 | The five stages in a row equal one filter of the loaded list, in loaded order, by `Shown`. `Shown` is the conjunction of the owner test for citizens, the case-insensitive search, the status filter and the inclusive date bounds, each applied only when its control is set. |
| IncidentFilter.StagesCompose | src/components/incidents/IncidentList.tsx:69-96 | Five successive filters are one filter by the conjunction of their guarded tests, which is `Shown`. |
| IncidentFilter.StagesAgreeWithShown | src/components/incidents/IncidentList.tsx:69-96 | The conjunction of the five guarded tests agrees with `Shown` on every incident. |
| IncidentFilter.KeptIncidents | src/components/incidents/IncidentList.tsx:69-96 | The result is an order-preserving subsequence and holds exactly the shown incidents. For a citizen it holds only the user's own incidents. A status filter other than "all" keeps only that status. Both date bounds hold, inclusively. |
| IncidentFilter.FilterIdempotent | src/components/incidents/IncidentList.tsx:69-96 | Filtering the filtered list again with the same criteria changes nothing. |
| IncidentFilter.ResetShowsAll | src/components/incidents/IncidentList.tsx:157-162 | With the reset criteria, a non-citizen viewer sees the loaded list unchanged, and a citizen sees exactly their own incidents in loaded order. |
| Sequences.Filter | src/components/dashboard/Statistics.tsx:37-40 | `Array.filter`: the result is no longer than the input and is an order-preserving subsequence of it. Each value occurs in it as many times as in the input when it passes, and not at all otherwise. When everything passes the result is the input itself. |
| Sequences.FilterFilter | src/components/incidents/IncidentList.tsx:69-94 | Filtering twice equals filtering once by both predicates. |
| Sequences.SortBy | src/components/dashboard/Statistics.tsx:52 | `Array.sort` by a key: the result is sorted and is a permutation of the input. |
| Sequences.SumBySort | src/components/dashboard/Statistics.tsx:50-52 | Sorting does not change a sum over the entries. |
| Sequences.DistinctBySort | src/components/dashboard/Statistics.tsx:50-52 | Sorting keeps distinct labels distinct. |

## Left out

- I/O and infrastructure: the connection pool, connection acquire and release, the double
  release on the update's 404 path, and concurrency and isolation between requests. Each
  handler is one atomic sequential step over the tables.
- Failing queries in read-only handlers: a failing query in the listing, the detail lookup
  or login (a 500 answer) is not modelled. Those are modelled as functions of the tables.
- 500 messages: the text of a 500 answer, including the driver message that register and
  login echo, is not modelled.
- Authentication: the authentication middleware is not part of this model. The role
  middleware of the update route is the precondition `actor.role == Authority`.
- Request values outside the enumerations: a status, priority or role string outside its
  enumeration, or a wrongly typed body field, is outside the model because the fields are
  typed.
- Dates and times: JavaScript `Date` parsing, time zones and invalid dates on the server
  are not modelled.
  - The local calendar fields of the submitted date are supplied by `toLocal`.
  - Years are non-negative and written without padding.
  - A numeric `incident_date` is not modelled.
  - In the list filter, `new Date(...)` is `toTime`, which answers none for an invalid
    date.
- Lowercasing: `toLowerCase` is the parameter `lower`, and its Unicode behaviour is not
  modelled.
- Email comparison: emails compare as exact strings, so a case-insensitive database
  collation is not modelled.
- Timestamps are integers, and `NOW()` is one value for all statements of a handler.
- Sequences.SortBy: stability (equal keys keep their input order, as in `Array.sort`) is
  not stated. So the order among categories with equal counts is not pinned down.
- Statistics.SortedCategories: the order among categories with equal counts is not stated.
  Stability of the sort and the first-seen order of the map entries would fix it.
- Statistics.ComputeStats: for the same reason, the order of `byCategory` among equal counts
  is not stated.
- UI and wiring: React rendering and state, the fetch wrapper, the mailer, the category and
  profile routes, and the Express wiring are outside the core.
