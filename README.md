# Repair-request service: the store and its handlers

A model of the backend of a small repair-request tracker (`server.js`). Clients
submit repair requests; an administrator logs in and confirms, rejects,
completes or deletes them. All state lives in one SQLite file with two tables:
`repairs` (an `INTEGER PRIMARY KEY AUTOINCREMENT` id, seven TEXT fields from
the submission, `status` defaulting to `pending`, and a nullable `reason`) and
`admins` (a UNIQUE `user` and a plain-text `pass`).

The model has four modules:

- `Wrappers` (`wrappers.dfy`): `Option` (an absent JSON field, bound as SQL
  NULL) and `Result`.
- `Tables` (`tables.dfy`): the database as a value `Db` (the `repairs` map
  keyed by id, the AUTOINCREMENT counter SQLite keeps in `sqlite_sequence`,
  and the set of admin rows), its invariant `Valid`, and one function per SQL
  statement the handlers run. Each statement is one atomic step.
- `Server` (`server.dfy`): the class `RepairServer`, whose fields are the two
  tables and the counter. Start-up is its constructor and each HTTP route is
  one method. A route that writes has `modifies this` and ties the new state
  to the statement's function in `Tables`. The two read-only routes (list and
  login) change nothing and state their answer directly. List is a loop over
  the table's keys.
- `History` (`history.dfy`): any sequence of requests (`Run`) and what holds
  over it. The AUTOINCREMENT invariant is kept, keys are never reused, deleted
  rows never come back, and `admins` never changes.

## Model

| member | source | states |
|---|---|---|
| `Tables.Created` | server.js:20-39 | A first start yields an empty `repairs` table, a counter at 0, and exactly one admin, ("202312420", "335177Ff"); the result satisfies the AUTOINCREMENT invariant |
| `Tables.Initialize` | server.js:16-41 | With an existing database file nothing is created or seeded and the state is the file's. Without one the state is exactly that of `Created`: no repairs, the counter at 0 and the single default admin |
| `Tables.Insert` | server.js:53-59 | The new id exceeds the counter and, under the invariant, every stored id. Exactly that key is added, holding the seven submitted fields with status pending and reason NULL. Other rows and `admins` are unchanged and the counter becomes the new id. When the counter is at 2^63-1 the insert fails and nothing changes |
| `Tables.SetStatus` | server.js:71-77 | On a stored id only that row's status changes, whatever it was before; its fields and reason stay. Every other row, the counter and `admins` stay. An unknown id changes nothing |
| `Tables.ReasonOrDefault` | server.js:81 | A non-empty given reason is kept. An absent or empty one (JavaScript-falsy) becomes "无原因". The stored reason is never empty |
| `Tables.Reject` | server.js:79-86 | On a stored id that row becomes rejected with the given or default reason and keeps its fields. Every other row, the counter and `admins` stay. An unknown id changes nothing |
| `Tables.Delete` | server.js:96-102 | The key set loses exactly that id; every remaining row, the counter and `admins` are unchanged; an unknown id changes nothing |
| `Tables.OnePasswordPerUser` | server.js:35 | Since the `user` column is UNIQUE, two passwords that both log in the same user are equal: a user authenticates with at most one password |
| `Server.RepairServer.constructor` | server.js:16-41 | The server's tables are those of `Initialize` for the given "file exists" flag, and the invariant holds |
| `Server.RepairServer.List` | server.js:46-51 | The answer holds a row exactly when that id is stored with those columns, every id once, and as many rows as the table has; no order is promised; nothing is modified |
| `Server.RepairServer.Create` | server.js:53-59 | The new state and the new row's key (or the failure) are those of `Insert`; the invariant is kept. The key is the exact `lastID`; the JSON answer that carries it is covered under "## Left out" |
| `Server.RepairServer.Login` | server.js:62-69 | `ok` (200) iff some admin row has exactly that user and password, otherwise the 401 answer; a missing (NULL) user or password matches nothing; no `modifies`, so the store is untouched |
| `Server.RepairServer.Confirm` | server.js:71-77 | The new state is `SetStatus(old, id, Confirmed)`: only that row's status is overwritten, and a missing id leaves everything as it was |
| `Server.RepairServer.RejectRequest` | server.js:79-86 | The new state is `Reject(old, id, reason)`, with the default reason for a falsy one; a missing id leaves everything as it was |
| `Server.RepairServer.Complete` | server.js:88-94 | The new state is `SetStatus(old, id, Completed)`: the reason of a rejected row survives, and a missing id leaves everything as it was |
| `Server.RepairServer.Remove` | server.js:96-102 | The new state is `Delete(old, id)`: exactly that row goes, and a missing id leaves everything as it was |
| `History.RunKeepsValid` | server.js:21-22 | Every key stays in 1..counter and the counter stays at most 2^63-1, over any sequence of requests |
| `History.RunKeepsCounterAndAdmins` | server.js:33-38 | Over any sequence of requests the counter never decreases and the `admins` table never changes (no route writes to it) |
| `History.IssuedIdsIncrease` | server.js:22 | The keys that successful submissions store their rows under strictly increase over any run. Each exceeds every key assigned before the run and is at most the final counter, so no key is ever assigned twice, even after a delete |
| `History.GoneStaysGone` | server.js:22 | An id at or below the counter that is not stored is absent after any sequence of requests |
| `History.DeletedNeverListed` | server.js:96-102 | After a stored row is deleted, no later sequence of requests brings its id back, so no later listing shows it |
| `History.OnlyDefaultAdminAfterFirstStart` | server.js:38 | After a first start and any requests, login succeeds exactly for ("202312420", "335177Ff") |
| `History.CompleteAfterRejectKeepsReason` | server.js:88-94 | Completing a rejected request is not refused. It becomes completed and keeps the rejection's reason |
| `History.MissingIdIsNoOp` | server.js:71-102 | Confirm, reject, complete or delete on an id that is not stored leaves the whole database unchanged; the model's handlers have no failure outcome, so such a request is not reported as an error |

## Behaviour of the code worth noting

- The list query has no `ORDER BY`, so no order of the listed rows is promised.
- A new request's `reason` is NULL until the request is rejected.
- The `repairs` table has no timestamp columns; creating or completing a request records no time.
- No route adds, changes or removes an administrator; the seeded one is the only one a first start creates.
- No status transition is checked: confirm, reject and complete apply to a row in any status.
- Confirm, reject, complete and delete on an id that is not stored change nothing and still answer `{ok: true}`.

## Left out

- Server.RepairServer.Create: answers the exact key. The source sends `this.lastID` in a JSON body as a JavaScript number, which is exact only up to 2^53; above that the answered id is rounded (keys 2^53 and 2^53+1 both answer 9007199254740992). The model does not capture that rounding.
- History.IssuedIdsIncrease: is about the stored keys. It does not hold of the ids answered to clients above 2^53, where two distinct keys can be answered as the same JavaScript number.
- Express setup, JSON body parsing, static files and port binding are HTTP plumbing. Handlers answer `{ok: true}` with no return value in the model, since that answer carries no data.
- The sqlite3 driver's callbacks, prepared statements and `db.serialize` ordering are not modelled. Each statement is one atomic state update, and requests are handled one at a time.
- Engine failures (the `err` → 500 branches) are outside the model. The one kept is the insert refused once the largest ROWID has been used. I/O and corruption errors are external.
- `fs.existsSync` and the file path are reduced to a `dbExists` flag. The contents of an existing file are a parameter, assumed to satisfy the AUTOINCREMENT invariant (they were written by an earlier run). A file that exists but lacks the tables is not modelled.
- Route `:id` parameters are strings in the source. The model takes integers, leaving out SQLite's type-affinity conversion of non-numeric strings.
- Tables.ReasonOrDefault: covers only absent, null and string reasons. Other falsy JSON values (`false`, `0`) also get the default in the source, and other non-string values are stored after SQLite conversion; neither is modelled.
- Submission fields and login credentials are modelled as strings or absent (NULL). JSON numbers and booleans in the body are bound as SQLite INTEGER or REAL values and converted by the TEXT affinity of the columns; for example a numeric `user` of 202312420 compares equal to the stored '202312420'. That coercion is not modelled.
- The `admins` table's own integer key is never read and is not modelled.
- `console.log` messages are not modelled.
