/**
 * The two SQLite tables of the repair service, `repairs` and `admins`, as one
 * value, and the meaning of every SQL statement the service runs on them.
 * Each statement is an atomic step from one database value to the next.
 */
module Tables {
  import opened Wrappers

  /** The largest ROWID SQLite can assign: 2^63 - 1. */
  const MaxRowId: int := 0x7FFF_FFFF_FFFF_FFFF

  /** The administrator seeded into a freshly created database. */
  const DefaultAdminUser: string := "202312420"
  const DefaultAdminPass: string := "335177Ff"

  /** The reason stored by a rejection that names none ("no reason"). */
  const DefaultReason: string := "无原因"

  /** The four values the handlers ever write into the `status` column. */
  datatype Status = Pending | Confirmed | Rejected | Completed

  /** The seven TEXT columns a client fills in when submitting a request.
      A field absent from the JSON body is bound as NULL. */
  datatype Submission = Submission(
    name: Option<string>,
    phone: Option<string>,
    email: Option<string>,
    service: Option<string>,
    description: Option<string>,
    date: Option<string>,
    location: Option<string>)

  /** A row of `repairs` without its key. `reason` is NULL until a rejection. */
  datatype Repair = Repair(submission: Submission, status: Status, reason: Option<string>)

  /** A row of `repairs` as `SELECT *` returns it: the key and the columns. */
  datatype Row = Row(id: int, repair: Repair)

  /** A row of `admins`, without its (never read) integer key. */
  type Admin = (string, string)

  /**
   * The database: the `repairs` table keyed by its INTEGER PRIMARY KEY, the
   * AUTOINCREMENT counter SQLite keeps for it in `sqlite_sequence` (the
   * largest id ever handed out, 0 before the first insert), and the rows of
   * `admins` as (user, pass) pairs.
   */
  datatype Db = Db(repairs: map<int, Repair>, lastId: int, admins: set<Admin>)

  /** The user column of `admins` is UNIQUE. */
  ghost predicate UniqueUsers(admins: set<Admin>)
  {
    forall a, b :: a in admins && b in admins && a.0 == b.0 ==> a == b
  }

  /** What SQLite maintains for an AUTOINCREMENT table: every key is a
      positive ROWID no larger than the largest one ever handed out. */
  ghost predicate Valid(db: Db)
  {
    && 0 <= db.lastId <= MaxRowId
    && (forall id :: id in db.repairs ==> 1 <= id <= db.lastId)
    && UniqueUsers(db.admins)
  }

  /** The errors of a statement the model keeps: an AUTOINCREMENT table whose
      largest possible ROWID has been used refuses every later insert. */
  datatype SqlError = Full

  /** The database right after the CREATE TABLE statements and the seeding
      INSERT of a first start. */
  function Created(): (db: Db)
    ensures Valid(db)
    ensures db.repairs == map[] && db.lastId == 0
    ensures forall u, p :: (u, p) in db.admins <==> u == DefaultAdminUser && p == DefaultAdminPass
  {
    Db(map[], 0, {(DefaultAdminUser, DefaultAdminPass)})
  }

  /**
   * Start-up: the tables are created and seeded only when no database file
   * existed; otherwise the server works on the file's contents as they are.
   */
  function Initialize(dbExists: bool, onDisk: Db): (db: Db)
    ensures dbExists ==> db == onDisk
    ensures !dbExists ==> db == Created()
    ensures !dbExists ==> db.repairs == map[] && db.lastId == 0 && db.admins == {(DefaultAdminUser, DefaultAdminPass)}
    ensures Valid(onDisk) ==> Valid(db)
  {
    if dbExists then onDisk else Created()
  }

  /** The row a submission becomes: status takes the column default. */
  function NewRepair(s: Submission): Repair
  {
    Repair(s, Pending, None)
  }

  /**
   * `INSERT INTO repairs (name, ..., location) VALUES (?, ..., ?)`: the new
   * row gets the next AUTOINCREMENT id, which is also the statement's lastID.
   * Once the largest ROWID has been handed out, the insert fails and nothing
   * changes.
   */
  function Insert(db: Db, s: Submission): (r: (Db, Result<int, SqlError>))
    ensures r.1.Err? <==> db.lastId >= MaxRowId
    ensures r.1.Err? ==> r.0 == db
    ensures r.1.Ok? ==>
      var id := r.1.value;
      && id > db.lastId
      && (Valid(db) ==> id !in db.repairs && forall k :: k in db.repairs ==> k < id)
      && r.0.repairs.Keys == db.repairs.Keys + {id}
      && r.0.repairs[id] == Repair(s, Pending, None)
      && (forall k :: k in db.repairs && k != id ==> r.0.repairs[k] == db.repairs[k])
      && r.0.lastId == id
      && r.0.admins == db.admins
    ensures Valid(db) ==> Valid(r.0)
  {
    if db.lastId >= MaxRowId then (db, Err(Full))
    else
      var id := db.lastId + 1;
      (db.(repairs := db.repairs[id := NewRepair(s)], lastId := id), Ok(id))
  }

  /**
   * `UPDATE repairs SET status=? WHERE id=?`, the statement of confirm and of
   * complete: only the status of the matching row changes, whatever it was;
   * when no row matches, nothing changes.
   */
  function SetStatus(db: Db, id: int, st: Status): (r: Db)
    ensures r.repairs.Keys == db.repairs.Keys
    ensures id in db.repairs ==> r.repairs[id].status == st
    ensures forall k :: k in db.repairs ==>
      && r.repairs[k].submission == db.repairs[k].submission
      && r.repairs[k].reason == db.repairs[k].reason
    ensures forall k :: k in db.repairs && k != id ==> r.repairs[k] == db.repairs[k]
    ensures id !in db.repairs ==> r == db
    ensures r.lastId == db.lastId && r.admins == db.admins
    ensures Valid(db) ==> Valid(r)
  {
    if id in db.repairs then
      db.(repairs := db.repairs[id := db.repairs[id].(status := st)])
    else db
  }

  /** The reason stored by a rejection: the one given, unless JavaScript
      finds it falsy (absent, null or the empty string). */
  function ReasonOrDefault(given: Option<string>): (r: string)
    ensures r != ""
    ensures given.Some? && given.value != "" ==> r == given.value
    ensures given.None? || given.value == "" ==> r == DefaultReason
  {
    if given.Some? && given.value != "" then given.value else DefaultReason
  }

  /**
   * `UPDATE repairs SET status='rejected', reason=? WHERE id=?`: the matching
   * row becomes rejected with the given reason, or the default one.
   */
  function Reject(db: Db, id: int, given: Option<string>): (r: Db)
    ensures r.repairs.Keys == db.repairs.Keys
    ensures id in db.repairs ==>
      && r.repairs[id].status == Rejected
      && r.repairs[id].reason == Some(ReasonOrDefault(given))
      && r.repairs[id].submission == db.repairs[id].submission
    ensures forall k :: k in db.repairs && k != id ==> r.repairs[k] == db.repairs[k]
    ensures id !in db.repairs ==> r == db
    ensures r.lastId == db.lastId && r.admins == db.admins
    ensures Valid(db) ==> Valid(r)
  {
    if id in db.repairs then
      var row := db.repairs[id].(status := Rejected, reason := Some(ReasonOrDefault(given)));
      db.(repairs := db.repairs[id := row])
    else db
  }

  /** `DELETE FROM repairs WHERE id=?`: exactly that row goes, if present. */
  function Delete(db: Db, id: int): (r: Db)
    ensures r.repairs.Keys == db.repairs.Keys - {id}
    ensures forall k :: k in r.repairs ==> r.repairs[k] == db.repairs[k]
    ensures id !in db.repairs ==> r == db
    ensures r.lastId == db.lastId && r.admins == db.admins
    ensures Valid(db) ==> Valid(r)
  {
    db.(repairs := db.repairs - {id})
  }

  /**
   * `SELECT * FROM admins WHERE user=? AND pass=?` finds a row. A NULL
   * parameter (a field missing from the body) equals nothing in SQL.
   */
  predicate Authenticates(admins: set<Admin>, user: Option<string>, pass: Option<string>)
  {
    user.Some? && pass.Some? && (user.value, pass.value) in admins
  }

  /** Because `user` is UNIQUE, a user logs in with at most one password:
      two passwords that both authenticate the same user are the same. */
  lemma OnePasswordPerUser(admins: set<Admin>, user: Option<string>, pass1: Option<string>, pass2: Option<string>)
    requires UniqueUsers(admins)
    requires Authenticates(admins, user, pass1) && Authenticates(admins, user, pass2)
    ensures pass1 == pass2
  {
  }
}
