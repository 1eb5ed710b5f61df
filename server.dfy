/**
 * The repair service's HTTP handlers over its one database connection.
 * The connection is module-level state that every handler changes in place,
 * so it is a class whose fields are the tables; each route is one method.
 */
module Server {
  import opened Wrappers
  import opened Tables

  /** A table that still has keys to visit has one to pick. This and
      NoMemberIsEmpty exist only for the choice of the next key in List. */
  lemma NonEmptyHasMember(keys: set<int>)
    requires keys != {}
    ensures exists id :: id in keys
  {
    if forall id :: id !in keys {
      NoMemberIsEmpty(keys);
      assert false;
    }
  }

  /** A set of keys with no member is empty (set extensionality). */
  lemma NoMemberIsEmpty(keys: set<int>)
    requires forall id :: id !in keys
    ensures keys == {}
  {
    assert forall id :: id in keys <==> id in {};
  }

  class RepairServer {
    /** The `repairs` table, keyed by id. */
    var repairs: map<int, Repair>
    /** The AUTOINCREMENT counter of `repairs` (its `sqlite_sequence` entry). */
    var lastId: int
    /** The rows of `admins`. */
    var admins: set<Admin>

    /** The whole database as a value. */
    function State(): Db
      reads this
    {
      Db(repairs, lastId, admins)
    }

    ghost predicate Valid()
      reads this
    {
      Tables.Valid(State())
    }

    /** Opening the database file at start-up; `dbExists` is whether the
        file was there before, `onDisk` what it holds in that case. */
    constructor (dbExists: bool, onDisk: Db)
      requires dbExists ==> Tables.Valid(onDisk)
      ensures Valid()
      ensures State() == Initialize(dbExists, onDisk)
    {
      var db := Initialize(dbExists, onDisk);
      repairs, lastId, admins := db.repairs, db.lastId, db.admins;
    }

    /**
     * GET /api/repairs: `SELECT * FROM repairs`, a scan of the whole table.
     * Every stored row comes back exactly once and nothing else does; the
     * order is whatever the scan yields.
     */
    method List() returns (rows: seq<Row>)
      ensures forall r :: r in rows <==> r.id in repairs && repairs[r.id] == r.repair
      ensures forall i, j :: 0 <= i < j < |rows| ==> rows[i].id != rows[j].id
      ensures |rows| == |repairs|
    {
      var left := repairs.Keys;
      rows := [];
      while left != {}
        invariant left <= repairs.Keys
        invariant forall r :: r in rows <==> r.id in repairs.Keys - left && repairs[r.id] == r.repair
        invariant forall i, j :: 0 <= i < j < |rows| ==> rows[i].id != rows[j].id
        invariant |rows| == |repairs.Keys - left|
        decreases left
      {
        NonEmptyHasMember(left);
        var id :| id in left;
        assert repairs.Keys - (left - {id}) == (repairs.Keys - left) + {id};
        rows := rows + [Row(id, repairs[id])];
        left := left - {id};
      }
      assert repairs.Keys - left == repairs.Keys;
    }

    /**
     * POST /api/repairs: inserts the submitted fields and answers with the
     * new row's key (`lastID`), or fails when the id space is used up.
     */
    method Create(s: Submission) returns (result: Result<int, SqlError>)
      requires Valid()
      modifies this
      ensures Valid()
      ensures (State(), result) == Insert(old(State()), s)
    {
      if lastId >= MaxRowId {
        result := Err(Full);
      } else {
        lastId := lastId + 1;
        repairs := repairs[lastId := NewRepair(s)];
        result := Ok(lastId);
      }
    }

    /**
     * POST /api/admin/login: ok exactly when an admin row has this user and
     * this password; otherwise the 401 answer. Reads only.
     */
    method Login(user: Option<string>, pass: Option<string>) returns (ok: bool)
      ensures ok <==> exists a :: a in admins && user == Some(a.0) && pass == Some(a.1)
    {
      ok := Authenticates(admins, user, pass);
    }

    /** POST /api/repairs/:id/confirm: answers ok whether or not the id exists. */
    method Confirm(id: int)
      requires Valid()
      modifies this
      ensures Valid()
      ensures State() == SetStatus(old(State()), id, Confirmed)
    {
      if id in repairs {
        repairs := repairs[id := repairs[id].(status := Confirmed)];
      }
    }

    /** POST /api/repairs/:id/reject: answers ok whether or not the id exists. */
    method RejectRequest(id: int, reason: Option<string>)
      requires Valid()
      modifies this
      ensures Valid()
      ensures State() == Reject(old(State()), id, reason)
    {
      var stored := ReasonOrDefault(reason);
      if id in repairs {
        repairs := repairs[id := repairs[id].(status := Rejected, reason := Some(stored))];
      }
    }

    /** POST /api/repairs/:id/complete: answers ok whether or not the id exists. */
    method Complete(id: int)
      requires Valid()
      modifies this
      ensures Valid()
      ensures State() == SetStatus(old(State()), id, Completed)
    {
      if id in repairs {
        repairs := repairs[id := repairs[id].(status := Completed)];
      }
    }

    /** DELETE /api/repairs/:id: answers ok whether or not the id exists. */
    method Remove(id: int)
      requires Valid()
      modifies this
      ensures Valid()
      ensures State() == Delete(old(State()), id)
    {
      repairs := repairs - {id};
    }
  }
}
