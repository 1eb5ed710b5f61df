/**
 * What holds across any sequence of requests served after start-up: the
 * AUTOINCREMENT invariant, keys that are never assigned twice, rows that
 * stay deleted, and an `admins` table that no route touches.
 */
module History {
  import opened Wrappers
  import opened Tables

  /** One HTTP request, with the parameters its handler passes to SQL. */
  datatype Call =
    | ListAll
    | Submit(s: Submission)
    | LogIn(user: Option<string>, pass: Option<string>)
    | ConfirmId(id: int)
    | RejectId(id: int, reason: Option<string>)
    | CompleteId(id: int)
    | DeleteId(id: int)

  /** The database after one request; the two queries change nothing. */
  function Step(db: Db, c: Call): Db
  {
    match c
    case ListAll => db
    case Submit(s) => Insert(db, s).0
    case LogIn(_, _) => db
    case ConfirmId(id) => SetStatus(db, id, Confirmed)
    case RejectId(id, reason) => Reject(db, id, reason)
    case CompleteId(id) => SetStatus(db, id, Completed)
    case DeleteId(id) => Delete(db, id)
  }

  /** The database after serving `calls` in order. */
  function Run(db: Db, calls: seq<Call>): Db
    decreases |calls|
  {
    if calls == [] then db else Run(Step(db, calls[0]), calls[1..])
  }

  /** The keys the successful submissions of `calls` stored their rows under,
      in order (the exact `lastID` of each insert). */
  function Issued(db: Db, calls: seq<Call>): seq<int>
    decreases |calls|
  {
    if calls == [] then []
    else
      var rest := Issued(Step(db, calls[0]), calls[1..]);
      match calls[0]
      case Submit(s) =>
        var (_, res) := Insert(db, s);
        if res.Ok? then [res.value] + rest else rest
      case _ => rest
  }

  /** Every request keeps the AUTOINCREMENT invariant. */
  lemma {:induction false} RunKeepsValid(db: Db, calls: seq<Call>)
    requires Valid(db)
    ensures Valid(Run(db, calls))
    decreases |calls|
  {
    if calls != [] {
      RunKeepsValid(Step(db, calls[0]), calls[1..]);
    }
  }

  /** The counter never goes back, and no request touches `admins`. */
  lemma {:induction false} RunKeepsCounterAndAdmins(db: Db, calls: seq<Call>)
    ensures db.lastId <= Run(db, calls).lastId
    ensures Run(db, calls).admins == db.admins
    decreases |calls|
  {
    if calls != [] {
      RunKeepsCounterAndAdmins(Step(db, calls[0]), calls[1..]);
    }
  }

  /**
   * AUTOINCREMENT: the keys assigned by the inserts of any run strictly
   * increase, each is larger than every key assigned before the run, and the
   * counter ends at the last of them.
   */
  lemma {:induction false} IssuedIdsIncrease(db: Db, calls: seq<Call>)
    ensures forall i, j :: 0 <= i < j < |Issued(db, calls)| ==> Issued(db, calls)[i] < Issued(db, calls)[j]
    ensures forall i :: 0 <= i < |Issued(db, calls)| ==>
      db.lastId < Issued(db, calls)[i] <= Run(db, calls).lastId
    decreases |calls|
  {
    if calls != [] {
      var next := Step(db, calls[0]);
      IssuedIdsIncrease(next, calls[1..]);
      RunKeepsCounterAndAdmins(next, calls[1..]);
      assert Run(db, calls) == Run(next, calls[1..]);
      match calls[0]
      case Submit(s) =>
        var res := Insert(db, s).1;
        if res.Ok? {
          assert next.lastId == res.value;
          assert Issued(db, calls) == [res.value] + Issued(next, calls[1..]);
        } else {
          assert next == db;
        }
      case _ =>
        assert db.lastId <= next.lastId;
    }
  }

  /**
   * An id at or below the counter that is not in the table never comes
   * back: the only insert uses ids above the counter.
   */
  lemma {:induction false} GoneStaysGone(db: Db, calls: seq<Call>, id: int)
    requires id <= db.lastId && id !in db.repairs
    ensures id !in Run(db, calls).repairs
    decreases |calls|
  {
    if calls != [] {
      GoneStaysGone(Step(db, calls[0]), calls[1..], id);
    }
  }

  /** Deleting a stored row removes it for good: no later request brings
      back a row with that id, so no later listing shows it. */
  lemma DeletedNeverListed(db: Db, id: int, calls: seq<Call>)
    requires Valid(db) && id in db.repairs
    ensures id !in Run(Delete(db, id), calls).repairs
  {
    GoneStaysGone(Delete(db, id), calls, id);
  }

  /** After a first start, whatever requests follow, login accepts the
      seeded credentials and no others. */
  lemma {:induction false} OnlyDefaultAdminAfterFirstStart(onDisk: Db, calls: seq<Call>, user: Option<string>, pass: Option<string>)
    ensures Authenticates(Run(Initialize(false, onDisk), calls).admins, user, pass)
      <==> user == Some(DefaultAdminUser) && pass == Some(DefaultAdminPass)
  {
    RunKeepsCounterAndAdmins(Initialize(false, onDisk), calls);
  }

  /** No status change is refused: completing a rejected request makes it
      completed and keeps the rejection's reason. */
  lemma CompleteAfterRejectKeepsReason(db: Db, id: int, reason: Option<string>)
    requires id in db.repairs
    ensures id in Run(db, [RejectId(id, reason), CompleteId(id)]).repairs
    ensures Run(db, [RejectId(id, reason), CompleteId(id)]).repairs[id]
      == db.repairs[id].(status := Completed, reason := Some(ReasonOrDefault(reason)))
  {
    var calls := [RejectId(id, reason), CompleteId(id)];
    var rejected := Reject(db, id, reason);
    assert calls[1..] == [CompleteId(id)] && calls[1..][1..] == [];
    assert Run(db, calls) == Run(rejected, [CompleteId(id)]);
    assert Run(rejected, [CompleteId(id)]) == SetStatus(rejected, id, Completed);
  }

  /** A request naming an id that is not stored changes nothing. */
  lemma MissingIdIsNoOp(db: Db, c: Call)
    requires (c.ConfirmId? || c.RejectId? || c.CompleteId? || c.DeleteId?) && c.id !in db.repairs
    ensures Step(db, c) == db
  {
  }
}
