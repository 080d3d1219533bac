// What the database guarantees on its own, whatever the memory of the process
// believes: the guards of the update statements and the unique keys are enough.

module Backstop {
  import opened Model
  import opened Rows
  import opened Tables

  ghost predicate RecordedOnce(db: Database)
  {
    && (forall m :: m in db.records ==>
          db.records[m].basketNo in db.baskets && db.baskets[db.records[m].basketNo].status == MATCHED)
    && (forall m, n | m in db.records && n in db.records ::
          db.records[m].basketNo == db.records[n].basketNo ==> m == n)
    && (forall b :: b in db.baskets && db.baskets[b].status == MATCHED ==>
          exists m :: m in db.records && db.records[m].basketNo == b)
  }

  ghost predicate AttachedToWaiting(db: Database)
  {
    forall i :: 0 <= i < |db.rows| && db.rows[i].status == Attached ==>
      db.rows[i].basketNo in db.baskets && db.baskets[db.rows[i].basketNo].status == WAITING
  }

  ghost predicate Guarded(db: Database)
  {
    RecordedOnce(db) && AttachedToWaiting(db)
  }

  // The loop over deposits touches only orders and shares.
  lemma {:induction false} SharesFrame(db: Database, matchNo: Id, r: MatchResult, nos: seq<Id>)
    ensures match PersistShares(db, matchNo, r, nos)
            case RolledBack => true
            case Committed(after) => after.baskets == db.baskets && after.rows == db.rows && after.records == db.records
  {
    if nos != [] {
      SharesFrame(db, matchNo, r, nos[..|nos| - 1]);
    }
  }

  // Completing a basket, from tables where only the new row may be out of place.
  lemma CompletedGuarded(db: Database, r: MatchResult, matchNo: Id)
    requires RecordedOnce(db)
    requires forall i :: 0 <= i < |db.rows| && db.rows[i].status == Attached && db.rows[i].basketNo != r.basketNo ==>
               db.rows[i].basketNo in db.baskets && db.baskets[db.rows[i].basketNo].status == WAITING
    ensures PersistCompleted(db, r, matchNo).Committed? ==> Guarded(PersistCompleted(db, r, matchNo).db)
  {
    var record := Record(r.basketNo, r.withdrawNo, r.channel, r.currency, r.target, r.matchedAmount, r.short);
    SharesFrame(db.(records := db.records[matchNo := record]), matchNo, r, r.depositNos);
    if PersistCompleted(db, r, matchNo).Committed? {
      var after := PersistCompleted(db, r, matchNo).db;
      assert after.records == db.records[matchNo := record];
      assert after.baskets.Keys == db.baskets.Keys;
      forall b | b in after.baskets && after.baskets[b].status == MATCHED
        ensures exists m :: m in after.records && after.records[m].basketNo == b {
        if b == r.basketNo {
          assert after.records[matchNo].basketNo == b;
        } else {
          var m :| m in db.records && db.records[m].basketNo == b;
          assert m in after.records && after.records[m].basketNo == b;
        }
      }
    }
  }

  // Any match result at all, even one computed from a stale shard, is either
  // rejected or leaves the tables consistent.
  lemma StaleResult(db: Database, depositNo: Id, amount: int, r: MatchResult, matchNo: Id)
    requires Guarded(db)
    ensures match PersistMatch(db, depositNo, amount, r, matchNo)
            case RolledBack => true
            case Committed(after) => Guarded(after)
  {
    match CreateBasketDeposit(db, depositNo, amount, r)
    case RolledBack =>
    case Committed(with) =>
      if r.matched {
        CompletedGuarded(with, r, matchNo);
      } else if PersistAttached(with, depositNo, r).Committed? {
        var after := PersistAttached(with, depositNo, r).db;
        RecordedFrame(with, after);
      }
  }

  // Statements that keep the numbers and statuses of baskets, and the records.
  lemma RecordedFrame(db: Database, after: Database)
    requires RecordedOnce(db) && after.records == db.records && after.baskets.Keys == db.baskets.Keys
    requires forall b :: b in db.baskets ==> (after.baskets[b].status == MATCHED <==> db.baskets[b].status == MATCHED)
    ensures RecordedOnce(after)
  {
    forall b | b in after.baskets && after.baskets[b].status == MATCHED
      ensures exists m :: m in after.records && after.records[m].basketNo == b {
      var m :| m in db.records && db.records[m].basketNo == b;
      assert m in after.records;
    }
  }

  // The expiry of a basket, with any row the sweep may have read.
  lemma StaleExpiry(db: Database, no: Id, read: BasketRow, rate: int, matchNo: Id)
    requires Guarded(db)
    ensures Guarded(ExpireBasket(db, no, read, rate, matchNo).db)
  {
    CompletedGuarded(db, BuildPartial(no, read, db.rows), matchNo);
    RecordedFrame(db, CloseBasket(db, no).0);
  }

  lemma StaleRelease(db: Database, no: Id)
    requires Guarded(db)
    ensures match ExpireLockedOrder(db, no)
            case None => true
            case Some(done) => Guarded(done.0)
  {
    if ExpireLockedOrder(db, no).Some? {
      RecordedFrame(db, ExpireLockedOrder(db, no).value.0);
    }
  }

  // A new basket keeps the tables consistent exactly when it is not born matched.
  lemma StaleInsert(db: Database, no: Id, row: BasketRow)
    requires Guarded(db) && InsertBasket(db, no, row).Committed?
    ensures Guarded(InsertBasket(db, no, row).db) <==> row.status != MATCHED
  {
    var after := InsertBasket(db, no, row).db;
    if row.status == MATCHED {
      assert no in after.baskets && forall m :: m in after.records ==> after.records[m].basketNo != no;
    } else {
      forall b | b in after.baskets && after.baskets[b].status == MATCHED
        ensures exists m :: m in after.records && after.records[m].basketNo == b {
        var m :| m in db.records && db.records[m].basketNo == b;
        assert m in after.records;
      }
    }
  }

  // ----- runs of statements, whatever the memory that sends them believes

  datatype Statement =
    | Insert(no: Id, row: BasketRow)
    | Save(no: Id, order: Order)
    | Persist(no: Id, amount: int, result: MatchResult, matchNo: Id)
    | EndWaiting(no: Id)
    | EndLocked(no: Id)
    | EndBasket(no: Id, read: BasketRow, rate: int, matchNo: Id)

  function Ran(tx: Tx, db: Database): Database
  {
    if tx.Committed? then tx.db else db
  }

  function Run(db: Database, s: Statement): Database
  {
    match s
    case Insert(no, row) => Ran(InsertBasket(db, no, row), db)
    case Save(no, order) => SaveDeposit(db, no, order)
    case Persist(no, amount, result, matchNo) => Ran(PersistMatch(db, no, amount, result, matchNo), db)
    case EndWaiting(no) => ExpireWaitingOrder(db, no)
    case EndLocked(no) => if ExpireLockedOrder(db, no).Some? then ExpireLockedOrder(db, no).value.0 else db
    case EndBasket(no, read, rate, matchNo) => ExpireBasket(db, no, read, rate, matchNo).db
  }

  function RunAll(db: Database, all: seq<Statement>): Database
  {
    if all == [] then db else Run(RunAll(db, all[..|all| - 1]), all[|all| - 1])
  }

  lemma RunGuarded(db: Database, s: Statement)
    requires Guarded(db) && (s.Insert? ==> s.row.status != MATCHED)
    ensures Guarded(Run(db, s))
  {
    match s
    case Insert(no, row) => if InsertBasket(db, no, row).Committed? { StaleInsert(db, no, row); }
    case Persist(no, amount, result, matchNo) => StaleResult(db, no, amount, result, matchNo);
    case EndLocked(no) => StaleRelease(db, no);
    case EndBasket(no, read, rate, matchNo) => StaleExpiry(db, no, read, rate, matchNo);
    case _ =>
  }

  // In every run of transactions, with results computed from any memory at all: a
  // record exists exactly when its basket is matched, each basket has at most one,
  // and attached rows belong to waiting baskets.
  lemma {:induction false} AlwaysGuarded(all: seq<Statement>)
    requires forall i :: 0 <= i < |all| && all[i].Insert? ==> all[i].row.status != MATCHED
    ensures Guarded(RunAll(Database(map[], map[], [], map[], map[]), all))
  {
    if all != [] {
      var n := |all| - 1;
      assert forall i :: 0 <= i < n ==> all[..n][i] == all[i];
      AlwaysGuarded(all[..n]);
      RunGuarded(RunAll(Database(map[], map[], [], map[], map[]), all[..n]), all[n]);
    }
  }
}
