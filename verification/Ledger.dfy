// The invariant of the tables, and what follows from it about money.

module Ledger {
  import opened Model
  import opened Rows
  import opened Tables
  import opened Backstop
  import MinAmount

  // What a row of basket_deposit says about its basket and its order.
  ghost predicate RowOk(db: Database, row: Row)
  {
    && row.basketNo in db.baskets && row.depositNo in db.orders && row.amount > 0
    && var basket, order := db.baskets[row.basketNo], db.orders[row.depositNo];
    && row.withdrawNo == basket.withdrawNo
    && order.amount == row.amount && order.channel == basket.channel && order.currency == basket.currency
    && match row.status
       case Attached => basket.status == WAITING && order.status == LOCKED && order.basketNo == row.basketNo
       case Matched => basket.status == MATCHED && order.status == MATCHED && order.basketNo == row.basketNo
                       && PaidFor(db, row.depositNo, row.basketNo)
       case Released => order.status == EXPIRED
  }

  // The deposit has a share in the record of the basket.
  ghost predicate PaidFor(db: Database, d: Id, b: Id)
    requires d in db.orders
  {
    && d in db.shares && db.shares[d].amount == db.orders[d].amount
    && db.shares[d].matchNo == db.orders[d].matchNo && db.shares[d].matchNo in db.records
    && db.records[db.shares[d].matchNo].basketNo == b
  }

  ghost predicate RowsOk(db: Database)
  {
    Distinct(db.rows) && forall i :: 0 <= i < |db.rows| ==> RowOk(db, db.rows[i])
  }

  ghost predicate OrderOk(db: Database, d: Id)
    requires d in db.orders
  {
    && (db.orders[d].status == LOCKED ==> Stands(db.rows, d, db.orders[d].basketNo, Attached))
    && (db.orders[d].status == MATCHED ==> Stands(db.rows, d, db.orders[d].basketNo, Matched))
  }

  ghost predicate OrdersOk(db: Database)
  {
    forall d :: d in db.orders ==> OrderOk(db, d)
  }

  ghost predicate BasketOk(db: Database, b: Id)
    requires b in db.baskets
  {
    var basket := db.baskets[b];
    && basket.target > 0
    && (basket.status == WAITING ==>
          0 <= basket.current <= basket.target && basket.current == Sum(db.rows, b, Attached))
  }

  ghost predicate BasketsOk(db: Database)
  {
    forall b :: b in db.baskets ==> BasketOk(db, b)
  }

  // A record repeats its basket, adds up, and pays all or what passes the test.
  ghost predicate RecordOk(db: Database, rate: int, m: Id)
    requires m in db.records
  {
    var rec := db.records[m];
    && rec.basketNo in db.baskets
    && var basket := db.baskets[rec.basketNo];
    && rec.withdrawNo == basket.withdrawNo && rec.channel == basket.channel && rec.currency == basket.currency
    && rec.target == basket.target && rec.matched == basket.current == Sum(db.rows, rec.basketNo, Matched)
    && 0 < rec.matched <= rec.target && rec.matched + rec.short == rec.target
    && (rec.short == 0 || MinAmount.Pays(rec.target, rate, rec.matched))
  }

  ghost predicate RecordsOk(db: Database, rate: int)
  {
    RecordedOnce(db) && forall m :: m in db.records ==> RecordOk(db, rate, m)
  }

  ghost predicate SharesOk(db: Database)
  {
    forall d :: d in db.shares ==>
      && db.shares[d].matchNo in db.records
      && Stands(db.rows, d, db.records[db.shares[d].matchNo].basketNo, Matched)
  }

  // All but the strictness of the waiting amounts, which is suspended for a moment
  // while a completing deposit is attached.
  ghost predicate Core(db: Database, rate: int)
  {
    RowsOk(db) && OrdersOk(db) && BasketsOk(db) && RecordsOk(db, rate) && SharesOk(db)
  }

  ghost predicate BelowTarget(db: Database)
  {
    forall b :: b in db.baskets && db.baskets[b].status == WAITING ==> db.baskets[b].current < db.baskets[b].target
  }

  ghost predicate Inv(db: Database, rate: int)
  {
    Core(db, rate) && BelowTarget(db)
  }

  // An order is locked in a basket exactly when one attached row links it there, so
  // the two separate updates of a closing basket hit the same deposits.
  lemma LockedIsAttached(db: Database, rate: int, d: Id, b: Id)
    requires Core(db, rate)
    ensures (d in db.orders && db.orders[d].status == LOCKED && db.orders[d].basketNo == b)
            <==> Stands(db.rows, d, b, Attached)
  {
    if d in db.orders && db.orders[d].status == LOCKED && db.orders[d].basketNo == b {
      assert OrderOk(db, d);
    }
  }

  // The same for matched orders.
  lemma MatchedIsStanding(db: Database, rate: int, d: Id, b: Id)
    requires Core(db, rate)
    ensures (d in db.orders && db.orders[d].status == MATCHED && db.orders[d].basketNo == b)
            <==> Stands(db.rows, d, b, Matched)
  {
    if d in db.orders && db.orders[d].status == MATCHED && db.orders[d].basketNo == b {
      assert OrderOk(db, d);
    }
  }

  // A waiting basket has attached and released rows only.
  lemma WaitingRows(db: Database, rate: int, b: Id)
    requires Core(db, rate) && b in db.baskets && db.baskets[b].status == WAITING
    ensures Sum(db.rows, b, Matched) == 0
    ensures Active(db.rows, b) == AttachedNos(db.rows, b)
    ensures forall m :: m in db.records ==> db.records[m].basketNo != b
  {
    assert forall i :: 0 <= i < |db.rows| && db.rows[i].basketNo == b ==> RowOk(db, db.rows[i]);
    SumNone(db.rows, b, Matched);
    ActiveIsAttached(db.rows, b);
  }

  // An order that waits has no row at all.
  lemma WaitingOrder(db: Database, rate: int, d: Id)
    requires Core(db, rate) && d in db.orders && db.orders[d].status !in {LOCKED, MATCHED, EXPIRED}
    ensures !HasRow(db.rows, d) && d !in db.shares
  {
    assert forall i :: 0 <= i < |db.rows| ==> RowOk(db, db.rows[i]);
  }
}
