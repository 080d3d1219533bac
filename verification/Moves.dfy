// The moves of money as whole-table updates. The transactions of the use case are
// shown to be these moves, and the moves to keep the invariant of the tables.

module Moves {
  import opened Model
  import opened Rows
  import opened Tables
  import opened Backstop
  import opened Ledger
  import MinAmount

  // ----- attaching a deposit

  function Lock(db: Database, d: Id, b: Id, amount: int): Database
    requires b in db.baskets && d in db.orders
  {
    db.(rows := db.rows + [Row(b, db.baskets[b].withdrawNo, d, amount, Attached)],
        orders := db.orders[d := db.orders[d].(status := LOCKED, basketNo := b)],
        baskets := db.baskets[b := db.baskets[b].(current := db.baskets[b].current + amount)])
  }

  // A waiting order of the basket's shard, with the amount it is attached with.
  ghost predicate Attachable(db: Database, d: Id, b: Id, amount: int)
  {
    && b in db.baskets && db.baskets[b].status == WAITING
    && d in db.orders && db.orders[d].status == WAITING && db.orders[d].amount == amount > 0
    && db.orders[d].channel == db.baskets[b].channel && db.orders[d].currency == db.baskets[b].currency
  }

  lemma LockKeepsRows(db: Database, rate: int, d: Id, b: Id, amount: int)
    requires Core(db, rate) && Attachable(db, d, b, amount)
    ensures RowsOk(Lock(db, d, b, amount))
  {
    var after := Lock(db, d, b, amount);
    WaitingOrder(db, rate, d);
    forall i | 0 <= i < |after.rows| ensures RowOk(after, after.rows[i]) {
      if i < |db.rows| {
        assert after.rows[i] == db.rows[i] && RowOk(db, db.rows[i]) && db.rows[i].depositNo != d;
      }
    }
  }

  lemma LockKeepsOrders(db: Database, rate: int, d: Id, b: Id, amount: int)
    requires Core(db, rate) && Attachable(db, d, b, amount)
    ensures OrdersOk(Lock(db, d, b, amount)) && SharesOk(Lock(db, d, b, amount))
  {
    var after := Lock(db, d, b, amount);
    assert after.rows[|db.rows|].depositNo == d;
    forall x, c, st | Stands(db.rows, x, c, st) ensures Stands(after.rows, x, c, st) {
      var i :| 0 <= i < |db.rows| && db.rows[i].depositNo == x && db.rows[i].basketNo == c && db.rows[i].status == st;
      assert after.rows[i] == db.rows[i];
    }
    forall x | x in after.orders ensures OrderOk(after, x) {
      if x != d {
        assert OrderOk(db, x);
      }
    }
  }

  lemma LockKeepsBaskets(db: Database, rate: int, d: Id, b: Id, amount: int)
    requires Core(db, rate) && Attachable(db, d, b, amount)
    requires db.baskets[b].current + amount <= db.baskets[b].target
    ensures BasketsOk(Lock(db, d, b, amount))
  {
    var after := Lock(db, d, b, amount);
    forall c | c in after.baskets ensures BasketOk(after, c) {
      assert BasketOk(db, c);
      Appended(db.rows, Row(b, db.baskets[b].withdrawNo, d, amount, Attached), c, Attached);
    }
  }

  lemma LockKeepsRecords(db: Database, rate: int, d: Id, b: Id, amount: int)
    requires Core(db, rate) && Attachable(db, d, b, amount)
    ensures RecordsOk(Lock(db, d, b, amount), rate)
  {
    var after := Lock(db, d, b, amount);
    RecordedFrame(db, after);
    WaitingRows(db, rate, b);
    forall m | m in after.records ensures RecordOk(after, rate, m) {
      assert RecordOk(db, rate, m);
      Appended(db.rows, Row(b, db.baskets[b].withdrawNo, d, amount, Attached), db.records[m].basketNo, Matched);
    }
  }

  lemma LockKeeps(db: Database, rate: int, d: Id, b: Id, amount: int)
    requires Core(db, rate) && Attachable(db, d, b, amount)
    requires db.baskets[b].current + amount <= db.baskets[b].target
    ensures Core(Lock(db, d, b, amount), rate)
  {
    LockKeepsRows(db, rate, d, b, amount);
    LockKeepsOrders(db, rate, d, b, amount);
    LockKeepsBaskets(db, rate, d, b, amount);
    LockKeepsRecords(db, rate, d, b, amount);
  }

  // ----- completing a basket

  function Settle(db: Database, b: Id, m: Id): Database
    requires b in db.baskets
  {
    var basket, matched := db.baskets[b], Sum(db.rows, b, Attached);
    db.(rows := Restatus(db.rows, OfBasket(b), Matched),
        baskets := db.baskets[b := basket.(status := MATCHED, current := matched)],
        records := db.records[m := Record(b, basket.withdrawNo, basket.channel, basket.currency,
                                          basket.target, matched, basket.target - matched)],
        orders := PaidOrders(db.orders, b, m, AttachedNos(db.rows, b)),
        shares := PaidShares(db.shares, db.orders, m, basket.withdrawNo, AttachedNos(db.rows, b)))
  }

  function PaidOrders(all: map<Id, Order>, b: Id, m: Id, nos: seq<Id>): map<Id, Order>
  {
    map d | d in all ::
      if d in nos && (all[d].status == WAITING || all[d].status == LOCKED)
      then all[d].(status := MATCHED, basketNo := b, matchNo := m) else all[d]
  }

  function PaidShares(shares: map<Id, Share>, all: map<Id, Order>, m: Id, withdrawNo: Id, nos: seq<Id>): map<Id, Share>
  {
    shares + map d | d in nos && d in all :: Share(m, withdrawNo, all[d].amount)
  }

  lemma PaidOrdersStep(all: map<Id, Order>, b: Id, m: Id, nos: seq<Id>, d: Id)
    requires d in all && d !in nos
    ensures PaidOrders(all, b, m, nos + [d])
            == if all[d].status == WAITING || all[d].status == LOCKED
               then PaidOrders(all, b, m, nos)[d := all[d].(status := MATCHED, basketNo := b, matchNo := m)]
               else PaidOrders(all, b, m, nos)
  {}

  lemma PaidSharesStep(shares: map<Id, Share>, all: map<Id, Order>, m: Id, w: Id, nos: seq<Id>, d: Id)
    requires d in all
    ensures PaidShares(shares, all, m, w, nos + [d])
            == PaidShares(shares, all, m, w, nos)[d := Share(m, w, all[d].amount)]
  {}

  function Paid(db: Database, m: Id, r: MatchResult, nos: seq<Id>): Database
  {
    db.(orders := PaidOrders(db.orders, r.basketNo, m, nos),
        shares := PaidShares(db.shares, db.orders, m, r.withdrawNo, nos))
  }

  // Each deposit is known, named once, and not paid yet.
  predicate PayableOnce(db: Database, nos: seq<Id>)
  {
    && (forall i, j :: 0 <= i < j < |nos| ==> nos[i] != nos[j])
    && forall i :: 0 <= i < |nos| ==> nos[i] in db.orders && nos[i] !in db.shares
  }

  lemma PayableStep(db: Database, nos: seq<Id>, d: Id)
    ensures PayableOnce(db, nos + [d]) <==> PayableOnce(db, nos) && d !in nos && d in db.orders && d !in db.shares
  {
    var all := nos + [d];
    assert forall i :: 0 <= i < |nos| ==> all[i] == nos[i];
    assert all[|nos|] == d;
  }

  lemma PaidStep(db: Database, m: Id, r: MatchResult, nos: seq<Id>, d: Id)
    requires d in db.orders && d !in db.shares && d !in nos
    ensures PersistShare(Paid(db, m, r, nos), m, r, d) == Committed(Paid(db, m, r, nos + [d]))
  {
    PaidOrdersStep(db.orders, r.basketNo, m, nos, d);
    PaidSharesStep(db.shares, db.orders, m, r.withdrawNo, nos, d);
    assert Paid(db, m, r, nos).orders[d] == db.orders[d];
  }

  lemma NonePaid(db: Database, m: Id, r: MatchResult)
    ensures Paid(db, m, r, []) == db
  {
    assert PaidOrders(db.orders, r.basketNo, m, []) == db.orders;
    assert PaidShares(db.shares, db.orders, m, r.withdrawNo, []) == db.shares;
  }

  // The loop over the deposits of a result, as one update.
  lemma {:induction false} SharesAtOnce(db: Database, m: Id, r: MatchResult, nos: seq<Id>)
    requires PayableOnce(db, nos)
    ensures PersistShares(db, m, r, nos) == Committed(Paid(db, m, r, nos))
  {
    if nos == [] {
      NonePaid(db, m, r);
    } else {
      var n := |nos| - 1;
      assert nos == nos[..n] + [nos[n]];
      PayableStep(db, nos[..n], nos[n]);
      SharesAtOnce(db, m, r, nos[..n]);
      PaidStep(db, m, r, nos[..n], nos[n]);
    }
  }

  // A result that names the basket as it is and its attached rows.
  ghost predicate Describes(db: Database, r: MatchResult)
  {
    && r.basketNo in db.baskets
    && var basket := db.baskets[r.basketNo];
    && r.withdrawNo == basket.withdrawNo && r.channel == basket.channel && r.currency == basket.currency
    && r.target == basket.target && r.matchedAmount == Sum(db.rows, r.basketNo, Attached)
    && r.short == r.target - r.matchedAmount && r.depositNos == AttachedNos(db.rows, r.basketNo)
  }

  // Every deposit of the basket can be paid out once.
  ghost predicate Payable(db: Database, b: Id)
  {
    && Distinct(db.rows)
    && forall d :: d in AttachedNos(db.rows, b) ==> d in db.orders && d !in db.shares
  }

  lemma AllPaid(db: Database, r: MatchResult, m: Id, with: Database)
    requires Payable(db, r.basketNo) && r.depositNos == AttachedNos(db.rows, r.basketNo)
    requires with.orders == db.orders && with.shares == db.shares
    ensures PersistShares(with, m, r, r.depositNos) == Committed(Paid(with, m, r, r.depositNos))
  {
    AttachedNosDistinct(db.rows, r.basketNo);
    SharesAtOnce(with, m, r, r.depositNos);
  }

  function CompletedTables(db: Database, r: MatchResult, m: Id): Database
    requires r.basketNo in db.baskets
  {
    Database(PaidOrders(db.orders, r.basketNo, m, r.depositNos),
             db.baskets[r.basketNo := db.baskets[r.basketNo].(status := MATCHED, current := r.matchedAmount)],
             Restatus(db.rows, OfBasket(r.basketNo), Matched),
             db.records[m := Record(r.basketNo, r.withdrawNo, r.channel, r.currency,
                                    r.target, r.matchedAmount, r.short)],
             PaidShares(db.shares, db.orders, m, r.withdrawNo, r.depositNos))
  }

  lemma CompletedIs(db: Database, r: MatchResult, m: Id)
    requires r.basketNo in db.baskets && db.baskets[r.basketNo].status == WAITING
    requires Payable(db, r.basketNo) && r.depositNos == AttachedNos(db.rows, r.basketNo)
    requires m !in db.records && forall x :: x in db.records ==> db.records[x].basketNo != r.basketNo
    ensures PersistCompleted(db, r, m) == Committed(CompletedTables(db, r, m))
  {
    var record := Record(r.basketNo, r.withdrawNo, r.channel, r.currency, r.target, r.matchedAmount, r.short);
    AllPaid(db, r, m, db.(records := db.records[m := record]));
  }

  lemma SettleIs(db: Database, r: MatchResult, m: Id)
    requires Describes(db, r)
    ensures CompletedTables(db, r, m) == Settle(db, r.basketNo, m)
  {}

  lemma CompletedIsSettle(db: Database, r: MatchResult, m: Id)
    requires Describes(db, r) && db.baskets[r.basketNo].status == WAITING && Payable(db, r.basketNo)
    requires forall x :: x in db.records ==> db.records[x].basketNo != r.basketNo
    ensures PersistCompleted(db, r, m)
            == if m in db.records then RolledBack else Committed(Settle(db, r.basketNo, m))
  {
    if m !in db.records {
      CompletedIs(db, r, m);
      SettleIs(db, r, m);
    }
  }

  // A waiting basket ready to be settled with a new match number.
  ghost predicate Settleable(db: Database, rate: int, b: Id, m: Id)
  {
    && b in db.baskets && db.baskets[b].status == WAITING && m !in db.records
    && Sum(db.rows, b, Attached) > 0
    && (Sum(db.rows, b, Attached) == db.baskets[b].target
        || MinAmount.Pays(db.baskets[b].target, rate, Sum(db.rows, b, Attached)))
  }

  // A row of the settled basket that was attached.
  lemma SettleMatchesRow(db: Database, rate: int, b: Id, m: Id, i: nat)
    requires Core(db, rate) && Settleable(db, rate, b, m) && i < |db.rows|
    requires db.rows[i].basketNo == b && db.rows[i].status == Attached
    ensures RowOk(Settle(db, b, m), Settle(db, b, m).rows[i])
  {
    assert RowOk(db, db.rows[i]);
    AttachedNosAre(db.rows, b, db.rows[i].depositNo);
  }

  // A deposit of any other row is not paid by the settlement.
  lemma NotPaid(db: Database, rate: int, b: Id, i: nat)
    requires Core(db, rate) && i < |db.rows| && !(db.rows[i].basketNo == b && db.rows[i].status == Attached)
    ensures db.rows[i].depositNo !in AttachedNos(db.rows, b)
  {
    AttachedNosAre(db.rows, b, db.rows[i].depositNo);
  }

  lemma SettleLeavesRow(db: Database, rate: int, b: Id, m: Id, i: nat)
    requires Core(db, rate) && Settleable(db, rate, b, m) && i < |db.rows|
    requires !(db.rows[i].basketNo == b && db.rows[i].status == Attached)
    ensures RowOk(Settle(db, b, m), Settle(db, b, m).rows[i])
  {
    NotPaid(db, rate, b, i);
    assert RowOk(db, db.rows[i]);
    assert Settle(db, b, m).rows[i] == db.rows[i];
    assert Settle(db, b, m).orders[db.rows[i].depositNo] == db.orders[db.rows[i].depositNo];
  }

  lemma SettleKeepsRows(db: Database, rate: int, b: Id, m: Id)
    requires Core(db, rate) && Settleable(db, rate, b, m)
    ensures RowsOk(Settle(db, b, m))
  {
    forall i | 0 <= i < |db.rows| ensures RowOk(Settle(db, b, m), Settle(db, b, m).rows[i]) {
      if db.rows[i].basketNo == b && db.rows[i].status == Attached {
        SettleMatchesRow(db, rate, b, m, i);
      } else {
        SettleLeavesRow(db, rate, b, m, i);
      }
    }
  }

  lemma SettleKeepsOrders(db: Database, rate: int, b: Id, m: Id)
    requires Core(db, rate) && Settleable(db, rate, b, m)
    ensures OrdersOk(Settle(db, b, m)) && SharesOk(Settle(db, b, m))
  {
    var after := Settle(db, b, m);
    forall x, c, st | Stands(db.rows, x, c, st) && (c != b || st != Attached) ensures Stands(after.rows, x, c, st) {
      var i :| 0 <= i < |db.rows| && db.rows[i].depositNo == x && db.rows[i].basketNo == c && db.rows[i].status == st;
      assert after.rows[i] == db.rows[i];
    }
    forall x | Stands(db.rows, x, b, Attached) ensures Stands(after.rows, x, b, Matched) {
      var i :| 0 <= i < |db.rows| && db.rows[i].depositNo == x
               && db.rows[i].basketNo == b && db.rows[i].status == Attached;
      assert after.rows[i] == db.rows[i].(status := Matched);
    }
    forall x | x in after.orders ensures OrderOk(after, x) {
      assert OrderOk(db, x);
      AttachedNosAre(db.rows, b, x);
      LockedIsAttached(db, rate, x, b);
    }
    forall x | x in after.shares
      ensures after.shares[x].matchNo in after.records
              && Stands(after.rows, x, after.records[after.shares[x].matchNo].basketNo, Matched) {
      AttachedNosAre(db.rows, b, x);
    }
  }

  lemma SettledSums(db: Database, b: Id, c: Id)
    ensures Sum(Restatus(db.rows, OfBasket(b), Matched), c, Attached)
            == if c == b then 0 else Sum(db.rows, c, Attached)
    ensures Sum(Restatus(db.rows, OfBasket(b), Matched), c, Matched)
            == Sum(db.rows, c, Matched) + if c == b then Sum(db.rows, b, Attached) else 0
  {
    RestatusSum(db.rows, OfBasket(b), Matched, c, Attached);
    RestatusSum(db.rows, OfBasket(b), Matched, c, Matched);
    MovedByBasket(db.rows, b, c);
  }

  lemma SettleRecords(db: Database, rate: int, b: Id, m: Id)
    requires Core(db, rate) && Settleable(db, rate, b, m)
    ensures RecordedOnce(Settle(db, b, m))
  {
    var after := Settle(db, b, m);
    WaitingRows(db, rate, b);
    forall c | c in after.baskets && after.baskets[c].status == MATCHED
      ensures exists x :: x in after.records && after.records[x].basketNo == c {
      if c == b {
        assert after.records[m].basketNo == c;
      } else {
        var x :| x in db.records && db.records[x].basketNo == c;
        assert x in after.records && after.records[x].basketNo == c;
      }
    }
  }

  lemma SettleKeepsBaskets(db: Database, rate: int, b: Id, m: Id)
    requires Core(db, rate) && Settleable(db, rate, b, m)
    ensures BasketsOk(Settle(db, b, m))
  {
    var after := Settle(db, b, m);
    forall c | c in after.baskets ensures BasketOk(after, c) {
      assert BasketOk(db, c);
      SettledSums(db, b, c);
    }
  }

  lemma SettleKeepsRecord(db: Database, rate: int, b: Id, m: Id, x: Id)
    requires Core(db, rate) && Settleable(db, rate, b, m) && x in Settle(db, b, m).records
    ensures RecordOk(Settle(db, b, m), rate, x)
  {
    WaitingRows(db, rate, b);
    assert BasketOk(db, b);
    assert x != m ==> RecordOk(db, rate, x);
    SettledSums(db, b, Settle(db, b, m).records[x].basketNo);
  }

  lemma SettleKeeps(db: Database, rate: int, b: Id, m: Id)
    requires Core(db, rate) && Settleable(db, rate, b, m)
    ensures Core(Settle(db, b, m), rate)
  {
    SettleKeepsRows(db, rate, b, m);
    SettleKeepsOrders(db, rate, b, m);
    SettleRecords(db, rate, b, m);
    SettleKeepsBaskets(db, rate, b, m);
    forall x | x in Settle(db, b, m).records ensures RecordOk(Settle(db, b, m), rate, x) {
      SettleKeepsRecord(db, rate, b, m, x);
    }
  }
}
