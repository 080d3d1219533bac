// Storing the outcome of a submitted deposit, and exactly when that keeps the
// tables right (internal/biz/matching.go:200-217 and 527-642).

module Submits {
  import opened Model
  import opened Rows
  import opened Tables
  import opened Backstop
  import opened Ledger
  import opened Moves
  import MinAmount

  lemma SaveFresh(db: Database, rate: int, no: Id, order: Order)
    requires Inv(db, rate) && no !in db.orders && order.status != LOCKED && order.status != MATCHED
    ensures Inv(SaveDeposit(db, no, order), rate)
  {
    var after := SaveDeposit(db, no, order);
    forall i | 0 <= i < |after.rows| ensures RowOk(after, after.rows[i]) {
      assert RowOk(db, db.rows[i]);
    }
    forall d | d in after.orders ensures OrderOk(after, d) {
      assert d in db.orders ==> OrderOk(db, d);
    }
    forall b | b in after.baskets ensures BasketOk(after, b) {
      assert BasketOk(db, b);
    }
    RecordedFrame(db, after);
    forall m | m in after.records ensures RecordOk(after, rate, m) {
      assert RecordOk(db, rate, m);
    }
  }

  // A new order keeps the invariant exactly when it does not claim to be locked or
  // matched already, which a message may do.
  lemma SaveKeeps(db: Database, rate: int, no: Id, order: Order)
    requires Inv(db, rate)
    ensures Inv(SaveDeposit(db, no, order), rate)
            <==> no in db.orders || (order.status != LOCKED && order.status != MATCHED)
  {
    if no !in db.orders {
      if order.status == LOCKED || order.status == MATCHED {
        assert forall i :: 0 <= i < |db.rows| ==> RowOk(db, db.rows[i]);
        assert !OrderOk(SaveDeposit(db, no, order), no);
      } else {
        SaveFresh(db, rate, no, order);
      }
    }
  }

  // The result the engine builds for a deposit and a waiting basket.
  ghost predicate Placing(db: Database, r: MatchResult, b: Id, no: Id, amount: int)
  {
    && b in db.baskets && db.baskets[b].status == WAITING && amount > 0
    && var basket := db.baskets[b];
    && r.basketNo == b && r.withdrawNo == basket.withdrawNo && r.channel == basket.channel
    && r.currency == basket.currency && r.target == basket.target
    && r.depositNos == Active(db.rows, b) + [no]
    && r.matchedAmount == basket.current + amount <= basket.target
    && r.short == 0 && (r.matched <==> r.matchedAmount == basket.target)
  }

  // The tables after the detail row of a deposit was created.
  function WithRow(db: Database, b: Id, no: Id, amount: int): Database
    requires b in db.baskets
  {
    db.(rows := db.rows + [Row(b, db.baskets[b].withdrawNo, no, amount, Attached)])
  }

  // The transaction, whatever the stored order looks like: it fails only on a unique
  // key, and otherwise it attaches or completes.
  lemma PersistIs(db: Database, rate: int, r: MatchResult, b: Id, no: Id, amount: int, m: Id)
    requires Inv(db, rate) && Placing(db, r, b, no, amount) && no in db.orders
    ensures PersistMatch(db, no, amount, r, m)
            == if HasRow(db.rows, no) then RolledBack
               else if !r.matched then PersistAttached(WithRow(db, b, no, amount), no, r)
               else if m in db.records then RolledBack
               else Committed(Settle(WithRow(db, b, no, amount), b, m))
    ensures !HasRow(db.rows, no) && !r.matched ==> PersistMatch(db, no, amount, r, m).Committed?
  {
    if !HasRow(db.rows, no) && r.matched {
      var with := WithRow(db, b, no, amount);
      assert BasketOk(db, b);
      WaitingRows(db, rate, b);
      Appended(db.rows, Row(b, db.baskets[b].withdrawNo, no, amount, Attached), b, Attached);
      assert Distinct(with.rows);
      forall d | d in AttachedNos(with.rows, b) ensures d in with.orders && d !in with.shares {
        AttachedNosAre(db.rows, b, d);
        LockedIsAttached(db, rate, d, b);
        assert d == no ==> forall st, c :: !Stands(db.rows, d, c, st);
      }
      CompletedIsSettle(with, r, m);
    }
  }

  lemma PaidOrdersLocked(all: map<Id, Order>, b: Id, m: Id, nos: seq<Id>, no: Id)
    requires no in all && all[no].status == WAITING && no in nos
    ensures PaidOrders(all[no := all[no].(status := LOCKED, basketNo := b)], b, m, nos) == PaidOrders(all, b, m, nos)
  {}

  lemma PaidSharesLocked(shares: map<Id, Share>, all: map<Id, Order>, b: Id, m: Id, w: Id, nos: seq<Id>, no: Id)
    requires no in all
    ensures PaidShares(shares, all[no := all[no].(status := LOCKED, basketNo := b)], m, w, nos)
            == PaidShares(shares, all, m, w, nos)
  {}

  // Settling straight after the row was created is locking the deposit and settling.
  lemma SettleAfterLock(db: Database, b: Id, no: Id, amount: int, m: Id)
    requires Attachable(db, no, b, amount)
    ensures Settle(WithRow(db, b, no, amount), b, m) == Settle(Lock(db, no, b, amount), b, m)
  {
    var rows := WithRow(db, b, no, amount).rows;
    var nos := AttachedNos(rows, b);
    Appended(db.rows, Row(b, db.baskets[b].withdrawNo, no, amount, Attached), b, Attached);
    assert no in nos;
    PaidOrdersLocked(db.orders, b, m, nos, no);
    PaidSharesLocked(db.shares, db.orders, b, m, db.baskets[b].withdrawNo, nos, no);
    var done := db.baskets[b].(status := MATCHED, current := Sum(rows, b, Attached));
    assert Lock(db, no, b, amount).baskets[b := done] == db.baskets[b := done];
  }

  // An amount that may be paid: the target, or what passes the test.
  predicate Payment(target: int, rate: int, matched: int)
  {
    0 < matched <= target && (matched == target || MinAmount.Pays(target, rate, matched))
  }

  // Attaching what makes up a payment leaves the basket ready to be settled.
  lemma FilledSettles(db: Database, rate: int, b: Id, no: Id, amount: int, m: Id)
    requires Core(db, rate) && Attachable(db, no, b, amount) && m !in db.records
    requires Payment(db.baskets[b].target, rate, db.baskets[b].current + amount)
    ensures Settleable(Lock(db, no, b, amount), rate, b, m)
  {
    assert BasketOk(db, b);
    Appended(db.rows, Row(b, db.baskets[b].withdrawNo, no, amount, Attached), b, Attached);
  }

  lemma CommittedSettles(db: Database, rate: int, b: Id, no: Id, amount: int, m: Id)
    requires Inv(db, rate) && Attachable(db, no, b, amount) && m !in db.records
    requires Payment(db.baskets[b].target, rate, db.baskets[b].current + amount)
    ensures Settle(WithRow(db, b, no, amount), b, m) == Settle(Lock(db, no, b, amount), b, m)
    ensures Inv(Settle(Lock(db, no, b, amount), b, m), rate)
  {
    LockKeeps(db, rate, no, b, amount);
    SettleAfterLock(db, b, no, amount, m);
    FilledSettles(db, rate, b, no, amount, m);
    SettleKeeps(Lock(db, no, b, amount), rate, b, m);
  }

  // What does not fill the basket leaves it short.
  lemma LockStays(db: Database, b: Id, no: Id, amount: int)
    requires BelowTarget(db) && b in db.baskets && no in db.orders
    requires db.baskets[b].current + amount < db.baskets[b].target
    ensures BelowTarget(Lock(db, no, b, amount))
  {}

  lemma AttachedIsLock(db: Database, r: MatchResult, b: Id, no: Id, amount: int)
    requires Attachable(db, no, b, amount) && r.basketNo == b && r.matchedAmount == db.baskets[b].current + amount
    ensures PersistAttached(WithRow(db, b, no, amount), no, r) == Committed(Lock(db, no, b, amount))
  {}

  // A committed result is a move of money when the stored order is attachable.
  lemma CommittedMoves(db: Database, rate: int, r: MatchResult, b: Id, no: Id, amount: int, m: Id)
    requires Inv(db, rate) && Placing(db, r, b, no, amount) && Attachable(db, no, b, amount)
    requires PersistMatch(db, no, amount, r, m).Committed?
    ensures var after := PersistMatch(db, no, amount, r, m).db;
            && Inv(after, rate)
            && after == if r.matched then Settle(Lock(db, no, b, amount), b, m) else Lock(db, no, b, amount)
  {
    PersistIs(db, rate, r, b, no, amount, m);
    if r.matched {
      CommittedSettles(db, rate, b, no, amount, m);
    } else {
      LockKeeps(db, rate, no, b, amount);
      AttachedIsLock(db, r, b, no, amount);
      LockStays(db, b, no, amount);
    }
  }

  // Otherwise the new row contradicts its order.
  lemma CommittedBreaks(db: Database, rate: int, r: MatchResult, b: Id, no: Id, amount: int, m: Id)
    requires Inv(db, rate) && Placing(db, r, b, no, amount) && no in db.orders && !Attachable(db, no, b, amount)
    requires PersistMatch(db, no, amount, r, m).Committed?
    ensures !Inv(PersistMatch(db, no, amount, r, m).db, rate)
  {
    PersistIs(db, rate, r, b, no, amount, m);
    var after := PersistMatch(db, no, amount, r, m).db;
    assert db.orders[no].status != LOCKED && db.orders[no].status != MATCHED by {
      assert OrderOk(db, no);
    }
    assert !RowOk(after, after.rows[|db.rows|]);
  }
}
