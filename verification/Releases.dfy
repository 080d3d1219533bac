// Giving money back: a locked deposit that expires, and a basket that is closed or
// short-paid at its expiry.

module Releases {
  import opened Model
  import opened Rows
  import opened Tables
  import opened Backstop
  import opened Ledger
  import opened Moves
  import MinAmount

  // ----- one locked deposit

  lemma DetailIs(db: Database, rate: int, d: Id) returns (i: nat)
    requires Core(db, rate) && ExpireLockedOrder(db, d).Some?
    ensures i < |db.rows| && db.rows[i] == FirstAttached(db.rows, d).value
    ensures db.rows[i].depositNo == d && db.rows[i].status == Attached && RowOk(db, db.rows[i])
  {
    i :| 0 <= i < |db.rows| && db.rows[i] == FirstAttached(db.rows, d).value && Selects(OfDeposit(d), db.rows[i]);
  }

  // The release finds its row exactly when the order is locked, and the amount on
  // record covers it, so nothing is cut off at zero.
  lemma ReleaseFinds(db: Database, rate: int, d: Id)
    requires Core(db, rate)
    ensures ExpireLockedOrder(db, d).Some? <==> d in db.orders && db.orders[d].status == LOCKED
    ensures ExpireLockedOrder(db, d).Some? ==>
              var (after, detail) := ExpireLockedOrder(db, d).value;
              && detail.basketNo in db.baskets && detail.basketNo == db.orders[d].basketNo && detail.depositNo == d
              && detail.amount == db.orders[d].amount > 0
              && db.baskets[detail.basketNo].status == WAITING
              && db.orders[d].channel == db.baskets[detail.basketNo].channel
              && db.orders[d].currency == db.baskets[detail.basketNo].currency
              && db.baskets[detail.basketNo].current >= detail.amount
              && after.baskets == db.baskets[detail.basketNo :=
                   db.baskets[detail.basketNo].(current := db.baskets[detail.basketNo].current - detail.amount)]
              && after.orders == db.orders[d := db.orders[d].(status := EXPIRED)]
  {
    if ExpireLockedOrder(db, d).Some? {
      DetailCovered(db, rate, d);
    } else if d in db.orders {
      assert OrderOk(db, d);
    }
  }

  // The row a release uses, and what the basket holds.
  lemma DetailCovered(db: Database, rate: int, d: Id)
    requires Core(db, rate) && ExpireLockedOrder(db, d).Some?
    ensures var detail := FirstAttached(db.rows, d).value;
            && RowOk(db, detail) && detail.depositNo == d && detail.status == Attached
            && db.baskets[detail.basketNo].current >= detail.amount
  {
    assert forall i :: 0 <= i < |db.rows| ==> RowOk(db, db.rows[i]);
    var i := DetailIs(db, rate, d);
    SumCovers(db.rows, i);
    assert BasketOk(db, db.rows[i].basketNo);
  }

  lemma ReleaseKeepsRow(db: Database, rate: int, d: Id, i: nat)
    requires Core(db, rate) && ExpireLockedOrder(db, d).Some? && i < |db.rows|
    ensures var after := ExpireLockedOrder(db, d).value.0; RowOk(after, after.rows[i])
  {
    ReleaseFinds(db, rate, d);
    var k := DetailIs(db, rate, d);
    assert RowOk(db, db.rows[i]);
    assert i != k ==> db.rows[i].depositNo != d;
  }

  // Who is not released stands as before.
  lemma ReleaseKeepsStanding(rows: seq<Row>, d: Id, x: Id, c: Id, st: RowStatus)
    requires Stands(rows, x, c, st) && x != d
    ensures Stands(Restatus(rows, OfDeposit(d), Released), x, c, st)
  {
    var i :| 0 <= i < |rows| && rows[i].depositNo == x && rows[i].basketNo == c && rows[i].status == st;
    assert Restatus(rows, OfDeposit(d), Released)[i] == rows[i];
  }

  lemma ReleaseKeepsOrder(db: Database, rate: int, d: Id, x: Id)
    requires Core(db, rate) && ExpireLockedOrder(db, d).Some? && x in db.orders
    ensures var after := ExpireLockedOrder(db, d).value.0; x in after.orders && OrderOk(after, x)
  {
    ReleaseFinds(db, rate, d);
    assert OrderOk(db, x);
    if x != d && db.orders[x].status == LOCKED {
      ReleaseKeepsStanding(db.rows, d, x, db.orders[x].basketNo, Attached);
    } else if x != d && db.orders[x].status == MATCHED {
      ReleaseKeepsStanding(db.rows, d, x, db.orders[x].basketNo, Matched);
    }
  }

  lemma ReleaseKeepsShares(db: Database, rate: int, d: Id)
    requires Core(db, rate) && ExpireLockedOrder(db, d).Some?
    ensures SharesOk(ExpireLockedOrder(db, d).value.0)
  {
    var after := ExpireLockedOrder(db, d).value.0;
    var k := DetailIs(db, rate, d);
    forall x | x in after.shares
      ensures Stands(after.rows, x, after.records[after.shares[x].matchNo].basketNo, Matched) {
      assert Stands(db.rows, x, db.records[db.shares[x].matchNo].basketNo, Matched);
      assert forall i :: 0 <= i < |db.rows| && db.rows[i].depositNo == d ==> i == k;
      ReleaseKeepsStanding(db.rows, d, x, db.records[db.shares[x].matchNo].basketNo, Matched);
    }
  }

  lemma ReleaseKeepsRows(db: Database, rate: int, d: Id)
    requires Core(db, rate) && ExpireLockedOrder(db, d).Some?
    ensures var after := ExpireLockedOrder(db, d).value.0; RowsOk(after) && OrdersOk(after) && SharesOk(after)
  {
    var after := ExpireLockedOrder(db, d).value.0;
    ReleaseFinds(db, rate, d);
    ReleaseKeepsShares(db, rate, d);
    forall i | 0 <= i < |after.rows| ensures RowOk(after, after.rows[i]) {
      ReleaseKeepsRow(db, rate, d, i);
    }
    forall x | x in after.orders ensures OrderOk(after, x) {
      ReleaseKeepsOrder(db, rate, d, x);
    }
  }

  lemma ReleasedSums(db: Database, rate: int, d: Id, c: Id)
    requires Core(db, rate) && ExpireLockedOrder(db, d).Some?
    ensures var (after, detail) := ExpireLockedOrder(db, d).value;
            && Sum(after.rows, c, Attached)
               == Sum(db.rows, c, Attached) - (if c == detail.basketNo then detail.amount else 0)
            && Sum(after.rows, c, Matched) == Sum(db.rows, c, Matched)
  {
    var i := DetailIs(db, rate, d);
    RestatusSum(db.rows, OfDeposit(d), Released, c, Attached);
    RestatusSum(db.rows, OfDeposit(d), Released, c, Matched);
    MovedByDeposit(db.rows, d, i, c);
  }

  lemma ReleaseKeeps(db: Database, rate: int, d: Id)
    requires Inv(db, rate) && ExpireLockedOrder(db, d).Some?
    ensures Inv(ExpireLockedOrder(db, d).value.0, rate)
  {
    var (after, detail) := ExpireLockedOrder(db, d).value;
    ReleaseFinds(db, rate, d);
    ReleaseKeepsRows(db, rate, d);
    forall c | c in after.baskets ensures BasketOk(after, c) {
      assert BasketOk(db, c);
      ReleasedSums(db, rate, d, c);
    }
    RecordedFrame(db, after);
    forall m | m in after.records ensures RecordOk(after, rate, m) {
      assert RecordOk(db, rate, m);
      ReleasedSums(db, rate, d, db.records[m].basketNo);
    }
  }

  // ----- closing a basket

  lemma ClosedSums(db: Database, no: Id, c: Id)
    ensures Sum(Restatus(db.rows, OfBasket(no), Released), c, Attached)
            == if c == no then 0 else Sum(db.rows, c, Attached)
    ensures Sum(Restatus(db.rows, OfBasket(no), Released), c, Matched) == Sum(db.rows, c, Matched)
  {
    RestatusSum(db.rows, OfBasket(no), Released, c, Attached);
    RestatusSum(db.rows, OfBasket(no), Released, c, Matched);
    MovedByBasket(db.rows, no, c);
  }

  lemma CloseKeepsRow(db: Database, rate: int, no: Id, i: nat)
    requires Core(db, rate) && CloseBasket(db, no).1 && i < |db.rows|
    ensures var after := CloseBasket(db, no).0; RowOk(after, after.rows[i])
  {
    assert RowOk(db, db.rows[i]);
  }

  // Who does not stand attached in the closed basket stands as before.
  lemma CloseKeepsStanding(rows: seq<Row>, no: Id, x: Id, c: Id, st: RowStatus)
    requires Stands(rows, x, c, st) && (c != no || st != Attached)
    ensures Stands(Restatus(rows, OfBasket(no), Released), x, c, st)
  {
    var i :| 0 <= i < |rows| && rows[i].depositNo == x && rows[i].basketNo == c && rows[i].status == st;
    assert Restatus(rows, OfBasket(no), Released)[i] == rows[i];
  }

  lemma CloseKeepsOrder(db: Database, rate: int, no: Id, x: Id)
    requires Core(db, rate) && CloseBasket(db, no).1 && x in db.orders
    ensures var after := CloseBasket(db, no).0; x in after.orders && OrderOk(after, x)
  {
    assert OrderOk(db, x);
    if db.orders[x].status == LOCKED && db.orders[x].basketNo != no {
      CloseKeepsStanding(db.rows, no, x, db.orders[x].basketNo, Attached);
    } else if db.orders[x].status == MATCHED {
      CloseKeepsStanding(db.rows, no, x, db.orders[x].basketNo, Matched);
    }
  }

  lemma CloseKeepsRows(db: Database, rate: int, no: Id)
    requires Core(db, rate) && CloseBasket(db, no).1
    ensures var after := CloseBasket(db, no).0; RowsOk(after) && OrdersOk(after) && SharesOk(after)
  {
    var after := CloseBasket(db, no).0;
    forall i | 0 <= i < |after.rows| ensures RowOk(after, after.rows[i]) {
      CloseKeepsRow(db, rate, no, i);
    }
    forall x | x in after.orders ensures OrderOk(after, x) {
      CloseKeepsOrder(db, rate, no, x);
    }
    forall x | x in after.shares
      ensures Stands(after.rows, x, after.records[after.shares[x].matchNo].basketNo, Matched) {
      CloseKeepsStanding(db.rows, no, x, db.records[db.shares[x].matchNo].basketNo, Matched);
    }
  }

  lemma CloseKeeps(db: Database, rate: int, no: Id)
    requires Inv(db, rate) && CloseBasket(db, no).1
    ensures Inv(CloseBasket(db, no).0, rate)
  {
    var after := CloseBasket(db, no).0;
    CloseKeepsRows(db, rate, no);
    forall c | c in after.baskets ensures BasketOk(after, c) {
      assert BasketOk(db, c);
      ClosedSums(db, no, c);
    }
    RecordedFrame(db, after);
    forall m | m in after.records ensures RecordOk(after, rate, m) {
      assert RecordOk(db, rate, m);
      ClosedSums(db, no, db.records[m].basketNo);
    }
  }

  // ----- expiring a basket

  // A row read earlier: the columns no statement ever changes are those of the table.
  ghost predicate ReadOf(read: BasketRow, now: BasketRow)
  {
    && read.withdrawNo == now.withdrawNo && read.channel == now.channel && read.currency == now.currency
    && read.target == now.target && read.expireAt == now.expireAt
  }

  // The amount a basket must have reached for a short payment.
  predicate Enough(db: Database, no: Id, rate: int)
    requires no in db.baskets
  {
    MinAmount.Pays(db.baskets[no].target, rate, Sum(db.rows, no, Attached))
  }

  lemma NoAttachedRows(db: Database, rate: int, no: Id)
    requires Core(db, rate) && (no !in db.baskets || db.baskets[no].status != WAITING)
    ensures AttachedNos(db.rows, no) == []
  {
    assert forall i :: 0 <= i < |db.rows| ==> RowOk(db, db.rows[i]);
    if AttachedNos(db.rows, no) != [] {
      AttachedNosAre(db.rows, no, AttachedNos(db.rows, no)[0]);
    }
  }

  lemma WaitingPayable(db: Database, rate: int, no: Id)
    requires Core(db, rate) && no in db.baskets && db.baskets[no].status == WAITING
    ensures Payable(db, no) && forall x :: x in db.records ==> db.records[x].basketNo != no
    ensures Sum(db.rows, no, Attached) > 0 <==> AttachedNos(db.rows, no) != []
  {
    assert forall i :: 0 <= i < |db.rows| ==> RowOk(db, db.rows[i]);
    SumPositive(db.rows, no, Attached);
    WaitingRows(db, rate, no);
    forall d | d in AttachedNos(db.rows, no) ensures d in db.orders && d !in db.shares {
      AttachedNosAre(db.rows, no, d);
      LockedIsAttached(db, rate, d, no);
    }
  }

  // The short payment of a waiting basket, for any row read.
  lemma CompletionIs(db: Database, rate: int, no: Id, read: BasketRow, m: Id)
    requires Core(db, rate) && no in db.baskets && ReadOf(read, db.baskets[no]) && db.baskets[no].status == WAITING
    ensures CompleteExpired(db, no, read, rate, m)
            == if !Enough(db, no, rate) then Skipped
               else if m in db.records then CompletionFailed else Completed(Settle(db, no, m))
  {
    WaitingPayable(db, rate, no);
    CompletedIsSettle(db, BuildPartial(no, read, db.rows), m);
  }

  lemma EnoughIsMinimum(db: Database, rate: int, no: Id)
    requires no in db.baskets && db.baskets[no].target > 0
    ensures MinAmount.NoOverflow(db.baskets[no].target, rate) ==>
              (Enough(db, no, rate) <==>
                Sum(db.rows, no, Attached) >= MinAmount.MinComplete(db.baskets[no].target, rate))
  {
    if MinAmount.NoOverflow(db.baskets[no].target, rate) {
      MinAmount.PaysIsMinimum(db.baskets[no].target, rate, Sum(db.rows, no, Attached));
    }
  }

  // What the expiry does, for any row the sweep had read: it pays short exactly when
  // both the row read and the rows found pass the test, and closes otherwise. The test
  // is the one against the minimum wherever its 64-bit numerator does not wrap.
  lemma ExpiryIs(db: Database, rate: int, no: Id, read: BasketRow, m: Id)
    requires Core(db, rate) && no in db.baskets && ReadOf(read, db.baskets[no])
    ensures ExpireBasket(db, no, read, rate, m) ==
            if db.baskets[no].status != WAITING then BasketExpiry(db, false, false)
            else if CanCompletePartial(read, rate) && Enough(db, no, rate)
            then if m in db.records then BasketExpiry(db, false, true) else BasketExpiry(Settle(db, no, m), true, false)
            else BasketExpiry(CloseBasket(db, no).0, true, false)
    ensures db.baskets[no].status == WAITING && Enough(db, no, rate) && m !in db.records ==> Settleable(db, rate, no, m)
    ensures MinAmount.NoOverflow(db.baskets[no].target, rate) ==>
              (Enough(db, no, rate) <==>
                Sum(db.rows, no, Attached) >= MinAmount.MinComplete(db.baskets[no].target, rate))
  {
    assert BasketOk(db, no);
    EnoughIsMinimum(db, rate, no);
    if db.baskets[no].status != WAITING {
      NoAttachedRows(db, rate, no);
    } else {
      CompletionIs(db, rate, no, read, m);
    }
  }

  // With the row as it is in the table the pre-check and the re-check agree.
  lemma ChecksAgree(db: Database, rate: int, no: Id)
    requires Core(db, rate) && no in db.baskets && db.baskets[no].status == WAITING
    ensures CanCompletePartial(db.baskets[no], rate) <==> Enough(db, no, rate)
  {
    assert BasketOk(db, no);
  }

  lemma ExpiryKeeps(db: Database, rate: int, no: Id, read: BasketRow, m: Id)
    requires Inv(db, rate) && no in db.baskets && ReadOf(read, db.baskets[no])
    ensures Inv(ExpireBasket(db, no, read, rate, m).db, rate)
  {
    ExpiryIs(db, rate, no, read, m);
    if db.baskets[no].status == WAITING {
      if CanCompletePartial(read, rate) && Enough(db, no, rate) {
        if m !in db.records {
          SettleKeeps(db, rate, no, m);
        }
      } else {
        CloseKeeps(db, rate, no);
      }
    }
  }
}
