// What a committed result does to the tables when it may come from any memory at all,
// such as that of a second instance (internal/biz/matching.go:541-669).

module Stale {
  import opened Model
  import opened Rows
  import opened Tables
  import opened Ledger
  import opened Moves
  import opened Submits

  lemma ShareStep(db: Database, m: Id, r: MatchResult, nos: seq<Id>, d: Id)
    ensures PersistShare(Paid(db, m, r, nos), m, r, d).Committed? <==>
            d in db.orders && d !in db.shares && d !in nos
  {}

  // The loop over deposits commits exactly then.
  lemma {:induction false} SharesCommit(db: Database, m: Id, r: MatchResult, nos: seq<Id>)
    ensures PersistShares(db, m, r, nos).Committed? <==> PayableOnce(db, nos)
  {
    if nos != [] {
      var n := |nos| - 1;
      SharesCommit(db, m, r, nos[..n]);
      assert nos == nos[..n] + [nos[n]];
      PayableStep(db, nos[..n], nos[n]);
      if PersistShares(db, m, r, nos[..n]).Committed? {
        SharesAtOnce(db, m, r, nos[..n]);
        ShareStep(db, m, r, nos[..n], nos[n]);
      }
    }
  }

  // A completing result that commits, whatever it says.
  lemma CommittedIs(db: Database, r: MatchResult, m: Id)
    requires PersistCompleted(db, r, m).Committed?
    ensures r.basketNo in db.baskets && db.baskets[r.basketNo].status == WAITING && m !in db.records
    ensures forall d :: d in r.depositNos ==> d in db.orders && d !in db.shares
    ensures PersistCompleted(db, r, m) == Committed(CompletedTables(db, r, m))
  {
    var record := Record(r.basketNo, r.withdrawNo, r.channel, r.currency, r.target, r.matchedAmount, r.short);
    var with := db.(records := db.records[m := record]);
    SharesCommit(with, m, r, r.depositNos);
    SharesAtOnce(with, m, r, r.depositNos);
  }

  // The tables after the detail row was written with what the result says.
  function Detailed(db: Database, r: MatchResult, no: Id, amount: int): Database
  {
    db.(rows := db.rows + [Row(r.basketNo, r.withdrawNo, no, amount, Attached)])
  }

  // A result that tells the truth about the tables and the deposit.
  ghost predicate Truthful(db: Database, rate: int, r: MatchResult, no: Id, amount: int)
  {
    && Attachable(db, no, r.basketNo, amount)
    && var b, basket := r.basketNo, db.baskets[r.basketNo];
    && r.withdrawNo == basket.withdrawNo && r.matchedAmount == Sum(db.rows, b, Attached) + amount
    && if r.matched then
         && r.channel == basket.channel && r.currency == basket.currency && r.target == basket.target
         && r.matchedAmount + r.short == r.target && Payment(basket.target, rate, r.matchedAmount)
         && forall d :: d in r.depositNos <==> d in AttachedNos(db.rows, b) || d == no
       else r.matchedAmount < basket.target
  }

  lemma PaidSame(all: map<Id, Order>, shares: map<Id, Share>, b: Id, m: Id, w: Id, nos: seq<Id>, others: seq<Id>)
    requires forall d :: d in nos <==> d in others
    ensures PaidOrders(all, b, m, nos) == PaidOrders(all, b, m, others)
    ensures PaidShares(shares, all, m, w, nos) == PaidShares(shares, all, m, w, others)
  {}

  // ----- completing

  lemma TruthIsSettle(db: Database, rate: int, r: MatchResult, no: Id, amount: int, m: Id)
    requires Inv(db, rate) && r.matched && Truthful(db, rate, r, no, amount)
    ensures Detailed(db, r, no, amount) == WithRow(db, r.basketNo, no, amount)
    ensures CompletedTables(Detailed(db, r, no, amount), r, m)
            == Settle(WithRow(db, r.basketNo, no, amount), r.basketNo, m)
  {
    var b, with := r.basketNo, WithRow(db, r.basketNo, no, amount);
    var listed := r.(depositNos := AttachedNos(with.rows, b));
    Appended(db.rows, Row(b, r.withdrawNo, no, amount, Attached), b, Attached);
    PaidSame(db.orders, db.shares, b, m, r.withdrawNo, r.depositNos, listed.depositNos);
    assert CompletedTables(with, r, m) == CompletedTables(with, listed, m);
    SettleIs(with, listed, m);
  }

  lemma TruthSettles(db: Database, rate: int, r: MatchResult, no: Id, amount: int, m: Id)
    requires Inv(db, rate) && r.matched && Truthful(db, rate, r, no, amount) && m !in db.records
    ensures Inv(CompletedTables(Detailed(db, r, no, amount), r, m), rate)
  {
    assert BasketOk(db, r.basketNo);
    TruthIsSettle(db, rate, r, no, amount, m);
    CommittedSettles(db, rate, r.basketNo, no, amount, m);
  }

  // What tables in order say about the order of the new row.
  lemma OrderWaits(db: Database, rate: int, no: Id)
    requires Core(db, rate) && !HasRow(db.rows, no) && no in db.orders
    ensures db.orders[no].status != LOCKED && db.orders[no].status != MATCHED
  {
    assert OrderOk(db, no);
  }

  lemma CompletedRow(db: Database, rate: int, r: MatchResult, no: Id, amount: int, m: Id)
    requires Inv(db, rate) && !HasRow(db.rows, no)
    requires r.basketNo in db.baskets && db.baskets[r.basketNo].status == WAITING
    requires RowsOk(CompletedTables(Detailed(db, r, no, amount), r, m))
    ensures Attachable(db, no, r.basketNo, amount)
    ensures no in r.depositNos && r.withdrawNo == db.baskets[r.basketNo].withdrawNo
  {
    var after := CompletedTables(Detailed(db, r, no, amount), r, m);
    assert RowOk(after, after.rows[|db.rows|]);
    OrderWaits(db, rate, no);
  }

  lemma CompletedRecord(db: Database, rate: int, r: MatchResult, no: Id, amount: int, m: Id)
    requires Inv(db, rate) && r.basketNo in db.baskets && db.baskets[r.basketNo].status == WAITING
    requires RecordsOk(CompletedTables(Detailed(db, r, no, amount), r, m), rate)
    ensures var basket := db.baskets[r.basketNo];
            && r.matchedAmount == Sum(db.rows, r.basketNo, Attached) + amount
            && r.channel == basket.channel && r.currency == basket.currency && r.target == basket.target
            && r.matchedAmount + r.short == r.target && Payment(basket.target, rate, r.matchedAmount)
  {
    var b, with := r.basketNo, Detailed(db, r, no, amount);
    var after := CompletedTables(with, r, m);
    assert RecordOk(after, rate, m);
    SettledSums(with, b, b);
    WaitingRows(db, rate, b);
    Appended(db.rows, Row(b, r.withdrawNo, no, amount, Attached), b, Attached);
    Appended(db.rows, Row(b, r.withdrawNo, no, amount, Attached), b, Matched);
  }

  // Every attached deposit of the basket is named, or its order stays locked.
  lemma CompletedNamesAll(db: Database, rate: int, r: MatchResult, no: Id, amount: int, m: Id, d: Id)
    requires Inv(db, rate) && r.basketNo in db.baskets && d in AttachedNos(db.rows, r.basketNo)
    requires RowsOk(CompletedTables(Detailed(db, r, no, amount), r, m))
    ensures d in r.depositNos
  {
    var b, after := r.basketNo, CompletedTables(Detailed(db, r, no, amount), r, m);
    AttachedNosAre(db.rows, b, d);
    var i :| 0 <= i < |db.rows| && db.rows[i].depositNo == d
             && db.rows[i].basketNo == b && db.rows[i].status == Attached;
    assert RowOk(db, db.rows[i]);
    assert after.rows[i] == db.rows[i].(status := Matched);
    assert RowOk(after, after.rows[i]);
  }

  // Who stands matched in the basket afterwards stood attached in it before.
  lemma StoodAttached(db: Database, rate: int, b: Id, row: Row, d: Id)
    requires Core(db, rate) && b in db.baskets && db.baskets[b].status == WAITING && row.status == Attached
    requires Stands(Restatus(db.rows + [row], OfBasket(b), Matched), d, b, Matched)
    ensures d in AttachedNos(db.rows, b) || d == row.depositNo
  {
    var rows, all := db.rows, db.rows + [row];
    var after := Restatus(all, OfBasket(b), Matched);
    var i :| 0 <= i < |after| && after[i].depositNo == d && after[i].basketNo == b && after[i].status == Matched;
    if i < |rows| {
      assert RowOk(db, rows[i]);
      AttachedNosAre(rows, b, d);
      assert rows[i].status == Attached ==> Stands(rows, d, b, Attached);
    }
  }

  // Nothing else is named, or it is paid for a basket it is not in.
  lemma CompletedNamesOnly(db: Database, rate: int, r: MatchResult, no: Id, amount: int, m: Id, d: Id)
    requires Inv(db, rate) && r.basketNo in db.baskets && db.baskets[r.basketNo].status == WAITING
    requires d in r.depositNos && d in db.orders
    requires SharesOk(CompletedTables(Detailed(db, r, no, amount), r, m))
    ensures d in AttachedNos(db.rows, r.basketNo) || d == no
  {
    var after := CompletedTables(Detailed(db, r, no, amount), r, m);
    assert d in after.shares && after.shares[d].matchNo == m;
    StoodAttached(db, rate, r.basketNo, Row(r.basketNo, r.withdrawNo, no, amount, Attached), d);
  }

  lemma SettledTruth(db: Database, rate: int, r: MatchResult, no: Id, amount: int, m: Id)
    requires Inv(db, rate) && r.matched && !HasRow(db.rows, no)
    requires r.basketNo in db.baskets && db.baskets[r.basketNo].status == WAITING
    requires forall d :: d in r.depositNos ==> d in db.orders
    requires Inv(CompletedTables(Detailed(db, r, no, amount), r, m), rate)
    ensures Truthful(db, rate, r, no, amount)
  {
    CompletedRow(db, rate, r, no, amount, m);
    CompletedRecord(db, rate, r, no, amount, m);
    forall d ensures d in r.depositNos <==> d in AttachedNos(db.rows, r.basketNo) || d == no {
      if d in AttachedNos(db.rows, r.basketNo) {
        CompletedNamesAll(db, rate, r, no, amount, m, d);
      }
      if d in r.depositNos {
        CompletedNamesOnly(db, rate, r, no, amount, m, d);
      }
    }
  }

  lemma CompletedExact(db: Database, rate: int, r: MatchResult, no: Id, amount: int, m: Id)
    requires Inv(db, rate) && r.matched && PersistMatch(db, no, amount, r, m).Committed?
    ensures Inv(PersistMatch(db, no, amount, r, m).db, rate) <==> Truthful(db, rate, r, no, amount)
  {
    CommittedIs(Detailed(db, r, no, amount), r, m);
    if Truthful(db, rate, r, no, amount) {
      TruthSettles(db, rate, r, no, amount, m);
    }
    if Inv(CompletedTables(Detailed(db, r, no, amount), r, m), rate) {
      SettledTruth(db, rate, r, no, amount, m);
    }
  }

  // ----- attaching

  lemma AttachedTruth(db: Database, rate: int, r: MatchResult, no: Id, amount: int)
    requires Inv(db, rate) && !r.matched && !HasRow(db.rows, no)
    requires var tx := PersistAttached(Detailed(db, r, no, amount), no, r); tx.Committed? && Inv(tx.db, rate)
    ensures Truthful(db, rate, r, no, amount)
  {
    var after := PersistAttached(Detailed(db, r, no, amount), no, r).db;
    assert RowOk(after, after.rows[|db.rows|]);
    OrderWaits(db, rate, no);
    assert BasketOk(after, r.basketNo);
    Appended(db.rows, Row(r.basketNo, r.withdrawNo, no, amount, Attached), r.basketNo, Attached);
  }

  lemma TruthAttaches(db: Database, rate: int, r: MatchResult, no: Id, amount: int)
    requires Inv(db, rate) && !r.matched && Truthful(db, rate, r, no, amount)
    ensures var tx := PersistAttached(Detailed(db, r, no, amount), no, r); tx.Committed? && Inv(tx.db, rate)
  {
    var b := r.basketNo;
    assert BasketOk(db, b);
    assert Detailed(db, r, no, amount) == WithRow(db, b, no, amount);
    AttachedIsLock(db, r, b, no, amount);
    LockKeeps(db, rate, no, b, amount);
    LockStays(db, b, no, amount);
  }

  // A result from any memory, once committed, leaves the tables in order exactly when
  // it tells the truth: the deposits it names are those attached and the new one, the
  // amount is their sum, the copied columns are those of the basket, and the order can
  // be attached.
  lemma ResultExact(db: Database, rate: int, r: MatchResult, no: Id, amount: int, m: Id)
    requires Inv(db, rate) && PersistMatch(db, no, amount, r, m).Committed?
    ensures Inv(PersistMatch(db, no, amount, r, m).db, rate) <==> Truthful(db, rate, r, no, amount)
  {
    if r.matched {
      CompletedExact(db, rate, r, no, amount, m);
    } else {
      if Truthful(db, rate, r, no, amount) {
        TruthAttaches(db, rate, r, no, amount);
      }
      if Inv(PersistMatch(db, no, amount, r, m).db, rate) {
        AttachedTruth(db, rate, r, no, amount);
      }
    }
  }

  // Any result at all commits exactly when its deposit has no row yet and its basket
  // waits, and for a completion, when the match number is new, the basket has no record,
  // and its deposits can be paid once.
  lemma CommitsExactly(db: Database, no: Id, amount: int, r: MatchResult, m: Id)
    ensures PersistMatch(db, no, amount, r, m).Committed? <==>
            && !HasRow(db.rows, no)
            && r.basketNo in db.baskets && db.baskets[r.basketNo].status == WAITING
            && (r.matched ==>
                  && m !in db.records && (forall x :: x in db.records ==> db.records[x].basketNo != r.basketNo)
                  && PayableOnce(db, r.depositNos))
  {
    if !HasRow(db.rows, no) && r.matched {
      CompletionCommits(Detailed(db, r, no, amount), r, m);
    }
  }

  lemma CompletionCommits(db: Database, r: MatchResult, m: Id)
    ensures PersistCompleted(db, r, m).Committed? <==>
            && r.basketNo in db.baskets && db.baskets[r.basketNo].status == WAITING
            && m !in db.records && (forall x :: x in db.records ==> db.records[x].basketNo != r.basketNo)
            && PayableOnce(db, r.depositNos)
  {
    var record := Record(r.basketNo, r.withdrawNo, r.channel, r.currency, r.target, r.matchedAmount, r.short);
    var with := db.(records := db.records[m := record]);
    SharesCommit(with, m, r, r.depositNos);
    if PayableOnce(db, r.depositNos) {
      SharesAtOnce(with, m, r, r.depositNos);
    }
  }
}
