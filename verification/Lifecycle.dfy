// Statuses only move forward, in every run, whatever messages bring.

module Lifecycle {
  import opened Model
  import P = Pool
  import opened Rows
  import opened Tables
  import opened Backstop
  import opened System
  import opened Runs

  predicate OrderForward(a: Order, b: Order)
  {
    a == b
    || (&& b == a.(status := b.status, basketNo := b.basketNo, matchNo := b.matchNo)
        && (a.status == WAITING || a.status == LOCKED)
        && (b.status == MATCHED || b.status == EXPIRED || (a.status == WAITING && b.status == LOCKED)))
  }

  predicate BasketForward(a: BasketRow, b: BasketRow)
  {
    a == b
    || (&& b == a.(status := b.status, current := b.current) && a.status == WAITING
        && (b.status == WAITING || b.status == MATCHED || b.status == EXPIRED))
  }

  predicate RowForward(a: Row, b: Row)
  {
    a == b || (a.status == Attached && b == a.(status := b.status))
  }

  // Nothing disappears, and what has reached an end state stays as it is.
  ghost predicate Forward(db: Database, after: Database)
  {
    && (forall d :: d in db.orders ==> d in after.orders && OrderForward(db.orders[d], after.orders[d]))
    && (forall b :: b in db.baskets ==> b in after.baskets && BasketForward(db.baskets[b], after.baskets[b]))
    && |db.rows| <= |after.rows|
    && (forall i :: 0 <= i < |db.rows| ==> RowForward(db.rows[i], after.rows[i]))
    && (forall m :: m in db.records ==> m in after.records && after.records[m] == db.records[m])
    && (forall d :: d in db.shares ==> d in after.shares && after.shares[d] == db.shares[d])
  }

  lemma ForwardTrans(a: Database, b: Database, c: Database)
    requires Forward(a, b) && Forward(b, c)
    ensures Forward(a, c)
  {
    forall d | d in a.orders ensures OrderForward(a.orders[d], c.orders[d]) {
      assert OrderForward(a.orders[d], b.orders[d]) && OrderForward(b.orders[d], c.orders[d]);
    }
    forall d | d in a.baskets ensures BasketForward(a.baskets[d], c.baskets[d]) {
      assert BasketForward(a.baskets[d], b.baskets[d]) && BasketForward(b.baskets[d], c.baskets[d]);
    }
    forall i | 0 <= i < |a.rows| ensures RowForward(a.rows[i], c.rows[i]) {
      assert RowForward(a.rows[i], b.rows[i]) && RowForward(b.rows[i], c.rows[i]);
    }
  }

  lemma {:induction false} SharesForward(db: Database, m: Id, r: MatchResult, nos: seq<Id>)
    ensures match PersistShares(db, m, r, nos)
            case RolledBack => true
            case Committed(after) => Forward(db, after)
  {
    if nos != [] {
      var n := |nos| - 1;
      SharesForward(db, m, r, nos[..n]);
      match PersistShares(db, m, r, nos[..n])
      case RolledBack =>
      case Committed(before) =>
        match PersistShare(before, m, r, nos[n])
        case RolledBack =>
        case Committed(after) =>
          assert Forward(before, after);
          ForwardTrans(db, before, after);
    }
  }

  lemma CompletedForward(db: Database, r: MatchResult, m: Id)
    ensures match PersistCompleted(db, r, m)
            case RolledBack => true
            case Committed(after) => Forward(db, after)
  {
    var record := Record(r.basketNo, r.withdrawNo, r.channel, r.currency, r.target, r.matchedAmount, r.short);
    var with := db.(records := db.records[m := record]);
    SharesForward(with, m, r, r.depositNos);
    if PersistCompleted(db, r, m).Committed? {
      var paid := PersistShares(with, m, r, r.depositNos).db;
      SharesFrame(with, m, r, r.depositNos);
      assert Forward(db, with);
      ForwardTrans(db, with, paid);
      assert Forward(paid, PersistCompleted(db, r, m).db);
      ForwardTrans(db, paid, PersistCompleted(db, r, m).db);
    }
  }

  lemma PersistForward(db: Database, no: Id, amount: int, r: MatchResult, m: Id)
    ensures match PersistMatch(db, no, amount, r, m)
            case RolledBack => true
            case Committed(after) => Forward(db, after)
  {
    match CreateBasketDeposit(db, no, amount, r)
    case RolledBack =>
    case Committed(with) =>
      assert Forward(db, with);
      CompletedForward(with, r, m);
      if PersistMatch(db, no, amount, r, m).Committed? {
        ForwardTrans(db, with, PersistMatch(db, no, amount, r, m).db);
      }
  }

  // The tables after a submission: untouched, with the order stored, or with the result.
  lemma SubmitTables(s: Sys, no: Id, order: Order, now: int, choice: Option<Id>, m: Id, stored: bool)
    requires choice.Some? ==> choice.value in ShardOf(s, order)
    ensures var db := SaveDeposit(s.db, no, order.(status := StatusOr(order.status)));
            var after := Submit(s, no, order, now, choice, m, stored).db;
            || after == s.db || after == db
            || (choice.Some?
                && PersistMatch(db, no, order.amount, ResultFor(s, no, order, choice.value), m) == Committed(after))
  {}

  lemma StoredForward(was: Database, no: Id, order: Order, amount: int, r: MatchResult, m: Id, after: Database)
    requires var db := SaveDeposit(was, no, order);
             after == was || after == db || PersistMatch(db, no, amount, r, m) == Committed(after)
    ensures Forward(was, after)
  {
    var db := SaveDeposit(was, no, order);
    assert Forward(was, db);
    if after != was && after != db {
      PersistForward(db, no, amount, r, m);
      ForwardTrans(was, db, after);
    }
  }

  lemma SubmitForward(s: Sys, no: Id, order: Order, now: int, choice: Option<Id>, m: Id, stored: bool)
    requires choice.Some? ==> choice.value in ShardOf(s, order)
    ensures Forward(s.db, Submit(s, no, order, now, choice, m, stored).db)
  {
    SubmitTables(s, no, order, now, choice, m, stored);
    var r := if choice.Some? then ResultFor(s, no, order, choice.value) else P.Unplaced(true, NoBasket);
    StoredForward(s.db, no, order.(status := StatusOr(order.status)), order.amount, r, m,
                  Submit(s, no, order, now, choice, m, stored).db);
  }

  lemma ExpiryForward(db: Database, no: Id, read: BasketRow, rate: int, m: Id)
    ensures Forward(db, ExpireBasket(db, no, read, rate, m).db)
  {
    CompletedForward(db, BuildPartial(no, read, db.rows), m);
    assert Forward(db, CloseBasket(db, no).0);
  }

  lemma CreateForward(s: Sys, no: Id, row: BasketRow, now: int)
    ensures Forward(s.db, Create(s, no, row, now).db)
  {}

  lemma ReleaseForward(s: Sys, no: Id)
    requires no in s.db.orders
    ensures Forward(s.db, ExpireLocked(s, no).db)
  {}

  lemma {:induction false} StepForward(s: Sys, rate: int, e: Event)
    requires Possible(s, e)
    ensures Forward(s.db, Next(s, rate, e).db)
  {
    match e
    case Created(no, row, now) => CreateForward(s, no, row, now);
    case Submitted(no, order, now, choice, m, stored) => SubmitForward(s, no, order, now, choice, m, stored);
    case WaitingDue(no) => assert Forward(s.db, ExpireWaitingOrder(s.db, no));
    case LockedDue(no) => ReleaseForward(s, no);
    case BasketDue(no, read, m) => ExpiryForward(s.db, no, read, rate, m);
    case Crashed(last) => StepForward(s, rate, last);
  }

  // Orders go Waiting, Locked, Matched or Expired; baskets Waiting, Matched or
  // Expired; rows Attached, Matched or Released; every end state is final.
  lemma {:induction false} RunForward(s: Sys, rate: int, es: seq<Event>)
    requires IsRun(s, rate, es)
    ensures Forward(s.db, After(s, rate, es).db)
    decreases |es|
  {
    if es != [] {
      StepForward(s, rate, es[0]);
      RunForward(Next(s, rate, es[0]), rate, es[1..]);
      ForwardTrans(s.db, Next(s, rate, es[0]).db, After(s, rate, es).db);
    }
  }
}
