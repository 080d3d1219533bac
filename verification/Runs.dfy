// Whole runs: what every step keeps, and what a crash loses.

module Runs {
  import opened Model
  import opened Rows
  import opened Tables
  import opened Backstop
  import opened Ledger
  import opened Releases
  import opened Recovery
  import opened System

  // ----- the three expiries keep tables and memory in step

  lemma WaitingKeeps(db: Database, rate: int, no: Id)
    requires Inv(db, rate)
    ensures Inv(ExpireWaitingOrder(db, no), rate)
  {
    var after := ExpireWaitingOrder(db, no);
    if after != db {
      WaitingOrder(db, rate, no);
      forall i | 0 <= i < |after.rows| ensures RowOk(after, after.rows[i]) {
        assert RowOk(db, db.rows[i]) && db.rows[i].depositNo != no;
      }
      forall d | d in after.orders ensures OrderOk(after, d) {
        assert OrderOk(db, d);
      }
      forall b | b in after.baskets ensures BasketOk(after, b) {
        assert BasketOk(db, b);
      }
      RecordedFrame(db, after);
      forall m | m in after.records ensures RecordOk(after, rate, m) {
        assert RecordOk(db, rate, m);
      }
    }
  }

  lemma WaitingGood(s: Sys, rate: int, no: Id)
    requires Good(s, rate)
    ensures Good(s.(db := ExpireWaitingOrder(s.db, no)), rate)
  {
    WaitingKeeps(s.db, rate, no);
    forall k ensures PoolOf(s.mem, k) == Recovered(ExpireWaitingOrder(s.db, no), k) {
      RecoverOrders(s.db, ExpireWaitingOrder(s.db, no), k);
    }
  }

  lemma LockedGood(s: Sys, rate: int, no: Id)
    requires Good(s, rate) && no in s.db.orders
    ensures Good(ExpireLocked(s, no), rate)
  {
    if ExpireLockedOrder(s.db, no).Some? {
      ReleaseFinds(s.db, rate, no);
      ReleaseKeeps(s.db, rate, no);
      var after := ExpireLocked(s, no);
      forall k ensures PoolOf(after.mem, k) == Recovered(after.db, k) {
        RecoverReleased(s.db, rate, no, k);
      }
    }
  }

  lemma LeftSyncs(db: Database, mem: Memory, after: Database, b: Id, st: RowStatus, key: Key)
    requires Sync(db, mem) && b in db.baskets && db.baskets[b].status == WAITING && key == KeyOf(db, b)
    requires b in after.baskets && after.baskets[b].status != WAITING
    requires after.baskets == db.baskets[b := after.baskets[b]] && after.rows == Restatus(db.rows, OfBasket(b), st)
    ensures Sync(after, mem[key := PoolOf(mem, key) - {b}])
  {
    forall k ensures PoolOf(mem[key := PoolOf(mem, key) - {b}], k) == Recovered(after, k) {
      RecoverLeft(db, after, b, st, k);
      assert PoolOf(mem, k) == Recovered(db, k);
      if k != key {
        assert b !in Recovered(db, k);
        assert Recovered(db, k) - {b} == Recovered(db, k);
      }
    }
  }

  lemma ExpiryGood(s: Sys, rate: int, no: Id, read: BasketRow, m: Id)
    requires Good(s, rate) && no in s.db.baskets && ReadOf(read, s.db.baskets[no])
    ensures Good(Expire(s, no, read, rate, m), rate)
  {
    ExpiryKeeps(s.db, rate, no, read, m);
    ExpiryIs(s.db, rate, no, read, m);
    var e, key := ExpireBasket(s.db, no, read, rate, m), Key(read.channel, read.currency);
    if e.removed {
      LeftSyncs(s.db, s.mem, e.db, no,
                if CanCompletePartial(read, rate) && Enough(s.db, no, rate) then Matched else Released, key);
    }
  }

  // ----- one step

  // What the source does not check and its callers must provide.
  predicate Allowed(s: Sys, e: Event)
    requires Possible(s, e)
  {
    match e
    case Created(no, row, now) => CreateAllowed(s, no, row, now)
    case Submitted(no, order, now, choice, m, stored) => SubmitAllowed(s, no, order, now, choice, m, stored)
    case Crashed(last) => Allowed(s, last)
    case _ => true
  }

  lemma {:induction false} StepGood(s: Sys, rate: int, e: Event)
    requires Good(s, rate) && Possible(s, e) && Enabled(s, e) && Allowed(s, e)
    ensures Good(Next(s, rate, e), rate)
  {
    match e
    case Created(no, row, now) => CreateExact(s, rate, no, row, now);
    case Submitted(no, order, now, choice, m, stored) => SubmitExact(s, rate, no, order, now, choice, m, stored);
    case WaitingDue(no) => WaitingGood(s, rate, no);
    case LockedDue(no) => LockedGood(s, rate, no);
    case BasketDue(no, read, m) => ExpiryGood(s, rate, no, read, m);
    case Crashed(last) =>
      StepGood(s, rate, last);
      RecoverSyncs(Next(s, rate, last).db);
  }

  // A crash between commit and memory update loses nothing: the restart builds the
  // memory the update would have left.
  lemma CrashLosesNothing(s: Sys, rate: int, e: Event, key: Key)
    requires Good(s, rate) && Possible(s, e) && Enabled(s, e) && Allowed(s, e)
    ensures var done, crashed := Next(s, rate, e), Next(s, rate, Crashed(e));
            crashed.db == done.db && PoolOf(crashed.mem, key) == PoolOf(done.mem, key)
  {
    var done := Next(s, rate, e);
    StepGood(s, rate, e);
    RecoverSyncs(done.db);
    assert Next(s, rate, Crashed(e)) == Sys(done.db, Recover(done.db));
  }

  // ----- runs

  ghost predicate IsRun(s: Sys, rate: int, es: seq<Event>)
    decreases |es|
  {
    es == [] || (Possible(s, es[0]) && Enabled(s, es[0]) && IsRun(Next(s, rate, es[0]), rate, es[1..]))
  }

  ghost predicate AllAllowed(s: Sys, rate: int, es: seq<Event>)
    requires IsRun(s, rate, es)
    decreases |es|
  {
    es == [] || (Allowed(s, es[0]) && AllAllowed(Next(s, rate, es[0]), rate, es[1..]))
  }

  ghost function After(s: Sys, rate: int, es: seq<Event>): Sys
    requires IsRun(s, rate, es)
    decreases |es|
  {
    if es == [] then s else After(Next(s, rate, es[0]), rate, es[1..])
  }

  const START := Sys(Database(map[], map[], [], map[], map[]), map[])

  lemma StartGood(rate: int)
    ensures Good(START, rate)
  {
    assert forall key :: Recovered(START.db, key) == map[];
  }

  // Every reachable state has its tables in order and its memory in step with them.
  lemma {:induction false} RunGood(s: Sys, rate: int, es: seq<Event>)
    requires Good(s, rate) && IsRun(s, rate, es) && AllAllowed(s, rate, es)
    ensures Good(After(s, rate, es), rate)
    decreases |es|
  {
    if es != [] {
      StepGood(s, rate, es[0]);
      RunGood(Next(s, rate, es[0]), rate, es[1..]);
    }
  }

  lemma ReachableGood(rate: int, es: seq<Event>)
    requires IsRun(START, rate, es) && AllAllowed(START, rate, es)
    ensures Good(After(START, rate, es), rate)
  {
    StartGood(rate);
    RunGood(START, rate, es);
  }

  // Amounts are conserved in every reachable state: a waiting basket holds what its
  // attached rows add up to and less than its target, in the tables and in memory,
  // and no locked deposit is larger than what its basket holds.
  lemma ReachableAmounts(rate: int, es: seq<Event>, b: Id)
    requires IsRun(START, rate, es) && AllAllowed(START, rate, es)
    requires b in After(START, rate, es).db.baskets && After(START, rate, es).db.baskets[b].status == WAITING
    ensures var s := After(START, rate, es); var basket, pool := s.db.baskets[b], PoolOf(s.mem, KeyOf(s.db, b));
            && 0 <= basket.current < basket.target && basket.current == Sum(s.db.rows, b, Attached)
            && b in pool && pool[b].current == basket.current && pool[b].deposits == AttachedNos(s.db.rows, b)
            && pool[b].Need() == basket.target - Sum(s.db.rows, b, Attached)
            && forall d :: d in s.db.orders && s.db.orders[d].status == LOCKED && s.db.orders[d].basketNo == b ==>
                 d in pool[b].deposits && s.db.orders[d].amount <= pool[b].current
  {
    ReachableGood(rate, es);
    var s := After(START, rate, es);
    assert BasketOk(s.db, b);
    assert PoolOf(s.mem, KeyOf(s.db, b)) == Recovered(s.db, KeyOf(s.db, b));
    WaitingRows(s.db, rate, b);
    forall d | d in s.db.orders && s.db.orders[d].status == LOCKED && s.db.orders[d].basketNo == b
      ensures d in AttachedNos(s.db.rows, b) && s.db.orders[d].amount <= s.db.baskets[b].current {
      LockedIsAttached(s.db, rate, d, b);
      AttachedNosAre(s.db.rows, b, d);
      ReleaseFinds(s.db, rate, d);
    }
  }
}
