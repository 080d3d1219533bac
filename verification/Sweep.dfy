// The sweep over everything that is due (internal/biz/matching.go:255-276 and
// 323-507): waiting deposits, then locked deposits, then baskets.

module Sweep {
  import opened Model
  import opened Rows
  import opened Tables
  import opened Ledger
  import opened Moves
  import opened Releases
  import opened System
  import opened Runs
  import MinAmount

  // What a query selects, with the column it is ordered by.
  function DueOrders(db: Database, status: int, now: int): map<Id, int>
  {
    map d | d in db.orders && db.orders[d].status == status && db.orders[d].expireAt <= now :: db.orders[d].expireAt
  }

  function DueBaskets(db: Database, now: int): map<Id, int>
  {
    map b | b in db.baskets && db.baskets[b].status == WAITING
          && db.baskets[b].expireAt <= now :: db.baskets[b].expireAt
  }

  // A possible answer: each selected row once, the earliest first, up to the limit
  // (a negative limit is none).
  ghost predicate Listing(due: map<Id, int>, limit: int, nos: seq<Id>)
  {
    && (forall i :: 0 <= i < |nos| ==> nos[i] in due)
    && (forall i, j :: 0 <= i < j < |nos| ==> nos[i] != nos[j] && due[nos[i]] <= due[nos[j]])
    && |nos| == (if 0 <= limit < |due| then limit else |due|)
    && (forall d, i :: d in due && d !in nos && 0 <= i < |nos| ==> due[nos[i]] <= due[d])
  }

  // A limit that cuts nothing off lists everything.
  lemma Covered(due: map<Id, int>, limit: int, nos: seq<Id>)
    requires Listing(due, limit, nos) && (limit < 0 || |due| <= limit)
    ensures forall d :: d in nos <==> d in due
  {
    var listed := set d | d in nos;
    DistinctCount(nos);
    assert listed <= due.Keys;
    SameSize(listed, due.Keys);
  }

  // ----- waiting deposits

  function WaitingPhase(db: Database, nos: seq<Id>): Database
  {
    if nos == [] then db
    else ExpireWaitingOrder(WaitingPhase(db, nos[..|nos| - 1]), nos[|nos| - 1])
  }

  lemma {:induction false} WaitingPhaseIs(db: Database, nos: seq<Id>)
    ensures WaitingPhase(db, nos) == db.(orders := map d | d in db.orders ::
              if d in nos && db.orders[d].status == WAITING then db.orders[d].(status := EXPIRED) else db.orders[d])
  {
    if nos == [] {
      assert db.orders == map d | d in db.orders :: db.orders[d];
    } else {
      var n := |nos| - 1;
      WaitingPhaseIs(db, nos[..n]);
      assert forall d :: d in nos <==> d in nos[..n] || d == nos[n];
    }
  }

  lemma {:induction false} WaitingPhaseGood(s: Sys, rate: int, nos: seq<Id>)
    requires Good(s, rate)
    ensures Good(s.(db := WaitingPhase(s.db, nos)), rate)
  {
    if nos != [] {
      var n := |nos| - 1;
      WaitingPhaseGood(s, rate, nos[..n]);
      WaitingGood(s.(db := WaitingPhase(s.db, nos[..n])), rate, nos[n]);
    }
  }

  // ----- locked deposits

  datatype Progress = Progress(s: Sys, failed: bool)

  // An order whose attached row is missing stops the sweep with an error.
  function LockedPhase(s: Sys, nos: seq<Id>): Progress
  {
    if nos == [] then Progress(s, false)
    else
      var n := |nos| - 1;
      var p := LockedPhase(s, nos[..n]);
      if p.failed || nos[n] !in p.s.db.orders || ExpireLockedOrder(p.s.db, nos[n]).None? then Progress(p.s, true)
      else Progress(ExpireLocked(p.s, nos[n]), false)
  }

  // A release may lower the amount of a waiting basket.
  predicate Reduced(basket: BasketRow, after: BasketRow)
  {
    after == if basket.status == WAITING then basket.(current := after.current) else basket
  }

  // The tables after some locked deposits were released.
  ghost predicate ReleasedOf(db: Database, after: Database, nos: seq<Id>)
  {
    && after.orders.Keys == db.orders.Keys && after.baskets.Keys == db.baskets.Keys && |after.rows| == |db.rows|
    && (forall d :: d in db.orders ==>
          after.orders[d] == if d in nos then db.orders[d].(status := EXPIRED) else db.orders[d])
    && (forall b :: b in db.baskets ==> Reduced(db.baskets[b], after.baskets[b]))
    && (forall i :: 0 <= i < |db.rows| ==>
          after.rows[i] == if db.rows[i].depositNo in nos && db.rows[i].status == Attached
                           then db.rows[i].(status := Released) else db.rows[i])
    && after.records == db.records
  }

  lemma ReleasedOneMore(db: Database, mid: Database, after: Database, nos: seq<Id>, d: Id, b: Id)
    requires ReleasedOf(db, mid, nos) && d in db.orders && b in db.baskets && after.records == mid.records
    requires after.orders == mid.orders[d := mid.orders[d].(status := EXPIRED)]
    requires b in after.baskets && after.rows == Restatus(mid.rows, OfDeposit(d), Released)
    requires mid.baskets[b].status == WAITING
    requires after.baskets == mid.baskets[b := mid.baskets[b].(current := after.baskets[b].current)]
    ensures ReleasedOf(db, after, nos + [d])
  {
    assert forall x :: x in nos + [d] <==> x in nos || x == d;
  }

  lemma ReleaseStep(db: Database, mid: Sys, rate: int, nos: seq<Id>, d: Id, all: seq<Id>)
    requires Good(mid, rate) && ReleasedOf(db, mid.db, nos) && all == nos + [d]
    requires d in db.orders && db.orders[d].status == LOCKED && d !in nos
    ensures d in mid.db.orders && ExpireLockedOrder(mid.db, d).Some?
    ensures Good(ExpireLocked(mid, d), rate) && ReleasedOf(db, ExpireLocked(mid, d).db, all)
  {
    ReleaseFinds(mid.db, rate, d);
    LockedGood(mid, rate, d);
    var (after, detail) := ExpireLockedOrder(mid.db, d).value;
    ReleasedOneMore(db, mid.db, after, nos, d, detail.basketNo);
  }

  ghost predicate LockedOnce(db: Database, nos: seq<Id>)
  {
    && (forall i :: 0 <= i < |nos| ==> nos[i] in db.orders && db.orders[nos[i]].status == LOCKED)
    && (forall i, j :: 0 <= i < j < |nos| ==> nos[i] != nos[j])
  }

  lemma LockedPrefix(db: Database, nos: seq<Id>)
    requires LockedOnce(db, nos) && nos != []
    ensures var n := |nos| - 1;
            LockedOnce(db, nos[..n]) && nos == nos[..n] + [nos[n]] && nos[n] !in nos[..n]
  {}

  lemma NoneReleased(db: Database)
    ensures ReleasedOf(db, db, [])
  {}

  lemma {:induction false} LockedPhaseIs(s: Sys, rate: int, nos: seq<Id>)
    requires Good(s, rate) && LockedOnce(s.db, nos)
    ensures var p := LockedPhase(s, nos); !p.failed && Good(p.s, rate) && ReleasedOf(s.db, p.s.db, nos)
  {
    if nos == [] {
      NoneReleased(s.db);
    } else {
      var n := |nos| - 1;
      LockedPrefix(s.db, nos);
      LockedPhaseIs(s, rate, nos[..n]);
      var mid := LockedPhase(s, nos[..n]).s;
      ReleaseStep(s.db, mid, rate, nos[..n], nos[n], nos);
      assert LockedPhase(s, nos) == Progress(ExpireLocked(mid, nos[n]), false);
    }
  }

  // What stops the loop at a deposit: no such order, or no attached row.
  predicate Stops(db: Database, d: Id)
  {
    d !in db.orders || ExpireLockedOrder(db, d).None?
  }

  // Releasing one deposit does not make another stop or go on.
  lemma OthersStop(db: Database, d: Id, x: Id)
    requires !Stops(db, d) && x != d
    ensures Stops(ExpireLockedOrder(db, d).value.0, x) <==> Stops(db, x)
  {
    var after := ExpireLockedOrder(db, d).value.0;
    assert |after.rows| == |db.rows|;
    assert forall i :: 0 <= i < |db.rows| ==>
      (Selects(OfDeposit(x), after.rows[i]) <==> Selects(OfDeposit(x), db.rows[i]));
  }

  // What is left to do is unaffected by what was done.
  lemma {:induction false} RestStops(s: Sys, nos: seq<Id>, x: Id)
    requires x !in nos && !LockedPhase(s, nos).failed
    ensures Stops(LockedPhase(s, nos).s.db, x) <==> Stops(s.db, x)
  {
    if nos != [] {
      var n := |nos| - 1;
      var mid := LockedPhase(s, nos[..n]).s;
      RestStops(s, nos[..n], x);
      assert nos[n] in nos;
      OthersStop(mid.db, nos[n], x);
    }
  }

  predicate AnyStops(db: Database, nos: seq<Id>)
  {
    exists i :: 0 <= i < |nos| && Stops(db, nos[i])
  }

  lemma AnyStopsStep(db: Database, nos: seq<Id>, d: Id)
    ensures AnyStops(db, nos + [d]) <==> AnyStops(db, nos) || Stops(db, d)
  {
    var all := nos + [d];
    assert all[|nos|] == d;
    if i :| 0 <= i < |nos| && Stops(db, nos[i]) {
      assert Stops(db, all[i]);
    }
  }

  lemma LockedStep(s: Sys, nos: seq<Id>, d: Id)
    ensures LockedPhase(s, nos + [d]).failed <==> LockedPhase(s, nos).failed || Stops(LockedPhase(s, nos).s.db, d)
  {
    assert (nos + [d])[..|nos|] == nos;
  }

  // In any state at all, also one that a message has put out of order: the loop stops
  // with an error exactly when one of the listed deposits has no order or no attached row.
  lemma {:induction false} LockedStops(s: Sys, nos: seq<Id>)
    requires forall i, j :: 0 <= i < j < |nos| ==> nos[i] != nos[j]
    ensures LockedPhase(s, nos).failed <==> AnyStops(s.db, nos)
  {
    if nos != [] {
      var n := |nos| - 1;
      LockedStops(s, nos[..n]);
      assert nos == nos[..n] + [nos[n]] && nos[n] !in nos[..n];
      AnyStopsStep(s.db, nos[..n], nos[n]);
      LockedStep(s, nos[..n], nos[n]);
      if !LockedPhase(s, nos[..n]).failed {
        RestStops(s, nos[..n], nos[n]);
      }
    }
  }

  // The attached amount of a basket that is left when its due deposits are gone.
  function Surviving(rows: seq<Row>, orders: map<Id, Order>, b: Id, now: int): int
  {
    if rows == [] then 0
    else
      var n := |rows| - 1;
      var row := rows[n];
      Surviving(rows[..n], orders, b, now) +
      if row.basketNo == b && row.status == Attached && row.depositNo in orders && orders[row.depositNo].expireAt > now
      then row.amount else 0
  }

  lemma {:induction false} SurvivingIs(rows: seq<Row>, after: seq<Row>, orders: map<Id, Order>, b: Id, now: int)
    requires |after| == |rows|
    requires forall i :: 0 <= i < |rows| && rows[i].status == Attached ==> rows[i].depositNo in orders
    requires forall i :: 0 <= i < |rows| ==>
               after[i] == if rows[i].status == Attached && orders[rows[i].depositNo].expireAt <= now
                           then rows[i].(status := Released) else rows[i]
    ensures Sum(after, b, Attached) == Surviving(rows, orders, b, now)
  {
    if rows != [] {
      var n := |rows| - 1;
      assert forall i :: 0 <= i < n ==> rows[..n][i] == rows[i] && after[..n][i] == after[i];
      SurvivingIs(rows[..n], after[..n], orders, b, now);
    }
  }

  // ----- baskets

  // The rows are those the query returned, from the tables at the start of the phase;
  // `ms` are the generated match numbers.
  function BasketPhase(s: Sys, nos: seq<Id>, listed: map<Id, BasketRow>, rate: int, ms: seq<Id>): Progress
    requires |ms| == |nos| && forall i :: 0 <= i < |nos| ==> nos[i] in listed
  {
    if nos == [] then Progress(s, false)
    else
      var n := |nos| - 1;
      var p := BasketPhase(s, nos[..n], listed, rate, ms[..n]);
      if p.failed || ExpireBasket(p.s.db, nos[n], listed[nos[n]], rate, ms[n]).failed then Progress(p.s, true)
      else Progress(Expire(p.s, nos[n], listed[nos[n]], rate, ms[n]), false)
  }

  // The end of one due basket.
  ghost predicate Ended(db: Database, after: Database, rate: int, b: Id)
    requires b in db.baskets && b in after.baskets
  {
    if Enough(db, b, rate)
    then after.baskets[b] == db.baskets[b].(status := MATCHED, current := Sum(db.rows, b, Attached))
    else after.baskets[b] == db.baskets[b].(status := EXPIRED)
  }

  ghost predicate RowEnded(db: Database, rate: int, row: Row, after: Row)
    requires row.basketNo in db.baskets
  {
    after == if row.status != Attached then row
             else if Enough(db, row.basketNo, rate) then row.(status := Matched) else row.(status := Released)
  }

  predicate OrderEnded(order: Order, after: Order)
  {
    || after == order
    || (&& order.status == LOCKED
        && (|| after == order.(status := EXPIRED)
            || after == order.(status := MATCHED, matchNo := after.matchNo)))
  }

  ghost predicate OrdersEnded(all: map<Id, Order>, after: map<Id, Order>)
  {
    after.Keys == all.Keys && forall d :: d in all ==> OrderEnded(all[d], after[d])
  }

  ghost predicate BasketsEnded(db: Database, after: Database, rate: int, nos: seq<Id>)
  {
    && after.baskets.Keys == db.baskets.Keys
    && forall b :: b in db.baskets ==> if b in nos then Ended(db, after, rate, b) else after.baskets[b] == db.baskets[b]
  }

  ghost predicate RowsEnded(db: Database, after: seq<Row>, rate: int, nos: seq<Id>)
  {
    && |after| == |db.rows|
    && forall i :: 0 <= i < |db.rows| ==>
         && db.rows[i].basketNo in db.baskets
         && if db.rows[i].basketNo in nos then RowEnded(db, rate, db.rows[i], after[i]) else after[i] == db.rows[i]
  }

  // The tables after some baskets were expired.
  ghost predicate ExpiredOf(db: Database, after: Database, rate: int, nos: seq<Id>)
  {
    OrdersEnded(db.orders, after.orders) && BasketsEnded(db, after, rate, nos) && RowsEnded(db, after.rows, rate, nos)
  }

  lemma {:induction false} SameSum(rows: seq<Row>, after: seq<Row>, b: Id)
    requires |after| == |rows|
    requires forall i :: 0 <= i < |rows| ==>
               after[i].basketNo == rows[i].basketNo && (rows[i].basketNo == b ==> after[i] == rows[i])
    ensures Sum(after, b, Attached) == Sum(rows, b, Attached)
  {
    if rows != [] {
      var n := |rows| - 1;
      assert forall i :: 0 <= i < n ==> rows[..n][i] == rows[i] && after[..n][i] == after[i];
      SameSum(rows[..n], after[..n], b);
    }
  }

  // One more basket, while the others are as the phase found them: its orders and
  // its rows are those the update of its closing or its payment selects.
  lemma RowsOneMore(db: Database, rows: seq<Row>, rate: int, nos: seq<Id>, b: Id)
    requires RowsEnded(db, rows, rate, nos) && b in db.baskets && b !in nos
    ensures RowsEnded(db, Restatus(rows, OfBasket(b), if Enough(db, b, rate) then Matched else Released),
                      rate, nos + [b])
  {
    assert forall x :: x in nos + [b] <==> x in nos || x == b;
  }

  lemma SettledBaskets(db: Database, mid: Database, rate: int, nos: seq<Id>, b: Id, m: Id)
    requires BasketsEnded(db, mid, rate, nos) && b in db.baskets && b !in nos && Enough(db, b, rate)
    requires Sum(mid.rows, b, Attached) == Sum(db.rows, b, Attached)
    ensures BasketsEnded(db, Settle(mid, b, m), rate, nos + [b])
  {
    assert forall x :: x in nos + [b] <==> x in nos || x == b;
  }

  lemma PaidForward(all: map<Id, Order>, mid: map<Id, Order>, b: Id, m: Id, nos: seq<Id>)
    requires OrdersEnded(all, mid)
    requires forall d :: d in nos && d in mid ==> mid[d].status == LOCKED && mid[d].basketNo == b
    ensures OrdersEnded(all, PaidOrders(mid, b, m, nos))
  {}

  lemma SettledOneMore(db: Database, mid: Database, rate: int, nos: seq<Id>, b: Id, m: Id)
    requires ExpiredOf(db, mid, rate, nos) && b in db.baskets && b !in nos && Enough(db, b, rate)
    requires Sum(mid.rows, b, Attached) == Sum(db.rows, b, Attached)
    requires forall d :: d in AttachedNos(mid.rows, b) && d in mid.orders ==>
               mid.orders[d].status == LOCKED && mid.orders[d].basketNo == b
    ensures ExpiredOf(db, Settle(mid, b, m), rate, nos + [b])
  {
    RowsOneMore(db, mid.rows, rate, nos, b);
    SettledBaskets(db, mid, rate, nos, b, m);
    PaidForward(db.orders, mid.orders, b, m, AttachedNos(mid.rows, b));
  }

  lemma ClosedOneMore(db: Database, mid: Database, rate: int, nos: seq<Id>, b: Id)
    requires ExpiredOf(db, mid, rate, nos) && b in db.baskets && b !in nos && !Enough(db, b, rate)
    requires mid.baskets[b].status == WAITING
    ensures ExpiredOf(db, CloseBasket(mid, b).0, rate, nos + [b])
  {
    RowsOneMore(db, mid.rows, rate, nos, b);
    assert forall x :: x in nos + [b] <==> x in nos || x == b;
  }

  // What the phase finds in a basket it has not come to yet.
  lemma Untouched(db: Database, mid: Database, rate: int, nos: seq<Id>, b: Id)
    requires Core(mid, rate) && ExpiredOf(db, mid, rate, nos)
    requires b in db.baskets && b !in nos && db.baskets[b].status == WAITING
    ensures b in mid.baskets && mid.baskets[b] == db.baskets[b]
    ensures Sum(mid.rows, b, Attached) == Sum(db.rows, b, Attached)
    ensures CanCompletePartial(db.baskets[b], rate) <==> Enough(db, b, rate)
    ensures Enough(mid, b, rate) <==> Enough(db, b, rate)
    ensures forall d :: d in AttachedNos(mid.rows, b) && d in mid.orders ==>
              mid.orders[d].status == LOCKED && mid.orders[d].basketNo == b
  {
    SameSum(db.rows, mid.rows, b);
    ChecksAgree(mid, rate, b);
    forall d | d in AttachedNos(mid.rows, b) && d in mid.orders
      ensures mid.orders[d].status == LOCKED && mid.orders[d].basketNo == b {
      AttachedNosAre(mid.rows, b, d);
      LockedIsAttached(mid, rate, d, b);
    }
  }

  lemma ExpiryStep(db: Database, mid: Sys, rate: int, nos: seq<Id>, b: Id, m: Id)
    requires Good(mid, rate) && ExpiredOf(db, mid.db, rate, nos) && m !in mid.db.records
    requires b in db.baskets && b !in nos && db.baskets[b].status == WAITING
    ensures var e := ExpireBasket(mid.db, b, db.baskets[b], rate, m);
            && !e.failed && ExpiredOf(db, e.db, rate, nos + [b]) && e.db.records.Keys <= mid.db.records.Keys + {m}
            && Good(Expire(mid, b, db.baskets[b], rate, m), rate)
  {
    Untouched(db, mid.db, rate, nos, b);
    ExpiryGood(mid, rate, b, db.baskets[b], m);
    ExpiryIs(mid.db, rate, b, db.baskets[b], m);
    if Enough(db, b, rate) {
      SettledOneMore(db, mid.db, rate, nos, b, m);
    } else {
      ClosedOneMore(db, mid.db, rate, nos, b);
    }
  }

  // New match numbers, one for each listed basket.
  ghost predicate Fresh(db: Database, ms: seq<Id>)
  {
    && (forall i :: 0 <= i < |ms| ==> ms[i] !in db.records)
    && (forall i, j :: 0 <= i < j < |ms| ==> ms[i] != ms[j])
  }

  ghost predicate WaitingOnce(db: Database, nos: seq<Id>)
  {
    && (forall i :: 0 <= i < |nos| ==> nos[i] in db.baskets && db.baskets[nos[i]].status == WAITING)
    && (forall i, j :: 0 <= i < j < |nos| ==> nos[i] != nos[j])
  }

  lemma Prefixes(db: Database, nos: seq<Id>, ms: seq<Id>)
    requires |ms| == |nos| > 0 && Fresh(db, ms) && WaitingOnce(db, nos)
    ensures var n := |nos| - 1;
            && Fresh(db, ms[..n]) && WaitingOnce(db, nos[..n]) && ms[n] !in ms[..n] && nos[n] !in nos[..n]
            && nos == nos[..n] + [nos[n]] && forall m :: m in ms[..n] ==> m in ms
  {}

  lemma NoneExpired(db: Database, rate: int)
    requires Core(db, rate)
    ensures ExpiredOf(db, db, rate, [])
  {
    assert forall i :: 0 <= i < |db.rows| ==> RowOk(db, db.rows[i]);
  }

  // With new match numbers the phase never fails and ends every listed basket.
  lemma {:induction false} BasketPhaseIs(s: Sys, rate: int, nos: seq<Id>, ms: seq<Id>)
    requires Good(s, rate) && |ms| == |nos| && Fresh(s.db, ms) && WaitingOnce(s.db, nos)
    ensures var p := BasketPhase(s, nos, s.db.baskets, rate, ms);
            && !p.failed && Good(p.s, rate) && ExpiredOf(s.db, p.s.db, rate, nos)
            && forall m :: m in p.s.db.records ==> m in s.db.records || m in ms
  {
    if nos == [] {
      NoneExpired(s.db, rate);
    } else {
      var n := |nos| - 1;
      Prefixes(s.db, nos, ms);
      BasketPhaseIs(s, rate, nos[..n], ms[..n]);
      var mid := BasketPhase(s, nos[..n], s.db.baskets, rate, ms[..n]).s;
      ExpiryStep(s.db, mid, rate, nos[..n], nos[n], ms[n]);
    }
  }

  // ----- the whole sweep

  function AfterWaiting(s: Sys, w: seq<Id>): Sys
  {
    s.(db := WaitingPhase(s.db, w))
  }

  // The three queries see the tables as the phases before them left them.
  ghost predicate Lists(s: Sys, now: int, limit: int, w: seq<Id>, l: seq<Id>, b: seq<Id>)
  {
    && Listing(DueOrders(s.db, WAITING, now), limit, w)
    && Listing(DueOrders(AfterWaiting(s, w).db, LOCKED, now), limit, l)
    && Listing(DueBaskets(LockedPhase(AfterWaiting(s, w), l).s.db, now), limit, b)
  }

  function ExpireTimeouts(s: Sys, rate: int, w: seq<Id>, l: seq<Id>, b: seq<Id>, ms: seq<Id>): Progress
    requires |ms| == |b| && forall i :: 0 <= i < |b| ==> b[i] in LockedPhase(AfterWaiting(s, w), l).s.db.baskets
  {
    var p := LockedPhase(AfterWaiting(s, w), l);
    if p.failed then p else BasketPhase(p.s, b, p.s.db.baskets, rate, ms)
  }

  // Nothing due is cut off by the limit.
  ghost predicate Covers(db: Database, now: int, limit: int)
  {
    limit < 0 || (|DueOrders(db, WAITING, now)| <= limit && |DueOrders(db, LOCKED, now)| <= limit
                  && |DueBaskets(db, now)| <= limit)
  }

  // The basket reaches the minimum without its due deposits.
  predicate Reaches(db: Database, rate: int, b: Id, now: int)
    requires b in db.baskets
  {
    MinAmount.Pays(db.baskets[b].target, rate, Surviving(db.rows, db.orders, b, now))
  }

  // Where a row ends.
  function RowFate(db: Database, rate: int, now: int, row: Row): RowStatus
    requires row.basketNo in db.baskets && row.depositNo in db.orders
  {
    if row.status != Attached then row.status
    else if db.orders[row.depositNo].expireAt <= now then Released
    else if db.baskets[row.basketNo].expireAt > now then Attached
    else if Reaches(db, rate, row.basketNo, now) then Matched
    else Released
  }

  // Where a basket ends.
  function BasketFate(db: Database, rate: int, now: int, b: Id): (status: int)
    requires b in db.baskets
    ensures b in DueBaskets(db, now) ==> status == MATCHED || status == EXPIRED
    ensures b !in DueBaskets(db, now) ==> status == db.baskets[b].status
  {
    if db.baskets[b].status != WAITING || db.baskets[b].expireAt > now then db.baskets[b].status
    else if Reaches(db, rate, b, now) then MATCHED
    else EXPIRED
  }

  // What is left of the tables after the first two phases, with covering limits.
  ghost predicate DepositsDone(db: Database, after: Database, now: int)
  {
    && after.orders.Keys == db.orders.Keys && after.baskets.Keys == db.baskets.Keys && |after.rows| == |db.rows|
    && (forall d :: d in db.orders ==>
          after.orders[d] == if db.orders[d].expireAt <= now
                                && (db.orders[d].status == WAITING || db.orders[d].status == LOCKED)
                             then db.orders[d].(status := EXPIRED) else db.orders[d])
    && (forall b :: b in db.baskets ==> Reduced(db.baskets[b], after.baskets[b]))
    && (forall i :: 0 <= i < |db.rows| && db.rows[i].status == Attached ==> db.rows[i].depositNo in db.orders)
    && (forall i :: 0 <= i < |db.rows| ==>
          after.rows[i] == if db.rows[i].status == Attached && db.orders[db.rows[i].depositNo].expireAt <= now
                           then db.rows[i].(status := Released) else db.rows[i])
    && after.records == db.records
  }

  function WaitingGone(all: map<Id, Order>, now: int): map<Id, Order>
  {
    map d | d in all ::
      if all[d].status == WAITING && all[d].expireAt <= now then all[d].(status := EXPIRED) else all[d]
  }

  lemma DepositsLeft(db: Database, rate: int, after: Database, now: int, l: seq<Id>)
    requires Core(db, rate) && ReleasedOf(db.(orders := WaitingGone(db.orders, now)), after, l)
    requires forall d :: d in l <==> d in DueOrders(db, LOCKED, now)
    ensures DepositsDone(db, after, now)
  {
    assert forall i :: 0 <= i < |db.rows| ==> RowOk(db, db.rows[i]);
  }

  lemma WaitingDone(db: Database, now: int, limit: int, w: seq<Id>)
    requires Listing(DueOrders(db, WAITING, now), limit, w) && (limit < 0 || |DueOrders(db, WAITING, now)| <= limit)
    ensures WaitingPhase(db, w) == db.(orders := WaitingGone(db.orders, now))
    ensures DueOrders(WaitingPhase(db, w), LOCKED, now) == DueOrders(db, LOCKED, now)
  {
    Covered(DueOrders(db, WAITING, now), limit, w);
    WaitingPhaseIs(db, w);
  }

  lemma DepositPhases(s: Sys, rate: int, now: int, limit: int, w: seq<Id>, l: seq<Id>)
    requires Good(s, rate) && Covers(s.db, now, limit) && Listing(DueOrders(s.db, WAITING, now), limit, w)
    requires Listing(DueOrders(AfterWaiting(s, w).db, LOCKED, now), limit, l)
    ensures var p := LockedPhase(AfterWaiting(s, w), l);
            !p.failed && Good(p.s, rate) && DepositsDone(s.db, p.s.db, now)
  {
    var s1 := AfterWaiting(s, w);
    WaitingDone(s.db, now, limit, w);
    WaitingPhaseGood(s, rate, w);
    Covered(DueOrders(s1.db, LOCKED, now), limit, l);
    LockedPhaseIs(s1, rate, l);
    DepositsLeft(s.db, rate, LockedPhase(s1, l).s.db, now, l);
  }

  lemma SameReach(db: Database, mid: Database, rate: int, now: int, b: Id)
    requires DepositsDone(db, mid, now) && b in db.baskets
    ensures Sum(mid.rows, b, Attached) == Surviving(db.rows, db.orders, b, now)
    ensures Enough(mid, b, rate) <==> Reaches(db, rate, b, now)
  {
    SurvivingIs(db.rows, mid.rows, db.orders, b, now);
  }

  // ----- how everything ends

  ghost predicate BasketsFated(db: Database, after: Database, rate: int, now: int)
  {
    && after.baskets.Keys == db.baskets.Keys
    && forall b :: b in db.baskets ==>
         after.baskets[b] == if db.baskets[b].status != WAITING then db.baskets[b]
                             else db.baskets[b].(status := BasketFate(db, rate, now, b),
                                                 current := Surviving(db.rows, db.orders, b, now))
  }

  ghost predicate RowsFated(db: Database, after: Database, rate: int, now: int)
  {
    && |after.rows| == |db.rows|
    && forall i :: 0 <= i < |db.rows| ==>
         && db.rows[i].basketNo in db.baskets && db.rows[i].depositNo in db.orders
         && after.rows[i] == db.rows[i].(status := RowFate(db, rate, now, db.rows[i]))
  }

  // The order status that goes with a row status.
  function OrderStatus(st: RowStatus): int
  {
    match st
    case Attached => LOCKED
    case Matched => MATCHED
    case Released => EXPIRED
  }

  // A locked order stays as it is, expires, or is paid by the record of its basket.
  ghost predicate LockedFated(after: Database, was: Order, d: Id)
    requires d in after.orders
  {
    var order := after.orders[d];
    || order == was
    || order == was.(status := EXPIRED)
    || (&& order == was.(status := MATCHED, matchNo := order.matchNo)
        && order.matchNo in after.records && after.records[order.matchNo].basketNo == was.basketNo)
  }

  ghost predicate OrdersFated(db: Database, after: Database, rate: int, now: int)
  {
    && after.orders.Keys == db.orders.Keys
    && (forall d :: d in db.orders && db.orders[d].status != LOCKED ==>
          after.orders[d] == if db.orders[d].status == WAITING && db.orders[d].expireAt <= now
                             then db.orders[d].(status := EXPIRED) else db.orders[d])
    && (forall d :: d in db.orders && db.orders[d].status == LOCKED ==> LockedFated(after, db.orders[d], d))
    && (forall i :: 0 <= i < |after.rows| ==>
          && after.rows[i].depositNo in after.orders
          && after.orders[after.rows[i].depositNo].status == OrderStatus(after.rows[i].status))
  }

  ghost predicate NothingDue(db: Database, now: int)
  {
    DueOrders(db, WAITING, now) == map[] && DueOrders(db, LOCKED, now) == map[] && DueBaskets(db, now) == map[]
  }

  lemma FatesOfBaskets(db: Database, mid: Database, after: Database, rate: int, now: int, b: seq<Id>)
    requires Core(mid, rate) && DepositsDone(db, mid, now) && BasketsEnded(mid, after, rate, b)
    requires forall x :: x in b <==> x in DueBaskets(db, now)
    ensures BasketsFated(db, after, rate, now)
  {
    forall x | x in db.baskets && db.baskets[x].status == WAITING
      ensures after.baskets[x] == db.baskets[x].(status := BasketFate(db, rate, now, x),
                                                 current := Surviving(db.rows, db.orders, x, now)) {
      SameReach(db, mid, rate, now, x);
      assert BasketOk(mid, x);
    }
  }

  lemma FatesOfRows(db: Database, mid: Database, after: Database, rate: int, now: int, b: seq<Id>)
    requires Core(db, rate) && DepositsDone(db, mid, now) && RowsEnded(mid, after.rows, rate, b)
    requires forall x :: x in b <==> x in DueBaskets(db, now)
    ensures RowsFated(db, after, rate, now)
  {
    forall i | 0 <= i < |db.rows|
      ensures db.rows[i].basketNo in db.baskets && db.rows[i].depositNo in db.orders
              && after.rows[i] == db.rows[i].(status := RowFate(db, rate, now, db.rows[i])) {
      assert RowOk(db, db.rows[i]);
      SameReach(db, mid, rate, now, db.rows[i].basketNo);
    }
  }

  // A locked order that is matched is paid by the record of its basket.
  lemma LockedFate(db: Database, mid: Database, after: Database, rate: int, now: int, d: Id)
    requires DepositsDone(db, mid, now) && OrdersEnded(mid.orders, after.orders) && Core(after, rate)
    requires d in db.orders && db.orders[d].status == LOCKED
    ensures d in after.orders && LockedFated(after, db.orders[d], d)
  {
    var order := after.orders[d];
    assert OrderEnded(mid.orders[d], order);
    if order.status == MATCHED {
      assert OrderOk(after, d);
      var i :| 0 <= i < |after.rows| && after.rows[i].depositNo == d && after.rows[i].basketNo == order.basketNo
               && after.rows[i].status == Matched;
      assert RowOk(after, after.rows[i]);
    }
  }

  lemma FatesOfOrders(db: Database, mid: Database, after: Database, rate: int, now: int)
    requires DepositsDone(db, mid, now) && OrdersEnded(mid.orders, after.orders) && Core(after, rate)
    ensures OrdersFated(db, after, rate, now)
    ensures DueOrders(after, WAITING, now) == map[] && DueOrders(after, LOCKED, now) == map[]
  {
    forall d | d in db.orders && db.orders[d].status == LOCKED ensures LockedFated(after, db.orders[d], d) {
      LockedFate(db, mid, after, rate, now, d);
    }
    NoneDueAfter(db, mid, after, now);
    assert forall i :: 0 <= i < |after.rows| ==> RowOk(after, after.rows[i]);
  }

  lemma NoneDueAfter(db: Database, mid: Database, after: Database, now: int)
    requires DepositsDone(db, mid, now) && OrdersEnded(mid.orders, after.orders)
    ensures DueOrders(after, WAITING, now) == map[] && DueOrders(after, LOCKED, now) == map[]
    ensures after.orders.Keys == db.orders.Keys
    ensures forall d :: d in db.orders && db.orders[d].status != LOCKED ==>
              after.orders[d] == if db.orders[d].status == WAITING && db.orders[d].expireAt <= now
                                 then db.orders[d].(status := EXPIRED) else db.orders[d]
  {
    forall d | d in after.orders ensures OrderEnded(mid.orders[d], after.orders[d]) {}
  }

  lemma BasketsListed(db: Database, mid: Database, now: int, limit: int, b: seq<Id>)
    requires DepositsDone(db, mid, now) && (limit < 0 || |DueBaskets(db, now)| <= limit)
    requires Listing(DueBaskets(mid, now), limit, b)
    ensures WaitingOnce(mid, b) && forall x :: x in b <==> x in DueBaskets(db, now)
  {
    assert DueBaskets(mid, now).Keys == DueBaskets(db, now).Keys;
    assert DueBaskets(mid, now) == DueBaskets(db, now);
    Covered(DueBaskets(mid, now), limit, b);
  }

  ghost predicate Fated(db: Database, after: Database, rate: int, now: int)
  {
    BasketsFated(db, after, rate, now) && RowsFated(db, after, rate, now) && OrdersFated(db, after, rate, now)
  }

  lemma NoBasketDue(db: Database, after: Database, rate: int, now: int)
    requires BasketsFated(db, after, rate, now)
    ensures DueBaskets(after, now) == map[]
  {}

  lemma Fates(db: Database, mid: Database, after: Database, rate: int, now: int, b: seq<Id>)
    requires Core(db, rate) && Core(mid, rate) && Core(after, rate)
    requires DepositsDone(db, mid, now) && ExpiredOf(mid, after, rate, b)
    requires forall x :: x in b <==> x in DueBaskets(db, now)
    ensures Fated(db, after, rate, now) && NothingDue(after, now)
  {
    FatesOfBaskets(db, mid, after, rate, now, b);
    FatesOfRows(db, mid, after, rate, now, b);
    FatesOfOrders(db, mid, after, rate, now);
    NoBasketDue(db, after, rate, now);
  }

  // The due baskets that are paid are those whose surviving amount reaches the minimum,
  // wherever its 64-bit numerator does not wrap.
  ghost predicate PaidByMinimum(db: Database, after: Database, rate: int, now: int)
  {
    forall b :: b in DueBaskets(db, now) && MinAmount.NoOverflow(db.baskets[b].target, rate) ==>
      && b in after.baskets
      && (after.baskets[b].status == MATCHED <==>
          Surviving(db.rows, db.orders, b, now) >= MinAmount.MinComplete(db.baskets[b].target, rate))
  }

  lemma MinimumDecides(db: Database, after: Database, rate: int, now: int)
    requires Core(db, rate) && BasketsFated(db, after, rate, now)
    ensures PaidByMinimum(db, after, rate, now)
  {
    forall b | b in DueBaskets(db, now) && MinAmount.NoOverflow(db.baskets[b].target, rate)
      ensures after.baskets[b].status == MATCHED <==>
              Surviving(db.rows, db.orders, b, now) >= MinAmount.MinComplete(db.baskets[b].target, rate) {
      assert BasketOk(db, b);
      MinAmount.PaysIsMinimum(db.baskets[b].target, rate, Surviving(db.rows, db.orders, b, now));
    }
  }

  // An error-free sweep with a covering limit never fails for lack of a row, leaves
  // nothing due, and ends every basket, row and order where its own data sends it:
  // a due basket is paid exactly when what is left in it passes the test.
  lemma SweepEndsAll(s: Sys, rate: int, now: int, limit: int, w: seq<Id>, l: seq<Id>, b: seq<Id>, ms: seq<Id>)
    requires Good(s, rate) && Covers(s.db, now, limit) && Lists(s, now, limit, w, l, b)
    requires |ms| == |b| && Fresh(s.db, ms)
    ensures forall i :: 0 <= i < |b| ==> b[i] in LockedPhase(AfterWaiting(s, w), l).s.db.baskets
    ensures var p := ExpireTimeouts(s, rate, w, l, b, ms);
            && !p.failed && Good(p.s, rate) && NothingDue(p.s.db, now) && Fated(s.db, p.s.db, rate, now)
            && PaidByMinimum(s.db, p.s.db, rate, now)
  {
    DepositPhases(s, rate, now, limit, w, l);
    var mid := LockedPhase(AfterWaiting(s, w), l).s;
    BasketsListed(s.db, mid.db, now, limit, b);
    BasketPhaseIs(mid, rate, b, ms);
    Fates(s.db, mid.db, ExpireTimeouts(s, rate, w, l, b, ms).s.db, rate, now, b);
    MinimumDecides(s.db, ExpireTimeouts(s, rate, w, l, b, ms).s.db, rate, now);
  }

  // The clock is read before the wait for the lock, so what passed validation at one
  // time may be stored at a later one: it is not due there exactly when that is before
  // the expiry its column holds.
  lemma DueWhenStored(s: Sys, no: Id, row: BasketRow, order: Order, checked: int, stored: int, m: Id)
    requires ValidBasket(row, checked) && StatusOr(row.status) == WAITING && no !in s.db.baskets
    requires InsertBasket(s.db, no, row.(status := WAITING)).Committed?
    requires ValidDeposit(order, checked) && StatusOr(order.status) == WAITING && no !in s.db.orders
    ensures no !in DueBaskets(Create(s, no, row, checked).db, stored) <==> stored < Column(row.expireAt)
    ensures no !in DueOrders(Submit(s, no, order, checked, None, m, true).db, WAITING, stored)
            <==> stored < Column(order.expireAt)
    ensures row.expireAt % MILLISECOND == 0 ==>
              (no !in DueBaskets(Create(s, no, row, checked).db, stored) <==> stored < row.expireAt)
  {}
}
