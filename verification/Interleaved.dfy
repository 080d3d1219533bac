// A sweep whose items are interleaved with anything else: it takes the shard lock for
// one item at a time (internal/biz/matching.go:255-276), and for a waiting deposit not
// at all.

module Interleaved {
  import opened Model
  import opened Tables
  import opened Backstop
  import opened Releases
  import opened System
  import opened Runs
  import opened Lifecycle
  import opened Sweep

  // ----- what a step can make due

  // The step stores nothing that is due already.
  predicate StoresLater(s: Sys, e: Event, now: int)
  {
    match e
    case Created(no, row, _) => no !in s.db.baskets ==> Column(row.expireAt) > now
    case Submitted(no, order, _, _, _, _) => no !in s.db.orders ==> Column(order.expireAt) > now
    case Crashed(last) => StoresLater(s, last, now)
    case _ => true
  }

  lemma {:induction false} SharesKeepOrders(db: Database, m: Id, r: MatchResult, nos: seq<Id>)
    ensures var tx := PersistShares(db, m, r, nos); tx.Committed? ==> tx.db.orders.Keys == db.orders.Keys
  {
    if nos != [] {
      SharesKeepOrders(db, m, r, nos[..|nos| - 1]);
    }
  }

  lemma CompletedKeys(db: Database, r: MatchResult, m: Id)
    ensures var tx := PersistCompleted(db, r, m);
            tx.Committed? ==> tx.db.orders.Keys == db.orders.Keys && tx.db.baskets.Keys == db.baskets.Keys
  {
    var record := Record(r.basketNo, r.withdrawNo, r.channel, r.currency, r.target, r.matchedAmount, r.short);
    SharesKeepOrders(db.(records := db.records[m := record]), m, r, r.depositNos);
    SharesFrame(db.(records := db.records[m := record]), m, r, r.depositNos);
  }

  lemma PersistKeys(db: Database, no: Id, amount: int, r: MatchResult, m: Id)
    ensures var tx := PersistMatch(db, no, amount, r, m);
            tx.Committed? ==> tx.db.orders.Keys == db.orders.Keys && tx.db.baskets.Keys == db.baskets.Keys
  {
    if CreateBasketDeposit(db, no, amount, r).Committed? {
      CompletedKeys(CreateBasketDeposit(db, no, amount, r).db, r, m);
    }
  }

  // Only a submission brings an order, with the expiry its column holds.
  lemma SubmitBrings(s: Sys, no: Id, order: Order, t: int, choice: Option<Id>, m: Id, stored: bool, d: Id)
    requires choice.Some? ==> choice.value in ShardOf(s, order)
    requires var after := Submit(s, no, order, t, choice, m, stored).db; d in after.orders && d !in s.db.orders
    ensures d == no && Submit(s, no, order, t, choice, m, stored).db.orders[d].expireAt == Column(order.expireAt)
  {
    var db := SaveDeposit(s.db, no, order.(status := StatusOr(order.status)));
    var after := Submit(s, no, order, t, choice, m, stored).db;
    SubmitTables(s, no, order, t, choice, m, stored);
    if choice.Some? {
      PersistKeys(db, no, order.amount, ResultFor(s, no, order, choice.value), m);
      PersistForward(db, no, order.amount, ResultFor(s, no, order, choice.value), m);
    }
    assert d in db.orders && OrderForward(db.orders[d], after.orders[d]);
  }

  lemma SubmitKeepsBaskets(s: Sys, no: Id, order: Order, t: int, choice: Option<Id>, m: Id, stored: bool)
    requires choice.Some? ==> choice.value in ShardOf(s, order)
    ensures Submit(s, no, order, t, choice, m, stored).db.baskets.Keys == s.db.baskets.Keys
  {
    var db := SaveDeposit(s.db, no, order.(status := StatusOr(order.status)));
    SubmitTables(s, no, order, t, choice, m, stored);
    if choice.Some? {
      PersistKeys(db, no, order.amount, ResultFor(s, no, order, choice.value), m);
    }
  }

  // A new order is not due.
  lemma {:induction false} NewOrderLater(s: Sys, rate: int, e: Event, now: int, d: Id)
    requires Possible(s, e) && StoresLater(s, e, now)
    requires d in Next(s, rate, e).db.orders && d !in s.db.orders
    ensures Next(s, rate, e).db.orders[d].expireAt > now
  {
    match e
    case Created(no, row, t) =>
    case Submitted(no, order, t, choice, m, stored) => SubmitBrings(s, no, order, t, choice, m, stored, d);
    case WaitingDue(no) =>
    case LockedDue(no) =>
    case BasketDue(no, read, m) => CompletedKeys(s.db, BuildPartial(no, read, s.db.rows), m);
    case Crashed(last) => NewOrderLater(s, rate, last, now, d);
  }

  // A new basket is not due.
  lemma {:induction false} NewBasketLater(s: Sys, rate: int, e: Event, now: int, b: Id)
    requires Possible(s, e) && StoresLater(s, e, now)
    requires b in Next(s, rate, e).db.baskets && b !in s.db.baskets
    ensures Next(s, rate, e).db.baskets[b].expireAt > now
  {
    match e
    case Created(no, row, t) =>
    case Submitted(no, order, t, choice, m, stored) => SubmitKeepsBaskets(s, no, order, t, choice, m, stored);
    case WaitingDue(no) =>
    case LockedDue(no) =>
    case BasketDue(no, read, m) => CompletedKeys(s.db, BuildPartial(no, read, s.db.rows), m);
    case Crashed(last) => NewBasketLater(s, rate, last, now, b);
  }

  // A step makes no order due that waits, and one that is due and locked afterwards was
  // due before.
  lemma StepDueOrder(s: Sys, rate: int, e: Event, now: int, d: Id)
    requires Possible(s, e) && StoresLater(s, e, now)
    ensures var after := Next(s, rate, e).db;
            && (d in DueOrders(after, WAITING, now) ==> d in DueOrders(s.db, WAITING, now))
            && (d in DueOrders(after, LOCKED, now) ==>
                  d in DueOrders(s.db, LOCKED, now) || d in DueOrders(s.db, WAITING, now))
  {
    var after := Next(s, rate, e).db;
    StepForward(s, rate, e);
    if d in after.orders && d !in s.db.orders {
      NewOrderLater(s, rate, e, now, d);
    }
    assert d in s.db.orders ==> OrderForward(s.db.orders[d], after.orders[d]);
  }

  // A step makes no basket due.
  lemma StepDueBasket(s: Sys, rate: int, e: Event, now: int, b: Id)
    requires Possible(s, e) && StoresLater(s, e, now)
    ensures b in DueBaskets(Next(s, rate, e).db, now) ==> b in DueBaskets(s.db, now)
  {
    var after := Next(s, rate, e).db;
    StepForward(s, rate, e);
    if b in after.baskets && b !in s.db.baskets {
      NewBasketLater(s, rate, e, now, b);
    }
    assert b in s.db.baskets ==> BasketForward(s.db.baskets[b], after.baskets[b]);
  }

  // What is empty stays empty.
  lemma StepEmpty(s: Sys, rate: int, e: Event, now: int)
    requires Possible(s, e) && StoresLater(s, e, now) && DueOrders(s.db, WAITING, now) == map[]
    ensures DueOrders(Next(s, rate, e).db, WAITING, now) == map[]
    ensures DueOrders(s.db, LOCKED, now) == map[] ==> DueOrders(Next(s, rate, e).db, LOCKED, now) == map[]
  {
    forall d ensures d !in DueOrders(Next(s, rate, e).db, WAITING, now)
             ensures DueOrders(s.db, LOCKED, now) == map[] ==> d !in DueOrders(Next(s, rate, e).db, LOCKED, now) {
      StepDueOrder(s, rate, e, now, d);
    }
  }

  // ----- runs

  ghost predicate StoresAllLater(s: Sys, rate: int, es: seq<Event>, now: int)
    requires IsRun(s, rate, es)
    decreases |es|
  {
    es == [] || (StoresLater(s, es[0], now) && StoresAllLater(Next(s, rate, es[0]), rate, es[1..], now))
  }

  // An allowed run that stores nothing due.
  ghost predicate Quiet(s: Sys, rate: int, es: seq<Event>, now: int)
  {
    IsRun(s, rate, es) && AllAllowed(s, rate, es) && StoresAllLater(s, rate, es, now)
  }

  // A due order stops waiting once its item came, whatever else happens.
  lemma {:induction false} WaitingEnds(s: Sys, rate: int, es: seq<Event>, now: int, d: Id)
    requires Quiet(s, rate, es, now) && (d in DueOrders(s.db, WAITING, now) ==> WaitingDue(d) in es)
    ensures d !in DueOrders(After(s, rate, es).db, WAITING, now)
    decreases |es|
  {
    if es != [] {
      StepDueOrder(s, rate, es[0], now, d);
      assert es == [es[0]] + es[1..];
      WaitingEnds(Next(s, rate, es[0]), rate, es[1..], now, d);
    }
  }

  // The item of a locked deposit leaves it not locked, also when it is an error.
  lemma LockedItem(s: Sys, rate: int, d: Id)
    requires Good(s, rate) && d in s.db.orders
    ensures Stops(s.db, d) <==> s.db.orders[d].status != LOCKED
    ensures var after := ExpireLocked(s, d).db; d in after.orders && after.orders[d].status != LOCKED
  {
    ReleaseFinds(s.db, rate, d);
  }

  lemma LockedStep(s: Sys, rate: int, e: Event, now: int, d: Id)
    requires Good(s, rate) && Possible(s, e) && StoresLater(s, e, now) && DueOrders(s.db, WAITING, now) == map[]
    ensures d in DueOrders(Next(s, rate, e).db, LOCKED, now) ==> d in DueOrders(s.db, LOCKED, now) && e != LockedDue(d)
  {
    StepDueOrder(s, rate, e, now, d);
    if e == LockedDue(d) {
      LockedItem(s, rate, d);
    }
  }

  lemma {:induction false} LockedEnds(s: Sys, rate: int, es: seq<Event>, now: int, d: Id)
    requires Good(s, rate) && Quiet(s, rate, es, now) && DueOrders(s.db, WAITING, now) == map[]
    requires d in DueOrders(s.db, LOCKED, now) ==> LockedDue(d) in es
    ensures d !in DueOrders(After(s, rate, es).db, LOCKED, now)
    ensures DueOrders(After(s, rate, es).db, WAITING, now) == map[]
    decreases |es|
  {
    if es != [] {
      LockedStep(s, rate, es[0], now, d);
      StepEmpty(s, rate, es[0], now);
      StepGood(s, rate, es[0]);
      assert es == [es[0]] + es[1..];
      LockedEnds(Next(s, rate, es[0]), rate, es[1..], now, d);
    }
  }

  // The run expires the basket without an error.
  ghost predicate Expires(s: Sys, rate: int, es: seq<Event>, b: Id)
    requires IsRun(s, rate, es)
    decreases |es|
  {
    es != [] &&
    (|| (es[0].BasketDue? && es[0].no == b && !ExpireBasket(s.db, b, es[0].read, rate, es[0].matchNo).failed)
     || Expires(Next(s, rate, es[0]), rate, es[1..], b))
  }

  lemma BasketItem(s: Sys, rate: int, b: Id, read: BasketRow, m: Id)
    requires Good(s, rate) && b in s.db.baskets && ReadOf(read, s.db.baskets[b])
    requires !ExpireBasket(s.db, b, read, rate, m).failed
    ensures var after := Expire(s, b, read, rate, m).db; b in after.baskets && after.baskets[b].status != WAITING
  {
    ExpiryIs(s.db, rate, b, read, m);
  }

  lemma {:induction false} BasketEnds(s: Sys, rate: int, es: seq<Event>, now: int, b: Id)
    requires Good(s, rate) && Quiet(s, rate, es, now)
    requires b in DueBaskets(s.db, now) ==> Expires(s, rate, es, b)
    ensures b !in DueBaskets(After(s, rate, es).db, now)
    decreases |es|
  {
    if es != [] {
      StepDueBasket(s, rate, es[0], now, b);
      StepGood(s, rate, es[0]);
      if es[0].BasketDue? && es[0].no == b && !ExpireBasket(s.db, b, es[0].read, rate, es[0].matchNo).failed {
        BasketItem(s, rate, b, es[0].read, es[0].matchNo);
      }
      BasketEnds(Next(s, rate, es[0]), rate, es[1..], now, b);
    }
  }

  lemma {:induction false} StaysEnded(s: Sys, rate: int, es: seq<Event>, now: int)
    requires Quiet(s, rate, es, now)
    requires DueOrders(s.db, WAITING, now) == map[] && DueOrders(s.db, LOCKED, now) == map[]
    ensures var after := After(s, rate, es).db;
            DueOrders(after, WAITING, now) == map[] && DueOrders(after, LOCKED, now) == map[]
    decreases |es|
  {
    if es != [] {
      StepEmpty(s, rate, es[0], now);
      StaysEnded(Next(s, rate, es[0]), rate, es[1..], now);
    }
  }

  lemma NoneWaiting(s: Sys, rate: int, es: seq<Event>, now: int)
    requires Quiet(s, rate, es, now) && forall d :: d in DueOrders(s.db, WAITING, now) ==> WaitingDue(d) in es
    ensures DueOrders(After(s, rate, es).db, WAITING, now) == map[]
  {
    forall d ensures d !in DueOrders(After(s, rate, es).db, WAITING, now) {
      WaitingEnds(s, rate, es, now, d);
    }
  }

  lemma NoneLocked(s: Sys, rate: int, es: seq<Event>, now: int)
    requires Good(s, rate) && Quiet(s, rate, es, now) && DueOrders(s.db, WAITING, now) == map[]
    requires forall d :: d in DueOrders(s.db, LOCKED, now) ==> LockedDue(d) in es
    ensures DueOrders(After(s, rate, es).db, WAITING, now) == map[]
    ensures DueOrders(After(s, rate, es).db, LOCKED, now) == map[]
  {
    forall d ensures d !in DueOrders(After(s, rate, es).db, LOCKED, now) {
      LockedEnds(s, rate, es, now, d);
    }
    LockedEnds(s, rate, es, now, EMPTY);
  }

  lemma NoBasket(s: Sys, rate: int, es: seq<Event>, now: int)
    requires Good(s, rate) && Quiet(s, rate, es, now)
    requires DueOrders(s.db, WAITING, now) == map[] && DueOrders(s.db, LOCKED, now) == map[]
    requires forall b :: b in DueBaskets(s.db, now) ==> Expires(s, rate, es, b)
    ensures NothingDue(After(s, rate, es).db, now)
  {
    forall b ensures b !in DueBaskets(After(s, rate, es).db, now) {
      BasketEnds(s, rate, es, now, b);
    }
    StaysEnded(s, rate, es, now);
  }

  // Three runs in which other events come between the items of the sweep, in any order.
  // Each contains the items for what is due when it starts: afterwards nothing is due,
  // and tables and memory are in step.
  lemma NothingLeft(s: Sys, rate: int, now: int, w: seq<Event>, l: seq<Event>, b: seq<Event>)
    requires Good(s, rate) && Quiet(s, rate, w, now)
    requires forall d :: d in DueOrders(s.db, WAITING, now) ==> WaitingDue(d) in w
    requires var s1 := After(s, rate, w);
             Quiet(s1, rate, l, now) && forall d :: d in DueOrders(s1.db, LOCKED, now) ==> LockedDue(d) in l
    requires var s2 := After(After(s, rate, w), rate, l);
             Quiet(s2, rate, b, now) && forall no :: no in DueBaskets(s2.db, now) ==> Expires(s2, rate, b, no)
    ensures var s3 := After(After(After(s, rate, w), rate, l), rate, b); Good(s3, rate) && NothingDue(s3.db, now)
  {
    var s1 := After(s, rate, w);
    RunGood(s, rate, w);
    NoneWaiting(s, rate, w, now);
    var s2 := After(s1, rate, l);
    RunGood(s1, rate, l);
    NoneLocked(s1, rate, l, now);
    RunGood(s2, rate, b);
    NoBasket(s2, rate, b, now);
  }
}
