// What each operation leaves behind and answers, in numbers, codes and columns alone:
// the statements name no function that the operations themselves are built from.

module Outcomes {
  import opened Model
  import P = Pool
  import opened Rows
  import opened Tables
  import opened Ledger
  import opened Moves
  import opened Releases
  import opened Recovery
  import opened Submits
  import opened System
  import Sweep
  import MinAmount

  // ----- times

  // A column holds the nearest millisecond, the later one when two are as near.
  predicate Rounded(time: int, column: int)
  {
    column % 1000000 == 0 && -500000 < column - time <= 500000
  }

  lemma ColumnIs(time: int)
    ensures Rounded(time, Column(time))
    ensures forall t :: Rounded(time, t) ==> t == Column(time)
  {
    assert Column(time) == (time + 500000) / 1000000 * 1000000;
    forall t | Rounded(time, t) ensures t == Column(time) {
      assert t == t / 1000000 * 1000000;
    }
  }

  // ----- creating a basket

  predicate BasketFit(row: BasketRow, now: int)
  {
    && row.withdrawNo != Id("") && row.channel != Id("") && row.currency != Id("")
    && row.target > 0 && row.expireAt != 0 && row.expireAt > now
  }

  predicate BasketUnused(db: Database, no: Id, withdrawNo: Id)
  {
    no !in db.baskets && forall b :: b in db.baskets ==> db.baskets[b].withdrawNo != withdrawNo
  }

  // A status of 0 is stored as 1, any other as it is.
  predicate StatusStored(status: int, stored: int)
  {
    (status == 0 ==> stored == 1) && (status != 0 ==> stored == status)
  }

  ghost predicate BasketStored(s: Sys, after: Sys, no: Id, row: BasketRow)
  {
    && no in after.db.baskets
    && var b := after.db.baskets[no];
       var key := Key(row.channel, row.currency);
       && b == row.(status := b.status, expireAt := b.expireAt)
       && StatusStored(row.status, b.status) && Rounded(row.expireAt, b.expireAt)
       && after.db == s.db.(baskets := s.db.baskets[no := b])
       && after.mem == s.mem[key := PoolOf(s.mem, key)[no := P.BasketView(
            row.withdrawNo, row.channel, row.currency, row.target, row.current, [], b.status, row.expireAt)]]
  }

  // A basket is stored and enters its shard exactly when it is fit and its numbers are
  // unused; otherwise nothing happens.
  lemma CreateLeaves(s: Sys, no: Id, row: BasketRow, now: int)
    ensures var after := Create(s, no, row, now);
            if BasketFit(row, now) && BasketUnused(s.db, no, row.withdrawNo) then BasketStored(s, after, no, row)
            else after == s
  {
    ColumnIs(row.expireAt);
  }

  // It keeps tables and memory right exactly when its status is 0 or 1, it is empty, and
  // it expires at a whole millisecond; it then waits, in its row and in its shard.
  lemma CreateWaits(s: Sys, rate: int, no: Id, row: BasketRow, now: int)
    requires Good(s, rate) && BasketFit(row, now) && BasketUnused(s.db, no, row.withdrawNo)
    ensures var after := Create(s, no, row, now);
            && (Good(after, rate) <==>
                  (row.status == 0 || row.status == 1) && row.current == 0 && row.expireAt % 1000000 == 0)
            && (Good(after, rate) ==>
                  && no in after.db.baskets && after.db.baskets[no] == row.(status := 1)
                  && var pool := PoolOf(after.mem, Key(row.channel, row.currency));
                     no in pool && pool[no].status == 1 && pool[no].expireAt == row.expireAt)
  {
    CreateExact(s, rate, no, row, now);
    CreateLeaves(s, no, row, now);
    ColumnIs(row.expireAt);
  }

  // ----- submitting a deposit

  predicate DepositFit(order: Order, now: int)
  {
    && order.channel != Id("") && order.currency != Id("")
    && order.amount > 0 && order.expireAt != 0 && order.expireAt > now
  }

  // A missing number is generated, and a missing expiry is half an hour away.
  predicate Defaulted(number: Id, generated: Id, deposit: Order, now: int, no: Id, order: Order)
  {
    && (number == Id("") ==> no == generated) && (number != Id("") ==> no == number)
    && order == deposit.(expireAt := order.expireAt)
    && (deposit.expireAt == 0 ==> order.expireAt == now + 1800000000000)
    && (deposit.expireAt != 0 ==> order.expireAt == deposit.expireAt)
  }

  lemma DefaultsAre(number: Id, generated: Id, deposit: Order, now: int)
    ensures Defaulted(number, generated, deposit, now, NumberOr(number, generated), Normalized(deposit, now))
  {}

  // A new order, as its row holds it.
  ghost predicate OrderStored(orders: map<Id, Order>, after: map<Id, Order>, no: Id, order: Order)
  {
    && no in after && after == orders[no := after[no]]
    && after[no] == order.(status := after[no].status, expireAt := after[no].expireAt)
    && StatusStored(order.status, after[no].status) && Rounded(order.expireAt, after[no].expireAt)
  }

  // A deposit that gets no basket: a known order stays as it is, a new one is stored.
  lemma SubmitStores(s: Sys, no: Id, order: Order, now: int, m: Id, stored: bool)
    ensures var after := Submit(s, no, order, now, None, m, stored);
            var key := Key(order.channel, order.currency);
            if !DepositFit(order, now) then after == s
            else
              && after.mem == s.mem[key := PoolOf(s.mem, key)] && after.db == s.db.(orders := after.db.orders)
              && (no in s.db.orders ==> after.db.orders == s.db.orders)
              && (no !in s.db.orders ==> OrderStored(s.db.orders, after.db.orders, no, order))
  {
    ColumnIs(order.expireAt);
  }

  // The tables after a new deposit joined a basket.
  ghost predicate Joined(db: Database, after: Database, no: Id, order: Order, b: Id)
    requires b in db.baskets
  {
    && no in after.orders && Rounded(order.expireAt, after.orders[no].expireAt)
    && after.orders ==
       db.orders[no := order.(status := 2, basketNo := b, expireAt := after.orders[no].expireAt)]
    && after.rows == db.rows + [Row(b, db.baskets[b].withdrawNo, no, order.amount, Attached)]
    && after.baskets == db.baskets[b := db.baskets[b].(current := db.baskets[b].current + order.amount)]
    && after.records == db.records && after.shares == db.shares
  }

  // The tables after a basket was paid what it holds: its record, the share and the
  // status of each of its locked deposits, its rows.
  ghost predicate PaidOut(db: Database, after: Database, b: Id, m: Id)
    requires b in db.baskets
  {
    var basket := db.baskets[b];
    && after.baskets == db.baskets[b := basket.(status := 3)]
    && after.records == db.records[m := Record(b, basket.withdrawNo, basket.channel, basket.currency,
                                              basket.target, basket.current, basket.target - basket.current)]
    && |after.rows| == |db.rows|
    && (forall i :: 0 <= i < |db.rows| ==>
          after.rows[i] == if db.rows[i].basketNo == b && db.rows[i].status == Attached
                           then db.rows[i].(status := Matched) else db.rows[i])
    && after.orders.Keys == db.orders.Keys
    && (forall d :: d in db.orders ==>
          after.orders[d] == if db.orders[d].status == 2 && db.orders[d].basketNo == b
                             then db.orders[d].(status := 3, matchNo := m) else db.orders[d])
    && (forall d :: d in after.shares <==>
          d in db.shares || (d in db.orders && db.orders[d].status == 2 && db.orders[d].basketNo == b))
    && (forall d :: d in after.shares ==>
          after.shares[d] == if d in db.shares then db.shares[d] else Share(m, basket.withdrawNo, db.orders[d].amount))
  }

  lemma PaidDeposits(db: Database, rate: int, b: Id, d: Id)
    requires Core(db, rate) && b in db.baskets && db.baskets[b].status == WAITING
    ensures d in AttachedNos(db.rows, b)
            <==> d in db.orders && db.orders[d].status == LOCKED && db.orders[d].basketNo == b
    ensures d in AttachedNos(db.rows, b) ==> d !in db.shares
  {
    LockedIsAttached(db, rate, d, b);
    AttachedNosAre(db.rows, b, d);
    WaitingPayable(db, rate, b);
  }

  lemma SettlePays(db: Database, rate: int, b: Id, m: Id)
    requires Core(db, rate) && b in db.baskets && db.baskets[b].status == WAITING
    ensures PaidOut(db, Settle(db, b, m), b, m)
  {
    assert BasketOk(db, b);
    SettledOrders(db, rate, b, m);
    SettledShares(db, rate, b, m);
  }

  lemma SettledOrders(db: Database, rate: int, b: Id, m: Id)
    requires Core(db, rate) && b in db.baskets && db.baskets[b].status == WAITING
    ensures var after := Settle(db, b, m).orders;
            && after.Keys == db.orders.Keys
            && forall d :: d in db.orders ==>
                 after[d] == if db.orders[d].status == LOCKED && db.orders[d].basketNo == b
                             then db.orders[d].(status := MATCHED, matchNo := m) else db.orders[d]
  {
    forall d | d in db.orders
      ensures Settle(db, b, m).orders[d] == if db.orders[d].status == LOCKED && db.orders[d].basketNo == b
                                            then db.orders[d].(status := MATCHED, matchNo := m) else db.orders[d] {
      PaidDeposits(db, rate, b, d);
    }
  }

  lemma SettledShares(db: Database, rate: int, b: Id, m: Id)
    requires Core(db, rate) && b in db.baskets && db.baskets[b].status == WAITING
    ensures var after := Settle(db, b, m).shares;
            && (forall d :: d in after <==>
                  d in db.shares || (d in db.orders && db.orders[d].status == LOCKED && db.orders[d].basketNo == b))
            && (forall d :: d in after ==>
                  after[d] == if d in db.shares then db.shares[d]
                              else Share(m, db.baskets[b].withdrawNo, db.orders[d].amount))
  {
    forall d {
      PaidDeposits(db, rate, b, d);
    }
  }

  lemma LockJoins(db: Database, no: Id, order: Order, b: Id)
    requires b in db.baskets && no !in db.orders
    ensures Joined(db, Lock(SaveDeposit(db, no, order.(status := WAITING)), no, b, order.amount), no, order, b)
  {
    ColumnIs(order.expireAt);
  }

  // The tables after a new deposit found its basket are those of one attachment, and of
  // the payment when it fills the basket.
  lemma JoinMoves(s: Sys, rate: int, no: Id, order: Order, b: Id, m: Id, db: Database)
    requires Good(s, rate) && order.amount > 0 && no !in s.db.orders && m !in s.db.records
    requires b in ShardOf(s, order) && P.Chooses(ShardOf(s, order), order.amount, b)
    requires db == SaveDeposit(s.db, no, order.(status := WAITING))
    ensures b in s.db.baskets && s.db.baskets[b].current + order.amount <= s.db.baskets[b].target
    ensures Attachable(db, no, b, order.amount) && Inv(db, rate)
    ensures PersistMatch(db, no, order.amount, ResultFor(s, no, order, b), m)
            == Committed(if s.db.baskets[b].current + order.amount == s.db.baskets[b].target
                         then Settle(Lock(db, no, b, order.amount), b, m) else Lock(db, no, b, order.amount))
  {
    SaveKeeps(s.db, rate, no, order.(status := WAITING));
    ChosenPlaces(s, rate, no, order, b);
    WaitingOrder(db, rate, no);
    PersistIs(db, rate, ResultFor(s, no, order, b), b, no, order.amount, m);
    CommittedMoves(db, rate, ResultFor(s, no, order, b), b, no, order.amount, m);
  }

  // A new deposit for which the engine found a basket joins it, and fills it or leaves it
  // waiting, unless its transaction fails.
  lemma SubmitJoins(s: Sys, rate: int, no: Id, order: Order, now: int, b: Id, m: Id) returns (with: Database)
    requires Good(s, rate) && DepositFit(order, now) && (order.status == 0 || order.status == 1) && no !in s.db.orders
    requires b in ShardOf(s, order) && P.ChoiceFor(ShardOf(s, order), order.amount, Some(b)) && m !in s.db.records
    ensures b in s.db.baskets && s.db.baskets[b].current + order.amount <= s.db.baskets[b].target
    ensures Joined(s.db, with, no, order, b)
    ensures var after := Submit(s, no, order, now, Some(b), m, true);
            && Good(after, rate) && !Matching(s, no, order, Some(b), m, true).failed
            && (s.db.baskets[b].current + order.amount < s.db.baskets[b].target ==> after.db == with)
            && (s.db.baskets[b].current + order.amount == s.db.baskets[b].target ==> PaidOut(with, after.db, b, m))
  {
    var db := SaveDeposit(s.db, no, order.(status := WAITING));
    SubmitExact(s, rate, no, order, now, Some(b), m, true);
    SubmitIs(s, no, order, now, b, m, true, db);
    JoinMoves(s, rate, no, order, b, m, db);
    with := Lock(db, no, b, order.amount);
    LockJoins(s.db, no, order, b);
    LockPays(db, rate, no, b, order.amount, m);
  }

  lemma LockPays(db: Database, rate: int, no: Id, b: Id, amount: int, m: Id)
    requires Inv(db, rate) && Attachable(db, no, b, amount) && db.baskets[b].current + amount <= db.baskets[b].target
    ensures PaidOut(Lock(db, no, b, amount), Settle(Lock(db, no, b, amount), b, m), b, m)
  {
    LockKeeps(db, rate, no, b, amount);
    SettlePays(Lock(db, no, b, amount), rate, b, m);
  }

  // ----- the answer to a deposit

  // An error comes with an empty result. Without one the answer is the engine's, on the
  // baskets its shard held. An unfit deposit is always an error, and a fit one only when
  // it could be attached and is not stored, in particular when the transaction fails.
  ghost predicate Told(s: Sys, no: Id, order: Order, now: int, stored: bool, result: MatchResult, failed: bool)
  {
    if !DepositFit(order, now) then failed && P.TurnedDown(result, NoFailure)
    else
      var pool := PoolOf(s.mem, Key(order.channel, order.currency));
      var roomy := exists x :: x in pool && P.HasRoom(pool[x], order.amount);
      && (failed ==> P.TurnedDown(result, NoFailure) && (order.status == 0 || order.status == 1) && roomy)
      && (!failed && order.status != 0 && order.status != 1 ==> P.TurnedDown(result, NotWaiting))
      && (!failed && (order.status == 0 || order.status == 1) ==>
            P.Answers(pool, Deposit(no, order.channel, order.currency, order.amount, 1, order.expireAt), result))
      && (!stored && (order.status == 0 || order.status == 1) && roomy ==> failed)
  }

  lemma AnswerTold(s: Sys, no: Id, order: Order, now: int, choice: Option<Id>, m: Id, stored: bool)
    requires choice.Some? ==> choice.value in ShardOf(s, order)
    requires StatusOr(order.status) == WAITING ==> P.ChoiceFor(ShardOf(s, order), order.amount, choice)
    requires DepositFit(order, now)
    ensures var out := Matching(s, no, order, choice, m, stored);
            && Told(s, no, order, now, stored, Answer(out), out.failed)
            && out.pending == if !out.result.pending then map[] else map[no :=
                 Deposit(no, order.channel, order.currency, order.amount, 1, order.expireAt)]
  {
    var pool, d := ShardOf(s, order), EngineDeposit(no, order);
    var db := SaveDeposit(s.db, no, order.(status := StatusOr(order.status)));
    P.OutcomeReplies(pool, map[], order.channel, order.currency, Some(d),
                     Some(Storing(db, no, order.amount, m, stored)), choice);
  }

  // ----- what expires

  // An order that waits expires alone.
  lemma WaitingLeaves(db: Database, no: Id)
    ensures var after := ExpireWaitingOrder(db, no);
            && after == db.(orders := after.orders) && after.orders.Keys == db.orders.Keys
            && forall d :: d in db.orders ==>
                 after.orders[d] == if d == no && db.orders[d].status == 1 then db.orders[d].(status := 5)
                                    else db.orders[d]
  {
    assert ExpireWaitingOrder(db, no).orders.Keys == db.orders.Keys;
  }

  // The attached row of a deposit before which there is no other.
  ghost predicate FirstRow(rows: seq<Row>, no: Id, row: Row)
  {
    exists i :: 0 <= i < |rows| && rows[i] == row && row.depositNo == no && row.status == Attached
                && forall j :: 0 <= j < i ==> rows[j].depositNo != no || rows[j].status != Attached
  }

  lemma {:induction false} FirstIs(rows: seq<Row>, no: Id)
    ensures FirstAttached(rows, no).Some? ==> FirstRow(rows, no, FirstAttached(rows, no).value)
  {
    if rows != [] {
      var n := |rows| - 1;
      FirstIs(rows[..n], no);
      match FirstAttached(rows[..n], no)
      case Some(row) =>
        var i :| 0 <= i < n && rows[..n][i] == row && row.depositNo == no && row.status == Attached
                 && forall j :: 0 <= j < i ==> rows[..n][j].depositNo != no || rows[..n][j].status != Attached;
        assert rows[i] == row && forall j :: 0 <= j < i ==> rows[j] == rows[..n][j];
      case None =>
        assert forall j :: 0 <= j < n ==> rows[j] == rows[..n][j];
    }
  }

  // Releasing a deposit, in any tables: it fails exactly without an attached row; else
  // the first one tells the basket, whose amount never goes below zero.
  lemma ReleaseLeaves(db: Database, no: Id)
    ensures ExpireLockedOrder(db, no).None?
            <==> forall i :: 0 <= i < |db.rows| ==> db.rows[i].depositNo != no || db.rows[i].status != Attached
    ensures ExpireLockedOrder(db, no).Some? ==>
              var (after, detail) := ExpireLockedOrder(db, no).value;
              && FirstRow(db.rows, no, detail)
              && after.records == db.records && after.shares == db.shares && |after.rows| == |db.rows|
              && (forall i :: 0 <= i < |db.rows| ==>
                    after.rows[i] == if db.rows[i].depositNo == no && db.rows[i].status == Attached
                                     then db.rows[i].(status := Released) else db.rows[i])
              && after.orders.Keys == db.orders.Keys && after.baskets.Keys == db.baskets.Keys
              && (forall d :: d in db.orders ==>
                    after.orders[d] == if d == no && db.orders[d].status == 2 then db.orders[d].(status := 5)
                                       else db.orders[d])
              && (forall b :: b in db.baskets ==>
                    Lowered(db.baskets[b], after.baskets[b], b == detail.basketNo, detail.amount))
  {
    FirstIs(db.rows, no);
  }

  // The amount of a waiting basket the row names goes down, but not below zero.
  predicate Lowered(was: BasketRow, now: BasketRow, named: bool, amount: int)
  {
    && now == was.(current := now.current)
    && (named && was.status == 1 && was.current >= amount ==> now.current == was.current - amount)
    && (named && was.status == 1 && was.current < amount ==> now.current == 0)
    && (!named || was.status != 1 ==> now.current == was.current)
  }

  // The tables after a basket was closed: its attached rows are released, its locked
  // orders expire.
  ghost predicate Closed(db: Database, after: Database, b: Id)
    requires b in db.baskets
  {
    && after.baskets == db.baskets[b := db.baskets[b].(status := 5)]
    && after.records == db.records && after.shares == db.shares && |after.rows| == |db.rows|
    && (forall i :: 0 <= i < |db.rows| ==>
          after.rows[i] == if db.rows[i].basketNo == b && db.rows[i].status == Attached
                           then db.rows[i].(status := Released) else db.rows[i])
    && after.orders.Keys == db.orders.Keys
    && (forall d :: d in db.orders ==>
          after.orders[d] == if db.orders[d].status == 2 && db.orders[d].basketNo == b
                             then db.orders[d].(status := 5) else db.orders[d])
  }

  lemma CloseLeaves(db: Database, b: Id)
    ensures var (after, changed) := CloseBasket(db, b);
            && (changed <==> b in db.baskets && db.baskets[b].status == 1)
            && (changed ==> Closed(db, after, b)) && (!changed ==> after == db)
  {}

  // A waiting basket that expires is paid what it holds if that is the share of its
  // target that is configured, and closed otherwise.
  lemma ExpiryLeaves(db: Database, rate: int, share: int, no: Id, m: Id)
    requires Inv(db, rate) && no in db.baskets && db.baskets[no].status == 1 && m !in db.records
    requires MinAmount.Asks(rate, share) && db.baskets[no].target * share + 9999 <= 0x7FFF_FFFF_FFFF_FFFF
    ensures var e := ExpireBasket(db, no, db.baskets[no], rate, m);
            && !e.failed && e.removed
            && if db.baskets[no].current * 10000 >= db.baskets[no].target * share then PaidOut(db, e.db, no, m)
               else Closed(db, e.db, no)
  {
    assert BasketOk(db, no);
    MinAmount.PaysIsShare(db.baskets[no].target, rate, share, db.baskets[no].current);
    ChecksAgree(db, rate, no);
    ExpiryIs(db, rate, no, db.baskets[no], m);
    SettlePays(db, rate, no, m);
    CloseLeaves(db, no);
  }

  ghost predicate ExpiredRight(db: Database, after: Database, rate: int, no: Id, m: Id)
    requires no in db.baskets
  {
    forall share | MinAmount.Asks(rate, share) :: db.baskets[no].target * share + 9999 <= 0x7FFF_FFFF_FFFF_FFFF ==>
      if db.baskets[no].current * 10000 >= db.baskets[no].target * share then PaidOut(db, after, no, m)
      else Closed(db, after, no)
  }

  lemma ExpiryRight(db: Database, rate: int, no: Id, m: Id)
    requires Inv(db, rate) && no in db.baskets && db.baskets[no].status == 1 && m !in db.records
    ensures var e := ExpireBasket(db, no, db.baskets[no], rate, m); !e.failed && ExpiredRight(db, e.db, rate, no, m)
  {
    ExpiryIs(db, rate, no, db.baskets[no], m);
    ChecksAgree(db, rate, no);
    forall share | MinAmount.Asks(rate, share) && db.baskets[no].target * share + 9999 <= 0x7FFF_FFFF_FFFF_FFFF
      ensures var after := ExpireBasket(db, no, db.baskets[no], rate, m).db;
              if db.baskets[no].current * 10000 >= db.baskets[no].target * share then PaidOut(db, after, no, m)
              else Closed(db, after, no) {
      ExpiryLeaves(db, rate, share, no, m);
    }
  }

  // A basket that does not wait is left alone, whatever row was read.
  lemma ExpirySkips(db: Database, rate: int, no: Id, read: BasketRow, m: Id)
    requires Inv(db, rate) && no in db.baskets && ReadOf(read, db.baskets[no]) && db.baskets[no].status != 1
    ensures ExpireBasket(db, no, read, rate, m) == BasketExpiry(db, false, false)
  {
    ExpiryIs(db, rate, no, read, m);
  }

  // ----- the sweep

  // The end of one basket that waited.
  ghost predicate BasketLeft(db: Database, b: Id, after: BasketRow, share: int, now: int)
    requires b in db.baskets
  {
    var was, left := db.baskets[b], Sweep.Surviving(db.rows, db.orders, b, now);
    && after == was.(status := after.status, current := left)
    && (was.expireAt > now ==> after.status == 1)
    && (was.expireAt <= now && was.target * share + 9999 <= 0x7FFF_FFFF_FFFF_FFFF ==>
          after.status == if left * 10000 >= was.target * share then 3 else 5)
  }

  // A sweep that nothing interrupts and no limit cuts off leaves no order and no basket
  // behind that is due, and touches no waiting one that is not. A due basket is paid if
  // its deposits that are not due make up the share of its target that is configured.
  lemma SweepLeaves(s: Sys, rate: int, share: int, now: int, limit: int,
                    w: seq<Id>, l: seq<Id>, b: seq<Id>, ms: seq<Id>)
    requires Good(s, rate) && Sweep.Covers(s.db, now, limit) && Sweep.Lists(s, now, limit, w, l, b)
    requires |ms| == |b| && Sweep.Fresh(s.db, ms) && MinAmount.Asks(rate, share)
    ensures forall i :: 0 <= i < |b| ==> b[i] in Sweep.LockedPhase(Sweep.AfterWaiting(s, w), l).s.db.baskets
    ensures var p := Sweep.ExpireTimeouts(s, rate, w, l, b, ms);
            var after := p.s.db;
            && !p.failed && after.orders.Keys == s.db.orders.Keys && after.baskets.Keys == s.db.baskets.Keys
            && (forall d :: d in after.orders && (after.orders[d].status == 1 || after.orders[d].status == 2) ==>
                  after.orders[d].expireAt > now)
            && (forall x :: x in after.baskets && after.baskets[x].status == 1 ==> after.baskets[x].expireAt > now)
            && (forall d :: d in s.db.orders && s.db.orders[d].status == 1 ==>
                  after.orders[d] == if s.db.orders[d].expireAt <= now then s.db.orders[d].(status := 5)
                                     else s.db.orders[d])
            && (forall x :: x in s.db.baskets && s.db.baskets[x].status == 1 ==>
                  BasketLeft(s.db, x, after.baskets[x], share, now))
  {
    Sweep.SweepEndsAll(s, rate, now, limit, w, l, b, ms);
    var after := Sweep.ExpireTimeouts(s, rate, w, l, b, ms).s.db;
    NoneLeft(after, now);
    forall x | x in s.db.baskets && s.db.baskets[x].status == 1
      ensures BasketLeft(s.db, x, after.baskets[x], share, now) {
      FateLeft(s.db, after, rate, share, now, x);
    }
  }

  lemma NoneLeft(db: Database, now: int)
    requires Sweep.NothingDue(db, now)
    ensures forall d :: d in db.orders && (db.orders[d].status == 1 || db.orders[d].status == 2) ==>
              db.orders[d].expireAt > now
    ensures forall x :: x in db.baskets && db.baskets[x].status == 1 ==> db.baskets[x].expireAt > now
  {
    forall d | d in db.orders && (db.orders[d].status == 1 || db.orders[d].status == 2)
      ensures db.orders[d].expireAt > now {
      assert d !in Sweep.DueOrders(db, WAITING, now) && d !in Sweep.DueOrders(db, LOCKED, now);
    }
    forall x | x in db.baskets && db.baskets[x].status == 1 ensures db.baskets[x].expireAt > now {
      assert x !in Sweep.DueBaskets(db, now);
    }
  }

  lemma FateLeft(db: Database, after: Database, rate: int, share: int, now: int, b: Id)
    requires Inv(db, rate) && Sweep.BasketsFated(db, after, rate, now) && MinAmount.Asks(rate, share)
    requires b in db.baskets && db.baskets[b].status == 1
    ensures b in after.baskets && BasketLeft(db, b, after.baskets[b], share, now)
  {
    assert BasketOk(db, b);
    if db.baskets[b].target * share + 9999 <= 0x7FFF_FFFF_FFFF_FFFF {
      MinAmount.PaysIsShare(db.baskets[b].target, rate, share, Sweep.Surviving(db.rows, db.orders, b, now));
    }
  }

  // A listed deposit without an order or without an attached row.
  predicate Missing(db: Database, d: Id)
  {
    d !in db.orders || forall i :: 0 <= i < |db.rows| ==> db.rows[i].depositNo != d || db.rows[i].status != Attached
  }

  // Releasing deposits ends no basket and touches nothing of the other deposits.
  lemma {:induction false} PhaseLeaves(s: Sys, nos: seq<Id>)
    ensures var after := Sweep.LockedPhase(s, nos).s.db;
            && after.records == s.db.records && after.shares == s.db.shares
            && after.baskets.Keys == s.db.baskets.Keys && after.orders.Keys == s.db.orders.Keys
            && (forall b :: b in s.db.baskets ==>
                  after.baskets[b] == s.db.baskets[b].(current := after.baskets[b].current))
            && (forall d :: d in s.db.orders && d !in nos ==> after.orders[d] == s.db.orders[d])
  {
    if nos != [] {
      var n := |nos| - 1;
      PhaseLeaves(s, nos[..n]);
      var mid := Sweep.LockedPhase(s, nos[..n]).s;
      if nos[n] in mid.db.orders {
        ReleaseLeaves(mid.db, nos[n]);
      }
    }
  }

  // From any state: when a listed deposit has no order or no attached row, the sweep
  // fails, and no basket has ended by it.
  lemma SweepStops(s: Sys, rate: int, w: seq<Id>, l: seq<Id>, b: seq<Id>, ms: seq<Id>, i: nat)
    requires |ms| == |b| && forall j :: 0 <= j < |b| ==> b[j] in s.db.baskets
    requires (forall j, k :: 0 <= j < k < |l| ==> l[j] != l[k]) && i < |l| && Missing(s.db, l[i])
    ensures forall j :: 0 <= j < |b| ==> b[j] in Sweep.LockedPhase(Sweep.AfterWaiting(s, w), l).s.db.baskets
    ensures var p := Sweep.ExpireTimeouts(s, rate, w, l, b, ms);
            && p.failed && p.s.db.records == s.db.records && p.s.db.shares == s.db.shares
            && p.s.db.baskets.Keys == s.db.baskets.Keys
            && forall x :: x in s.db.baskets ==> p.s.db.baskets[x].status == s.db.baskets[x].status
  {
    var s1 := Sweep.AfterWaiting(s, w);
    Sweep.WaitingPhaseIs(s.db, w);
    PhaseLeaves(s1, l);
    if l[i] in s1.db.orders {
      ReleaseLeaves(s1.db, l[i]);
    }
    assert Sweep.Stops(s1.db, l[i]);
    Sweep.LockedStops(s1, l);
  }
}
