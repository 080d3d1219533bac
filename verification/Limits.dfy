// Concrete inputs on which the code does not do what one would expect of it. Each
// shows that a condition proved necessary elsewhere can really fail.

module Limits {
  import opened Model
  import P = Pool
  import B = Buckets
  import opened Rows
  import opened Tables
  import opened Backstop
  import opened Ledger
  import opened Moves
  import opened Releases
  import opened Recovery
  import opened System
  import opened Runs
  import opened Submits
  import opened Stale
  import Sweep
  import MinAmount
  import K = ShardKey

  const CARD := Id("card")
  const USD := Id("USD")
  const KEY := Key(CARD, USD)
  const BASKET := Id("B1")
  const OTHER := Id("B2")
  const WITHDRAW := Id("W1")
  const DEPOSIT := Id("D1")
  const LATER := Id("D2")
  const MATCH := Id("M1")
  const ROW := BasketRow(WITHDRAW, CARD, USD, 10, 0, WAITING, 100 * MILLISECOND)
  const ORDER := Order(CARD, USD, 4, WAITING, 50 * MILLISECOND, EMPTY, EMPTY)

  // The full rate on the first target that is too large overflows.
  lemma OverflowsInt64()
    ensures MinAmount.MinCompleteInt64(922337203685477, 10000) != MinAmount.MinComplete(922337203685477, 10000)
  {
    MinAmount.Int64Exact(922337203685477, 10000);
  }

  // A basket number filed again under another need stays in its old bucket.
  lemma FiledTwice()
    ensures var f := B.Add(B.Build(map[BASKET := 10], map[BASKET := 1]), 7, BASKET, 2);
            && 10 in f.buckets && BASKET in f.buckets[10] && 7 in f.buckets && BASKET in f.buckets[7]
            && f != B.Build(map[BASKET := 7], map[BASKET := 2])
  {
    var live, items := map[BASKET := 10], map[BASKET := 1];
    assert live[BASKET] == 10;
    assert BASKET in B.Bucket(live, items, 10);
    B.BuildAt(live, items, 10);
    B.BuildAt(map[BASKET := 7], map[BASKET := 2], 10);
    assert B.Bucket(map[BASKET := 7], map[BASKET := 2], 10) == map[];
  }

  // A deposit attached twice is released twice.
  lemma AttachedTwice()
    ensures var pool := map[BASKET := P.BasketView(WITHDRAW, CARD, USD, 10, 4, [DEPOSIT], WAITING, 100)];
            P.Released(P.Attached(pool, BASKET, DEPOSIT, 3), BASKET, DEPOSIT, 3) != pool
  {
    P.AttachThenRelease(map[BASKET := P.BasketView(WITHDRAW, CARD, USD, 10, 4, [DEPOSIT], WAITING, 100)],
                        BASKET, DEPOSIT, 3);
  }

  // ----- messages that bring a status or an amount

  // A basket that is born with an amount has no rows for it.
  lemma BornFilled(rate: int)
    ensures var s := Create(START, BASKET, ROW.(current := 4), 1);
            && BASKET in s.db.baskets && s.db.baskets[BASKET].current == 4 && Sum(s.db.rows, BASKET, Attached) == 0
            && !Good(s, rate)
  {
    StartGood(rate);
    CreateExact(START, rate, BASKET, ROW.(current := 4), 1);
  }

  // A basket that is born matched has no record.
  lemma BornMatched(rate: int)
    ensures var s := Create(START, BASKET, ROW.(status := MATCHED), 1);
            && BASKET in s.db.baskets && s.db.baskets[BASKET].status == MATCHED && s.db.records == map[]
            && !Guarded(s.db) && !Good(s, rate)
  {
    StartGood(rate);
    CreateExact(START, rate, BASKET, ROW.(status := MATCHED), 1);
    assert Guarded(START.db);
    StaleInsert(START.db, BASKET, ROW.(status := MATCHED));
  }

  // An order that is born locked has no row, and the locked phase of a sweep that meets
  // it stops there with an error.
  lemma BornLocked(rate: int)
    ensures var s := Submit(START, DEPOSIT, ORDER.(status := LOCKED), 1, None, MATCH, true);
            && Sweep.DueOrders(s.db, LOCKED, 50 * MILLISECOND) == map[DEPOSIT := 50 * MILLISECOND] && !Good(s, rate)
            && Sweep.LockedPhase(s, [DEPOSIT]) == Sweep.Progress(s, true)
  {
    StartGood(rate);
    SubmitExact(START, rate, DEPOSIT, ORDER.(status := LOCKED), 1, None, MATCH, true);
    var s := Submit(START, DEPOSIT, ORDER.(status := LOCKED), 1, None, MATCH, true);
    assert s.db.orders == map[DEPOSIT := ORDER.(status := LOCKED)] && s.db.rows == [];
    assert [DEPOSIT][0] == DEPOSIT && Sweep.Stops(s.db, DEPOSIT);
    Sweep.LockedStops(s, [DEPOSIT]);
    assert [DEPOSIT][..0] == [];
  }

  // ----- a deposit that is sent again

  const ENDED := Sys(Database(map[DEPOSIT := ORDER.(status := EXPIRED)], map[BASKET := ROW], [], map[], map[]),
                     map[KEY := map[BASKET := NewBasket(ROW)]])

  // One open basket, and nothing else.
  function Open(target: int): Sys
  {
    Sys(Database(map[], map[BASKET := ROW.(target := target)], [], map[], map[]), map[KEY := OpenPool(target)])
  }

  function OpenPool(target: int): P.Pool
  {
    map[BASKET := NewBasket(ROW.(target := target))]
  }

  const OPEN := Open(10)
  const POOL := OpenPool(10)

  lemma OpenGood(rate: int, target: int)
    requires target > 0
    ensures Create(START, BASKET, ROW.(target := target), 1) == Open(target) && Good(Open(target), rate)
  {
    StartGood(rate);
    CreateExact(START, rate, BASKET, ROW.(target := target), 1);
    assert InsertBasket(START.db, BASKET, ROW.(target := target)) == Committed(Open(target).db);
  }

  lemma OnlyChoice(target: int, amount: int)
    requires 0 < amount < target
    ensures P.Chooses(OpenPool(target), amount, BASKET) && !P.Completes(OpenPool(target), amount, BASKET)
  {
    assert P.Short(OpenPool(target), target) == {BASKET};
    assert P.Scanned(OpenPool(target), target, {BASKET}) && P.BestOf(OpenPool(target), {BASKET}, BASKET);
  }

  // The deposit is stored, the transaction that attaches it fails, and it expires.
  lemma EndedGood(rate: int)
    ensures var s := Submit(OPEN, DEPOSIT, ORDER, 1, Some(BASKET), MATCH, false);
            ENDED == s.(db := ExpireWaitingOrder(s.db, DEPOSIT))
    ensures Good(ENDED, rate)
  {
    OpenGood(rate, 10);
    OnlyChoice(10, 4);
    assert ShardOf(OPEN, ORDER) == POOL;
    SubmitExact(OPEN, rate, DEPOSIT, ORDER, 1, Some(BASKET), MATCH, false);
    NotStored();
    WaitingGood(STORED, rate, DEPOSIT);
    StoredEnds();
  }

  lemma StoredEnds()
    ensures ENDED == STORED.(db := ExpireWaitingOrder(STORED.db, DEPOSIT))
  {
    assert ENDED.db.orders == ExpireWaitingOrder(STORED.db, DEPOSIT).orders;
  }

  const STORED := Sys(OPEN.db.(orders := map[DEPOSIT := ORDER]), OPEN.mem)

  lemma NotStored()
    ensures Submit(OPEN, DEPOSIT, ORDER, 1, Some(BASKET), MATCH, false) == STORED
    ensures SubmitAllowed(OPEN, DEPOSIT, ORDER, 1, Some(BASKET), MATCH, false)
  {
    assert ShardOf(OPEN, ORDER) == POOL;
    SubmitIs(OPEN, DEPOSIT, ORDER, 1, BASKET, MATCH, false, STORED.db);
  }

  // Sent again after it expired, the deposit is attached while its order stays expired.
  lemma SentAgain(rate: int)
    ensures ShardOf(ENDED, ORDER) == POOL && P.ChoiceFor(POOL, 4, Some(BASKET)) && Good(ENDED, rate)
    ensures var s := Submit(ENDED, DEPOSIT, ORDER, 2, Some(BASKET), MATCH, true);
            && DEPOSIT in s.db.orders && s.db.orders[DEPOSIT].status == EXPIRED
            && Stands(s.db.rows, DEPOSIT, BASKET, Attached)
            && BASKET in s.db.baskets && s.db.baskets[BASKET].current == 4 && !Good(s, rate)
  {
    EndedGood(rate);
    OnlyChoice(10, 4);
    assert ShardOf(ENDED, ORDER) == POOL;
    SubmitExact(ENDED, rate, DEPOSIT, ORDER, 2, Some(BASKET), MATCH, true);
    AgainStored();
  }

  lemma AgainStored()
    ensures var s := Submit(ENDED, DEPOSIT, ORDER, 2, Some(BASKET), MATCH, true);
            && DEPOSIT in s.db.orders && s.db.orders[DEPOSIT].status == EXPIRED
            && Stands(s.db.rows, DEPOSIT, BASKET, Attached)
            && BASKET in s.db.baskets && s.db.baskets[BASKET].current == 4
            && !SubmitAllowed(ENDED, DEPOSIT, ORDER, 2, Some(BASKET), MATCH, true)
  {
    OnlyChoice(10, 4);
    assert ShardOf(ENDED, ORDER) == POOL;
    var s := Submit(ENDED, DEPOSIT, ORDER, 2, Some(BASKET), MATCH, true);
    SubmitIs(ENDED, DEPOSIT, ORDER, 2, BASKET, MATCH, true, ENDED.db);
    assert s.db.rows == [Row(BASKET, WITHDRAW, DEPOSIT, 4, Attached)];
    assert s.db.rows[0].depositNo == DEPOSIT;
  }

  // ----- a row that was read too early

  // The open basket with one deposit.
  function Held(target: int, amount: int): Sys
  {
    Sys(Database(map[DEPOSIT := ORDER.(amount := amount, status := LOCKED, basketNo := BASKET)],
                 map[BASKET := ROW.(target := target, current := amount)],
                 [Row(BASKET, WITHDRAW, DEPOSIT, amount, Attached)], map[], map[]),
        map[KEY := map[BASKET := NewBasket(ROW.(target := target)).(current := amount, deposits := [DEPOSIT])]])
  }

  const HELD := Held(10, 4)

  lemma HeldPool(target: int, amount: int)
    requires 0 < amount < target
    ensures P.Taken(OpenPool(target), BASKET, EngineDeposit(DEPOSIT, ORDER.(amount := amount)))
            == Held(target, amount).mem[KEY]
  {
    OnlyChoice(target, amount);
    assert [] + [DEPOSIT] == [DEPOSIT];
  }

  lemma HeldGood(rate: int, target: int, amount: int)
    requires 0 < amount < target
    ensures Held(target, amount)
            == Submit(Open(target), DEPOSIT, ORDER.(amount := amount), 1, Some(BASKET), MATCH, true)
    ensures Good(Held(target, amount), rate)
  {
    OpenGood(rate, target);
    OnlyChoice(target, amount);
    assert ShardOf(Open(target), ORDER.(amount := amount)) == OpenPool(target);
    HeldAllowed(target, amount);
    SubmitExact(Open(target), rate, DEPOSIT, ORDER.(amount := amount), 1, Some(BASKET), MATCH, true);
    HeldIs(target, amount);
  }

  lemma HeldAllowed(target: int, amount: int)
    ensures SubmitAllowed(Open(target), DEPOSIT, ORDER.(amount := amount), 1, Some(BASKET), MATCH, true)
  {}

  lemma HeldIs(target: int, amount: int)
    requires 0 < amount < target
    ensures Held(target, amount)
            == Submit(Open(target), DEPOSIT, ORDER.(amount := amount), 1, Some(BASKET), MATCH, true)
  {
    HeldStored(target, amount);
    HeldPool(target, amount);
  }

  lemma HeldStored(target: int, amount: int)
    requires 0 < amount < target
    ensures var order := ORDER.(amount := amount);
            Submit(Open(target), DEPOSIT, order, 1, Some(BASKET), MATCH, true)
            == Sys(Held(target, amount).db,
                   Open(target).mem[KEY := P.Taken(OpenPool(target), BASKET, EngineDeposit(DEPOSIT, order))])
  {
    var order := ORDER.(amount := amount);
    var db, held := SaveDeposit(Open(target).db, DEPOSIT, order), Held(target, amount).db;
    OnlyChoice(target, amount);
    SubmitIs(Open(target), DEPOSIT, order, 1, BASKET, MATCH, true, db);
    var after := PersistMatch(db, DEPOSIT, amount, ResultFor(Open(target), DEPOSIT, order, BASKET), MATCH).db;
    assert after.rows == held.rows && after.orders == held.orders && after.baskets == held.baskets;
  }

  // The basket holds 4 of 10 and needs 3, but the sweep had read it before the deposit
  // came: it is closed, and would have been paid with the row as it is now.
  lemma ReadTooEarly()
    ensures Good(HELD, 3000) && Enough(HELD.db, BASKET, 3000) && ReadOf(ROW, HELD.db.baskets[BASKET])
    ensures ExpireBasket(HELD.db, BASKET, ROW, 3000, MATCH).db.baskets[BASKET].status == EXPIRED
    ensures ExpireBasket(HELD.db, BASKET, ROW.(current := 4), 3000, MATCH).db.baskets[BASKET].status == MATCHED
  {
    HeldGood(3000, 10, 4);
    assert BasketOk(HELD.db, BASKET);
    ExpiryIs(HELD.db, 3000, BASKET, ROW, MATCH);
    ExpiryIs(HELD.db, 3000, BASKET, ROW.(current := 4), MATCH);
  }

  // ----- a minimum that overflows

  const HUGE := 922337203685477

  lemma HugeMinimum()
    ensures MinAmount.MinComplete(HUGE, 10000) == HUGE && MinAmount.MinCompleteInt64(HUGE, 10000) < 0
    ensures MinAmount.Pays(HUGE, 10000, 1)
  {
    assert MinAmount.Rate(10000) == 10000;
    assert MinAmount.Wrap(HUGE * 10000 + 9999) < 0;
    MinAmount.WrapOnce(HUGE * 10000, 9999);
  }

  // A basket that holds one deposit is paid with it when that passes the test.
  lemma HeldPays(rate: int, target: int, amount: int)
    requires 0 < amount < target && MinAmount.Pays(target, rate, amount)
    ensures var db := Held(target, amount).db; var e := ExpireBasket(db, BASKET, db.baskets[BASKET], rate, MATCH);
            && !e.failed && BASKET in e.db.baskets && e.db.baskets[BASKET].status == MATCHED
            && MATCH in e.db.records && e.db.records[MATCH].matched == amount
            && e.db.records[MATCH].short == target - amount
  {
    HeldGood(rate, target, amount);
    var db := Held(target, amount).db;
    assert BasketOk(db, BASKET);
    ExpiryIs(db, rate, BASKET, db.baskets[BASKET], MATCH);
  }

  // A basket of this target holds 1 and must be paid in full, by its rate of 10000. The
  // 64-bit minimum is negative, so its expiry pays 1 and is short of all the rest.
  lemma PaidAlmostNothing()
    ensures Good(Held(HUGE, 1), 10000) && MinAmount.MinComplete(HUGE, 10000) == HUGE
    ensures var db := Held(HUGE, 1).db; var e := ExpireBasket(db, BASKET, db.baskets[BASKET], 10000, MATCH);
            && !e.failed && BASKET in e.db.baskets && e.db.baskets[BASKET].status == MATCHED
            && MATCH in e.db.records && e.db.records[MATCH].matched == 1 && e.db.records[MATCH].short == HUGE - 1
  {
    HugeMinimum();
    HeldGood(10000, HUGE, 1);
    HeldPays(10000, HUGE, 1);
  }

  // ----- events between two steps of one operation

  // The deposit is stored, expires, and is then attached by the commit that was on its way.
  lemma ExpiredBetween(rate: int)
    ensures SaveDeposit(OPEN.db, DEPOSIT, ORDER) == STORED.db && ExpireWaitingOrder(STORED.db, DEPOSIT) == ENDED.db
    ensures BASKET in ShardOf(OPEN, ORDER)
    ensures var tx := PersistMatch(ENDED.db, DEPOSIT, 4, ResultFor(OPEN, DEPOSIT, ORDER, BASKET), MATCH);
            && tx.Committed? && DEPOSIT in tx.db.orders && tx.db.orders[DEPOSIT].status == EXPIRED
            && Stands(tx.db.rows, DEPOSIT, BASKET, Attached)
            && !Good(Sys(tx.db, OPEN.mem[KEY := P.Taken(POOL, BASKET, EngineDeposit(DEPOSIT, ORDER))]), rate)
  {
    StoredEnds();
    EndedGood(rate);
    OpenGood(rate, 10);
    OnlyChoice(10, 4);
    var tx := PersistMatch(ENDED.db, DEPOSIT, 4, ResultFor(OPEN, DEPOSIT, ORDER, BASKET), MATCH);
    assert tx.db.rows == [Row(BASKET, WITHDRAW, DEPOSIT, 4, Attached)];
    assert tx.db.rows[0].depositNo == DEPOSIT;
    ChosenPlaces(OPEN, rate, DEPOSIT, ORDER, BASKET);
    StoredResult(OPEN, rate, DEPOSIT, ORDER, BASKET, MATCH, ENDED.db);
  }

  const SIX := ORDER.(amount := 6)

  // A pool in which the second deposit completes the basket.
  lemma CompletesHeld()
    ensures ShardOf(HELD, SIX) == HELD.mem[KEY] && P.Chooses(HELD.mem[KEY], 6, BASKET)
    ensures P.Completes(HELD.mem[KEY], 6, BASKET)
  {
    assert P.Short(HELD.mem[KEY], 6) == {BASKET};
    assert P.Scanned(HELD.mem[KEY], 6, {BASKET}) && P.BestOf(HELD.mem[KEY], {BASKET}, BASKET);
  }

  lemma SixStored(rate: int)
    ensures SubmitAllowed(HELD, LATER, SIX, 2, Some(BASKET), MATCH, true)
    ensures Submit(HELD, LATER, SIX, 2, Some(BASKET), MATCH, true).db
            == Settle(Lock(Joined(6), LATER, BASKET, 6), BASKET, MATCH)
  {
    var r := ResultFor(HELD, LATER, SIX, BASKET);
    HeldGood(rate, 10, 4);
    JoinedGood(6);
    CompletesHeld();
    SubmitIs(HELD, LATER, SIX, 2, BASKET, MATCH, true, Joined(6));
    SixCommits(r);
    CommittedMoves(Joined(6), 3000, r, BASKET, LATER, 6, MATCH);
  }

  lemma SixCommits(r: MatchResult)
    requires r == ResultFor(HELD, LATER, SIX, BASKET)
    ensures Placing(Joined(6), r, BASKET, LATER, 6) && r.matched
            && PersistMatch(Joined(6), LATER, 6, r, MATCH).Committed?
  {
    HeldGood(3000, 10, 4);
    JoinedGood(6);
    CompletesHeld();
    ChosenPlaces(HELD, 3000, LATER, SIX, BASKET);
    PersistIs(Joined(6), 3000, r, BASKET, LATER, 6, MATCH);
  }

  lemma SixStops(mem: Memory)
    ensures var after := Settle(Lock(Joined(6), LATER, BASKET, 6), BASKET, MATCH);
            Sweep.Stops(after, DEPOSIT) && Sweep.LockedPhase(Sys(after, mem), [DEPOSIT]).failed
  {
    var after := Settle(Lock(Joined(6), LATER, BASKET, 6), BASKET, MATCH);
    assert after.rows == [Row(BASKET, WITHDRAW, DEPOSIT, 4, Matched), Row(BASKET, WITHDRAW, LATER, 6, Matched)];
    assert [DEPOSIT][0] == DEPOSIT && Sweep.Stops(after, DEPOSIT);
    Sweep.LockedStops(Sys(after, mem), [DEPOSIT]);
  }

  // The sweep lists the first deposit; a second one completes the basket; the item of
  // the first then stops the sweep, although tables and memory are in order.
  lemma SettledBetween(rate: int)
    ensures DEPOSIT in Sweep.DueOrders(HELD.db, LOCKED, 50 * MILLISECOND)
    ensures P.ChoiceFor(ShardOf(HELD, SIX), 6, Some(BASKET))
    ensures var s := Submit(HELD, LATER, SIX, 2, Some(BASKET), MATCH, true);
            && Good(HELD, rate) && Good(s, rate)
            && Sweep.Stops(s.db, DEPOSIT) && Sweep.LockedPhase(Sys(s.db, s.mem), [DEPOSIT]).failed
  {
    HeldGood(rate, 10, 4);
    CompletesHeld();
    SixStored(rate);
    SubmitExact(HELD, rate, LATER, SIX, 2, Some(BASKET), MATCH, true);
    SixStops(Submit(HELD, LATER, SIX, 2, Some(BASKET), MATCH, true).mem);
  }

  // ----- two instances

  // A second deposit, stored while the basket holds the first.
  function Joined(amount: int): Database
  {
    HELD.db.(orders := HELD.db.orders[LATER := ORDER.(amount := amount)])
  }

  lemma TwoNames()
    ensures DEPOSIT != LATER && BASKET != OTHER
  {
    assert DEPOSIT.text[1] != LATER.text[1];
    assert BASKET.text[1] != OTHER.text[1];
  }

  lemma LaterIsNew()
    ensures DEPOSIT != LATER && LATER !in HELD.db.orders && !HasRow(HELD.db.rows, LATER)
  {
    TwoNames();
  }

  lemma JoinedGood(amount: int)
    ensures Inv(Joined(amount), 3000) && DEPOSIT != LATER && !HasRow(Joined(amount).rows, LATER)
  {
    LaterIsNew();
    HeldGood(3000, 10, 4);
    SaveKeeps(HELD.db, 3000, LATER, ORDER.(amount := amount));
  }

  const STALE := MatchResult(false, true, BASKET, WITHDRAW, CARD, USD, [LATER], 10, 3, 0, false, NoFailure)

  lemma StaleStored()
    ensures PersistMatch(Joined(3), LATER, 3, STALE, MATCH).Committed?
    ensures var after := PersistMatch(Joined(3), LATER, 3, STALE, MATCH).db;
            && BASKET in after.baskets && after.baskets[BASKET].current == 3
            && after.rows == Joined(3).rows + [Row(BASKET, WITHDRAW, LATER, 3, Attached)]
  {
    JoinedGood(3);
  }

  // A second instance that has not seen the first deposit stores 3 for a basket that
  // holds 4 and 3: its status still allows it.
  lemma TwoInstances()
    ensures Inv(Joined(3), 3000) && PersistMatch(Joined(3), LATER, 3, STALE, MATCH).Committed?
    ensures var after := PersistMatch(Joined(3), LATER, 3, STALE, MATCH).db;
            && BASKET in after.baskets && after.baskets[BASKET].current == 3
            && Sum(after.rows, BASKET, Attached) == 7 && !Inv(after, 3000)
  {
    JoinedGood(3);
    StaleStored();
    assert BasketOk(Joined(3), BASKET);
    Appended(Joined(3).rows, Row(BASKET, WITHDRAW, LATER, 3, Attached), BASKET, Attached);
    ResultExact(Joined(3), 3000, STALE, LATER, 3, MATCH);
  }

  const FULL := MatchResult(true, true, BASKET, WITHDRAW, CARD, USD, [LATER], 10, 10, 0, false, NoFailure)

  lemma FullStored()
    ensures PersistMatch(Joined(10), LATER, 10, FULL, MATCH)
            == Committed(CompletedTables(Detailed(Joined(10), FULL, LATER, 10), FULL, MATCH))
  {
    JoinedGood(10);
    var with := Detailed(Joined(10), FULL, LATER, 10);
    assert PersistShares(with, MATCH, FULL, [LATER][..0]) == Committed(with);
    SharesCommit(with.(records := map[MATCH := Record(BASKET, WITHDRAW, CARD, USD, 10, 10, 0)]), MATCH, FULL, [LATER]);
    CommittedIs(with, FULL, MATCH);
  }

  lemma FullLeaves()
    ensures var after := CompletedTables(Detailed(Joined(10), FULL, LATER, 10), FULL, MATCH);
            && after.rows == [Row(BASKET, WITHDRAW, DEPOSIT, 4, Matched), Row(BASKET, WITHDRAW, LATER, 10, Matched)]
            && after.rows[0].depositNo == DEPOSIT
            && DEPOSIT in after.orders && after.orders[DEPOSIT] == ORDER.(status := LOCKED, basketNo := BASKET)
  {
    JoinedGood(10);
  }

  // It may also complete the basket without the first deposit. That one is matched in
  // the table of rows and stays locked in the table of orders, and every sweep that
  // meets it stops there.
  lemma CompletedBlind(mem: Memory)
    ensures Inv(Joined(10), 3000) && PersistMatch(Joined(10), LATER, 10, FULL, MATCH).Committed?
    ensures var after := PersistMatch(Joined(10), LATER, 10, FULL, MATCH).db;
            && Stands(after.rows, DEPOSIT, BASKET, Matched)
            && DEPOSIT in after.orders && after.orders[DEPOSIT].status == LOCKED && !Inv(after, 3000)
            && DEPOSIT in Sweep.DueOrders(after, LOCKED, 50 * MILLISECOND)
            && Sweep.LockedPhase(Sys(after, mem), [DEPOSIT]).failed
  {
    JoinedGood(10);
    FullStored();
    FullLeaves();
    var after := CompletedTables(Detailed(Joined(10), FULL, LATER, 10), FULL, MATCH);
    assert !RowOk(after, after.rows[0]);
    assert [DEPOSIT][0] == DEPOSIT && Sweep.Stops(after, DEPOSIT);
    Sweep.LockedStops(Sys(after, mem), [DEPOSIT]);
  }

  // ----- an expiry between two milliseconds

  // The shard and the table disagree about when the basket expires; a restart would
  // rebuild another shard.
  lemma FineExpiry(rate: int)
    ensures var s := Create(START, BASKET, ROW.(expireAt := 100 * MILLISECOND + 400000), 1);
            && BASKET in s.db.baskets && s.db.baskets[BASKET].expireAt == 100 * MILLISECOND
            && BASKET in PoolOf(s.mem, KEY) && PoolOf(s.mem, KEY)[BASKET].expireAt == 100 * MILLISECOND + 400000
            && PoolOf(s.mem, KEY) != Recovered(s.db, KEY) && !Good(s, rate)
  {
    StartGood(rate);
    CreateExact(START, rate, BASKET, ROW.(expireAt := 100 * MILLISECOND + 400000), 1);
    var s := Create(START, BASKET, ROW.(expireAt := 100 * MILLISECOND + 400000), 1);
    assert BASKET in Recovered(s.db, KEY);
  }

  // ----- limits

  // A start-up limit of one loses one of two waiting baskets.
  lemma CutOff()
    ensures var db := Database(map[], map[BASKET := ROW, OTHER := ROW.(withdrawNo := Id("W2"))], [], map[], map[]);
            Loads(db, 1, [BASKET]) && !Sync(db, RestoreAll(db, [BASKET]))
  {
    var db := Database(map[], map[BASKET := ROW, OTHER := ROW.(withdrawNo := Id("W2"))], [], map[], map[]);
    TwoNames();
    assert Waiting(db) == {BASKET, OTHER};
    StartUp(db, 1, [BASKET]);
  }

  function Numbered(i: nat): Id
  {
    Id(seq(i, k => '#'))
  }

  // Baskets of one need, of which the first expires early and the others late.
  function Crowd(n: nat): P.Pool
  {
    if n == 0 then map[] else Crowd(n - 1)[Numbered(n - 1) := NewBasket(ROW).(expireAt := if n == 1 then 1 else 2)]
  }

  lemma {:induction false} Crowded(n: nat)
    ensures |Crowd(n)| == n
    ensures forall no :: no in Crowd(n) ==> |no.text| < n
    ensures forall no :: no in Crowd(n) ==> Crowd(n)[no] == NewBasket(ROW).(expireAt := if |no.text| == 0 then 1 else 2)
    ensures n > 0 ==> Numbered(0) in Crowd(n)
  {
    if n > 0 {
      Crowded(n - 1);
      assert |Numbered(n - 1).text| == n - 1;
    }
  }

  lemma OnlyEarly(n: nat, no: Id)
    requires n > 0 && no in P.Preferred(Crowd(n), 10)
    ensures no == Numbered(0)
  {
    Crowded(n);
    assert !P.Prefers(Crowd(n)[Numbered(0)], Crowd(n)[no]);
    assert no.text == Numbered(0).text;
  }

  lemma LateOnes(n: nat)
    requires n > 0
    ensures P.Short(Crowd(n), 10) == Crowd(n).Keys && Crowd(n) != map[]
    ensures |P.Short(Crowd(n), 10) - P.Preferred(Crowd(n), 10)| >= n - 1
  {
    Crowded(n);
    assert P.Short(Crowd(n), 10) == Crowd(n).Keys;
    forall no | no in P.Preferred(Crowd(n), 10) ensures no == Numbered(0) {
      OnlyEarly(n, no);
    }
    P.Larger(Crowd(n).Keys - {Numbered(0)}, P.Short(Crowd(n), 10) - P.Preferred(Crowd(n), 10));
  }

  lemma MissedIsLate(n: nat, no: Id)
    requires n > 0 && no in P.Short(Crowd(n), 10) && no !in P.Preferred(Crowd(n), 10)
    ensures Numbered(0) in Crowd(n) && P.Prefers(Crowd(n)[Numbered(0)], Crowd(n)[no])
  {
    Crowded(n);
    var x :| x in P.Short(Crowd(n), 10) && P.Prefers(Crowd(n)[x], Crowd(n)[no]);
  }

  // Of thirty-three or more baskets of one need a scan may miss the only one that
  // expires early.
  lemma ScanMisses(n: nat) returns (c: set<Id>, no: Id)
    requires n > 32
    ensures P.Scanned(Crowd(n), 10, c) && P.BestOf(Crowd(n), c, no)
    ensures Numbered(0) in Crowd(n) && no in Crowd(n) && P.Prefers(Crowd(n)[Numbered(0)], Crowd(n)[no])
  {
    LateOnes(n);
    c, no := SomeMiss(Crowd(n));
    MissedIsLate(n, no);
  }

  lemma SomeMiss(pool: P.Pool) returns (c: set<Id>, no: Id)
    requires P.Short(pool, 10) != {} && |P.Short(pool, 10) - P.Preferred(pool, 10)| >= P.CANDIDATES
    ensures P.Scanned(pool, 10, c) && P.BestOf(pool, c, no)
    ensures no in P.Short(pool, 10) && no !in P.Preferred(pool, 10)
  {
    P.TieBreakGlobal(pool, 10);
    c, no :| P.Scanned(pool, 10, c) && P.BestOf(pool, c, no) && no !in P.Preferred(pool, 10);
  }

  // ----- two pairs with one shard key

  const SHORT := Key(Id("x"), Id("y:z"))
  const LONG := Key(Id("x:y"), Id("z"))
  const LONG_ROW := ROW.(channel := LONG.channel, currency := LONG.currency)
  const SHORT_ORDER := ORDER.(channel := SHORT.channel, currency := SHORT.currency)
  const LONG_POOL := map[BASKET := NewBasket(LONG_ROW)]
  const MIXED := Database(map[DEPOSIT := SHORT_ORDER], map[BASKET := LONG_ROW], [], map[], map[])
  const MIXED_RESULT :=
    MatchResult(false, true, BASKET, WITHDRAW, LONG.channel, LONG.currency, [DEPOSIT], 10, 4, 0, false, NoFailure)

  // The shard is made for one pair and then takes in a basket of the other.
  const MIXED_USES: seq<K.Use> := [K.Use(SHORT, (slot: K.Slot) => slot.pool), K.Use(LONG, (slot: K.Slot) => LONG_POOL)]
  const MIXED_SHARDS := K.AllText(map[], MIXED_USES)

  lemma OneText()
    ensures K.TextOf(SHORT) == K.TextOf(LONG) && SHORT.channel != LONG.channel
  {
    assert K.KeyText("x", "y:z") == "x:y:z" == K.KeyText("x:y", "z");
    assert |"x"| != |"x:y"|;
  }

  lemma OneShard()
    ensures K.SlotOf(MIXED_SHARDS, SHORT) == K.SlotOf(MIXED_SHARDS, LONG) == K.Slot(SHORT, LONG_POOL)
  {
    OneText();
    assert MIXED_USES[..1] == [MIXED_USES[0]];
    assert K.AllText(map[], MIXED_USES[..1]) == K.UseText(map[], MIXED_USES[0]);
  }

  lemma MixedStored()
    ensures Inv(MIXED, 3000)
    ensures PersistMatch(MIXED, DEPOSIT, 4, MIXED_RESULT, MATCH).Committed?
    ensures !Inv(PersistMatch(MIXED, DEPOSIT, 4, MIXED_RESULT, MATCH).db, 3000)
  {
    OneText();
    assert Sum([], BASKET, Attached) == 0;
    ResultExact(MIXED, 3000, MIXED_RESULT, DEPOSIT, 4, MATCH);
  }

  // Then a deposit of the one pair is given a basket of the other, which the tables
  // take and are not in order any more, and the deposits of the other are turned down.
  lemma SharedKey()
    ensures K.SlotOf(MIXED_SHARDS, SHORT) == K.SlotOf(MIXED_SHARDS, LONG) == K.Slot(SHORT, LONG_POOL)
    ensures P.Chooses(LONG_POOL, 4, BASKET)
    ensures var own := Deposit(DEPOSIT, SHORT.channel, SHORT.currency, 4, WAITING, 100);
            P.MatchOne(LONG_POOL, map[], SHORT.channel, SHORT.currency, Some(own), Some(r => true), Some(BASKET)).result
            == MIXED_RESULT
    ensures var other := Deposit(DEPOSIT, LONG.channel, LONG.currency, 4, WAITING, 100);
            P.MatchOne(LONG_POOL, map[], SHORT.channel, SHORT.currency,
                       Some(other), Some(r => true), Some(BASKET)).result
            == P.Unplaced(false, WrongShard)
    ensures Inv(MIXED, 3000) && PersistMatch(MIXED, DEPOSIT, 4, MIXED_RESULT, MATCH).Committed?
    ensures !Inv(PersistMatch(MIXED, DEPOSIT, 4, MIXED_RESULT, MATCH).db, 3000)
  {
    OneText();
    OneShard();
    MixedStored();
    assert P.Short(LONG_POOL, 10) == {BASKET};
    assert P.Scanned(LONG_POOL, 10, {BASKET}) && P.BestOf(LONG_POOL, {BASKET}, BASKET);
    assert P.Fits(LONG_POOL, BASKET, 4);
  }
}
