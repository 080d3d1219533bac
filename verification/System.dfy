// The use case as a state machine over tables and memory: creating baskets,
// submitting deposits, the three expiries, and crashes. Line numbers are those of
// internal/biz/matching.go.

module System {
  import opened Model
  import P = Pool
  import opened Rows
  import opened Tables
  import opened Backstop
  import opened Ledger
  import opened Moves
  import opened Releases
  import opened Recovery
  import opened Submits

  datatype Sys = Sys(db: Database, mem: Memory)

  // The time value that means "not set", and the default life of a deposit.
  const NO_TIME := 0
  const HALF_HOUR := 1800000 * MILLISECOND

  // Lines 778-798.
  predicate ValidBasket(row: BasketRow, now: int)
  {
    && row.withdrawNo != EMPTY && row.channel != EMPTY && row.currency != EMPTY
    && row.target > 0 && row.expireAt != NO_TIME && row.expireAt > now
  }

  // Lines 801-818.
  predicate ValidDeposit(order: Order, now: int)
  {
    && order.channel != EMPTY && order.currency != EMPTY && order.amount > 0
    && order.expireAt != NO_TIME && order.expireAt > now
  }

  // An unset status means waiting (lines 92-94 and 201-203).
  function StatusOr(status: int): int
  {
    if status == 0 then WAITING else status
  }

  function NumberOr(no: Id, generated: Id): Id
  {
    if no == EMPTY then generated else no
  }

  // Lines 768-775.
  function Normalized(order: Order, now: int): Order
  {
    if order.expireAt == NO_TIME then order.(expireAt := now + HALF_HOUR) else order
  }

  function NewBasket(row: BasketRow): P.BasketView
  {
    P.BasketView(row.withdrawNo, row.channel, row.currency, row.target, row.current, [], row.status, row.expireAt)
  }

  // Lines 75-106.
  function Create(s: Sys, no: Id, row: BasketRow, now: int): Sys
  {
    if !ValidBasket(row, now) then s
    else
      var row' := row.(status := StatusOr(row.status));
      match InsertBasket(s.db, no, row')
      case RolledBack => s
      case Committed(db) =>
        var key := Key(row.channel, row.currency);
        Sys(db, s.mem[key := PoolOf(s.mem, key)[no := NewBasket(row')]])
  }

  // A deposit as it is passed to the engine (lines 201-209).
  function EngineDeposit(no: Id, order: Order): Deposit
  {
    Deposit(no, order.channel, order.currency, order.amount, StatusOr(order.status), order.expireAt)
  }

  function ShardOf(s: Sys, order: Order): P.Pool
  {
    PoolOf(s.mem, Key(order.channel, order.currency))
  }

  // The callback the engine gets (lines 207-209).
  function Storing(db: Database, no: Id, amount: int, matchNo: Id, stored: bool): P.Commit
  {
    (r: MatchResult) => stored && PersistMatch(db, no, amount, r, matchNo).Committed?
  }

  // What the engine does with the deposit, for the basket it chose.
  function Matching(s: Sys, no: Id, order: Order, choice: Option<Id>, matchNo: Id, stored: bool): P.Outcome
    requires choice.Some? ==> choice.value in ShardOf(s, order)
  {
    var db := SaveDeposit(s.db, no, order.(status := StatusOr(order.status)));
    var commit := Storing(db, no, order.amount, matchNo, stored);
    P.MatchOne(ShardOf(s, order), map[], order.channel, order.currency,
               Some(EngineDeposit(no, order)), Some(commit), choice)
  }

  // The answer to the caller: an error comes with an empty result (lines 213-215).
  function Answer(out: P.Outcome): MatchResult
  {
    if out.failed then NO_RESULT else out.result
  }

  const NO_RESULT: MatchResult := P.Unplaced(false, NoFailure)

  // Lines 200-217, for the basket the engine chose. `stored` is false when the
  // transaction fails for a reason outside the tables.
  function SubmitLocked(s: Sys, no: Id, order: Order, choice: Option<Id>, matchNo: Id, stored: bool): Sys
    requires choice.Some? ==> choice.value in ShardOf(s, order)
  {
    var db := SaveDeposit(s.db, no, order.(status := StatusOr(order.status)));
    var out := Matching(s, no, order, choice, matchNo, stored);
    var mem := s.mem[Key(order.channel, order.currency) := out.pool];
    if out.result.attached && !out.failed then Sys(PersistMatch(db, no, order.amount, out.result, matchNo).db, mem)
    else Sys(db, mem)
  }

  // Lines 147-162.
  function Submit(s: Sys, no: Id, order: Order, now: int, choice: Option<Id>, matchNo: Id, stored: bool): Sys
    requires choice.Some? ==> choice.value in ShardOf(s, order)
  {
    if !ValidDeposit(order, now) then s else SubmitLocked(s, no, order, choice, matchNo, stored)
  }

  // Lines 368-406; the deposit's shard is that of its order.
  function ExpireLocked(s: Sys, no: Id): Sys
    requires no in s.db.orders
  {
    match ExpireLockedOrder(s.db, no)
    case None => s
    case Some(done) =>
      var key := Key(s.db.orders[no].channel, s.db.orders[no].currency);
      Sys(done.0, s.mem[key := P.Released(PoolOf(s.mem, key), done.1.basketNo, no, done.1.amount)])
  }

  // Lines 427-472, with the row the sweep had read.
  function Expire(s: Sys, no: Id, read: BasketRow, rate: int, matchNo: Id): Sys
  {
    var e := ExpireBasket(s.db, no, read, rate, matchNo);
    var key := Key(read.channel, read.currency);
    Sys(e.db, if e.removed then s.mem[key := PoolOf(s.mem, key) - {no}] else s.mem)
  }

  datatype Event =
    | Created(no: Id, row: BasketRow, now: int)
    | Submitted(no: Id, order: Order, now: int, choice: Option<Id>, matchNo: Id, stored: bool)
    | WaitingDue(no: Id)
    | LockedDue(no: Id)
    | BasketDue(no: Id, read: BasketRow, matchNo: Id)
    | Crashed(last: Event)  // the tables got the event, the memory did not; then a restart

  function Next(s: Sys, rate: int, e: Event): Sys
    requires Possible(s, e)
  {
    match e
    case Created(no, row, now) => Create(s, no, row, now)
    case Submitted(no, order, now, choice, matchNo, stored) => Submit(s, no, order, now, choice, matchNo, stored)
    case WaitingDue(no) => s.(db := ExpireWaitingOrder(s.db, no))
    case LockedDue(no) => ExpireLocked(s, no)
    case BasketDue(no, read, matchNo) => Expire(s, no, read, rate, matchNo)
    case Crashed(last) => var db := Next(s, rate, last).db; Sys(db, Recover(db))
  }

  // Events name rows that exist, and baskets the shard holds.
  predicate Possible(s: Sys, e: Event)
  {
    match e
    case Created(_, _, _) => true
    case Submitted(_, order, _, choice, _, _) => choice.Some? ==> choice.value in ShardOf(s, order)
    case WaitingDue(_) => true
    case LockedDue(no) => no in s.db.orders
    case BasketDue(no, _, _) => no in s.db.baskets
    case Crashed(last) => Possible(s, last)
  }

  // The engine chooses as proved for the shard, and the sweep reads rows of the table.
  ghost predicate Enabled(s: Sys, e: Event)
    requires Possible(s, e)
  {
    match e
    case Submitted(_, order, _, choice, _, _) => P.ChoiceFor(ShardOf(s, order), order.amount, choice)
    case BasketDue(no, read, _) => ReadOf(read, s.db.baskets[no])
    case Crashed(last) => Enabled(s, last)
    case _ => true
  }

  // Tables in order, memory in step with them.
  ghost predicate Good(s: Sys, rate: int)
  {
    Inv(s.db, rate) && Sync(s.db, s.mem)
  }

  // ----- creating a basket

  // A basket that will be inserted must start waiting and empty, and expire at a time
  // that its column can hold: the shard keeps the object that was written.
  predicate CreateAllowed(s: Sys, no: Id, row: BasketRow, now: int)
  {
    ValidBasket(row, now) && no !in s.db.baskets
      && (forall b | b in s.db.baskets :: s.db.baskets[b].withdrawNo != row.withdrawNo)
    ==> StatusOr(row.status) == WAITING && row.current == 0 && row.expireAt % MILLISECOND == 0
  }

  lemma FreshRows(db: Database, no: Id, row: BasketRow)
    requires RowsOk(db) && no !in db.baskets
    ensures RowsOk(db.(baskets := db.baskets[no := row]))
  {
    var after := db.(baskets := db.baskets[no := row]);
    forall i | 0 <= i < |after.rows| ensures RowOk(after, after.rows[i]) {
      assert RowOk(db, db.rows[i]);
    }
  }

  lemma InsertFresh(db: Database, rate: int, no: Id, row: BasketRow)
    requires Inv(db, rate) && no !in db.baskets && row.target > 0 && row.status == WAITING && row.current == 0
    requires InsertBasket(db, no, row).Committed? && Sum(db.rows, no, Attached) == 0 && row.expireAt % MILLISECOND == 0
    ensures Inv(db.(baskets := db.baskets[no := row]), rate)
  {
    var after := db.(baskets := db.baskets[no := row]);
    FreshRows(db, no, row);
    forall d | d in after.orders ensures OrderOk(after, d) {
      assert OrderOk(db, d);
    }
    forall b | b in after.baskets ensures BasketOk(after, b) {
      assert b in db.baskets ==> BasketOk(db, b);
    }
    assert Guarded(db) by {
      assert forall i :: 0 <= i < |db.rows| ==> RowOk(db, db.rows[i]);
    }
    StaleInsert(db, no, row);
    forall m | m in after.records ensures RecordOk(after, rate, m) {
      assert RecordOk(db, rate, m);
    }
  }

  lemma InsertKeeps(db: Database, rate: int, no: Id, row: BasketRow)
    requires Inv(db, rate) && InsertBasket(db, no, row).Committed? && row.target > 0 && row.status == WAITING
    ensures Inv(InsertBasket(db, no, row).db, rate) <==> row.current == 0
    ensures forall i :: 0 <= i < |db.rows| ==> db.rows[i].basketNo in db.baskets
  {
    assert forall i :: 0 <= i < |db.rows| ==> RowOk(db, db.rows[i]);
    SumNone(db.rows, no, Attached);
    if row.current == 0 {
      InsertFresh(db, rate, no, row.(expireAt := Column(row.expireAt)));
    } else {
      assert !BasketOk(InsertBasket(db, no, row).db, no);
    }
  }

  // Memory is in step with a new row exactly when the column holds its expiry.
  lemma InsertSyncs(s: Sys, no: Id, row: BasketRow, key: Key)
    requires Sync(s.db, s.mem) && no !in s.db.baskets && row.status == WAITING && key == Key(row.channel, row.currency)
    requires forall i :: 0 <= i < |s.db.rows| ==> s.db.rows[i].basketNo in s.db.baskets
    ensures var stored := row.(expireAt := Column(row.expireAt));
            Sync(s.db.(baskets := s.db.baskets[no := stored]), s.mem[key := PoolOf(s.mem, key)[no := NewBasket(row)]])
            <==> row.expireAt % MILLISECOND == 0
  {
    var stored := row.(expireAt := Column(row.expireAt));
    var db, mem := s.db.(baskets := s.db.baskets[no := stored]), s.mem[key := PoolOf(s.mem, key)[no := NewBasket(row)]];
    forall k
      ensures Recovered(db, k) == if k == key then Recovered(s.db, k)[no := NewBasket(stored)] else Recovered(s.db, k)
    {
      RecoverInserted(s.db, no, stored, k);
    }
    if row.expireAt % MILLISECOND == 0 {
      forall k ensures PoolOf(mem, k) == Recovered(db, k) {
        assert PoolOf(s.mem, k) == Recovered(s.db, k);
      }
    } else {
      assert PoolOf(mem, key)[no] == NewBasket(row) && Recovered(db, key)[no] == NewBasket(stored);
    }
  }

  // Creating keeps tables and memory right exactly when the basket is allowed.
  lemma CreateExact(s: Sys, rate: int, no: Id, row: BasketRow, now: int)
    requires Good(s, rate)
    ensures Good(Create(s, no, row, now), rate) <==> CreateAllowed(s, no, row, now)
  {
    var row' := row.(status := StatusOr(row.status));
    if ValidBasket(row, now) && InsertBasket(s.db, no, row').Committed? {
      var after := Create(s, no, row, now);
      var key := Key(row.channel, row.currency);
      if row'.status == WAITING {
        InsertKeeps(s.db, rate, no, row');
        InsertSyncs(s, no, row', key);
      } else {
        assert no in PoolOf(after.mem, key) && no !in Recovered(after.db, key);
      }
    }
  }

  // ----- submitting a deposit

  // The engine found a basket and the transaction meets no unique key.
  predicate Attaches(s: Sys, no: Id, order: Order, choice: Option<Id>, matchNo: Id, stored: bool)
    requires choice.Some? ==> choice.value in ShardOf(s, order)
  {
    && stored && StatusOr(order.status) == WAITING && choice.Some? && !HasRow(s.db.rows, no)
    && (P.Completes(ShardOf(s, order), order.amount, choice.value) ==> matchNo !in s.db.records)
  }

  // A new order must not claim to be locked or matched; a stored one may only be
  // attached while it waits, in its own shard, with its own amount.
  predicate SubmitAllowed(s: Sys, no: Id, order: Order, now: int, choice: Option<Id>, matchNo: Id, stored: bool)
    requires choice.Some? ==> choice.value in ShardOf(s, order)
  {
    ValidDeposit(order, now) ==>
      && (no !in s.db.orders ==> StatusOr(order.status) != LOCKED && StatusOr(order.status) != MATCHED)
      && (Attaches(s, no, order, choice, matchNo, stored) && no in s.db.orders ==>
            var was := s.db.orders[no];
            && was.status == WAITING && was.amount == order.amount
            && was.channel == order.channel && was.currency == order.currency)
  }

  // What the engine computes from memory describes the tables.
  lemma ChosenPlaces(s: Sys, rate: int, no: Id, order: Order, b: Id)
    requires Good(s, rate) && order.amount > 0 && b in ShardOf(s, order)
    requires P.Chooses(ShardOf(s, order), order.amount, b)
    ensures Placing(s.db, P.Placed(ShardOf(s, order), b, EngineDeposit(no, order)), b, no, order.amount)
    ensures KeyOf(s.db, b) == Key(order.channel, order.currency)
    ensures P.Completes(ShardOf(s, order), order.amount, b)
            <==> P.Placed(ShardOf(s, order), b, EngineDeposit(no, order)).matched
  {
    assert b in Recovered(s.db, Key(order.channel, order.currency));
    assert BasketOk(s.db, b);
    assert P.Fits(ShardOf(s, order), b, order.amount);
  }

  // Filling a basket takes it out of every shard that recovery would build.
  lemma FilledRecovers(db: Database, no: Id, b: Id, amount: int, m: Id, k: Key)
    requires b in db.baskets && db.baskets[b].status == WAITING && no in db.orders
    ensures Recovered(Settle(Lock(db, no, b, amount), b, m), k)
            == if k == KeyOf(db, b) then Recovered(db, k) - {b} else Recovered(db, k)
  {
    var locked := Lock(db, no, b, amount);
    RecoverLocked(db, no, b, amount, k);
    RecoverLeft(locked, Settle(locked, b, m), b, Matched, k);
    if k == KeyOf(db, b) {
      AttachedGone(Recovered(db, k), b, no, amount);
    } else {
      NotThere(Recovered(db, k), b);
    }
  }

  lemma AttachedGone(pool: P.Pool, b: Id, no: Id, amount: int)
    requires b in pool
    ensures P.Attached(pool, b, no, amount) - {b} == pool - {b}
  {}

  lemma NotThere(pool: P.Pool, b: Id)
    requires b !in pool
    ensures pool - {b} == pool
  {}

  // Memory after taking the deposit is what recovery would build.
  lemma TakenSyncs(db: Database, mem: Memory, no: Id, b: Id, amount: int, m: Id, d: Deposit)
    requires Sync(db, mem) && b in db.baskets && db.baskets[b].status == WAITING && no in db.orders
    requires d.no == no && d.amount == amount && b in PoolOf(mem, KeyOf(db, b))
    ensures var locked, key := Lock(db, no, b, amount), KeyOf(db, b);
            var after := if P.Completes(PoolOf(mem, key), amount, b) then Settle(locked, b, m) else locked;
            Sync(after, mem[key := P.Taken(PoolOf(mem, key), b, d)])
  {
    var locked, key := Lock(db, no, b, amount), KeyOf(db, b);
    var after := if P.Completes(PoolOf(mem, key), amount, b) then Settle(locked, b, m) else locked;
    forall k ensures PoolOf(mem[key := P.Taken(PoolOf(mem, key), b, d)], k) == Recovered(after, k) {
      assert PoolOf(mem, k) == Recovered(db, k);
      if P.Completes(PoolOf(mem, key), amount, b) {
        FilledRecovers(db, no, b, amount, m, k);
      } else {
        RecoverLocked(db, no, b, amount, k);
      }
    }
  }

  // When the engine attaches nothing, only the order is stored.
  lemma UnplacedSyncs(s: Sys, no: Id, order: Order, key: Key)
    requires Sync(s.db, s.mem)
    ensures Sync(SaveDeposit(s.db, no, order), s.mem[key := PoolOf(s.mem, key)])
  {
    forall k ensures PoolOf(s.mem[key := PoolOf(s.mem, key)], k) == Recovered(SaveDeposit(s.db, no, order), k) {
      RecoverOrders(s.db, SaveDeposit(s.db, no, order), k);
    }
  }

  // Submitting keeps tables and memory right exactly when the deposit is allowed.
  lemma SubmitExact(s: Sys, rate: int, no: Id, order: Order, now: int, choice: Option<Id>, m: Id, stored: bool)
    requires Good(s, rate)
    requires choice.Some? ==> choice.value in ShardOf(s, order)
    requires P.ChoiceFor(ShardOf(s, order), order.amount, choice)
    ensures Good(Submit(s, no, order, now, choice, m, stored), rate)
            <==> SubmitAllowed(s, no, order, now, choice, m, stored)
  {
    if ValidDeposit(order, now) {
      var order' := order.(status := StatusOr(order.status));
      var db, key := SaveDeposit(s.db, no, order'), Key(order.channel, order.currency);
      SaveKeeps(s.db, rate, no, order');
      UnplacedSyncs(s, no, order', key);
      if order'.status == WAITING && choice.Some? {
        SubmitPlaced(s, rate, no, order, now, choice.value, m, stored);
      }
    }
  }

  // The result for a chosen basket, and whether it is stored.
  function ResultFor(s: Sys, no: Id, order: Order, b: Id): MatchResult
    requires b in ShardOf(s, order)
  {
    P.Placed(ShardOf(s, order), b, EngineDeposit(no, order))
  }

  lemma SubmitIs(s: Sys, no: Id, order: Order, now: int, b: Id, m: Id, stored: bool, db: Database)
    requires ValidDeposit(order, now) && StatusOr(order.status) == WAITING && b in ShardOf(s, order)
    requires db == SaveDeposit(s.db, no, order.(status := WAITING))
    ensures var key := Key(order.channel, order.currency);
            var tx := PersistMatch(db, no, order.amount, ResultFor(s, no, order, b), m);
            Submit(s, no, order, now, Some(b), m, stored)
            == if stored && tx.Committed?
               then Sys(tx.db, s.mem[key := P.Taken(PoolOf(s.mem, key), b, EngineDeposit(no, order))])
               else Sys(db, s.mem[key := PoolOf(s.mem, key)])
  {}

  // A stored result: the tables and the memory move together, or the tables break.
  lemma StoredResult(s: Sys, rate: int, no: Id, order: Order, b: Id, m: Id, db: Database)
    requires Inv(db, rate) && Sync(db, s.mem) && no in db.orders && db.baskets == s.db.baskets && db.rows == s.db.rows
    requires order.amount > 0 && b in ShardOf(s, order)
    requires var r := ResultFor(s, no, order, b);
             Placing(db, r, b, no, order.amount) && PersistMatch(db, no, order.amount, r, m).Committed?
    requires KeyOf(db, b) == Key(order.channel, order.currency)
    requires P.Completes(ShardOf(s, order), order.amount, b) <==> ResultFor(s, no, order, b).matched
    ensures var key := Key(order.channel, order.currency);
            var tx := PersistMatch(db, no, order.amount, ResultFor(s, no, order, b), m);
            Good(Sys(tx.db, s.mem[key := P.Taken(PoolOf(s.mem, key), b, EngineDeposit(no, order))]), rate)
            <==> Attachable(db, no, b, order.amount)
  {
    if Attachable(db, no, b, order.amount) {
      CommittedMoves(db, rate, ResultFor(s, no, order, b), b, no, order.amount, m);
      TakenSyncs(db, s.mem, no, b, order.amount, m, EngineDeposit(no, order));
    } else {
      CommittedBreaks(db, rate, ResultFor(s, no, order, b), b, no, order.amount, m);
    }
  }

  lemma SubmitPlaced(s: Sys, rate: int, no: Id, order: Order, now: int, b: Id, m: Id, stored: bool)
    requires Good(s, rate) && ValidDeposit(order, now) && StatusOr(order.status) == WAITING
    requires b in ShardOf(s, order) && P.Chooses(ShardOf(s, order), order.amount, b)
    ensures Good(Submit(s, no, order, now, Some(b), m, stored), rate)
            <==> SubmitAllowed(s, no, order, now, Some(b), m, stored)
  {
    var order' := order.(status := WAITING);
    var db, key := SaveDeposit(s.db, no, order'), Key(order.channel, order.currency);
    var r := ResultFor(s, no, order, b);
    SaveKeeps(s.db, rate, no, order');
    UnplacedSyncs(s, no, order', key);
    SubmitIs(s, no, order, now, b, m, stored, db);
    ChosenPlaces(s, rate, no, order, b);
    PersistIs(db, rate, r, b, no, order.amount, m);
    if stored && PersistMatch(db, no, order.amount, r, m).Committed? {
      forall k ensures PoolOf(s.mem, k) == Recovered(db, k) {
        RecoverOrders(s.db, db, k);
      }
      StoredResult(s, rate, no, order, b, m, db);
    }
  }
}
