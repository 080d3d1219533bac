// The database as a value, and the transactions of the use case, statement by
// statement (internal/biz/matching.go). A transaction yields the new database or
// rolls back.

module Tables {
  import opened Model
  import opened Rows
  import MinAmount

  datatype Order = Order(channel: Id, currency: Id, amount: int, status: int, expireAt: int, basketNo: Id, matchNo: Id)

  datatype BasketRow = BasketRow(
    withdrawNo: Id, channel: Id, currency: Id, target: int, current: int, status: int, expireAt: int)

  datatype Record = Record(
    basketNo: Id, withdrawNo: Id, channel: Id, currency: Id, target: int, matched: int, short: int)

  // A row of match_record_deposit.
  datatype Share = Share(matchNo: Id, withdrawNo: Id, amount: int)

  // Tables with a unique number are maps from it; basket_deposit keeps its id order.
  datatype Database = Database(
    orders: map<Id, Order>, baskets: map<Id, BasketRow>, rows: seq<Row>,
    records: map<Id, Record>, shares: map<Id, Share>)

  datatype Tx = Committed(db: Database) | RolledBack

  // Times are in nanoseconds; a DATETIME(3) column keeps the nearest millisecond.
  const MILLISECOND := 1000000

  function Column(time: int): (t: int)
    ensures t % MILLISECOND == 0
    ensures t == time <==> time % MILLISECOND == 0
  {
    (time + MILLISECOND / 2) / MILLISECOND * MILLISECOND
  }

  // Creating a basket, with its two unique keys (lines 95-100).
  function InsertBasket(db: Database, no: Id, row: BasketRow): Tx
  {
    if no in db.baskets || exists b | b in db.baskets :: db.baskets[b].withdrawNo == row.withdrawNo then RolledBack
    else Committed(db.(baskets := db.baskets[no := row.(expireAt := Column(row.expireAt))]))
  }

  // Lines 527-538: an order that exists is left as it is.
  function SaveDeposit(db: Database, no: Id, order: Order): Database
  {
    if no in db.orders then db else db.(orders := db.orders[no := order.(expireAt := Column(order.expireAt))])
  }

  // Lines 554-565.
  function CreateBasketDeposit(db: Database, depositNo: Id, amount: int, r: MatchResult): Tx
  {
    if HasRow(db.rows, depositNo) then RolledBack
    else Committed(db.(rows := db.rows + [Row(r.basketNo, r.withdrawNo, depositNo, amount, Attached)]))
  }

  // Lines 568-589: the basket must still wait; the order update may hit nothing.
  function PersistAttached(db: Database, depositNo: Id, r: MatchResult): Tx
  {
    if r.basketNo !in db.baskets || db.baskets[r.basketNo].status != WAITING then RolledBack
    else
      Committed(db.(
        baskets := db.baskets[r.basketNo := db.baskets[r.basketNo].(current := r.matchedAmount)],
        orders := if depositNo in db.orders && db.orders[depositNo].status == WAITING
                  then db.orders[depositNo := db.orders[depositNo].(status := LOCKED, basketNo := r.basketNo)]
                  else db.orders))
  }

  // Lines 645-669.
  function PersistShare(db: Database, matchNo: Id, r: MatchResult, depositNo: Id): Tx
  {
    if depositNo !in db.orders || depositNo in db.shares then RolledBack
    else
      var order := db.orders[depositNo];
      Committed(db.(
        shares := db.shares[depositNo := Share(matchNo, r.withdrawNo, order.amount)],
        orders := if order.status == WAITING || order.status == LOCKED
                  then db.orders[depositNo := order.(status := MATCHED, basketNo := r.basketNo, matchNo := matchNo)]
                  else db.orders))
  }

  // The loop of lines 610-614 over the deposits of the result.
  function PersistShares(db: Database, matchNo: Id, r: MatchResult, nos: seq<Id>): Tx
  {
    if nos == [] then Committed(db)
    else
      var n := |nos| - 1;
      match PersistShares(db, matchNo, r, nos[..n])
      case RolledBack => RolledBack
      case Committed(before) => PersistShare(before, matchNo, r, nos[n])
  }

  // Lines 592-642: the record with its two unique keys, the deposits, the basket,
  // the attached rows.
  function PersistCompleted(db: Database, r: MatchResult, matchNo: Id): Tx
  {
    if matchNo in db.records || exists m | m in db.records :: db.records[m].basketNo == r.basketNo then RolledBack
    else
      var record := Record(r.basketNo, r.withdrawNo, r.channel, r.currency, r.target, r.matchedAmount, r.short);
      match PersistShares(db.(records := db.records[matchNo := record]), matchNo, r, r.depositNos)
      case RolledBack => RolledBack
      case Committed(paid) =>
        if r.basketNo !in paid.baskets || paid.baskets[r.basketNo].status != WAITING then RolledBack
        else
          var basket := paid.baskets[r.basketNo].(status := MATCHED, current := r.matchedAmount);
          Committed(paid.(baskets := paid.baskets[r.basketNo := basket],
                          rows := Restatus(paid.rows, OfBasket(r.basketNo), Matched)))
  }

  // The commit callback of a submitted deposit (lines 541-551).
  function PersistMatch(db: Database, depositNo: Id, amount: int, r: MatchResult, matchNo: Id): Tx
  {
    match CreateBasketDeposit(db, depositNo, amount, r)
    case RolledBack => RolledBack
    case Committed(with) =>
      if r.matched then PersistCompleted(with, r, matchNo) else PersistAttached(with, depositNo, r)
  }

  // Lines 333-336: one update per listed order.
  function ExpireWaitingOrder(db: Database, no: Id): Database
  {
    if no in db.orders && db.orders[no].status == WAITING
    then db.(orders := db.orders[no := db.orders[no].(status := EXPIRED)])
    else db
  }

  // The attached row of a deposit with the least id.
  function FirstAttached(rows: seq<Row>, depositNo: Id): (r: Option<Row>)
    ensures r.Some? ==> exists i :: 0 <= i < |rows| && rows[i] == r.value && Selects(OfDeposit(depositNo), rows[i])
    ensures r.None? ==> forall i :: 0 <= i < |rows| ==> !Selects(OfDeposit(depositNo), rows[i])
  {
    if rows == [] then None
    else
      var n := |rows| - 1;
      match FirstAttached(rows[..n], depositNo)
      case Some(row) =>
        assert exists i :: 0 <= i < n && rows[..n][i] == row && Selects(OfDeposit(depositNo), rows[..n][i]);
        Some(row)
      case None =>
        assert forall i :: 0 <= i < n ==> rows[..n][i] == rows[i];
        if Selects(OfDeposit(depositNo), rows[n]) then Some(rows[n]) else None
  }

  // Releasing one expired locked deposit (lines 371-405), and the row it used.
  function ExpireLockedOrder(db: Database, no: Id): Option<(Database, Row)>
  {
    match FirstAttached(db.rows, no)
    case None => None
    case Some(detail) =>
      var orders := if no in db.orders && db.orders[no].status == LOCKED
                    then db.orders[no := db.orders[no].(status := EXPIRED)] else db.orders;
      var b := detail.basketNo;
      var baskets := if b in db.baskets && db.baskets[b].status == WAITING
                     then db.baskets[b := db.baskets[b].(
                            current := if db.baskets[b].current - detail.amount > 0
                                       then db.baskets[b].current - detail.amount else 0)]
                     else db.baskets;
      Some((db.(orders := orders, baskets := baskets, rows := Restatus(db.rows, OfDeposit(no), Released)), detail))
  }

  // The short-pay result of an expired basket (lines 692-711): numbers and total of
  // the attached rows, everything else from the row the sweep had read.
  function BuildPartial(no: Id, read: BasketRow, rows: seq<Row>): MatchResult
  {
    var matched := Sum(rows, no, Attached);
    MatchResult(true, true, no, read.withdrawNo, read.channel, read.currency, AttachedNos(rows, no),
                read.target, matched, read.target - matched, false, NoFailure)
  }

  // Line 476, on the row the sweep had read.
  predicate CanCompletePartial(read: BasketRow, rate: int)
  {
    MinAmount.Pays(read.target, rate, read.current)
  }

  datatype Completion = Completed(db: Database) | Skipped | CompletionFailed

  // Lines 480-500.
  function CompleteExpired(db: Database, no: Id, read: BasketRow, rate: int, matchNo: Id): Completion
  {
    var r := BuildPartial(no, read, db.rows);
    if r.depositNos == [] || r.matchedAmount < MinAmount.MinCompleteInt64(r.target, rate) then Skipped
    else
      match PersistCompleted(db, r, matchNo)
      case RolledBack => CompletionFailed
      case Committed(db') => Completed(db')
  }

  // Lines 436-466: closing a basket that still waits, and whether that changed it.
  function CloseBasket(db: Database, no: Id): (Database, bool)
  {
    if no !in db.baskets || db.baskets[no].status != WAITING then (db, false)
    else
      (db.(baskets := db.baskets[no := db.baskets[no].(status := EXPIRED)],
           rows := Restatus(db.rows, OfBasket(no), Released),
           orders := map d | d in db.orders ::
             if db.orders[d].basketNo == no && db.orders[d].status == LOCKED
             then db.orders[d].(status := EXPIRED) else db.orders[d]),
       true)
  }

  datatype BasketExpiry = BasketExpiry(db: Database, removed: bool, failed: bool)

  // Lines 428-471: short-pay if the row read and the rows found allow it, close otherwise.
  function ExpireBasket(db: Database, no: Id, read: BasketRow, rate: int, matchNo: Id): BasketExpiry
  {
    var completion := if CanCompletePartial(read, rate) then CompleteExpired(db, no, read, rate, matchNo) else Skipped;
    match completion
    case CompletionFailed => BasketExpiry(db, false, true)
    case Completed(db') => BasketExpiry(db', true, false)
    case Skipped =>
      var (db', changed) := CloseBasket(db, no);
      BasketExpiry(db', changed, false)
  }
}
