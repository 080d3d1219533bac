// The books balance: what waiting baskets hold and what records paid out is what
// locked and matched orders brought in.

module Books {
  import opened Model
  import opened Sums
  import opened Rows
  import opened Tables
  import opened Ledger
  import opened Releases
  import opened System
  import Runs
  import Stale
  import MinAmount
  import P = Pool

  // Rows that hold money, all of them or the matched ones of a basket.
  datatype Pick = Held | MatchedIn(basketNo: Id)

  predicate Picks(p: Pick, row: Row)
  {
    match p
    case Held => row.status != Released
    case MatchedIn(b) => row.status == Matched && row.basketNo == b
  }

  function PickedSum(rows: seq<Row>, p: Pick): int
  {
    if rows == [] then 0
    else
      var n := |rows| - 1;
      PickedSum(rows[..n], p) + if Picks(p, rows[n]) then rows[n].amount else 0
  }

  // The same rows as a map from their deposits.
  function Picked(rows: seq<Row>, p: Pick): map<Id, int>
  {
    if rows == [] then map[]
    else
      var n := |rows| - 1;
      if Picks(p, rows[n]) then Picked(rows[..n], p)[rows[n].depositNo := rows[n].amount] else Picked(rows[..n], p)
  }

  predicate HasPicked(rows: seq<Row>, p: Pick, d: Id, amount: int)
  {
    exists i :: 0 <= i < |rows| && Picks(p, rows[i]) && rows[i].depositNo == d && rows[i].amount == amount
  }

  lemma {:induction false} PickedAre(rows: seq<Row>, p: Pick, d: Id)
    requires Distinct(rows)
    ensures d in Picked(rows, p) ==> HasPicked(rows, p, d, Picked(rows, p)[d])
    ensures forall i :: 0 <= i < |rows| && Picks(p, rows[i]) && rows[i].depositNo == d ==>
              d in Picked(rows, p) && Picked(rows, p)[d] == rows[i].amount
  {
    if rows != [] {
      var n := |rows| - 1;
      assert forall i :: 0 <= i < n ==> rows[..n][i] == rows[i];
      PickedAre(rows[..n], p, d);
    }
  }

  lemma {:induction false} PickedTotal(rows: seq<Row>, p: Pick)
    requires Distinct(rows)
    ensures Total(Picked(rows, p)) == PickedSum(rows, p)
  {
    if rows != [] {
      var n := |rows| - 1;
      assert forall i :: 0 <= i < n ==> rows[..n][i] == rows[i];
      PickedTotal(rows[..n], p);
      PickedAre(rows[..n], p, rows[n].depositNo);
      TotalSet(Picked(rows[..n], p), rows[n].depositNo, rows[n].amount);
    }
  }

  lemma {:induction false} MatchedSum(rows: seq<Row>, b: Id)
    ensures PickedSum(rows, MatchedIn(b)) == Sum(rows, b, Matched)
  {
    if rows != [] {
      MatchedSum(rows[..|rows| - 1], b);
    }
  }

  // Every record pays out exactly the shares of its deposits.
  ghost function SharesOf(db: Database, m: Id): map<Id, int>
  {
    map d | d in db.shares && db.shares[d].matchNo == m :: db.shares[d].amount
  }

  lemma RecordBalances(db: Database, rate: int, m: Id)
    requires Core(db, rate) && m in db.records
    ensures Total(SharesOf(db, m)) == db.records[m].matched
    ensures db.records[m].matched + db.records[m].short == db.records[m].target
  {
    var b := db.records[m].basketNo;
    assert RecordOk(db, rate, m);
    PickedTotal(db.rows, MatchedIn(b));
    MatchedSum(db.rows, b);
    SharesArePicked(db, rate, m);
  }

  lemma SharesArePicked(db: Database, rate: int, m: Id)
    requires Core(db, rate) && m in db.records
    ensures Picked(db.rows, MatchedIn(db.records[m].basketNo)) == SharesOf(db, m)
  {
    forall d ensures d in SharesOf(db, m) <==> d in Picked(db.rows, MatchedIn(db.records[m].basketNo))
             ensures d in SharesOf(db, m) ==>
                   Picked(db.rows, MatchedIn(db.records[m].basketNo))[d] == SharesOf(db, m)[d] {
      ShareIsPicked(db, rate, m, d);
    }
  }

  lemma ShareIsPicked(db: Database, rate: int, m: Id, d: Id)
    requires Core(db, rate) && m in db.records
    ensures var picked := Picked(db.rows, MatchedIn(db.records[m].basketNo));
            && (d in SharesOf(db, m) <==> d in picked)
            && (d in picked ==> picked[d] == SharesOf(db, m)[d])
  {
    var p := MatchedIn(db.records[m].basketNo);
    assert forall i :: 0 <= i < |db.rows| ==> RowOk(db, db.rows[i]);
    PickedAre(db.rows, p, d);
    if d in SharesOf(db, m) {
      var i :| 0 <= i < |db.rows| && db.rows[i].depositNo == d
               && db.rows[i].basketNo == p.basketNo && db.rows[i].status == Matched;
      assert Picks(p, db.rows[i]);
    }
  }

  // ----- the whole book

  ghost function WaitingAmounts(db: Database): map<Id, int>
  {
    map b | b in db.baskets && db.baskets[b].status == WAITING :: db.baskets[b].current
  }

  ghost function PaidAmounts(db: Database): map<Id, int>
  {
    map m | m in db.records :: db.records[m].matched
  }

  ghost function HeldAmounts(db: Database): map<Id, int>
  {
    map d | d in db.orders && (db.orders[d].status == LOCKED || db.orders[d].status == MATCHED) :: db.orders[d].amount
  }

  ghost function PerBasket(baskets: set<Id>, rows: seq<Row>): map<Id, int>
  {
    map b | b in baskets :: Sum(rows, b, Attached) + Sum(rows, b, Matched)
  }

  lemma PerBasketStep(baskets: set<Id>, rows: seq<Row>, row: Row)
    requires row.basketNo in baskets
    ensures var before := PerBasket(baskets, rows);
            PerBasket(baskets, rows + [row])
            == before[row.basketNo := before[row.basketNo] + if row.status == Released then 0 else row.amount]
  {
    forall b | b in baskets
      ensures PerBasket(baskets, rows + [row])[b] == PerBasket(baskets, rows)[b]
              + if b == row.basketNo && row.status != Released then row.amount else 0 {
      Appended(rows, row, b, Attached);
      Appended(rows, row, b, Matched);
    }
  }

  lemma {:induction false} GroupedByBasket(baskets: set<Id>, rows: seq<Row>)
    requires forall i :: 0 <= i < |rows| ==> rows[i].basketNo in baskets
    ensures Total(PerBasket(baskets, rows)) == PickedSum(rows, Held)
  {
    if rows == [] {
      TotalWithout(PerBasket(baskets, rows), map[]);
    } else {
      var n := |rows| - 1;
      var rest, row := rows[..n], rows[n];
      assert forall i :: 0 <= i < n ==> rest[i] == rows[i];
      GroupedByBasket(baskets, rest);
      var before := PerBasket(baskets, rest);
      var gain := if row.status == Released then 0 else row.amount;
      TotalSet(before, row.basketNo, before[row.basketNo] + gain);
      PerBasketStep(baskets, rest, row);
      assert rows == rest + [row];
    }
  }

  lemma HeldIsPicked(db: Database, rate: int, d: Id)
    requires Core(db, rate)
    ensures d in HeldAmounts(db) <==> d in Picked(db.rows, Held)
    ensures d in HeldAmounts(db) ==> HeldAmounts(db)[d] == Picked(db.rows, Held)[d]
  {
    assert forall i :: 0 <= i < |db.rows| ==> RowOk(db, db.rows[i]);
    PickedAre(db.rows, Held, d);
    if d in HeldAmounts(db) {
      assert OrderOk(db, d);
      var i :| 0 <= i < |db.rows| && db.rows[i].depositNo == d && db.rows[i].status != Released;
      assert Picks(Held, db.rows[i]);
    }
  }

  lemma HeldByRows(db: Database, rate: int)
    requires Core(db, rate)
    ensures Total(HeldAmounts(db)) == PickedSum(db.rows, Held)
  {
    PickedTotal(db.rows, Held);
    forall d ensures d in HeldAmounts(db) <==> d in Picked(db.rows, Held)
             ensures d in HeldAmounts(db) ==> HeldAmounts(db)[d] == Picked(db.rows, Held)[d] {
      HeldIsPicked(db, rate, d);
    }
    assert Picked(db.rows, Held) == HeldAmounts(db);
  }

  // The amounts of one status, with zero for every other basket.
  ghost function OfStatus(db: Database, status: int): map<Id, int>
  {
    map b | b in db.baskets :: if db.baskets[b].status == status then db.baskets[b].current else 0
  }

  lemma BasketHolds(db: Database, rate: int, b: Id)
    requires Core(db, rate) && b in db.baskets
    ensures Sum(db.rows, b, Attached) + Sum(db.rows, b, Matched)
            == OfStatus(db, WAITING)[b] + OfStatus(db, MATCHED)[b]
  {
    assert forall i :: 0 <= i < |db.rows| ==> RowOk(db, db.rows[i]);
    assert BasketOk(db, b);
    if db.baskets[b].status != WAITING {
      SumNone(db.rows, b, Attached);
    }
    if db.baskets[b].status == MATCHED {
      var m :| m in db.records && db.records[m].basketNo == b;
      assert RecordOk(db, rate, m);
      if db.records[m].short > 0 {
        PaidTheMinimum(db.records[m], rate);
      }
    } else {
      SumNone(db.rows, b, Matched);
    }
  }

  lemma PaidByBasket(db: Database, rate: int)
    requires Core(db, rate)
    ensures Total(PaidAmounts(db)) == Total(OfStatus(db, MATCHED))
  {
    var matched := map b | b in db.baskets && db.baskets[b].status == MATCHED :: db.baskets[b].current;
    TotalWithout(OfStatus(db, MATCHED), matched);
    var to := map m | m in db.records :: db.records[m].basketNo;
    assert forall m :: m in db.records ==> RecordOk(db, rate, m);
    forall b | b in matched ensures exists m :: m in PaidAmounts(db) && to[m] == b {
      var m :| m in db.records && db.records[m].basketNo == b;
      assert m in PaidAmounts(db) && to[m] == b;
    }
    TotalRenamed(PaidAmounts(db), matched, to);
  }

  lemma BooksBalance(db: Database, rate: int)
    requires Core(db, rate)
    ensures Total(WaitingAmounts(db)) + Total(PaidAmounts(db)) == Total(HeldAmounts(db))
  {
    HeldByRows(db, rate);
    assert forall i :: 0 <= i < |db.rows| ==> RowOk(db, db.rows[i]);
    GroupedByBasket(db.baskets.Keys, db.rows);
    forall b | b in db.baskets
      ensures PerBasket(db.baskets.Keys, db.rows)[b] == OfStatus(db, WAITING)[b] + OfStatus(db, MATCHED)[b] {
      BasketHolds(db, rate, b);
    }
    TotalPlus(PerBasket(db.baskets.Keys, db.rows), OfStatus(db, WAITING), OfStatus(db, MATCHED));
    TotalWithout(OfStatus(db, WAITING), WaitingAmounts(db));
    PaidByBasket(db, rate);
  }

  // ----- the two ways to a record

  predicate PaidInFull(rec: Record)
  {
    rec.short == 0 && rec.matched == rec.target
  }

  predicate PaidShort(rec: Record, rate: int)
  {
    && rec.short > 0 && rec.matched < rec.target && MinAmount.Pays(rec.target, rate, rec.matched)
    && (MinAmount.NoOverflow(rec.target, rate) ==> MinAmount.MinComplete(rec.target, rate) <= rec.matched)
  }

  lemma SubmittedRecord(s: Sys, rate: int, no: Id, order: Order, now: int, b: Id, m: Id, stored: bool, x: Id)
    requires Good(s, rate) && ValidDeposit(order, now) && StatusOr(order.status) == WAITING
    requires b in ShardOf(s, order) && P.Chooses(ShardOf(s, order), order.amount, b)
    requires x !in s.db.records && x in Submit(s, no, order, now, Some(b), m, stored).db.records
    ensures PaidInFull(Submit(s, no, order, now, Some(b), m, stored).db.records[x])
  {
    var db := SaveDeposit(s.db, no, order.(status := WAITING));
    var r := ResultFor(s, no, order, b);
    SubmitIs(s, no, order, now, b, m, stored, db);
    ChosenPlaces(s, rate, no, order, b);
    if r.matched && PersistMatch(db, no, order.amount, r, m).Committed? {
      Stale.CommittedIs(Stale.Detailed(db, r, no, order.amount), r, m);
    }
  }

  lemma ExpiredRecord(s: Sys, rate: int, no: Id, read: BasketRow, m: Id, x: Id)
    requires Good(s, rate) && no in s.db.baskets && ReadOf(read, s.db.baskets[no])
    requires x !in s.db.records && x in Expire(s, no, read, rate, m).db.records
    ensures PaidShort(Expire(s, no, read, rate, m).db.records[x], rate)
  {
    ExpiryIs(s.db, rate, no, read, m);
    assert BasketOk(s.db, no);
    PaidTheMinimum(Expire(s, no, read, rate, m).db.records[x], rate);
  }

  // A short payment of at least the minimum, wherever the minimum does not overflow.
  lemma PaidTheMinimum(rec: Record, rate: int)
    requires rec.target > 0 && rec.short > 0 && rec.matched < rec.target
    requires MinAmount.Pays(rec.target, rate, rec.matched)
    ensures PaidShort(rec, rate)
  {
    if MinAmount.NoOverflow(rec.target, rate) {
      MinAmount.PaysIsMinimum(rec.target, rate, rec.matched);
    }
  }

  lemma UnplacedKeepsRecords(s: Sys, no: Id, order: Order, now: int, choice: Option<Id>, m: Id, stored: bool)
    requires choice.Some? ==> choice.value in ShardOf(s, order)
    requires !(ValidDeposit(order, now) && StatusOr(order.status) == WAITING && choice.Some?)
    ensures Submit(s, no, order, now, choice, m, stored).db.records == s.db.records
  {}

  lemma NewSubmitted(s: Sys, rate: int, no: Id, order: Order, now: int, choice: Option<Id>, m: Id, stored: bool, x: Id)
    requires Good(s, rate) && (choice.Some? ==> choice.value in ShardOf(s, order))
    requires P.ChoiceFor(ShardOf(s, order), order.amount, choice)
    requires x !in s.db.records && x in Submit(s, no, order, now, choice, m, stored).db.records
    ensures PaidInFull(Submit(s, no, order, now, choice, m, stored).db.records[x])
  {
    if ValidDeposit(order, now) && StatusOr(order.status) == WAITING && choice.Some? {
      SubmittedRecord(s, rate, no, order, now, choice.value, m, stored, x);
    } else {
      UnplacedKeepsRecords(s, no, order, now, choice, m, stored);
    }
  }

  lemma OthersKeepRecords(s: Sys, rate: int, e: Event)
    requires Possible(s, e) && (e.Created? || e.WaitingDue? || e.LockedDue?)
    ensures Next(s, rate, e).db.records == s.db.records
  {}

  // What a step really does, with or without a crash behind it.
  function Cause(e: Event): Event
  {
    match e
    case Crashed(last) => Cause(last)
    case _ => e
  }

  // A record that a deposit brings about is paid in full, one of an expiry is paid short
  // by at least the minimum, and no other step makes one.
  lemma {:induction false} NewRecord(s: Sys, rate: int, e: Event, m: Id)
    requires Good(s, rate) && Possible(s, e) && Enabled(s, e)
    requires m !in s.db.records && m in Next(s, rate, e).db.records
    ensures var rec := Next(s, rate, e).db.records[m];
            || (Cause(e).Submitted? && PaidInFull(rec))
            || (Cause(e).BasketDue? && PaidShort(rec, rate))
  {
    match e
    case Created(no, row, now) => OthersKeepRecords(s, rate, e);
    case Submitted(no, order, now, choice, x, stored) =>
      NewSubmitted(s, rate, no, order, now, choice, x, stored, m);
    case WaitingDue(no) => OthersKeepRecords(s, rate, e);
    case LockedDue(no) => OthersKeepRecords(s, rate, e);
    case BasketDue(no, read, x) => ExpiredRecord(s, rate, no, read, x, m);
    case Crashed(last) => NewRecord(s, rate, last, m);
  }

  // In every reachable state the books balance, and so does every record.
  lemma ReachableBooks(rate: int, es: seq<Event>)
    requires Runs.IsRun(Runs.START, rate, es) && Runs.AllAllowed(Runs.START, rate, es)
    ensures var db := Runs.After(Runs.START, rate, es).db;
            && Total(WaitingAmounts(db)) + Total(PaidAmounts(db)) == Total(HeldAmounts(db))
            && (forall m :: m in db.records ==>
                  && db.records[m].matched + db.records[m].short == db.records[m].target
                  && Total(SharesOf(db, m)) == db.records[m].matched
                  && (PaidInFull(db.records[m]) || PaidShort(db.records[m], rate)))
            && (forall b :: b in db.baskets && db.baskets[b].status == WAITING ==>
                  0 <= db.baskets[b].current < db.baskets[b].target
                  && db.baskets[b].current == Sum(db.rows, b, Attached))
  {
    var db := Runs.After(Runs.START, rate, es).db;
    Runs.ReachableGood(rate, es);
    BooksBalance(db, rate);
    forall m | m in db.records
      ensures db.records[m].matched + db.records[m].short == db.records[m].target
              && Total(SharesOf(db, m)) == db.records[m].matched
              && (PaidInFull(db.records[m]) || PaidShort(db.records[m], rate)) {
      RecordBalances(db, rate, m);
      assert RecordOk(db, rate, m);
      if db.records[m].short > 0 {
        PaidTheMinimum(db.records[m], rate);
      }
    }
    assert forall b :: b in db.baskets ==> BasketOk(db, b);
  }
}
