// The use case itself (internal/biz/matching.go), step by step over its tables and
// its shards. Each method is proved to do what the state machine of module System
// says; the runs of that machine carry the theorems.

module Usecase {
  import opened Model
  import P = Pool
  import opened Basket
  import opened Rows
  import opened Tables
  import opened Recovery
  import opened System
  import Sweep
  import MinAmount
  import opened Outcomes
  import opened Ledger
  import opened Shards

  // ----- transactions that loop

  // Lines 692-711, over the rows the query of lines 681-690 selects.
  method BuildPartialMatchResult(no: Id, read: BasketRow, rows: seq<Row>) returns (r: MatchResult)
    ensures r == BuildPartial(no, read, rows)
  {
    var depositNos: seq<Id>, matched := [], 0;
    for i := 0 to |rows|
      invariant depositNos == AttachedNos(rows[..i], no)
      invariant matched == Sum(rows[..i], no, Attached)
    {
      assert rows[..i + 1][..i] == rows[..i];
      if rows[i].basketNo == no && rows[i].status == Attached {
        depositNos := depositNos + [rows[i].depositNo];
        matched := matched + rows[i].amount;
      }
    }
    assert rows[..|rows|] == rows;
    r := MatchResult(true, true, no, read.withdrawNo, read.channel, read.currency, depositNos,
                     read.target, matched, read.target - matched, false, NoFailure);
  }

  // Lines 610-614.
  method PersistMatchedDeposits(db: Database, matchNo: Id, r: MatchResult) returns (tx: Tx)
    ensures tx == PersistShares(db, matchNo, r, r.depositNos)
  {
    tx := Committed(db);
    var i := 0;
    while i < |r.depositNos| && tx.Committed?
      invariant i <= |r.depositNos|
      invariant tx == PersistShares(db, matchNo, r, r.depositNos[..i])
    {
      assert r.depositNos[..i + 1][..i] == r.depositNos[..i];
      tx := PersistShare(tx.db, matchNo, r, r.depositNos[i]);
      i := i + 1;
    }
    if tx.Committed? {
      assert r.depositNos[..i] == r.depositNos;
    } else {
      StaysRolledBack(db, matchNo, r, r.depositNos, i);
    }
  }

  lemma {:induction false} StaysRolledBack(db: Database, matchNo: Id, r: MatchResult, nos: seq<Id>, i: nat)
    requires i <= |nos| && PersistShares(db, matchNo, r, nos[..i]) == RolledBack
    ensures PersistShares(db, matchNo, r, nos) == RolledBack
  {
    if i == |nos| {
      assert nos[..i] == nos;
    } else {
      var n := |nos| - 1;
      assert nos[..n][..i] == nos[..i];
      StaysRolledBack(db, matchNo, r, nos[..n], i);
    }
  }

  // Lines 592-642.
  method PersistCompletedMatch(db: Database, r: MatchResult, matchNo: Id) returns (tx: Tx)
    ensures tx == PersistCompleted(db, r, matchNo)
  {
    if matchNo in db.records || exists m | m in db.records :: db.records[m].basketNo == r.basketNo {
      return RolledBack;
    }
    var record := Record(r.basketNo, r.withdrawNo, r.channel, r.currency, r.target, r.matchedAmount, r.short);
    tx := PersistMatchedDeposits(db.(records := db.records[matchNo := record]), matchNo, r);
    if tx.RolledBack? {
      return;
    }
    var paid := tx.db;
    if r.basketNo !in paid.baskets || paid.baskets[r.basketNo].status != WAITING {
      return RolledBack;
    }
    var basket := paid.baskets[r.basketNo].(status := MATCHED, current := r.matchedAmount);
    tx := Committed(paid.(baskets := paid.baskets[r.basketNo := basket],
                          rows := Restatus(paid.rows, OfBasket(r.basketNo), Matched)));
  }

  // Lines 541-551.
  method PersistMatchResult(db: Database, no: Id, amount: int, r: MatchResult, matchNo: Id) returns (tx: Tx)
    ensures tx == PersistMatch(db, no, amount, r, matchNo)
  {
    tx := CreateBasketDeposit(db, no, amount, r);
    if tx.Committed? {
      if r.matched {
        tx := PersistCompletedMatch(tx.db, r, matchNo);
      } else {
        tx := PersistAttached(tx.db, no, r);
      }
    }
  }

  // Lines 310-318: the basket of a row, with its deposits in id order.
  method RebuiltBasket(db: Database, no: Id) returns (basket: Basket)
    requires no in db.baskets
    ensures fresh(basket) && basket.no == no && basket.View() == Restored(db, no)
  {
    var row := db.baskets[no];
    basket := new Basket(no, NewBasket(row));
    for i := 0 to |db.rows|
      invariant basket.View() == NewBasket(row).(deposits := Active(db.rows[..i], no))
    {
      assert db.rows[..i + 1][..i] == db.rows[..i];
      if db.rows[i].basketNo == no && db.rows[i].status != Released {
        basket.depositNos := basket.depositNos + [db.rows[i].depositNo];
      }
    }
    assert db.rows[..|db.rows|] == db.rows;
  }

  lemma InStepNotRefiled(db: Database, mem: Memory, no: Id, row: BasketRow)
    requires Sync(db, mem) && no !in db.baskets
    ensures !Refiled(PoolOf(mem, Key(row.channel, row.currency)), no, NewBasket(row))
  {
    assert PoolOf(mem, Key(row.channel, row.currency)) == Recovered(db, Key(row.channel, row.currency));
  }

  // What the engine says it attached was stored, and the tables then take it.
  lemma StoredIs(db: Database, mem: Memory, no: Id, order: Order, matchNo: Id, stored: bool, choice: Option<Id>,
                 result: MatchResult, failed: bool, pool: P.Pool)
    requires var saved := SaveDeposit(db, no, order.(status := StatusOr(order.status)));
             var key := Key(order.channel, order.currency);
             Matches(PoolOf(mem, key), key, EngineDeposit(no, order), Storing(saved, no, order.amount, matchNo, stored),
                     choice, result, failed, pool)
    ensures choice.Some? ==> choice.value in ShardOf(Sys(db, mem), order)
    ensures StatusOr(order.status) == WAITING ==> P.ChoiceFor(ShardOf(Sys(db, mem), order), order.amount, choice)
    ensures var saved := SaveDeposit(db, no, order.(status := StatusOr(order.status)));
            var key := Key(order.channel, order.currency);
            var tx := PersistMatch(saved, no, order.amount, result, matchNo);
            && (result.attached && !failed ==> tx.Committed?)
            && Matching(Sys(db, mem), no, order, choice, matchNo, stored).failed == failed
            && Matching(Sys(db, mem), no, order, choice, matchNo, stored).result == result
            && SubmitLocked(Sys(db, mem), no, order, choice, matchNo, stored)
               == Sys(if result.attached && !failed then tx.db else saved, mem[key := pool])
  {}

  lemma ExpiryPays(db: Database, rate: int, no: Id, read: BasketRow, m: Id)
    ensures Inv(db, rate) && no in db.baskets && read == db.baskets[no] && read.status == 1 && m !in db.records
            ==> var e := Tables.ExpireBasket(db, no, read, rate, m);
                !e.failed && ExpiredRight(db, e.db, rate, no, m)
  {
    if Inv(db, rate) && no in db.baskets && read == db.baskets[no] && read.status == 1 && m !in db.records {
      ExpiryRight(db, rate, no, m);
    }
  }

  // What creating a basket comes to, with a generated number for a missing one.
  ghost predicate CreatedAs(s: Sys, after: Sys, number: Id, generated: Id, row: BasketRow, now: int, failed: bool)
  {
    var no := if number == Id("") then generated else number;
    && (failed <==> !(BasketFit(row, now) && BasketUnused(s.db, no, row.withdrawNo)))
    && if failed then after == s else BasketStored(s, after, no, row)
  }

  lemma CreateIs(s: Sys, number: Id, generated: Id, row: BasketRow, now: int)
    ensures var no := NumberOr(number, generated);
            var failed := ValidBasket(row, now) ==>
                            InsertBasket(s.db, no, row.(status := StatusOr(row.status))).RolledBack?;
            CreatedAs(s, Create(s, no, row, now), number, generated, row, now, failed)
  {
    CreateLeaves(s, NumberOr(number, generated), row, now);
  }

  // The process holds the shards; the tables are elsewhere, so each method takes them
  // as they are and returns them as they become.
  class MatchingUsecase {
    const dir: Directory
    const rate: int

    ghost predicate Valid()
      reads dir, dir.objects
    {
      dir.Valid()
    }

    // A process starts with empty shards.
    constructor (rate: int)
      ensures Valid() && this.rate == rate && dir.mem == map[]
      ensures fresh(dir) && fresh(dir.objects)
    {
      this.rate := rate;
      dir := new Directory();
    }

    // Lines 75-106; a missing number is replaced by a generated one.
    method CreateBasket(db: Database, number: Id, row: BasketRow, now: int, generated: Id)
      returns (after: Database, failed: bool)
      requires Valid()
      modifies dir, dir.objects
      ensures fresh(dir.objects - old(dir.objects))
      ensures failed
              || !Refiled(PoolOf(old(dir.mem), Key(row.channel, row.currency)), NumberOr(number, generated),
                          NewBasket(row.(status := StatusOr(row.status))))
              ==> Valid()
      ensures Sys(after, dir.mem) == Create(Sys(db, old(dir.mem)), NumberOr(number, generated), row, now)
      ensures failed <==>
                (ValidBasket(row, now) ==>
                   InsertBasket(db, NumberOr(number, generated), row.(status := StatusOr(row.status))).RolledBack?)
      ensures CreatedAs(Sys(db, old(dir.mem)), Sys(after, dir.mem), number, generated, row, now, failed)
    {
      CreateIs(Sys(db, dir.mem), number, generated, row, now);
      var no, stored := NumberOr(number, generated), row.(status := StatusOr(row.status));
      if !ValidBasket(row, now) || InsertBasket(db, no, stored).RolledBack? {
        return db, true;
      }
      after, failed := InsertBasket(db, no, stored).db, false;
      Enter(no, stored);
    }

    // Line 105: a new basket in its shard.
    method Enter(no: Id, row: BasketRow)
      requires Valid()
      modifies dir, dir.objects
      ensures fresh(dir.objects - old(dir.objects))
      ensures !Refiled(PoolOf(old(dir.mem), Key(row.channel, row.currency)), no, NewBasket(row)) ==> Valid()
      ensures var key := Key(row.channel, row.currency);
              dir.mem == old(dir.mem)[key := PoolOf(old(dir.mem), key)[no := NewBasket(row)]]
    {
      ghost var more := dir.AddNew(Key(row.channel, row.currency), no, NewBasket(row));
    }

    // Storing a result leaves the shards alone.
    method Persist(db: Database, no: Id, amount: int, r: MatchResult, matchNo: Id) returns (tx: Tx)
      requires Valid()
      ensures Valid() && unchanged(dir)
      ensures tx == PersistMatch(db, no, amount, r, matchNo)
    {
      tx := PersistMatchResult(db, no, amount, r, matchNo);
    }

    // Lines 200-217. The tables take what the engine asked its callback to store.
    method SubmitDepositLocked(db: Database, no: Id, order: Order, matchNo: Id, stored: bool)
      returns (after: Database, result: MatchResult, failed: bool, ghost choice: Option<Id>)
      requires Valid()
      modifies dir, dir.objects
      ensures Valid() && fresh(dir.objects - old(dir.objects))
      ensures choice.Some? ==> choice.value in ShardOf(Sys(db, old(dir.mem)), order)
      ensures StatusOr(order.status) == WAITING ==>
                P.ChoiceFor(ShardOf(Sys(db, old(dir.mem)), order), order.amount, choice)
      ensures Sys(after, dir.mem) == SubmitLocked(Sys(db, old(dir.mem)), no, order, choice, matchNo, stored)
      ensures var out := Matching(Sys(db, old(dir.mem)), no, order, choice, matchNo, stored);
              failed == out.failed && result == Answer(out)
    {
      after := SaveDeposit(db, no, order.(status := StatusOr(order.status)));
      var key := Key(order.channel, order.currency);
      var commit := Storing(after, no, order.amount, matchNo, stored);
      result, failed, choice := dir.MatchDeposit(key, EngineDeposit(no, order), commit);
      StoredIs(db, old(dir.mem), no, order, matchNo, stored, choice, result, failed, dir.mem[key]);
      if failed {
        result := NO_RESULT;
      } else if result.attached {
        var tx := Persist(after, no, order.amount, result, matchNo);
        after := tx.db;
      }
    }

    // Lines 147-162.
    method SubmitDeposit(db: Database, number: Id, deposit: Order, now: int, generated: Id, matchNo: Id, stored: bool)
      returns (after: Database, result: MatchResult, failed: bool, ghost choice: Option<Id>)
      requires Valid()
      modifies dir, dir.objects
      ensures Valid() && fresh(dir.objects - old(dir.objects))
      ensures var no, order := NumberOr(number, generated), Normalized(deposit, now);
              && (choice.Some? ==> choice.value in ShardOf(Sys(db, old(dir.mem)), order))
              && (ValidDeposit(order, now) && StatusOr(order.status) == WAITING ==>
                    P.ChoiceFor(ShardOf(Sys(db, old(dir.mem)), order), order.amount, choice))
              && Sys(after, dir.mem) == Submit(Sys(db, old(dir.mem)), no, order, now, choice, matchNo, stored)
              && if !ValidDeposit(order, now) then failed && result == NO_RESULT
                 else var out := Matching(Sys(db, old(dir.mem)), no, order, choice, matchNo, stored);
                      failed == out.failed && result == Answer(out)
      ensures var no, order := NumberOr(number, generated), Normalized(deposit, now);
              && Defaulted(number, generated, deposit, now, no, order)
              && Told(Sys(db, old(dir.mem)), no, order, now, stored, result, failed)
    {
      var no, order := NumberOr(number, generated), Normalized(deposit, now);
      DefaultsAre(number, generated, deposit, now);
      if !ValidDeposit(order, now) {
        return db, NO_RESULT, true, None;
      }
      after, result, failed, choice := SubmitDepositLocked(db, no, order, matchNo, stored);
      AnswerTold(Sys(db, old(dir.mem)), no, order, now, choice, matchNo, stored);
    }

    // Lines 368-406.
    method ExpireLockedDeposit(db: Database, no: Id) returns (after: Database, failed: bool)
      requires Valid()
      modifies dir, dir.objects
      ensures Valid() && fresh(dir.objects - old(dir.objects))
      ensures failed <==> no !in db.orders || ExpireLockedOrder(db, no).None?
      ensures Sys(after, dir.mem) == if failed then Sys(db, old(dir.mem)) else ExpireLocked(Sys(db, old(dir.mem)), no)
    {
      var done := ExpireLockedOrder(db, no);
      if no !in db.orders || done.None? {
        return db, true;
      }
      var detail := done.value.1;
      after, failed := done.value.0, false;
      dir.ReleaseDeposit(Key(db.orders[no].channel, db.orders[no].currency), detail.basketNo, no, detail.amount);
    }

    // Lines 480-500.
    method CompleteExpiredBasket(db: Database, no: Id, read: BasketRow, matchNo: Id) returns (c: Completion)
      ensures c == CompleteExpired(db, no, read, rate, matchNo)
    {
      var r := BuildPartialMatchResult(no, read, db.rows);
      if r.depositNos == [] || r.matchedAmount < MinAmount.MinCompleteInt64(r.target, rate) {
        return Skipped;
      }
      var tx := PersistCompletedMatch(db, r, matchNo);
      c := if tx.RolledBack? then CompletionFailed else Completed(tx.db);
    }

    // What happens to the tables, and whether the basket leaves its shard.
    method ExpireRows(db: Database, no: Id, read: BasketRow, matchNo: Id)
      returns (after: Database, changed: bool, failed: bool)
      ensures BasketExpiry(after, changed, failed) == Tables.ExpireBasket(db, no, read, rate, matchNo)
    {
      var completion := Skipped;
      if CanCompletePartial(read, rate) {
        completion := CompleteExpiredBasket(db, no, read, matchNo);
      }
      match completion {
        case CompletionFailed => return db, false, true;
        case Completed(done) => return done, true, false;
        case Skipped =>
          var closed := CloseBasket(db, no);
          return closed.0, closed.1, false;
      }
    }

    // Lines 427-472, with the row the sweep had read.
    method ExpireBasket(db: Database, no: Id, read: BasketRow, matchNo: Id) returns (after: Database, failed: bool)
      requires Valid()
      modifies dir, dir.objects
      ensures Valid() && fresh(dir.objects - old(dir.objects))
      ensures Sys(after, dir.mem) == Expire(Sys(db, old(dir.mem)), no, read, rate, matchNo)
      ensures failed <==> Tables.ExpireBasket(db, no, read, rate, matchNo).failed
      ensures Inv(db, rate) && no in db.baskets && read == db.baskets[no] && read.status == 1 && matchNo !in db.records
              ==> !failed && ExpiredRight(db, after, rate, no, matchNo)
    {
      ExpiryPays(db, rate, no, read, matchNo);
      var changed;
      after, changed, failed := ExpireRows(db, no, read, matchNo);
      if changed {
        dir.RemoveBasket(Key(read.channel, read.currency), no);
      }
    }

    // ----- loops over what a query returned

    // Lines 323-346.
    method ExpireWaitingDeposits(db: Database, nos: seq<Id>) returns (after: Database)
      ensures after == Sweep.WaitingPhase(db, nos)
    {
      after := db;
      for i := 0 to |nos|
        invariant after == Sweep.WaitingPhase(db, nos[..i])
      {
        assert nos[..i + 1][..i] == nos[..i];
        after := ExpireWaitingOrder(after, nos[i]);
      }
      assert nos[..|nos|] == nos;
    }

    // Lines 349-365; the first error ends the loop.
    method ExpireLockedDeposits(db: Database, nos: seq<Id>) returns (after: Database, failed: bool)
      requires Valid()
      modifies dir, dir.objects
      ensures Valid() && fresh(dir.objects - old(dir.objects))
      ensures Sweep.Progress(Sys(after, dir.mem), failed) == Sweep.LockedPhase(Sys(db, old(dir.mem)), nos)
    {
      after, failed := db, false;
      var i := 0;
      while i < |nos| && !failed
        invariant i <= |nos| && Valid() && fresh(dir.objects - old(dir.objects))
        invariant Sweep.Progress(Sys(after, dir.mem), failed) == Sweep.LockedPhase(Sys(db, old(dir.mem)), nos[..i])
      {
        assert nos[..i + 1][..i] == nos[..i];
        after, failed := ExpireLockedDeposit(after, nos[i]);
        i := i + 1;
      }
      LockedEnds(Sys(db, old(dir.mem)), nos, i);
    }

    // Lines 409-424, with the rows as the query returned them.
    method ExpireBaskets(db: Database, nos: seq<Id>, ms: seq<Id>) returns (after: Database, failed: bool)
      requires Valid() && |ms| == |nos| && forall i :: 0 <= i < |nos| ==> nos[i] in db.baskets
      modifies dir, dir.objects
      ensures Valid() && fresh(dir.objects - old(dir.objects))
      ensures Sweep.Progress(Sys(after, dir.mem), failed)
              == Sweep.BasketPhase(Sys(db, old(dir.mem)), nos, db.baskets, rate, ms)
    {
      after, failed := db, false;
      var i := 0;
      while i < |nos| && !failed
        invariant i <= |nos| && Valid() && fresh(dir.objects - old(dir.objects))
        invariant Sweep.Progress(Sys(after, dir.mem), failed)
                  == Sweep.BasketPhase(Sys(db, old(dir.mem)), nos[..i], db.baskets, rate, ms[..i])
      {
        assert nos[..i + 1][..i] == nos[..i] && ms[..i + 1][..i] == ms[..i];
        after, failed := ExpireBasket(after, nos[i], db.baskets[nos[i]], ms[i]);
        i := i + 1;
      }
      BasketsEnd(Sys(db, old(dir.mem)), nos, db.baskets, rate, ms, i);
    }

    // Lines 255-276, where the three queries find what the phases before them left.
    method ExpireTimeouts(db: Database, now: int, limit: int, w: seq<Id>, l: seq<Id>, b: seq<Id>, ms: seq<Id>)
      returns (after: Database, failed: bool)
      requires Valid() && |ms| == |b| && Sweep.Lists(Sys(db, dir.mem), now, limit, w, l, b)
      modifies dir, dir.objects
      ensures Valid() && fresh(dir.objects - old(dir.objects))
      ensures forall i :: 0 <= i < |b| ==>
                b[i] in Sweep.LockedPhase(Sweep.AfterWaiting(Sys(db, old(dir.mem)), w), l).s.db.baskets
      ensures Sweepable(Sys(db, old(dir.mem)), rate, now, limit, ms) ==> !failed && Swept(db, after, rate, now)
      ensures Sweep.Progress(Sys(after, dir.mem), failed)
              == Sweep.ExpireTimeouts(Sys(db, old(dir.mem)), rate, w, l, b, ms)
    {
      DepositPhasesKeepBaskets(Sys(db, dir.mem), w, l);
      SweepOutcome(Sys(db, dir.mem), rate, now, limit, w, l, b, ms);
      after := ExpireWaitingDeposits(db, w);
      after, failed := ExpireLockedDeposits(after, l);
      if !failed {
        after, failed := ExpireBaskets(after, b, ms);
      }
    }

    // Lines 309-320.
    method RestoreBasket(db: Database, no: Id)
      requires Valid() && no in db.baskets
      modifies dir, dir.objects
      ensures fresh(dir.objects - old(dir.objects))
      ensures no !in PoolOf(old(dir.mem), KeyOf(db, no)) ==> Valid()
      ensures dir.mem == old(dir.mem)[KeyOf(db, no) := PoolOf(old(dir.mem), KeyOf(db, no))[no := Restored(db, no)]]
    {
      var basket := RebuiltBasket(db, no);
      assert dir.Valid();
      ghost var more: set<object> := dir.AddBasket(KeyOf(db, no), basket);
      more := more + {basket};
      assert dir.objects == old(dir.objects) + more;
    }

    // Lines 127-144.
    method RecoverActiveBaskets(db: Database, limit: int, nos: seq<Id>)
      requires Valid() && dir.mem == map[] && Loads(db, limit, nos)
      modifies dir, dir.objects
      ensures Valid() && dir.mem == RestoreAll(db, nos)
      ensures Sync(db, dir.mem) <==> limit <= 0 || |Waiting(db)| <= limit
    {
      for i := 0 to |nos|
        invariant Valid() && fresh(dir.objects - old(dir.objects))
        invariant dir.mem == RestoreAll(db, nos[..i])
      {
        assert nos[..i + 1][..i] == nos[..i] && nos[i] !in nos[..i];
        RestoreAllIs(db, nos[..i], KeyOf(db, nos[i]));
        RestoreBasket(db, nos[i]);
      }
      assert nos[..|nos|] == nos;
      StartUp(db, limit, nos);
    }
  }

  lemma {:induction false} LockedEnds(s: Sys, nos: seq<Id>, i: nat)
    requires i <= |nos| && (i == |nos| || Sweep.LockedPhase(s, nos[..i]).failed)
    ensures Sweep.LockedPhase(s, nos) == Sweep.LockedPhase(s, nos[..i])
  {
    if i == |nos| {
      assert nos[..i] == nos;
    } else {
      var n := |nos| - 1;
      assert nos[..n][..i] == nos[..i];
      LockedEnds(s, nos[..n], i);
    }
  }

  lemma {:induction false} BasketsEnd(s: Sys, nos: seq<Id>, listed: map<Id, BasketRow>, rate: int, ms: seq<Id>, i: nat)
    requires i <= |nos| == |ms| && forall j :: 0 <= j < |nos| ==> nos[j] in listed
    requires i == |nos| || Sweep.BasketPhase(s, nos[..i], listed, rate, ms[..i]).failed
    ensures Sweep.BasketPhase(s, nos, listed, rate, ms) == Sweep.BasketPhase(s, nos[..i], listed, rate, ms[..i])
  {
    if i == |nos| {
      assert nos[..i] == nos && ms[..i] == ms;
    } else {
      var n := |nos| - 1;
      assert nos[..n][..i] == nos[..i] && ms[..n][..i] == ms[..i];
      BasketsEnd(s, nos[..n], listed, rate, ms[..n], i);
    }
  }

  lemma {:induction false} LockedKeepsBaskets(s: Sys, nos: seq<Id>)
    ensures Sweep.LockedPhase(s, nos).s.db.baskets.Keys == s.db.baskets.Keys
  {
    if nos != [] {
      LockedKeepsBaskets(s, nos[..|nos| - 1]);
    }
  }

  // Tables and memory in order, a limit that cuts nothing off, new match numbers.
  ghost predicate Sweepable(s: Sys, rate: int, now: int, limit: int, ms: seq<Id>)
  {
    Good(s, rate) && Sweep.Covers(s.db, now, limit) && Sweep.Fresh(s.db, ms)
  }

  ghost predicate Swept(db: Database, after: Database, rate: int, now: int)
  {
    Sweep.NothingDue(after, now) && Sweep.Fated(db, after, rate, now) && Sweep.PaidByMinimum(db, after, rate, now)
  }

  lemma SweepOutcome(s: Sys, rate: int, now: int, limit: int, w: seq<Id>, l: seq<Id>, b: seq<Id>, ms: seq<Id>)
    requires Sweep.Lists(s, now, limit, w, l, b) && |ms| == |b|
    ensures forall i :: 0 <= i < |b| ==> b[i] in Sweep.LockedPhase(Sweep.AfterWaiting(s, w), l).s.db.baskets
    ensures var p := Sweep.ExpireTimeouts(s, rate, w, l, b, ms);
            Sweepable(s, rate, now, limit, ms) ==> !p.failed && Swept(s.db, p.s.db, rate, now)
  {
    if Sweepable(s, rate, now, limit, ms) {
      Sweep.SweepEndsAll(s, rate, now, limit, w, l, b, ms);
    }
  }

  lemma DepositPhasesKeepBaskets(s: Sys, w: seq<Id>, l: seq<Id>)
    ensures Sweep.LockedPhase(Sweep.AfterWaiting(s, w), l).s.db.baskets.Keys == s.db.baskets.Keys
  {
    Sweep.WaitingPhaseIs(s.db, w);
    LockedKeepsBaskets(Sweep.AfterWaiting(s, w), l);
  }
}
