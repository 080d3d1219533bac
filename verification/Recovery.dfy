// Rebuilding the shards from the tables (internal/biz/matching.go:127-144 and
// 309-320), and how each move of the tables changes what would be rebuilt.

module Recovery {
  import opened Model
  import P = Pool
  import opened Rows
  import opened Tables
  import opened Ledger
  import opened Moves
  import opened Releases

  // The key of a shard.
  datatype Key = Key(channel: Id, currency: Id)

  type Memory = map<Key, P.Pool>

  function PoolOf(mem: Memory, key: Key): P.Pool
  {
    if key in mem then mem[key] else map[]
  }

  // One basket as restoreBasket builds it.
  function Restored(db: Database, b: Id): P.BasketView
    requires b in db.baskets
  {
    var row := db.baskets[b];
    P.BasketView(row.withdrawNo, row.channel, row.currency, row.target, row.current,
                 Active(db.rows, b), row.status, row.expireAt)
  }

  function KeyOf(db: Database, b: Id): Key
    requires b in db.baskets
  {
    Key(db.baskets[b].channel, db.baskets[b].currency)
  }

  function Recovered(db: Database, key: Key): P.Pool
  {
    map b | b in db.baskets && db.baskets[b].status == WAITING && KeyOf(db, b) == key :: Restored(db, b)
  }

  // All shards that have a waiting basket.
  function Recover(db: Database): Memory
  {
    map key | key in (set b | b in db.baskets && db.baskets[b].status == WAITING :: KeyOf(db, b)) :: Recovered(db, key)
  }

  // Memory and tables agree: recovering now would rebuild the same shards.
  ghost predicate Sync(db: Database, mem: Memory)
  {
    forall key :: PoolOf(mem, key) == Recovered(db, key)
  }

  lemma RecoverSyncs(db: Database)
    ensures Sync(db, Recover(db))
  {
    forall key ensures PoolOf(Recover(db), key) == Recovered(db, key) {
      if key !in Recover(db) {
        assert forall b :: b in db.baskets && db.baskets[b].status == WAITING ==> KeyOf(db, b) != key;
        assert Recovered(db, key) == map[];
      }
    }
  }

  // Orders, records and shares do not matter.
  lemma RecoverOrders(db: Database, after: Database, key: Key)
    requires after.baskets == db.baskets && after.rows == db.rows
    ensures Recovered(after, key) == Recovered(db, key)
  {}

  // Without rows there are no deposits.
  lemma {:induction false} NoActive(rows: seq<Row>, b: Id)
    requires forall i :: 0 <= i < |rows| ==> rows[i].basketNo != b
    ensures Active(rows, b) == []
  {
    if rows != [] {
      var n := |rows| - 1;
      assert forall i :: 0 <= i < n ==> rows[..n][i] == rows[i];
      NoActive(rows[..n], b);
    }
  }

  lemma RecoverInserted(db: Database, no: Id, row: BasketRow, key: Key)
    requires no !in db.baskets && row.status == WAITING
    requires forall i :: 0 <= i < |db.rows| ==> db.rows[i].basketNo in db.baskets
    ensures var after := db.(baskets := db.baskets[no := row]);
            Recovered(after, key)
            == if key == Key(row.channel, row.currency)
               then Recovered(db, key)[no := P.BasketView(row.withdrawNo, row.channel, row.currency, row.target,
                                                          row.current, [], row.status, row.expireAt)]
               else Recovered(db, key)
  {
    NoActive(db.rows, no);
    var after := db.(baskets := db.baskets[no := row]);
    assert forall b :: b in db.baskets ==> Restored(after, b) == Restored(db, b) && KeyOf(after, b) == KeyOf(db, b);
    assert forall b :: b in Recovered(after, key) <==>
             b in Recovered(db, key) || (b == no && key == Key(row.channel, row.currency));
  }

  // Tables that differ in one basket only.
  ghost predicate DifferAt(db: Database, after: Database, b: Id)
  {
    && b in db.baskets && db.baskets[b].status == WAITING && after.baskets.Keys == db.baskets.Keys
    && forall c :: c in db.baskets && c != b ==>
         after.baskets[c] == db.baskets[c] && Active(after.rows, c) == Active(db.rows, c)
  }

  lemma RecoverChanged(db: Database, after: Database, b: Id, key: Key)
    requires DifferAt(db, after, b) && after.baskets[b].status == WAITING && KeyOf(after, b) == KeyOf(db, b)
    ensures Recovered(after, key)
            == if key == KeyOf(db, b) then Recovered(db, key)[b := Restored(after, b)] else Recovered(db, key)
  {
    assert forall c :: c in db.baskets && c != b ==> Restored(after, c) == Restored(db, c);
  }

  // A basket that stops waiting leaves its shard and nothing else changes.
  lemma RecoverGone(db: Database, after: Database, b: Id, key: Key)
    requires DifferAt(db, after, b) && after.baskets[b].status != WAITING
    ensures Recovered(after, key) == Recovered(db, key) - {b}
  {
    assert forall c :: c in db.baskets && c != b ==> Restored(after, c) == Restored(db, c);
  }

  lemma RecoverLocked(db: Database, d: Id, b: Id, amount: int, key: Key)
    requires b in db.baskets && db.baskets[b].status == WAITING && d in db.orders
    ensures Recovered(Lock(db, d, b, amount), key)
            == if key == KeyOf(db, b) then P.Attached(Recovered(db, key), b, d, amount) else Recovered(db, key)
  {
    var after := Lock(db, d, b, amount);
    var row := Row(b, db.baskets[b].withdrawNo, d, amount, Attached);
    forall c | c in db.baskets ensures Active(after.rows, c) == Active(db.rows, c) + if c == b then [d] else [] {
      Appended(db.rows, row, c, Attached);
    }
    RecoverChanged(db, after, b, key);
  }

  lemma RecoverLeft(db: Database, after: Database, b: Id, st: RowStatus, key: Key)
    requires b in db.baskets && db.baskets[b].status == WAITING
    requires b in after.baskets && after.baskets[b].status != WAITING
    requires after.baskets == db.baskets[b := after.baskets[b]] && after.rows == Restatus(db.rows, OfBasket(b), st)
    ensures Recovered(after, key) == Recovered(db, key) - {b}
  {
    forall c | c in db.baskets && c != b ensures Active(after.rows, c) == Active(db.rows, c) {
      OtherActive(db.rows, b, st, c);
    }
    RecoverGone(db, after, b, key);
  }

  lemma ReleasedLists(db: Database, rate: int, d: Id, c: Id)
    requires Core(db, rate) && ExpireLockedOrder(db, d).Some?
    ensures Active(ExpireLockedOrder(db, d).value.0.rows, c) == Without(Active(db.rows, c), d)
    ensures d in Active(db.rows, c) ==> c == ExpireLockedOrder(db, d).value.1.basketNo
  {
    ReleaseFinds(db, rate, d);
    MatchedIsStanding(db, rate, d, c);
    LockedIsAttached(db, rate, d, c);
    ReleasedActive(db.rows, d, c);
    ActiveAre(db.rows, c, d);
  }

  // A release changes one basket only, and that by the amount and the number.
  lemma ReleaseDiffers(db: Database, rate: int, d: Id)
    requires Core(db, rate) && ExpireLockedOrder(db, d).Some?
    ensures var (after, detail) := ExpireLockedOrder(db, d).value;
            && DifferAt(db, after, detail.basketNo) && after.baskets[detail.basketNo].status == WAITING
            && KeyOf(after, detail.basketNo) == KeyOf(db, detail.basketNo)
            && db.baskets[detail.basketNo].current >= detail.amount
            && Restored(after, detail.basketNo) == Restored(db, detail.basketNo).(
                 current := db.baskets[detail.basketNo].current - detail.amount,
                 deposits := Without(Active(db.rows, detail.basketNo), d))
  {
    var (after, detail) := ExpireLockedOrder(db, d).value;
    ReleaseFinds(db, rate, d);
    forall c | c in db.baskets && c != detail.basketNo ensures Active(after.rows, c) == Active(db.rows, c) {
      ReleasedLists(db, rate, d, c);
    }
    ReleasedLists(db, rate, d, detail.basketNo);
  }

  // The same in memory.
  lemma ReleasedPool(db: Database, b: Id, d: Id, amount: int, view: P.BasketView, key: Key)
    requires b in db.baskets && db.baskets[b].status == WAITING
    requires key == KeyOf(db, b) && db.baskets[b].current >= amount
    requires view == Restored(db, b).(current := db.baskets[b].current - amount,
                                      deposits := Without(Active(db.rows, b), d))
    ensures Recovered(db, key)[b := view] == P.Released(Recovered(db, key), b, d, amount)
  {}

  lemma RecoverReleased(db: Database, rate: int, d: Id, key: Key)
    requires Core(db, rate) && ExpireLockedOrder(db, d).Some?
    ensures var (after, detail) := ExpireLockedOrder(db, d).value;
            && detail.basketNo in db.baskets
            && Recovered(after, key)
               == if key == KeyOf(db, detail.basketNo)
                  then P.Released(Recovered(db, key), detail.basketNo, d, detail.amount)
                  else Recovered(db, key)
  {
    var (after, detail) := ExpireLockedOrder(db, d).value;
    var b := detail.basketNo;
    ReleaseDiffers(db, rate, d);
    RecoverChanged(db, after, b, key);
    if key == KeyOf(db, b) {
      ReleasedPool(db, b, d, detail.amount, Restored(after, b), key);
    }
  }

  // ----- loading at start-up, with a limit on the number of baskets

  function Waiting(db: Database): set<Id>
  {
    set b | b in db.baskets && db.baskets[b].status == WAITING
  }

  // What the query may return: waiting baskets, each once, up to a positive limit.
  // (Its order does not matter to the result.)
  ghost predicate Loads(db: Database, limit: int, nos: seq<Id>)
  {
    && (forall i, j :: 0 <= i < j < |nos| ==> nos[i] != nos[j])
    && (forall i :: 0 <= i < |nos| ==> nos[i] in Waiting(db))
    && |nos| == if 0 < limit < |Waiting(db)| then limit else |Waiting(db)|
  }

  // The loop over the loaded baskets, each added to its shard.
  function RestoreAll(db: Database, nos: seq<Id>): Memory
    requires forall i :: 0 <= i < |nos| ==> nos[i] in db.baskets
  {
    if nos == [] then map[]
    else
      var n := |nos| - 1;
      var mem, key := RestoreAll(db, nos[..n]), KeyOf(db, nos[n]);
      mem[key := PoolOf(mem, key)[nos[n] := Restored(db, nos[n])]]
  }

  lemma {:induction false} RestoreAllIs(db: Database, nos: seq<Id>, key: Key)
    requires forall i :: 0 <= i < |nos| ==> nos[i] in db.baskets
    ensures PoolOf(RestoreAll(db, nos), key)
            == map b | b in nos && b in db.baskets && KeyOf(db, b) == key :: Restored(db, b)
  {
    if nos != [] {
      var n := |nos| - 1;
      RestoreAllIs(db, nos[..n], key);
      assert nos == nos[..n] + [nos[n]];
    }
  }

  // Start-up rebuilds all of memory exactly when the limit does not cut the query off.
  lemma StartUp(db: Database, limit: int, nos: seq<Id>)
    requires Loads(db, limit, nos)
    ensures Sync(db, RestoreAll(db, nos)) <==> limit <= 0 || |Waiting(db)| <= limit
  {
    var loaded := set x | x in nos;
    DistinctCount(nos);
    assert loaded <= Waiting(db);
    if limit <= 0 || |Waiting(db)| <= limit {
      SameSize(loaded, Waiting(db));
      forall key ensures PoolOf(RestoreAll(db, nos), key) == Recovered(db, key) {
        RestoreAllIs(db, nos, key);
        assert forall b :: b in nos <==> b in Waiting(db);
      }
    } else {
      var b :| b in Waiting(db) && b !in loaded by {
        assert loaded != Waiting(db);
      }
      RestoreAllIs(db, nos, KeyOf(db, b));
      assert b in Recovered(db, KeyOf(db, b));
    }
  }
}
