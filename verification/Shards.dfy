// The shards of one instance (internal/biz/matching.go:518-525): objects by key,
// made on first use, that share no basket and no index.

module Shards {
  import opened Model
  import P = Pool
  import opened Basket
  import S = Shard
  import opened Recovery

  // Every basket lies in the shard of its own channel and currency.
  ghost predicate Keyed(mem: Memory)
  {
    forall key :: key in mem ==> KeyedIn(mem[key], key)
  }

  ghost predicate KeyedIn(pool: P.Pool, key: Key)
  {
    forall no :: no in pool ==> pool[no].channel == key.channel && pool[no].currency == key.currency
  }

  lemma KeyedSet(mem: Memory, key: Key, pool: P.Pool)
    requires Keyed(mem) && KeyedIn(pool, key)
    ensures Keyed(mem[key := pool])
  {}

  lemma Overwritten(mem: Memory, key: Key, first: P.Pool, pool: P.Pool)
    ensures mem[key := first][key := pool] == mem[key := pool]
    ensures PoolOf(mem[key := first], key) == first
  {}

  ghost predicate AllOf(baskets: set<Basket>, key: Key)
  {
    forall b :: b in baskets ==> b.channel == key.channel && b.currency == key.currency
  }

  // A live basket of that number is in the shard under another need. In step with the
  // tables this cannot be for a new number.
  predicate Refiled(pool: P.Pool, no: Id, view: P.BasketView)
  {
    no in pool && pool[no].Live() && !(view.Live() && view.Need() == pool[no].Need())
  }

  // The deposits that found no basket are kept apart and change nothing else.
  lemma PendingApart(pool: P.Pool, pending: map<Id, Deposit>, key: Key, d: Deposit,
                     commit: P.Commit, choice: Option<Id>)
    requires choice.Some? ==> choice.value in pool
    ensures var out := P.MatchOne(pool, pending, key.channel, key.currency, Some(d), Some(commit), choice);
            var plain := P.MatchOne(pool, map[], key.channel, key.currency, Some(d), Some(commit), choice);
            out.result == plain.result && out.failed == plain.failed && out.pool == plain.pool
  {}

  // What matching does to one shard, without what it remembers of unmatched deposits.
  ghost predicate Matches(pool: P.Pool, key: Key, deposit: Deposit, commit: P.Commit, choice: Option<Id>,
                          result: MatchResult, failed: bool, after: P.Pool)
  {
    && (choice.Some? ==> choice.value in pool)
    && (P.Admitted(Some(deposit), key.channel, key.currency) ==> P.ChoiceFor(pool, deposit.amount, choice))
    && var out := P.MatchOne(pool, map[], key.channel, key.currency, Some(deposit), Some(commit), choice);
       result == out.result && failed == out.failed && after == out.pool
  }

  method MatchIn(shard: S.Shard, key: Key, deposit: Deposit, commit: P.Commit)
    returns (result: MatchResult, failed: bool, ghost choice: Option<Id>)
    requires shard.Valid() && shard.channel == key.channel && shard.currency == key.currency
    modifies shard, shard.index, shard.baskets.Values
    ensures shard.Valid() && shard.baskets.Values <= old(shard.baskets.Values)
    ensures Matches(old(shard.contents), key, deposit, commit, choice, result, failed, shard.contents)
  {
    result, failed, choice := shard.MatchDepositWithCommit(Some(deposit), Some(commit));
    PendingApart(old(shard.contents), old(shard.pending), key, deposit, commit, choice);
  }

  class Directory {
    var shards: map<Key, S.Shard>
    ghost var mem: Memory
    ghost var objects: set<object>

    ghost predicate Holds(key: Key)
      requires key in shards && key in mem
      reads this, objects
    {
      var shard := shards[key];
      && shard in objects && shard.index in objects && shard.baskets.Values <= objects
      && shard.channel == key.channel && shard.currency == key.currency
      && shard.Valid() && shard.contents == mem[key]
    }

    ghost predicate Valid()
      reads this, objects
    {
      && mem.Keys == shards.Keys && Keyed(mem) && this !in objects
      && (forall key :: key in shards ==> Holds(key))
      && (forall k, l :: k in shards && l in shards && shards[k].index == shards[l].index ==> k == l)
    }

    // The objects of one shard.
    ghost function Part(key: Key): set<object>
      requires key in shards
      reads this, shards[key]
    {
      shards[key].baskets.Values + {shards[key], shards[key].index}
    }

    lemma BasketsOf(key: Key)
      requires Valid() && key in shards
      ensures AllOf(shards[key].baskets.Values, key)
    {
      assert Holds(key) && KeyedIn(mem[key], key);
    }

    lemma NoSharedBasket(k: Key, l: Key)
      requires Valid() && k in shards && l in shards && k != l
      ensures shards[k].baskets.Values !! shards[l].baskets.Values
      ensures shards[k] != shards[l] && shards[k].index != shards[l].index
    {
      assert Holds(k) && Holds(l);
      BasketsOf(k);
      BasketsOf(l);
    }

    // The shard of a key shares nothing with the others.
    ghost predicate Separate(key: Key)
      requires key in shards
      reads this, shards.Values
    {
      forall l :: l in shards && l != key ==> Part(l) !! Part(key)
    }

    lemma Disjoint(k: Key, l: Key)
      requires Valid() && k in shards && l in shards && k != l
      ensures Part(k) !! Part(l)
    {
      NoSharedBasket(k, l);
      forall o | o in Part(k) ensures o !in Part(l) {
        if o == shards[k].index {
          assert shards[k].index != shards[l].index;
        } else if o != shards[k] {
          assert o in shards[k].baskets.Values && o !in shards[l].baskets.Values;
        }
      }
    }

    lemma Separated(key: Key)
      requires Valid() && key in shards
      ensures Separate(key)
    {
      forall l | l in shards && l != key ensures Part(l) !! Part(key) {
        Disjoint(l, key);
      }
    }

    // The entry for a key is as it was when nothing it reads has changed.
    twostate lemma Kept(key: Key)
      requires key in old(shards) && key in old(mem) && old(Holds(key)) && old(objects) <= objects
      requires key in shards && shards[key] == old(shards)[key] && key in mem && mem[key] == old(mem)[key]
      requires var shard := shards[key]; unchanged(shard) && unchanged(shard.index) && unchanged(shard.baskets.Values)
      ensures Holds(key)
    {
      shards[key].Kept();
    }

    // Only one shard has changed.
    twostate predicate Touched(key: Key)
      requires key in old(shards)
      reads this, objects
    {
      && shards == old(shards) && old(objects) <= objects && key in mem && mem == old(mem)[key := mem[key]]
      && forall o :: o in old(objects) && o !in old(Part(key)) ==> unchanged(o)
    }

    // The other entries are then as they were.
    twostate lemma OthersKept(key: Key)
      requires old(Valid()) && key in old(shards) && old(Separate(key)) && Touched(key)
      ensures forall l :: l in shards && l != key ==> Holds(l)
    {
      forall l | l in shards && l != key ensures Holds(l) {
        Kept(l);
      }
    }

    // One shard was changed by a method of its own, and entered again.
    twostate lemma Changed(key: Key)
      requires old(Valid()) && key in old(shards) && old(Separate(key)) && Touched(key)
      requires this !in objects && shards[key].Valid() && shards[key].contents == mem[key]
      requires shards[key].baskets.Values <= objects && AllOf(shards[key].baskets.Values, key)
      ensures Valid()
    {
      OthersKept(key);
      assert KeyedIn(mem[key], key);
      KeyedSet(old(mem), key, mem[key]);
      assert old(Holds(key));
      assert Holds(key);
    }

    // Adding a shard with new objects leaves the other entries as they were.
    twostate lemma AllKept(key: Key)
      requires old(Valid()) && key !in old(shards) && key in shards && shards == old(shards)[key := shards[key]]
      requires old(objects) <= objects && shards[key].index !in old(objects)
      requires key in mem && mem == old(mem)[key := mem[key]]
      requires forall o :: o in old(objects) ==> unchanged(o)
      ensures forall l :: l in shards && l != key ==> Holds(l) && shards[l].index != shards[key].index
      ensures forall k, l :: k in shards && l in shards && shards[k].index == shards[l].index ==> k == l
    {
      forall l | l in shards && l != key ensures Holds(l) && shards[l].index != shards[key].index {
        assert old(Holds(l));
        Kept(l);
      }
    }

    constructor ()
      ensures Valid() && mem == map[] && objects == {}
    {
      shards, mem, objects := map[], map[], {};
    }

    method Open(key: Key) returns (shard: S.Shard)
      requires Valid() && key !in shards
      modifies this
      ensures Valid() && shards == old(shards)[key := shard] && mem == old(mem)[key := map[]]
      ensures fresh(shard) && fresh(shard.index) && objects == old(objects) + {shard, shard.index}
    {
      KeyedSet(mem, key, map[]);
      shard := new S.Shard(key.channel, key.currency);
      shards := shards[key := shard];
      mem := mem[key := map[]];
      objects := objects + {shard, shard.index};
      AllKept(key);
      assert Holds(key);
    }

    method GetShard(key: Key) returns (shard: S.Shard, ghost more: set<object>)
      requires Valid()
      modifies this
      ensures Valid() && key in shards && shards[key] == shard
      ensures mem == old(mem)[key := PoolOf(old(mem), key)]
      ensures fresh(more) && objects == old(objects) + more
    {
      if key !in shards {
        shard := Open(key);
        more := {shard, shard.index};
      } else {
        shard, more := shards[key], {};
      }
    }

    // Releases a deposit in an existing shard.
    method Release(key: Key, no: Id, deposit: Id, amount: int)
      requires Valid() && key in shards
      modifies this`mem, objects
      ensures Valid()
      ensures mem == old(mem)[key := P.Released(old(mem)[key], no, deposit, amount)]
    {
      Separated(key);
      BasketsOf(key);
      assert Holds(key);
      mem := mem[key := P.Released(mem[key], no, deposit, amount)];
      shards[key].ReleaseDeposit(no, deposit, amount);
      Changed(key);
    }

    method Remove(key: Key, no: Id)
      requires Valid() && key in shards
      modifies this`mem, objects
      ensures Valid()
      ensures mem == old(mem)[key := old(mem)[key] - {no}]
    {
      Separated(key);
      BasketsOf(key);
      assert Holds(key);
      mem := mem[key := mem[key] - {no}];
      shards[key].RemoveBasket(no);
      Changed(key);
    }

    method MatchRaw(key: Key, deposit: Deposit, commit: P.Commit)
      returns (result: MatchResult, failed: bool, ghost choice: Option<Id>)
      requires Valid() && key in shards
      modifies this`mem, objects
      ensures Touched(key) && shards[key].Valid() && shards[key].contents == mem[key]
      ensures shards[key].baskets.Values <= old(shards[key].baskets.Values)
      ensures Matches(old(mem)[key], key, deposit, commit, choice, result, failed, mem[key])
    {
      assert Holds(key);
      var shard := shards[key];
      result, failed, choice := MatchIn(shard, key, deposit, commit);
      label matched:
      mem := mem[key := shard.contents];
      shard.Kept@matched();
    }

    method Match(key: Key, deposit: Deposit, commit: P.Commit)
      returns (result: MatchResult, failed: bool, ghost choice: Option<Id>)
      requires Valid() && key in shards
      modifies this`mem, objects
      ensures Valid() && key in mem && mem == old(mem)[key := mem[key]]
      ensures Matches(old(mem)[key], key, deposit, commit, choice, result, failed, mem[key])
    {
      Separated(key);
      BasketsOf(key);
      assert Holds(key);
      result, failed, choice := MatchRaw(key, deposit, commit);
      Changed(key);
    }

    method AddRaw(key: Key, basket: Basket)
      requires Valid() && key in shards && basket !in objects
      modifies this`mem, this`objects, objects
      ensures Touched(key) && shards[key].contents == mem[key]
      ensures !Refiled(old(mem)[key], basket.no, basket.View()) ==> shards[key].Valid()
      ensures shards[key].baskets.Values <= old(shards[key].baskets.Values) + {basket}
      ensures mem[key] == old(mem)[key][basket.no := basket.View()] && objects == old(objects) + {basket}
    {
      assert Holds(key);
      mem := mem[key := mem[key][basket.no := basket.View()]];
      objects := objects + {basket};
      shards[key].AddBasket(basket);
    }

    // Adds a new basket object.
    method Add(key: Key, basket: Basket)
      requires Valid() && key in shards && basket !in objects
      requires basket.channel == key.channel && basket.currency == key.currency
      modifies this`mem, this`objects, objects
      ensures !Refiled(old(mem)[key], basket.no, basket.View()) ==> Valid()
      ensures objects == old(objects) + {basket}
      ensures mem == old(mem)[key := old(mem)[key][basket.no := basket.View()]]
    {
      ghost var fits := !Refiled(mem[key], basket.no, basket.View());
      Separated(key);
      BasketsOf(key);
      AddRaw(key, basket);
      if fits {
        Changed(key);
      }
    }

    // ----- the same, on a shard made on first use

    method ReleaseDeposit(key: Key, no: Id, deposit: Id, amount: int)
      requires Valid()
      modifies this, objects
      ensures Valid() && fresh(objects - old(objects))
      ensures mem == old(mem)[key := P.Released(PoolOf(old(mem), key), no, deposit, amount)]
    {
      var shard, more := GetShard(key);
      Overwritten(old(mem), key, PoolOf(old(mem), key), P.Released(PoolOf(old(mem), key), no, deposit, amount));
      Release(key, no, deposit, amount);
    }

    method RemoveBasket(key: Key, no: Id)
      requires Valid()
      modifies this, objects
      ensures Valid() && fresh(objects - old(objects))
      ensures mem == old(mem)[key := PoolOf(old(mem), key) - {no}]
    {
      var shard, more := GetShard(key);
      Overwritten(old(mem), key, PoolOf(old(mem), key), PoolOf(old(mem), key) - {no});
      Remove(key, no);
    }

    method MatchDeposit(key: Key, deposit: Deposit, commit: P.Commit)
      returns (result: MatchResult, failed: bool, ghost choice: Option<Id>)
      requires Valid()
      modifies this, objects
      ensures Valid() && fresh(objects - old(objects))
      ensures key in mem && mem == old(mem)[key := mem[key]]
      ensures Matches(PoolOf(old(mem), key), key, deposit, commit, choice, result, failed, mem[key])
    {
      var shard, more := GetShard(key);
      ghost var pool := mem[key];
      result, failed, choice := Match(key, deposit, commit);
      Overwritten(old(mem), key, pool, mem[key]);
    }

    method AddBasket(key: Key, basket: Basket) returns (ghost more: set<object>)
      requires Valid() && basket !in objects
      requires basket.channel == key.channel && basket.currency == key.currency
      modifies this, objects
      ensures !Refiled(PoolOf(old(mem), key), basket.no, basket.View()) ==> Valid()
      ensures fresh(more) && objects == old(objects) + more + {basket}
      ensures mem == old(mem)[key := PoolOf(old(mem), key)[basket.no := basket.View()]]
    {
      var shard;
      shard, more := GetShard(key);
      Overwritten(old(mem), key, PoolOf(old(mem), key), PoolOf(old(mem), key)[basket.no := basket.View()]);
      Add(key, basket);
    }

    // Adds an object made for the purpose.
    method AddNew(key: Key, no: Id, view: P.BasketView) returns (ghost more: set<object>)
      requires Valid() && view.channel == key.channel && view.currency == key.currency && view.deposits == []
      modifies this, objects
      ensures !Refiled(PoolOf(old(mem), key), no, view) ==> Valid()
      ensures fresh(more) && objects == old(objects) + more
      ensures mem == old(mem)[key := PoolOf(old(mem), key)[no := view]]
    {
      var basket := new Basket(no, view);
      more := AddBasket(key, basket);
      more := more + {basket};
    }
  }
}
