// One matching shard (internal/engine/shard.go): the baskets by number, and the
// need index whose buckets hold the same basket objects.

module Shard {
  import opened Model
  import opened Pool
  import opened Basket
  import opened NeedIndex
  import B = Buckets

  predicate CompleteBefore(l: Basket, r: Basket)
    reads l, r
  {
    if l.expireAt != r.expireAt then l.expireAt < r.expireAt else |l.depositNos| < |r.depositNos|
  }

  predicate AcceptBefore(amount: int, l: Basket, r: Basket)
    reads l, r
  {
    var left := l.target - (l.current + amount);
    var right := r.target - (r.current + amount);
    if left != right then left < right else CompleteBefore(l, r)
  }

  // The waiting baskets with their current needs, read off by a plain scan.
  ghost function Scan(contents: Pool): map<Id, int>
  {
    map no | no in contents && contents[no].Live() :: contents[no].Need()
  }

  lemma ScanMinus(contents: Pool, no: Id)
    ensures Scan(contents - {no}) == Scan(contents) - {no}
  {}

  lemma ScanPlus(contents: Pool, no: Id, view: BasketView)
    ensures Scan(contents[no := view])
            == if view.Live() then Scan(contents)[no := view.Need()] else Scan(contents) - {no}
    ensures Scan(contents) - {no} == Scan(contents) <==> no !in Scan(contents)
  {}

  class Shard {
    const channel: Id
    const currency: Id
    var baskets: map<Id, Basket>
    const index: BucketNeedIndex
    var pending: map<Id, Deposit>
    ghost var contents: Pool

    ghost predicate Owned()
      reads this, baskets.Values
    {
      && contents.Keys == baskets.Keys
      && forall no :: no in baskets ==> baskets[no].no == no && baskets[no].View() == contents[no]
    }

    // The index always equals the one built from a plain scan, and holds the same
    // basket objects.
    ghost predicate Valid()
      reads this, index, baskets.Values
    {
      Owned() && Indexed(contents)
    }

    ghost predicate Indexed(pool: Pool)
      reads this, index
    {
      && index.Valid() && index.listed == Scan(pool)
      && forall no :: no in index.listed ==> no in baskets && index.items[no] == baskets[no]
    }

    // Nothing that the shard reads has changed.
    twostate lemma Kept()
      requires old(Valid()) && unchanged(this) && unchanged(index) && unchanged(baskets.Values)
      ensures Valid()
    {}

    // The index is determined by the baskets: a shard that is back to the same baskets
    // with the same content has the same buckets and the same sorted needs again.
    twostate lemma SameIndex()
      requires old(Valid()) && Valid() && baskets == old(baskets) && contents == old(contents)
      ensures index.needs == old(index.needs) && index.State() == old(index.State())
    {
      B.SameItems(index.listed, index.items, old(index.items));
      OneOrder(index.needs, old(index.needs));
    }

    constructor (channel: Id, currency: Id)
      ensures Valid() && fresh(index)
      ensures this.channel == channel && this.currency == currency
      ensures baskets == map[] && contents == map[] && pending == map[]
    {
      this.channel, this.currency := channel, currency;
      baskets, pending, contents := map[], map[], map[];
      index := new BucketNeedIndex();
    }

    // Files a new basket; `was` is the pool before it.
    method Enlist(basket: Basket, ghost was: Pool)
      requires Owned() && basket.no in baskets && baskets[basket.no] == basket
      requires contents == was[basket.no := basket.View()]
      requires index.Valid() && index.listed == Scan(was)
      requires forall no :: no in index.listed && no != basket.no ==> no in baskets && index.items[no] == baskets[no]
      modifies index
      ensures Owned()
      ensures Indexed(contents) <==> (basket.no in Scan(was) ==>
                                        basket.View().Live() && basket.View().Need() == was[basket.no].Need())
    {
      ScanPlus(was, basket.no, basket.View());
      index.Add(basket);
    }

    // The index is right after adding a basket exactly when its number had no
    // live basket, or the new one is live with the same need. Callers pass an
    // object of their own making.
    method AddBasket(basket: Basket)
      requires Valid()
      requires basket.no in baskets ==> baskets[basket.no] != basket
      modifies this`baskets, this`contents, index
      ensures Owned() && baskets == old(baskets)[basket.no := basket]
      ensures contents == old(contents)[basket.no := basket.View()]
      ensures Valid() <==> (basket.no in old(contents) && old(contents)[basket.no].Live() ==>
                              basket.View().Live() && basket.View().Need() == old(contents)[basket.no].Need())
    {
      baskets, contents := baskets[basket.no := basket], contents[basket.no := basket.View()];
      Enlist(basket, old(contents));
    }

    method RemoveBasket(no: Id)
      requires Valid()
      modifies this`baskets, this`contents, index
      ensures Valid() && baskets == old(baskets) - {no}
      ensures contents == old(contents) - {no}
    {
      if no !in baskets {
        return;
      }
      var basket := baskets[no];
      ScanMinus(contents, no);
      index.Remove(basket);
      baskets, contents := baskets - {no}, contents - {no};
    }

    // Moves a basket in the index after its amount changed; `was` is the pool before.
    method Refile(oldNeed: int, basket: Basket, ghost was: Pool)
      requires Owned() && Indexed(was) && basket.no in was && basket.no in baskets && baskets[basket.no] == basket
      requires oldNeed == was[basket.no].Need() && basket.status == was[basket.no].status
      requires contents == was[basket.no := basket.View()]
      modifies index
      ensures Valid()
    {
      ScanPlus(was, basket.no, basket.View());
      index.Update(oldNeed, basket);
    }

    method ReleaseDeposit(no: Id, deposit: Id, amount: int)
      requires Valid()
      modifies this`contents, index, baskets.Values
      ensures Valid() && baskets == old(baskets)
      ensures contents == Released(old(contents), no, deposit, amount)
    {
      if no !in baskets {
        return;
      }
      var basket := baskets[no];
      var oldNeed := basket.NeedAmount();
      basket.Release(deposit, amount);
      contents := contents[no := basket.View()];
      Refile(oldNeed, basket, old(contents));
    }

    // The first of the candidates in the sort order; `i` is its position.
    method First(candidates: seq<Basket>, amount: int, accepting: bool) returns (i: nat)
      requires candidates != []
      ensures i < |candidates|
      ensures forall k :: 0 <= k < |candidates| ==>
                !(if accepting then AcceptBefore(amount, candidates[k], candidates[i])
                  else CompleteBefore(candidates[k], candidates[i]))
    {
      i := 0;
      for j := 1 to |candidates|
        invariant i < j
        invariant forall k :: 0 <= k < j ==>
                    !(if accepting then AcceptBefore(amount, candidates[k], candidates[i])
                      else CompleteBefore(candidates[k], candidates[i]))
      {
        if accepting && AcceptBefore(amount, candidates[j], candidates[i]) {
          i := j;
        } else if !accepting && CompleteBefore(candidates[j], candidates[i]) {
          i := j;
        }
      }
    }

    // What the plain scan says about a listed number.
    lemma ListedIs(no: Id)
      requires Valid() && no in index.listed
      ensures no in baskets && index.items[no] == baskets[no] && baskets[no].no == no
      ensures baskets[no].status == WAITING && baskets[no].NeedAmount() == index.listed[no]
      ensures no in Short(contents, index.listed[no])
    {}

    // What the index finds for an exact fit is a possible scan of the bucket.
    lemma CompletableScan(amount: int, candidates: seq<Basket>, nos: seq<Id>)
      requires Valid() && index.Listed(candidates, nos) && |candidates| <= CANDIDATES
      requires forall i :: 0 <= i < |nos| ==> index.listed[nos[i]] == amount
      requires |candidates| < CANDIDATES ==>
                 forall no | no in index.listed ::
                   index.listed[no] == amount && index.items[no].CanComplete(amount) ==> no in nos
      ensures forall k :: 0 <= k < |nos| ==> candidates[k] == baskets[nos[k]] && nos[k] in Short(contents, amount)
      ensures amount > 0 ==> Scanned(contents, amount, set no | no in nos)
    {
      forall k | 0 <= k < |nos| ensures candidates[k] == baskets[nos[k]] && nos[k] in Short(contents, amount) {
        ListedIs(nos[k]);
      }
      if amount > 0 {
        var c := set no | no in nos;
        forall no | no in Short(contents, amount) ensures no in index.listed && index.items[no].CanComplete(amount) {
          ListedIs(no);
        }
        DistinctCount(nos);
        assert |c| < CANDIDATES ==> c == Short(contents, amount);
        ScanOf(contents, amount, c);
      }
    }

    method BestCompletable(amount: int) returns (best: Option<Id>)
      requires Valid()
      ensures best.None? && amount > 0 ==> Short(contents, amount) == {}
      ensures best.Some? ==> best.value in Short(contents, amount)
      ensures best.Some? && amount > 0 ==>
                exists c :: Scanned(contents, amount, c) && BestOf(contents, c, best.value)
    {
      var candidates, nos := index.FindCompletable(amount, CANDIDATES);
      CompletableScan(amount, candidates, nos);
      ghost var c := set no | no in nos;
      if candidates == [] {
        assert c == {};
        return None;
      }
      var i := First(candidates, amount, false);
      best := Some(candidates[i].no);
      CompletableFirst(amount, candidates, nos, i, c);
    }

    lemma CompletableFirst(amount: int, candidates: seq<Basket>, nos: seq<Id>, i: nat, c: set<Id>)
      requires Valid() && |candidates| == |nos| && i < |nos|
      requires forall k :: 0 <= k < |nos| ==> nos[k] in Short(contents, amount) && candidates[k] == baskets[nos[k]]
      requires forall k :: 0 <= k < |nos| ==> !CompleteBefore(candidates[k], candidates[i])
      requires c == set no | no in nos
      ensures c <= contents.Keys && candidates[i].no == nos[i] && BestOf(contents, c, nos[i])
    {
      forall k | 0 <= k < |nos| ensures !Prefers(contents[nos[k]], contents[nos[i]]) {}
    }

    // Among candidates of one need the sort order is the preference.
    lemma PreferredFirst(amount: int, n: int, a: Id, b: Id)
      requires Valid() && a in Short(contents, n) && b in Short(contents, n) && n > 0
      ensures CompleteBefore(baskets[a], baskets[b]) <==> Prefers(contents[a], contents[b])
      ensures AcceptBefore(amount, baskets[a], baskets[b]) <==> Prefers(contents[a], contents[b])
    {}

    method BestAcceptable(amount: int) returns (best: Option<Id>)
      requires Valid()
      ensures best.None? ==> forall no :: no in contents && contents[no].Live() ==> contents[no].Need() <= amount
      ensures best.Some? ==> best.value in contents
                             && contents[best.value].Live() && contents[best.value].Need() > amount
      ensures best.Some? && amount > 0 ==>
                && (forall no :: no in contents && contents[no].Live() && contents[no].Need() > amount ==>
                      contents[best.value].Need() <= contents[no].Need())
                && exists c :: Scanned(contents, contents[best.value].Need(), c) && BestOf(contents, c, best.value)
    {
      forall no | no in index.listed
        ensures index.items[no].status == WAITING && index.items[no].NeedAmount() == index.listed[no] {
        ListedIs(no);
      }
      var candidates, nos := index.FindAcceptable(amount, CANDIDATES);
      forall k | 0 <= k < |nos| ensures nos[k] in Short(contents, index.listed[nos[k]]) {
        ListedIs(nos[k]);
      }
      if candidates == [] {
        forall no | no in contents && contents[no].Live() ensures contents[no].Need() <= amount {
          assert no in index.listed && !index.Missed(amount, nos, no);
        }
        return None;
      }
      var i := First(candidates, amount, true);
      best := Some(candidates[i].no);
      ListedIs(nos[i]);
      if amount > 0 {
        LeastCandidate(amount, candidates, nos, i);
      }
    }

    // The first candidate in the sort order has the least need of all candidates.
    lemma LeastOfCandidates(amount: int, candidates: seq<Basket>, nos: seq<Id>, i: nat)
      requires Valid() && amount > 0 && index.Listed(candidates, nos) && i < |candidates|
      requires forall k :: 0 <= k < |candidates| ==> !AcceptBefore(amount, candidates[k], candidates[i])
      requires forall k :: 0 <= k < |nos| ==> index.listed[nos[k]] > amount
      ensures forall k :: 0 <= k < |nos| ==>
                && nos[k] in Short(contents, index.listed[nos[k]]) && candidates[k] == baskets[nos[k]]
                && index.listed[nos[i]] <= index.listed[nos[k]]
    {
      forall k | 0 <= k < |nos|
        ensures nos[k] in Short(contents, index.listed[nos[k]]) && candidates[k] == baskets[nos[k]]
                && index.listed[nos[i]] <= index.listed[nos[k]] {
        ListedIs(nos[k]);
        ListedIs(nos[i]);
      }
    }

    // The candidates of the least need are a possible scan of their bucket.
    lemma LeastScan(amount: int, candidates: seq<Basket>, nos: seq<Id>, i: nat, c: set<Id>)
      requires Valid() && amount > 0 && index.Listed(candidates, nos) && i < |candidates| <= CANDIDATES
      requires forall k :: 0 <= k < |nos| ==> index.listed[nos[k]] > amount
      requires forall no :: index.Missed(amount, nos, no) ==>
                 |candidates| == CANDIDATES && forall k :: 0 <= k < |nos| ==> index.listed[nos[k]] <= index.listed[no]
      requires forall k :: 0 <= k < |candidates| ==> !AcceptBefore(amount, candidates[k], candidates[i])
      requires c == set no | no in nos && index.listed[no] == index.listed[nos[i]]
      ensures Scanned(contents, index.listed[nos[i]], c)
    {
      var n := index.listed[nos[i]];
      LeastOfCandidates(amount, candidates, nos, i);
      DistinctCount(nos);
      var all := set no | no in nos;
      Larger(c, all);
      if c != Short(contents, n) {
        var x :| x in Short(contents, n) && x !in c;
        assert index.Missed(amount, nos, x);
        assert c == all;
      }
      ScanOf(contents, n, c);
    }

    // The first candidate has the least need above the amount of all live baskets, in
    // spite of the limit, and is preferred among a possible scan of its bucket.
    lemma LeastCandidate(amount: int, candidates: seq<Basket>, nos: seq<Id>, i: nat)
      requires Valid() && amount > 0 && index.Listed(candidates, nos) && i < |candidates| <= CANDIDATES
      requires forall k :: 0 <= k < |nos| ==> index.listed[nos[k]] > amount
      requires forall no :: index.Missed(amount, nos, no) ==>
                 |candidates| == CANDIDATES && forall k :: 0 <= k < |nos| ==> index.listed[nos[k]] <= index.listed[no]
      requires forall k :: 0 <= k < |candidates| ==> !AcceptBefore(amount, candidates[k], candidates[i])
      ensures nos[i] in contents
      ensures forall no :: no in contents && contents[no].Live() && contents[no].Need() > amount ==>
                contents[nos[i]].Need() <= contents[no].Need()
      ensures exists c :: Scanned(contents, contents[nos[i]].Need(), c) && BestOf(contents, c, nos[i])
    {
      var n := index.listed[nos[i]];
      LeastOfCandidates(amount, candidates, nos, i);
      forall no | no in contents && contents[no].Live() && contents[no].Need() > amount
        ensures n <= contents[no].Need()
      {
        assert no in index.listed && (no in nos || index.Missed(amount, nos, no));
      }
      var c := set no | no in nos && index.listed[no] == n;
      LeastScan(amount, candidates, nos, i, c);
      forall x | x in c ensures !Prefers(contents[x], contents[nos[i]]) {
        var k :| 0 <= k < |nos| && nos[k] == x;
        PreferredFirst(amount, n, x, nos[i]);
      }
      assert BestOf(contents, c, nos[i]);
    }

    // The choice of basket for a deposit: an exact fit first, else the next need.
    method Choose(amount: int) returns (choice: Option<Id>, completing: bool)
      requires Valid()
      ensures Valid() && unchanged(this) && unchanged(index) && unchanged(baskets.Values)
      ensures ChoiceFor(contents, amount, choice)
      ensures choice.Some? ==> completing == Completes(contents, amount, choice.value)
    {
      choice := BestCompletable(amount);
      completing := choice.Some?;
      if choice.None? {
        choice := BestAcceptable(amount);
        forall no | amount > 0 && Fits(contents, no, amount) ensures contents[no].Need() > amount {
          assert no in Short(contents, contents[no].Need());
        }
      }
    }

    method ApplyComplete(basket: Basket, deposit: Deposit)
      requires Valid() && basket.no in baskets && baskets[basket.no] == basket
      modifies this`baskets, this`contents, index, basket
      ensures Valid() && baskets == old(baskets) - {basket.no}
      ensures contents == old(contents) - {basket.no}
    {
      ScanMinus(contents, basket.no);
      basket.AttachDeposit(deposit);
      basket.status := MATCHED;
      index.Remove(basket);
      baskets, contents := baskets - {basket.no}, contents - {basket.no};
    }

    method ApplyWait(basket: Basket, deposit: Deposit)
      requires Valid() && basket.no in baskets && baskets[basket.no] == basket
      modifies this`contents, index, basket
      ensures Valid() && baskets == old(baskets)
      ensures contents == Attached(old(contents), basket.no, deposit.no, deposit.amount)
    {
      var oldNeed := basket.NeedAmount();
      basket.AttachDeposit(deposit);
      contents := contents[basket.no := basket.View()];
      Refile(oldNeed, basket, old(contents));
    }

    // Attaching and releasing the same deposit is the identity on the whole shard, its
    // buckets and sorted needs included, exactly when the amount on record was not
    // negative and the deposit was not listed before.
    method AttachAndRelease(basket: Basket, deposit: Deposit)
      requires Valid() && basket.no in baskets && baskets[basket.no] == basket
      modifies this`contents, index, baskets.Values
      ensures Valid() && baskets == old(baskets)
      ensures contents == old(contents) <==>
                old(contents)[basket.no].current >= 0 && deposit.no !in old(contents)[basket.no].deposits
      ensures contents == old(contents) ==> index.needs == old(index.needs) && index.State() == old(index.State())
    {
      AttachThenRelease(contents, basket.no, deposit.no, deposit.amount);
      ApplyWait(basket, deposit);
      ReleaseDeposit(basket.no, deposit.no, deposit.amount);
      if contents == old(contents) {
        SameIndex();
      }
    }

    // Computes the result, commits it, and only then changes the shard.
    method MatchDepositWithCommit(deposit: Option<Deposit>, commit: Option<Commit>)
      returns (result: MatchResult, failed: bool, ghost choice: Option<Id>)
      requires Valid()
      modifies this, index, baskets.Values
      ensures Valid() && baskets.Values <= old(baskets.Values)
      ensures choice.Some? ==> choice.value in old(contents)
      ensures Admitted(deposit, channel, currency) ==> ChoiceFor(old(contents), deposit.value.amount, choice)
      ensures Outcome(result, failed, contents, pending)
              == MatchOne(old(contents), old(pending), channel, currency, deposit, commit, choice)
      ensures Replies(old(contents), channel, currency, deposit, result)
      ensures failed ==> unchanged(this) && unchanged(index) && unchanged(baskets.Values)
    {
      failed, choice := false, None;
      if deposit.None? {
        return Unplaced(false, NilDeposit), false, None;
      }
      var d := deposit.value;
      if d.channel != channel || d.currency != currency {
        return Unplaced(false, WrongShard), false, None;
      }
      if d.status != WAITING {
        return Unplaced(false, NotWaiting), false, None;
      }
      result, failed, choice := MatchAdmitted(d, commit);
      OutcomeReplies(old(contents), old(pending), channel, currency, deposit, commit, choice);
    }

    method MatchAdmitted(d: Deposit, commit: Option<Commit>)
      returns (result: MatchResult, failed: bool, ghost choice: Option<Id>)
      requires Valid()
      modifies this, index, baskets.Values
      ensures Valid() && baskets.Values <= old(baskets.Values)
      ensures ChoiceFor(old(contents), d.amount, choice)
      ensures match choice
              case None => result == Unplaced(true, NoBasket) && !failed
                           && contents == old(contents) && pending == old(pending)[d.no := d]
              case Some(no) =>
                && result == Placed(old(contents), no, d) && failed == !RunCommit(commit, result)
                && contents == (if failed then old(contents) else Taken(old(contents), no, d))
                && pending == old(pending)
      ensures failed ==> unchanged(this) && unchanged(index) && unchanged(baskets.Values)
    {
      var best, completing := Choose(d.amount);
      choice := best;
      if best.None? {
        pending := pending[d.no := d];
        return Unplaced(true, NoBasket), false, None;
      }
      result, failed := Place(best.value, d, completing, commit);
    }

    // Commits the result for a chosen basket and applies it.
    method Place(no: Id, d: Deposit, completing: bool, commit: Option<Commit>)
      returns (result: MatchResult, failed: bool)
      requires Valid() && no in baskets && completing == Completes(contents, d.amount, no)
      modifies this`baskets, this`contents, index, baskets.Values
      ensures Valid() && baskets.Values <= old(baskets.Values)
      ensures result == Placed(old(contents), no, d) && failed == !RunCommit(commit, result)
      ensures contents == if failed then old(contents) else Taken(old(contents), no, d)
      ensures failed ==> unchanged(this) && unchanged(index) && unchanged(baskets.Values)
    {
      var basket := baskets[no];
      result := BuildResult(basket, d, completing);
      failed := !RunCommit(commit, result);
      if failed {
        return;
      }
      if completing {
        ApplyComplete(basket, d);
      } else {
        ApplyWait(basket, d);
      }
    }

    // The result of completing or attaching, built from a copy of the list.
    function BuildResult(basket: Basket, deposit: Deposit, completing: bool): (r: MatchResult)
      reads this, baskets.Values, basket
      requires Owned() && basket.no in baskets && baskets[basket.no] == basket
      requires completing == Completes(contents, deposit.amount, basket.no)
      ensures r == Placed(contents, basket.no, deposit)
    {
      MatchResult(completing, true, basket.no, basket.withdrawNo, basket.channel, basket.currency,
                  basket.depositNos + [deposit.no], basket.target, basket.current + deposit.amount, 0, false, NoFailure)
    }
  }
}
