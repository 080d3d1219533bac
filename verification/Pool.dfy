// What a shard holds, as a value: the live baskets by number. The class Shard
// is proved against the functions of this module.

module Pool {
  import opened Model

  const CANDIDATES := 32

  datatype BasketView = BasketView(
    withdrawNo: Id, channel: Id, currency: Id, target: int, current: int,
    deposits: seq<Id>, status: int, expireAt: int)
  {
    function Need(): (n: nat)
    {
      if target - current < 0 then 0 else target - current
    }

    predicate Live() { status == WAITING }
  }

  type Pool = map<Id, BasketView>

  function Released(pool: Pool, no: Id, deposit: Id, amount: int): Pool
  {
    if no !in pool then pool
    else
      var b := pool[no];
      pool[no := b.(current := if b.current >= amount then b.current - amount else 0,
                    deposits := Without(b.deposits, deposit))]
  }

  function Attached(pool: Pool, no: Id, deposit: Id, amount: int): Pool
    requires no in pool
  {
    var b := pool[no];
    pool[no := b.(current := b.current + amount, deposits := b.deposits + [deposit])]
  }

  // A release takes the number off the list and the amount off what was collected, which
  // never goes below zero.
  lemma ReleasedIs(pool: Pool, no: Id, deposit: Id, amount: int)
    requires no in pool
    ensures var b, after := pool[no], Released(pool, no, deposit, amount);
            && after.Keys == pool.Keys && (forall x :: x in pool && x != no ==> after[x] == pool[x])
            && after[no] == b.(current := after[no].current, deposits := after[no].deposits)
            && (b.current >= amount ==> after[no].current + amount == b.current)
            && (b.current < amount ==> after[no].current == 0)
            && (deposit !in b.deposits ==> after[no].deposits == b.deposits)
            && (forall before, behind | deposit !in before && deposit !in behind ::
                  b.deposits == before + [deposit] + behind ==> after[no].deposits == before + behind)
  {
    forall before, behind | pool[no].deposits == before + [deposit] + behind && deposit !in before && deposit !in behind
      ensures Released(pool, no, deposit, amount)[no].deposits == before + behind {
      WithoutOnce(before, deposit, behind);
    }
  }

  lemma {:induction false} WithoutOnce(before: seq<Id>, deposit: Id, behind: seq<Id>)
    requires deposit !in before && deposit !in behind
    ensures Without(before + [deposit] + behind, deposit) == before + behind
    decreases |behind|
  {
    if behind == [] {
      assert before + [deposit] + behind == before + [deposit] && before + behind == before;
      WithoutStep(before, deposit, deposit);
    } else {
      var n := |behind| - 1;
      WithoutOnce(before, deposit, behind[..n]);
      assert before + [deposit] + behind == (before + [deposit] + behind[..n]) + [behind[n]];
      assert before + behind == before + behind[..n] + [behind[n]];
      WithoutStep(before + [deposit] + behind[..n], behind[n], deposit);
    }
  }

  // Releasing what was just attached restores the pool, exactly when the amount
  // on record was not negative and the deposit was not listed before.
  lemma AttachThenRelease(pool: Pool, no: Id, deposit: Id, amount: int)
    requires no in pool
    ensures Released(Attached(pool, no, deposit, amount), no, deposit, amount) == pool
            <==> pool[no].current >= 0 && deposit !in pool[no].deposits
  {
    var b := pool[no];
    var back := Released(Attached(pool, no, deposit, amount), no, deposit, amount);
    WithoutAppended(b.deposits, deposit);
    if b.current >= 0 && deposit !in b.deposits {
      assert back[no] == b;
      assert back == pool;
    } else {
      assert back[no] != b;
    }
  }

  // The live baskets that are still short of exactly `n`.
  function Short(pool: Pool, n: int): set<Id>
  {
    set no | no in pool && pool[no].Live() && pool[no].Need() == n
  }

  // A live basket with room for the amount.
  predicate Fits(pool: Pool, no: Id, amount: int)
  {
    no in pool && pool[no].Live() && amount <= pool[no].Need()
  }

  // Strict preference between baskets of equal need: earlier expiry, then fewer deposits.
  predicate Prefers(a: BasketView, b: BasketView)
  {
    a.expireAt < b.expireAt || (a.expireAt == b.expireAt && |a.deposits| < |b.deposits|)
  }

  // A possible result of the candidate scan for need `n`: the whole bucket, or
  // CANDIDATES of its members, whichever the map order yields.
  predicate Scanned(pool: Pool, n: int, c: set<Id>)
  {
    c <= Short(pool, n) && |c| == if |Short(pool, n)| <= CANDIDATES then |Short(pool, n)| else CANDIDATES
  }

  predicate BestOf(pool: Pool, c: set<Id>, no: Id)
    requires c <= pool.Keys
  {
    no in c && forall x :: x in c ==> !Prefers(pool[x], pool[no])
  }

  // The baskets the engine may choose for a positive amount: the least need
  // among all that fit, and the preferred one among the scanned candidates.
  ghost predicate Chooses(pool: Pool, amount: int, no: Id)
  {
    && Fits(pool, no, amount)
    && (forall x :: Fits(pool, x, amount) ==> pool[no].Need() <= pool[x].Need())
    && exists c :: Scanned(pool, pool[no].Need(), c) && BestOf(pool, c, no)
  }

  // Completion is the case where nothing is left to collect.
  predicate Completes(pool: Pool, amount: int, no: Id)
    requires no in pool
  {
    pool[no].Need() == amount
  }

  // Candidates that are all of the bucket, or as many as the limit allows.
  lemma ScanOf(pool: Pool, n: int, c: set<Id>)
    requires c <= Short(pool, n) && |c| <= CANDIDATES
    requires c != Short(pool, n) ==> |c| == CANDIDATES
    ensures Scanned(pool, n, c)
  {
    if c != Short(pool, n) {
      assert exists x :: x in Short(pool, n) && x !in c;
      var x :| x in Short(pool, n) && x !in c;
      Larger(c + {x}, Short(pool, n));
    }
  }

  // The engine's answer to a choice: `None` says that it found no basket.
  ghost predicate ChoiceFor(pool: Pool, amount: int, choice: Option<Id>)
  {
    match choice
    case None => amount > 0 ==> forall no :: !Fits(pool, no, amount)
    case Some(no) => no in pool && pool[no].Live() && (amount > 0 ==> Chooses(pool, amount, no))
  }

  // Deposits the shard turns down before looking for a basket.
  predicate Admitted(deposit: Option<Deposit>, channel: Id, currency: Id)
  {
    match deposit
    case None => false
    case Some(d) => d.channel == channel && d.currency == currency && d.status == WAITING
  }

  function Placed(pool: Pool, no: Id, d: Deposit): MatchResult
    requires no in pool
  {
    var b := pool[no];
    MatchResult(Completes(pool, d.amount, no), true, no, b.withdrawNo, b.channel, b.currency,
                b.deposits + [d.no], b.target, b.current + d.amount, 0, false, NoFailure)
  }

  function Unplaced(pending: bool, failure: Failure): MatchResult
  {
    MatchResult(false, false, EMPTY, EMPTY, EMPTY, EMPTY, [], 0, 0, 0, pending, failure)
  }

  // Commit callbacks answer whether the result was stored.
  type Commit = MatchResult -> bool

  // Without a callback there is nothing to store; a result that attached nothing
  // must not be stored.
  predicate RunCommit(commit: Option<Commit>, result: MatchResult)
  {
    commit.None? || (result.attached && commit.value(result))
  }

  datatype Outcome = Outcome(result: MatchResult, failed: bool, pool: Pool, pending: map<Id, Deposit>)

  // Matching one deposit, for a given choice of basket: the pool changes only
  // after the commit, and then by exactly what the callback was told.
  function MatchOne(pool: Pool, pending: map<Id, Deposit>, channel: Id, currency: Id,
                    deposit: Option<Deposit>, commit: Option<Commit>, choice: Option<Id>): Outcome
    requires choice.Some? ==> choice.value in pool
  {
    match deposit
    case None => Outcome(Unplaced(false, NilDeposit), false, pool, pending)
    case Some(d) =>
      if d.channel != channel || d.currency != currency then
        Outcome(Unplaced(false, WrongShard), false, pool, pending)
      else if d.status != WAITING then
        Outcome(Unplaced(false, NotWaiting), false, pool, pending)
      else if choice.None? then
        Outcome(Unplaced(true, NoBasket), false, pool, pending[d.no := d])
      else
        var result := Placed(pool, choice.value, d);
        if !RunCommit(commit, result) then Outcome(result, true, pool, pending)
        else Outcome(result, false, Taken(pool, choice.value, d), pending)
  }

  // The pool after the chosen basket took the deposit.
  function Taken(pool: Pool, no: Id, d: Deposit): Pool
    requires no in pool
  {
    if Completes(pool, d.amount, no) then pool - {no} else Attached(pool, no, d.no, d.amount)
  }

  // A failed commit changes nothing; a successful one leaves the basket with the
  // amount and the deposits the callback saw, or gone when it was completed.
  lemma CommitThenApply(pool: Pool, pending: map<Id, Deposit>, d: Deposit, commit: Commit, no: Id)
    requires Chooses(pool, d.amount, no) && d.amount > 0 && d.status == WAITING
    ensures var out := MatchOne(pool, pending, d.channel, d.currency, Some(d), Some(commit), Some(no));
            && (out.failed <==> !commit(out.result))
            && (out.failed ==> out.pool == pool && out.pending == pending)
            && (!out.failed && out.result.matched ==>
                  out.result.matchedAmount == out.result.target && out.pool == pool - {no})
            && (!out.failed && !out.result.matched ==>
                  && out.pool.Keys == pool.Keys
                  && out.pool[no].current == out.result.matchedAmount < out.result.target
                  && out.pool[no].deposits == out.result.depositNos
                  && out.pool - {no} == pool - {no})
            && (forall x :: x in pool && pool[x].Live() && pool[x].Need() >= d.amount ==>
                  pool[no].Need() <= pool[x].Need())
  {
    assert Fits(pool, no, d.amount);
    forall x | x in pool && pool[x].Live() && pool[x].Need() >= d.amount ensures pool[no].Need() <= pool[x].Need() {
      assert Fits(pool, x, d.amount);
    }
  }

  // No basket is chosen exactly when none fits.
  lemma ChoiceExists(pool: Pool, amount: int)
    ensures (exists no :: Chooses(pool, amount, no)) <==> (exists no :: Fits(pool, no, amount))
  {
    var fit := set no | no in pool && Fits(pool, no, amount);
    if fit != {} {
      var low := LeastNeed(pool, fit);
      var n := pool[low].Need();
      var c := SomeScan(pool, n);
      assert low in Short(pool, n);
      var no := SomeBest(pool, c);
      forall x | Fits(pool, x, amount) ensures pool[no].Need() <= pool[x].Need() {
        assert x in fit;
      }
      assert Chooses(pool, amount, no);
    } else {
      forall no ensures !Fits(pool, no, amount) {
        assert no !in fit;
      }
    }
  }

  lemma {:induction false} LeastNeed(pool: Pool, s: set<Id>) returns (no: Id)
    requires s <= pool.Keys && s != {}
    ensures no in s && forall x :: x in s ==> pool[no].Need() <= pool[x].Need()
    decreases |s|
  {
    no :| no in s;
    if s != {no} {
      var rest := LeastNeed(pool, s - {no});
      if pool[rest].Need() < pool[no].Need() { no := rest; }
    }
  }

  // A subset of a given size exists.
  lemma {:induction false} Subset(s: set<Id>, k: nat) returns (c: set<Id>)
    requires k <= |s|
    ensures c <= s && |c| == k
    decreases k
  {
    if k == 0 {
      c := {};
    } else {
      var x :| x in s;
      c := Subset(s - {x}, k - 1);
      c := c + {x};
    }
  }

  lemma SomeScan(pool: Pool, n: int) returns (c: set<Id>)
    ensures Scanned(pool, n, c)
    ensures Short(pool, n) != {} ==> c != {}
  {
    var s := Short(pool, n);
    c := Subset(s, if |s| <= CANDIDATES then |s| else CANDIDATES);
  }

  lemma {:induction false} SomeBest(pool: Pool, c: set<Id>) returns (no: Id)
    requires c <= pool.Keys && c != {}
    ensures BestOf(pool, c, no)
    decreases |c|
  {
    no :| no in c;
    if c != {no} {
      var rest := SomeBest(pool, c - {no});
      if !Prefers(pool[no], pool[rest]) { no := rest; }
    }
  }

  // The members of a bucket to which no other member is preferred.
  function Preferred(pool: Pool, n: int): set<Id>
  {
    set no | no in Short(pool, n) && forall x :: x in Short(pool, n) ==> !Prefers(pool[x], pool[no])
  }

  // The tie-break is global for every possible scan exactly when fewer than
  // 32 members of the bucket are not among the preferred ones; a bucket of at most 32
  // members is always on the safe side.
  lemma TieBreakGlobal(pool: Pool, n: int)
    requires Short(pool, n) != {}
    ensures (forall c, no :: Scanned(pool, n, c) && BestOf(pool, c, no) ==> no in Preferred(pool, n))
            <==> |Short(pool, n) - Preferred(pool, n)| < 32
    ensures |Short(pool, n)| <= 32 ==> |Short(pool, n) - Preferred(pool, n)| < 32
  {
    var s := Short(pool, n);
    var p := Preferred(pool, n);
    var top := SomeBest(pool, s);
    assert top in p;
    assert |s| == |p| + |s - p| by { assert s == p + (s - p); }
    if |s - p| >= CANDIDATES {
      var c := Subset(s - p, CANDIDATES);
      var no := SomeBest(pool, c);
      assert Scanned(pool, n, c) && BestOf(pool, c, no) && no !in p;
    } else {
      forall c, no | Scanned(pool, n, c) && BestOf(pool, c, no) ensures no in p {
        if c * p == {} {
          assert c <= s - p;
          Larger(c, s - p);
        } else {
          var x :| x in c * p;
          assert !Prefers(pool[x], pool[no]);
        }
      }
    }
  }

  lemma {:induction false} Larger(a: set<Id>, b: set<Id>)
    requires a <= b
    ensures |a| <= |b|
    decreases |a|
  {
    if a != {} {
      var x :| x in a;
      Larger(a - {x}, b - {x});
    }
  }

  // ----- what a depositor is told, on the fields of baskets and result alone

  // A waiting basket that the amount does not overfill.
  predicate HasRoom(b: BasketView, amount: int)
  {
    b.status == 1 && b.current + amount <= b.target
  }

  // The waiting baskets that lack as much as this one.
  function Alike(pool: Pool, no: Id): set<Id>
    requires no in pool
  {
    set x | x in pool && pool[x].status == 1 && pool[x].target - pool[x].current == pool[no].target - pool[no].current
  }

  // Of all baskets with room it lacks the least, and of up to 32 that lack as much it
  // expires first, with the fewest deposits among those that expire with it.
  ghost predicate Suits(pool: Pool, amount: int, no: Id)
  {
    && no in pool && HasRoom(pool[no], amount)
    && (forall x :: x in pool && HasRoom(pool[x], amount) ==>
          pool[no].target - pool[no].current <= pool[x].target - pool[x].current)
    && (|Alike(pool, no)| <= 32 ==>
          forall x :: x in Alike(pool, no) ==>
            pool[no].expireAt < pool[x].expireAt
            || (pool[no].expireAt == pool[x].expireAt && |pool[no].deposits| <= |pool[x].deposits|))
  }

  lemma ChosenSuits(pool: Pool, amount: int, no: Id)
    requires amount > 0 && ChoiceFor(pool, amount, Some(no))
    ensures Suits(pool, amount, no)
  {
    assert Fits(pool, no, amount);
    forall x | x in pool && HasRoom(pool[x], amount)
      ensures pool[no].target - pool[no].current <= pool[x].target - pool[x].current {
      assert Fits(pool, x, amount);
    }
    var n := pool[no].Need();
    assert Alike(pool, no) == Short(pool, n);
    assert no in Short(pool, n);
    TieBreakGlobal(pool, n);
    if |Short(pool, n)| <= 32 {
      assert no in Preferred(pool, n);
      forall x | x in Alike(pool, no)
        ensures pool[no].expireAt < pool[x].expireAt
                || (pool[no].expireAt == pool[x].expireAt && |pool[no].deposits| <= |pool[x].deposits|) {
        assert !Prefers(pool[x], pool[no]);
      }
    }
  }

  predicate Blank(r: MatchResult)
  {
    && r.basketNo == r.withdrawNo == r.channel == r.currency == Id("") && r.depositNos == []
    && r.target == r.matchedAmount == r.short == 0
  }

  predicate TurnedDown(r: MatchResult, why: Failure)
  {
    !r.matched && !r.attached && !r.pending && r.failure == why && Blank(r)
  }

  // The result repeats the basket, with the deposit added.
  predicate Describes(b: BasketView, d: Deposit, r: MatchResult)
  {
    && r.withdrawNo == b.withdrawNo && r.channel == b.channel && r.currency == b.currency && r.target == b.target
    && r.depositNos == b.deposits + [d.no] && r.matchedAmount == b.current + d.amount && r.short == 0
    && (r.matched <==> b.current + d.amount == b.target)
  }

  // A waiting deposit of the shard is pending exactly when no basket has room for it, and
  // else attached, matched if that fills the basket.
  ghost predicate Answers(pool: Pool, d: Deposit, r: MatchResult)
  {
    && (r.pending <==> forall x :: x in pool ==> !HasRoom(pool[x], d.amount))
    && (r.attached <==> !r.pending) && r.failure == (if r.pending then NoBasket else NoFailure)
    && (r.pending ==> !r.matched && Blank(r))
    && (r.attached ==> Suits(pool, d.amount, r.basketNo) && Describes(pool[r.basketNo], d, r))
  }

  ghost predicate Replies(pool: Pool, channel: Id, currency: Id, deposit: Option<Deposit>, r: MatchResult)
  {
    match deposit
    case None => TurnedDown(r, NilDeposit)
    case Some(d) =>
      if d.channel != channel || d.currency != currency then TurnedDown(r, WrongShard)
      else if d.status != 1 then TurnedDown(r, NotWaiting)
      else d.amount > 0 ==> Answers(pool, d, r)
  }

  // An outcome the engine may choose answers so. It fails exactly when a callback refuses
  // to store a basket that was found, and remembers a deposit exactly when none was.
  lemma OutcomeReplies(pool: Pool, pending: map<Id, Deposit>, channel: Id, currency: Id,
                       deposit: Option<Deposit>, commit: Option<Commit>, choice: Option<Id>)
    requires choice.Some? ==> choice.value in pool
    requires Admitted(deposit, channel, currency) ==> ChoiceFor(pool, deposit.value.amount, choice)
    ensures var out := MatchOne(pool, pending, channel, currency, deposit, commit, choice);
            && Replies(pool, channel, currency, deposit, out.result)
            && (out.failed <==> out.result.attached && commit.Some? && !commit.value(out.result))
            && out.pending == (if out.result.pending then pending[deposit.value.no := deposit.value] else pending)
  {
    if Admitted(deposit, channel, currency) && deposit.value.amount > 0 {
      var d := deposit.value;
      match choice
      case None =>
        forall x | x in pool ensures !HasRoom(pool[x], d.amount) {
          assert !Fits(pool, x, d.amount);
        }
      case Some(no) => ChosenSuits(pool, d.amount, no);
    }
  }
}
