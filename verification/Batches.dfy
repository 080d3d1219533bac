// Sweeps with a limit (internal/server/worker.go:27-60 sweeps in batches): each gets on
// by the limit, so finitely many leave nothing due.

module Batches {
  import opened Model
  import opened Tables
  import opened System
  import opened Sweep

  function Least(limit: int, count: int): int
  {
    if limit < count then limit else count
  }

  // Taking listed entries away.
  lemma Fewer(due: map<Id, int>, limit: int, nos: seq<Id>, left: map<Id, int>)
    requires Listing(due, limit, nos) && limit >= 0
    requires left.Keys == due.Keys - set d | d in nos
    ensures |left| == |due| - Least(limit, |due|)
  {
    var listed := set d | d in nos;
    DistinctCount(nos);
    assert listed <= due.Keys;
    assert due.Keys == left.Keys + listed;
    assert |due.Keys| == |left.Keys| + |listed|;
  }

  lemma NotMore(part: map<Id, int>, all: map<Id, int>)
    requires part.Keys <= all.Keys
    ensures |part| <= |all|
  {
    assert all.Keys == part.Keys + (all.Keys - part.Keys);
    assert |all.Keys| == |part.Keys| + |all.Keys - part.Keys|;
  }

  // ----- one batch, phase by phase

  lemma WaitingKeys(db: Database, now: int, w: seq<Id>)
    ensures DueOrders(WaitingPhase(db, w), WAITING, now).Keys == DueOrders(db, WAITING, now).Keys - set d | d in w
  {
    WaitingPhaseIs(db, w);
  }

  lemma WaitingOthers(db: Database, now: int, w: seq<Id>)
    ensures DueOrders(WaitingPhase(db, w), LOCKED, now) == DueOrders(db, LOCKED, now)
    ensures DueBaskets(WaitingPhase(db, w), now) == DueBaskets(db, now)
  {
    WaitingPhaseIs(db, w);
  }

  lemma LockedKeys(db: Database, after: Database, now: int, l: seq<Id>)
    requires ReleasedOf(db, after, l)
    ensures DueOrders(after, LOCKED, now).Keys == DueOrders(db, LOCKED, now).Keys - set d | d in l
  {}

  lemma LockedOthers(db: Database, after: Database, now: int, l: seq<Id>)
    requires ReleasedOf(db, after, l) && forall d :: d in l ==> d in DueOrders(db, LOCKED, now)
    ensures DueOrders(after, WAITING, now) == DueOrders(db, WAITING, now)
    ensures DueBaskets(after, now) == DueBaskets(db, now)
  {}

  lemma BasketKeys(db: Database, after: Database, rate: int, now: int, b: seq<Id>)
    requires BasketsEnded(db, after, rate, b) && forall x :: x in b ==> x in db.baskets
    ensures DueBaskets(after, now).Keys == DueBaskets(db, now).Keys - set x | x in b
  {}

  lemma BasketOthers(db: Database, after: Database, now: int)
    requires OrdersEnded(db.orders, after.orders)
    ensures DueOrders(after, WAITING, now) == DueOrders(db, WAITING, now)
    ensures |DueOrders(after, LOCKED, now)| <= |DueOrders(db, LOCKED, now)|
  {
    forall d | d in after.orders ensures OrderEnded(db.orders[d], after.orders[d]) {}
    NotMore(DueOrders(after, LOCKED, now), DueOrders(db, LOCKED, now));
  }

  // What is left of one kind of due rows: at least a whole batch fewer, or none.
  predicate GotOn(before: map<Id, int>, after: map<Id, int>, limit: int)
  {
    |after| <= |before| - Least(limit, |before|)
  }

  // One sweep with a limit does not fail, and each kind of due rows gets fewer by the
  // limit, or down to none.
  lemma BatchGetsOn(s: Sys, rate: int, now: int, limit: int, w: seq<Id>, l: seq<Id>, b: seq<Id>, ms: seq<Id>)
    requires Good(s, rate) && limit >= 0 && Lists(s, now, limit, w, l, b) && |ms| == |b| && Fresh(s.db, ms)
    ensures forall i :: 0 <= i < |b| ==> b[i] in LockedPhase(AfterWaiting(s, w), l).s.db.baskets
    ensures var p := ExpireTimeouts(s, rate, w, l, b, ms);
            && !p.failed && Good(p.s, rate)
            && GotOn(DueOrders(s.db, WAITING, now), DueOrders(p.s.db, WAITING, now), limit)
            && GotOn(DueOrders(s.db, LOCKED, now), DueOrders(p.s.db, LOCKED, now), limit)
            && GotOn(DueBaskets(s.db, now), DueBaskets(p.s.db, now), limit)
  {
    var s1 := AfterWaiting(s, w);
    DepositBatches(s, rate, now, limit, w, l);
    var s2 := LockedPhase(s1, l).s;
    BasketsOnce(s2.db, now, limit, b);
    BasketPhaseIs(s2, rate, b, ms);
    PhasesGetOn(s.db, s1.db, s2.db, BasketPhase(s2, b, s2.db.baskets, rate, ms).s.db, rate, now, limit, w, l, b);
  }

  lemma LockedsOnce(db: Database, now: int, limit: int, l: seq<Id>)
    requires Listing(DueOrders(db, LOCKED, now), limit, l)
    ensures LockedOnce(db, l)
  {}

  lemma BasketsOnce(db: Database, now: int, limit: int, b: seq<Id>)
    requires Listing(DueBaskets(db, now), limit, b)
    ensures WaitingOnce(db, b)
  {}

  lemma DepositBatches(s: Sys, rate: int, now: int, limit: int, w: seq<Id>, l: seq<Id>)
    requires Good(s, rate) && Listing(DueOrders(AfterWaiting(s, w).db, LOCKED, now), limit, l)
    ensures var s1 := AfterWaiting(s, w); var p := LockedPhase(s1, l);
            !p.failed && Good(p.s, rate) && ReleasedOf(s1.db, p.s.db, l) && p.s.db.records == s.db.records
  {
    WaitingPhaseIs(s.db, w);
    WaitingPhaseGood(s, rate, w);
    LockedsOnce(AfterWaiting(s, w).db, now, limit, l);
    LockedPhaseIs(AfterWaiting(s, w), rate, l);
  }

  lemma PhasesGetOn(db: Database, db1: Database, db2: Database, db3: Database, rate: int, now: int, limit: int,
                    w: seq<Id>, l: seq<Id>, b: seq<Id>)
    requires limit >= 0 && db1 == WaitingPhase(db, w) && ReleasedOf(db1, db2, l) && ExpiredOf(db2, db3, rate, b)
    requires Listing(DueOrders(db, WAITING, now), limit, w) && Listing(DueOrders(db1, LOCKED, now), limit, l)
    requires Listing(DueBaskets(db2, now), limit, b)
    ensures GotOn(DueOrders(db, WAITING, now), DueOrders(db3, WAITING, now), limit)
    ensures GotOn(DueOrders(db, LOCKED, now), DueOrders(db3, LOCKED, now), limit)
    ensures GotOn(DueBaskets(db, now), DueBaskets(db3, now), limit)
  {
    WaitingKeys(db, now, w);
    WaitingOthers(db, now, w);
    Fewer(DueOrders(db, WAITING, now), limit, w, DueOrders(db1, WAITING, now));
    LockedKeys(db1, db2, now, l);
    LockedOthers(db1, db2, now, l);
    Fewer(DueOrders(db1, LOCKED, now), limit, l, DueOrders(db2, LOCKED, now));
    BasketKeys(db2, db3, rate, now, b);
    BasketOthers(db2, db3, now);
    Fewer(DueBaskets(db2, now), limit, b, DueBaskets(db3, now));
  }

  // ----- sweep after sweep

  datatype Batch = Batch(w: seq<Id>, l: seq<Id>, b: seq<Id>, ms: seq<Id>)

  ghost predicate Ready(s: Sys, now: int, limit: int, batch: Batch)
  {
    Lists(s, now, limit, batch.w, batch.l, batch.b) && |batch.ms| == |batch.b| && Fresh(s.db, batch.ms)
  }

  ghost function Swept(s: Sys, rate: int, now: int, limit: int, batch: Batch): Sys
    requires Ready(s, now, limit, batch)
  {
    ExpireTimeouts(s, rate, batch.w, batch.l, batch.b, batch.ms).s
  }

  // Sweeps one after the other, with the state before, between and after them.
  ghost predicate Sweeps(states: seq<Sys>, rate: int, now: int, limit: int, batches: seq<Batch>)
  {
    && |states| == |batches| + 1
    && forall i :: 0 <= i < |batches| ==> SweepAt(states, rate, now, limit, batches, i)
  }

  ghost predicate SweepAt(states: seq<Sys>, rate: int, now: int, limit: int, batches: seq<Batch>, i: nat)
    requires i < |batches| && |states| == |batches| + 1
  {
    Ready(states[i], now, limit, batches[i]) && states[i + 1] == Swept(states[i], rate, now, limit, batches[i])
  }

  // The largest of the three counts of due rows.
  function MostDue(db: Database, now: int): (n: nat)
    ensures n >= |DueOrders(db, WAITING, now)| && n >= |DueOrders(db, LOCKED, now)| && n >= |DueBaskets(db, now)|
  {
    var w, l, b := |DueOrders(db, WAITING, now)|, |DueOrders(db, LOCKED, now)|, |DueBaskets(db, now)|;
    if w >= l && w >= b then w else if l >= b then l else b
  }

  lemma NoneDue(db: Database, now: int)
    requires MostDue(db, now) == 0
    ensures NothingDue(db, now)
  {}

  function Rest(count: int, limit: int): int
  {
    if limit < count then count - limit else 0
  }

  lemma SweepTakes(s: Sys, rate: int, now: int, limit: int, batch: Batch)
    requires Good(s, rate) && limit >= 1 && Ready(s, now, limit, batch)
    ensures Good(Swept(s, rate, now, limit, batch), rate)
    ensures MostDue(Swept(s, rate, now, limit, batch).db, now) <= Rest(MostDue(s.db, now), limit)
  {
    BatchGetsOn(s, rate, now, limit, batch.w, batch.l, batch.b, batch.ms);
  }

  lemma NextTakes(states: seq<Sys>, rate: int, now: int, limit: int, batches: seq<Batch>, k: nat)
    requires limit >= 1 && Sweeps(states, rate, now, limit, batches) && 1 <= k <= |batches|
    requires Good(states[k - 1], rate)
    ensures Good(states[k], rate) && MostDue(states[k].db, now) <= Rest(MostDue(states[k - 1].db, now), limit)
  {
    assert SweepAt(states, rate, now, limit, batches, k - 1);
    SweepTakes(states[k - 1], rate, now, limit, batches[k - 1]);
  }

  lemma {:induction false} SweepsGood(states: seq<Sys>, rate: int, now: int, limit: int, batches: seq<Batch>, k: nat)
    requires limit >= 1 && Sweeps(states, rate, now, limit, batches) && k <= |batches| && Good(states[0], rate)
    ensures Good(states[k], rate)
  {
    if k > 0 {
      SweepsGood(states, rate, now, limit, batches, k - 1);
      NextTakes(states, rate, now, limit, batches, k);
    }
  }

  // Counts that shrink by the limit each time.
  lemma {:induction false} Shrinks(counts: seq<int>, limit: int, k: nat)
    requires limit >= 1 && k < |counts| && counts[0] >= 0
    requires forall i :: 1 <= i < |counts| ==> counts[i] <= Rest(counts[i - 1], limit)
    ensures counts[k] <= Rest(counts[0], k * limit)
  {
    if k > 0 {
      Shrinks(counts, limit, k - 1);
      assert k * limit == (k - 1) * limit + limit;
    }
  }

  lemma NextCount(states: seq<Sys>, rate: int, now: int, limit: int, batches: seq<Batch>, k: nat)
    requires limit >= 1 && Sweeps(states, rate, now, limit, batches) && 1 <= k <= |batches| && Good(states[0], rate)
    ensures MostDue(states[k].db, now) <= Rest(MostDue(states[k - 1].db, now), limit)
  {
    SweepsGood(states, rate, now, limit, batches, k - 1);
    NextTakes(states, rate, now, limit, batches, k);
  }

  lemma SweepsTake(states: seq<Sys>, rate: int, now: int, limit: int, batches: seq<Batch>)
    requires limit >= 1 && Sweeps(states, rate, now, limit, batches) && Good(states[0], rate)
    ensures MostDue(states[|batches|].db, now) <= Rest(MostDue(states[0].db, now), |batches| * limit)
  {
    var counts := seq(|states|, i requires 0 <= i < |states| => MostDue(states[i].db, now));
    forall i | 1 <= i < |counts| ensures counts[i] <= Rest(counts[i - 1], limit) {
      NextCount(states, rate, now, limit, batches, i);
    }
    Shrinks(counts, limit, |batches|);
  }

  // As many sweeps as it takes for the limit to cover what is due leave nothing due.
  lemma EnoughSweeps(states: seq<Sys>, rate: int, now: int, limit: int, batches: seq<Batch>)
    requires limit >= 1 && Sweeps(states, rate, now, limit, batches)
    requires Good(states[0], rate) && MostDue(states[0].db, now) <= |batches| * limit
    ensures Good(states[|batches|], rate) && NothingDue(states[|batches|].db, now)
  {
    SweepsGood(states, rate, now, limit, batches, |batches|);
    SweepsTake(states, rate, now, limit, batches);
    NoneDue(states[|batches|].db, now);
  }
}
