// The bucket index over live baskets (internal/engine/index.go): a sorted list
// of needs, a bucket of baskets per need, and a reverse lookup.

module NeedIndex {
  import opened Model
  import opened Basket
  import B = Buckets

  predicate Ascending(s: seq<int>)
  {
    forall i, j :: 0 <= i < j < |s| ==> s[i] < s[j]
  }

  lemma Inserted(s: seq<int>, pos: nat, v: int, t: seq<int>)
    requires Ascending(s) && pos <= |s|
    requires forall k :: 0 <= k < pos ==> s[k] < v
    requires forall k :: pos <= k < |s| ==> v < s[k]
    requires t == s[..pos] + [v] + s[pos..]
    ensures Ascending(t)
    ensures forall n :: n in t <==> n in s || n == v
  {
    assert s == s[..pos] + s[pos..];
  }

  lemma Deleted(s: seq<int>, pos: nat, t: seq<int>)
    requires Ascending(s) && pos < |s|
    requires t == s[..pos] + s[pos + 1..]
    ensures Ascending(t)
    ensures forall n :: n in t <==> n in s && n != s[pos]
  {
    assert s == s[..pos] + [s[pos]] + s[pos + 1..];
  }

  // A set of needs has one ascending list.
  lemma {:induction false} OneOrder(s: seq<int>, t: seq<int>)
    requires Ascending(s) && Ascending(t) && forall n :: n in s <==> n in t
    ensures s == t
  {
    forall k | 0 <= k < |s| ensures s[k] in t { assert s[k] in s; }
    forall k | 0 <= k < |t| ensures t[k] in s { assert t[k] in t; }
    assert |s| > 0 ==> s[0] in t;
    assert |t| > 0 ==> t[0] in s;
    if s != [] && t != [] {
      var i, j := |s| - 1, |t| - 1;
      assert s[i] in t && t[j] in s;
      assert s[i] == t[j];
      forall n ensures n in s[..i] <==> n in t[..j] {
        assert n in s[..i] <==> n in s && n != s[i];
        assert n in t[..j] <==> n in t && n != t[j];
      }
      OneOrder(s[..i], t[..j]);
      assert s == s[..i] + [s[i]] && t == t[..j] + [t[j]];
    }
  }

  // Binary search for the first position whose entry satisfies `reached`.
  method Search(s: seq<int>, reached: int -> bool) returns (pos: nat)
    requires forall i, j :: 0 <= i < j < |s| && reached(s[i]) ==> reached(s[j])
    ensures pos <= |s|
    ensures forall k :: 0 <= k < pos ==> !reached(s[k])
    ensures forall k :: pos <= k < |s| ==> reached(s[k])
  {
    var lo, hi := 0, |s|;
    while lo < hi
      invariant 0 <= lo <= hi <= |s|
      invariant forall k :: 0 <= k < lo ==> !reached(s[k])
      invariant forall k :: hi <= k < |s| ==> reached(s[k])
    {
      var mid := lo + (hi - lo) / 2;
      if !reached(s[mid]) {
        lo := mid + 1;
      } else {
        hi := mid;
      }
    }
    pos := lo;
  }

  class BucketNeedIndex {
    var needs: seq<int>
    var buckets: map<int, map<Id, Basket>>
    var lookup: map<Id, int>
    ghost var listed: map<Id, int>   // the needs a plain list of the indexed baskets would hold
    ghost var items: map<Id, Basket> // and the baskets themselves

    // The sorted list holds exactly the needs that have a bucket.
    ghost predicate Sorted()
      reads this
    {
      Ascending(needs) && forall n :: n in needs <==> n in buckets
    }

    ghost function State(): B.Filing<Basket>
      reads this
    {
      B.Filing(buckets, lookup)
    }

    // The index agrees with the plain list.
    ghost predicate Valid()
      reads this
    {
      Sorted() && listed.Keys <= items.Keys && State() == B.Build(listed, items)
    }

    constructor ()
      ensures Valid() && listed == map[]
    {
      needs, buckets, lookup, listed, items := [], map[], map[], map[], map[];
      new;
      B.SameFiling(State(), listed, items);
    }

    // Inserts into the sorted list: one place more at the end, then the tail moves
    // right entry by entry.
    method InsertNeed(need: int)
      requires Ascending(needs)
      modifies this`needs
      ensures Ascending(needs)
      ensures forall n :: n in needs <==> n in old(needs) || n == need
    {
      var pos := Search(needs, n => n >= need);
      if pos < |needs| && needs[pos] == need {
        return;
      }
      ghost var was := needs;
      needs := needs + [0];
      var j := |needs| - 1;
      while j > pos
        invariant pos <= j <= |was| == |needs| - 1
        invariant forall k :: 0 <= k < j ==> needs[k] == was[k]
        invariant forall k :: j < k <= |was| ==> needs[k] == was[k - 1]
      {
        needs := needs[j := needs[j - 1]];
        j := j - 1;
      }
      needs := needs[pos := need];
      Inserted(was, pos, need, needs);
    }

    // Removes one entry: the tail moves left entry by entry over it.
    method DeleteNeed(need: int)
      requires Ascending(needs)
      modifies this`needs
      ensures Ascending(needs)
      ensures forall n :: n in needs <==> n in old(needs) && n != need
    {
      var pos := Search(needs, n => n >= need);
      if pos < |needs| && needs[pos] == need {
        ghost var was := needs;
        var j := pos + 1;
        while j < |needs|
          invariant pos < j <= |needs| == |was|
          invariant forall k :: 0 <= k < pos ==> needs[k] == was[k]
          invariant forall k :: pos <= k < j - 1 ==> needs[k] == was[k + 1]
          invariant forall k :: j <= k < |was| ==> needs[k] == was[k]
        {
          needs := needs[j - 1 := needs[j]];
          j := j + 1;
        }
        needs := needs[..|needs| - 1];
        Deleted(was, pos, needs);
      }
    }

    // The two map writes of Add, and the sorted list kept in step.
    method File(need: int, basket: Basket)
      requires Sorted()
      modifies this`needs, this`buckets, this`lookup
      ensures Sorted()
      ensures State() == B.Add(old(State()), need, basket.no, basket)
    {
      if need !in buckets {
        buckets := buckets[need := map[]];
        InsertNeed(need);
      }
      buckets := buckets[need := buckets[need][basket.no := basket]];
      lookup := lookup[basket.no := need];
    }

    method RemoveFromNeed(need: int, no: Id)
      requires Sorted()
      modifies this`needs, this`buckets, this`lookup
      ensures Sorted()
      ensures State() == B.RemoveFrom(old(State()), need, no)
    {
      if need !in buckets {
        lookup := lookup - {no};
        return;
      }
      var bucket := buckets[need] - {no};
      buckets := buckets[need := bucket];
      lookup := lookup - {no};
      if |bucket| > 0 {
        assert bucket != map[];
        return;
      }
      buckets := buckets - {need};
      assert bucket == map[] && buckets == old(buckets) - {need};
      DeleteNeed(need);
    }

    // A live basket is filed under its need. The index then agrees with the list
    // exactly when the number was absent or already filed under that need.
    method Add(basket: Basket)
      requires Valid()
      modifies this
      ensures var need := old(basket.NeedAmount());
              && listed == (if basket.status != WAITING then old(listed) else old(listed)[basket.no := need])
              && items == (if basket.status != WAITING then old(items) else old(items)[basket.no := basket])
              && (Valid()
                  <==> (basket.status == WAITING && basket.no in old(listed) ==> old(listed)[basket.no] == need))
    {
      if basket.status != WAITING {
        return;
      }
      var need := basket.NeedAmount();
      B.AddRefines(listed, items, need, basket.no, basket);
      File(need, basket);
      listed, items := listed[basket.no := need], items[basket.no := basket];
    }

    method Remove(basket: Basket)
      requires Valid()
      modifies this
      ensures Valid() && listed == old(listed) - {basket.no} && items == old(items)
    {
      var need := if basket.no in lookup then lookup[basket.no] else basket.NeedAmount();
      B.RemoveFiled(listed, items, need, basket.no);
      RemoveFromNeed(need, basket.no);
      listed := listed - {basket.no};
    }

    // `oldNeed` is the need the basket is filed under, if it is filed at all.
    method Update(oldNeed: int, basket: Basket)
      requires Valid()
      requires basket.no in listed ==> listed[basket.no] == oldNeed
      modifies this
      ensures Valid()
      ensures listed == if basket.status != WAITING then old(listed) - {basket.no}
                        else old(listed)[basket.no := old(basket.NeedAmount())]
      ensures items == if basket.status != WAITING then old(items) else old(items)[basket.no := basket]
    {
      B.RemoveFiled(listed, items, oldNeed, basket.no);
      RemoveFromNeed(oldNeed, basket.no);
      ghost var was := listed;
      listed := listed - {basket.no};
      Add(basket);
      assert (was - {basket.no})[basket.no := basket.NeedAmount()] == was[basket.no := basket.NeedAmount()];
    }

    // Membership in a bucket, said by the plain list.
    lemma BucketIs(n: int)
      requires Valid()
      ensures n in buckets ==> buckets[n] == B.Bucket(listed, items, n)
      ensures n in buckets <==> exists no :: no in listed && listed[no] == n
    {
      B.BuildAt(listed, items, n);
    }

    // Candidates: distinct numbers that are listed, with their baskets.
    ghost predicate Listed(out: seq<Basket>, nos: seq<Id>)
      reads this
    {
      && |out| == |nos|
      && (forall i, j :: 0 <= i < j < |nos| ==> nos[i] != nos[j])
      && forall i :: 0 <= i < |nos| ==> nos[i] in listed && nos[i] in items && out[i] == items[nos[i]]
    }

    // The baskets of exactly this need, in any order. None is missed below the limit.
    method FindCompletable(amount: int, limit: nat) returns (out: seq<Basket>, ghost nos: seq<Id>)
      requires Valid() && limit > 0
      ensures |out| <= limit && Listed(out, nos)
      ensures forall i :: 0 <= i < |nos| ==> listed[nos[i]] == amount && out[i].CanComplete(amount)
      ensures |out| < limit ==>
                forall no :: no in listed && listed[no] == amount && items[no].CanComplete(amount) ==> no in nos
    {
      out, nos := [], [];
      BucketIs(amount);
      if amount !in buckets {
        return;
      }
      var bucket := buckets[amount];
      var rest := bucket.Keys;
      while rest != {}
        invariant rest <= bucket.Keys
        invariant |out| < limit && Listed(out, nos)
        invariant forall i :: 0 <= i < |nos| ==>
                    nos[i] in bucket.Keys - rest && listed[nos[i]] == amount && out[i].CanComplete(amount)
        invariant forall no :: no in bucket.Keys - rest && items[no].CanComplete(amount) ==> no in nos
        decreases rest
      {
        var no :| no in rest;
        rest := rest - {no};
        if bucket[no].CanComplete(amount) {
          out, nos := out + [bucket[no]], nos + [no];
          if |out| >= limit {
            return;
          }
        }
      }
    }

    // A listed basket with more room than the amount that is not among the candidates.
    ghost predicate Missed(amount: int, nos: seq<Id>, no: Id)
      reads this
    {
      no in listed && listed[no] > amount && no !in nos
    }

    // The accepting baskets of one bucket, in any order, up to `room` of them.
    method ScanBucket(need: int, amount: int, room: nat) returns (out: seq<Basket>, ghost nos: seq<Id>)
      requires Valid() && need in buckets && room > 0
      requires forall no :: no in listed && listed[no] == need ==> items[no].CanAccept(amount)
      ensures |out| <= room && Listed(out, nos)
      ensures forall i :: 0 <= i < |nos| ==> listed[nos[i]] == need
      ensures |out| < room ==> forall no :: no in listed && listed[no] == need ==> no in nos
    {
      out, nos := [], [];
      BucketIs(need);
      var bucket := buckets[need];
      var rest := bucket.Keys;
      while rest != {}
        invariant rest <= bucket.Keys
        invariant |out| < room && Listed(out, nos)
        invariant forall i :: 0 <= i < |nos| ==> nos[i] in bucket.Keys - rest && listed[nos[i]] == need
        invariant forall no :: no in bucket.Keys - rest ==> no in nos
        decreases rest
      {
        var no :| no in rest;
        rest := rest - {no};
        if bucket[no].CanAccept(amount) {
          out, nos := out + [bucket[no]], nos + [no];
          if |out| >= room {
            return;
          }
        }
      }
    }

    // The candidates after walking the needs before position `i`: everything above
    // the amount with a smaller need is there.
    ghost predicate Walked(amount: int, out: seq<Basket>, nos: seq<Id>, i: nat)
      reads this
    {
      && i <= |needs| && Listed(out, nos)
      && (forall k :: i <= k < |needs| ==> needs[k] > amount)
      && (forall p :: 0 <= p < |nos| ==> listed[nos[p]] > amount && listed[nos[p]] !in needs[i..])
      && forall no :: Missed(amount, nos, no) ==> listed[no] in needs[i..]
    }

    // What is walked has smaller needs than what is ahead.
    lemma Ahead(amount: int, out: seq<Basket>, nos: seq<Id>, i: nat)
      requires Valid() && Walked(amount, out, nos, i)
      ensures forall p, k :: 0 <= p < |nos| && i <= k < |needs| ==> listed[nos[p]] < needs[k]
    {
      forall p, k | 0 <= p < |nos| && i <= k < |needs| ensures listed[nos[p]] < needs[k] {
        BucketIs(listed[nos[p]]);
        var j :| 0 <= j < |needs| && needs[j] == listed[nos[p]];
        assert forall q :: i <= q < |needs| ==> needs[q] in needs[i..];
      }
    }

    // Appending the candidates of the bucket at position `i`.
    lemma Extended(amount: int, out: seq<Basket>, nos: seq<Id>, i: nat, part: seq<Basket>, more: seq<Id>)
      requires Valid() && Walked(amount, out, nos, i) && i < |needs|
      requires Listed(part, more) && forall p :: 0 <= p < |more| ==> listed[more[p]] == needs[i]
      ensures Listed(out + part, nos + more)
      ensures forall p :: 0 <= p < |nos + more| ==> amount < listed[(nos + more)[p]] <= needs[i]
      ensures forall no :: Missed(amount, nos + more, no) ==> listed[no] >= needs[i]
      ensures (forall no :: no in listed && listed[no] == needs[i] ==> no in more) ==>
                Walked(amount, out + part, nos + more, i + 1)
    {
      Ahead(amount, out, nos, i);
      assert needs[i..] == [needs[i]] + needs[i + 1..];
      forall no | Missed(amount, nos + more, no) ensures listed[no] in needs[i..] && listed[no] >= needs[i] {
        assert Missed(amount, nos, no);
      }
    }

    // Walks the sorted needs above the amount. What is missed has a need no
    // smaller than any candidate, and nothing is missed below the limit. The
    // filed baskets are live and filed under their current need.
    method FindAcceptable(amount: int, limit: nat) returns (out: seq<Basket>, ghost nos: seq<Id>)
      requires Valid() && limit > 0
      requires forall no :: no in listed ==> items[no].status == WAITING && items[no].NeedAmount() == listed[no]
      ensures |out| <= limit && Listed(out, nos)
      ensures forall i :: 0 <= i < |nos| ==> listed[nos[i]] > amount
      ensures forall no :: Missed(amount, nos, no) ==>
                |out| == limit && forall i :: 0 <= i < |nos| ==> listed[nos[i]] <= listed[no]
    {
      out, nos := [], [];
      var i := Search(needs, n => n > amount);
      forall no | Missed(amount, nos, no) ensures listed[no] in needs[i..] {
        BucketIs(listed[no]);
        assert listed[no] in needs;
      }
      while i < |needs|
        invariant |out| < limit && Walked(amount, out, nos, i)
      {
        var part, more := ScanBucket(needs[i], amount, limit - |out|);
        Extended(amount, out, nos, i, part, more);
        out, nos := out + part, nos + more;
        if |out| >= limit {
          return;
        }
        i := i + 1;
      }
    }
  }
}
