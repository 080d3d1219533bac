// The bucket maps of the need index as a value, and the plain list of live
// baskets they must agree with (internal/engine/index.go:46-79 and 123-140).

module Buckets {
  import opened Model

  // Items filed by need, and the need under which each number was filed last.
  datatype Filing<T> = Filing(buckets: map<int, map<Id, T>>, lookup: map<Id, int>)

  // The bucket of need `n` in a plain list of numbers with their needs.
  function Bucket<T>(live: map<Id, int>, items: map<Id, T>, n: int): map<Id, T>
    requires live.Keys <= items.Keys
  {
    map no | no in live && live[no] == n :: items[no]
  }

  // The filing of a plain list: one bucket for each need that occurs.
  function Build<T>(live: map<Id, int>, items: map<Id, T>): Filing<T>
    requires live.Keys <= items.Keys
  {
    Filing(map n | n in live.Values :: Bucket(live, items, n), live)
  }

  function Add<T>(f: Filing<T>, need: int, no: Id, item: T): Filing<T>
  {
    var bucket := if need in f.buckets then f.buckets[need] else map[];
    Filing(f.buckets[need := bucket[no := item]], f.lookup[no := need])
  }

  function RemoveFrom<T>(f: Filing<T>, need: int, no: Id): Filing<T>
  {
    if need !in f.buckets then f.(lookup := f.lookup - {no})
    else
      var bucket := f.buckets[need] - {no};
      Filing(if bucket == map[] then f.buckets - {need} else f.buckets[need := bucket], f.lookup - {no})
  }

  lemma BuildAt<T>(live: map<Id, int>, items: map<Id, T>, n: int)
    requires live.Keys <= items.Keys
    ensures n in Build(live, items).buckets <==> Bucket(live, items, n) != map[]
  {
    if no :| no in live && live[no] == n {
      assert no in Bucket(live, items, n);
    }
  }

  // A filing is determined by its buckets and its lookup.
  lemma SameFiling<T>(f: Filing<T>, live: map<Id, int>, items: map<Id, T>)
    requires live.Keys <= items.Keys && f.lookup == live
    requires forall n :: n in f.buckets <==> Bucket(live, items, n) != map[]
    requires forall n :: n in f.buckets ==> f.buckets[n] == Bucket(live, items, n)
    ensures f == Build(live, items)
  {
    forall n ensures n in f.buckets <==> n in Build(live, items).buckets {
      BuildAt(live, items, n);
    }
    assert f.buckets == Build(live, items).buckets;
  }

  // Only the items that are listed matter.
  lemma SameItems<T>(live: map<Id, int>, items: map<Id, T>, others: map<Id, T>)
    requires live.Keys <= items.Keys && live.Keys <= others.Keys
    requires forall no :: no in live ==> items[no] == others[no]
    ensures Build(live, items) == Build(live, others)
  {
    forall n ensures Bucket(live, items, n) == Bucket(live, others, n) {}
  }

  lemma AddFiled<T>(live: map<Id, int>, items: map<Id, T>, need: int, no: Id, item: T)
    requires live.Keys <= items.Keys
    requires no in live ==> live[no] == need
    ensures Add(Build(live, items), need, no, item) == Build(live[no := need], items[no := item])
  {
    var f, live', items' := Add(Build(live, items), need, no, item), live[no := need], items[no := item];
    BuildAt(live, items, need);
    assert no in Bucket(live', items', need);
    assert f.buckets[need] == Bucket(live', items', need);
    forall n | n != need ensures (n in f.buckets <==> Bucket(live', items', n) != map[])
                                 && (n in f.buckets ==> f.buckets[n] == Bucket(live', items', n)) {
      BuildAt(live, items, n);
      assert Bucket(live', items', n) == Bucket(live, items, n);
    }
    SameFiling(f, live', items');
  }

  // Adding keeps the index equal to the list exactly when the number was absent
  // or already filed under the same need; otherwise the old entry stays behind.
  lemma AddRefines<T>(live: map<Id, int>, items: map<Id, T>, need: int, no: Id, item: T)
    requires live.Keys <= items.Keys
    ensures Add(Build(live, items), need, no, item) == Build(live[no := need], items[no := item])
            <==> (no in live ==> live[no] == need)
  {
    if no in live && live[no] != need {
      var was := live[no];
      BuildAt(live, items, was);
      assert no in Bucket(live, items, was) && no !in Bucket(live[no := need], items[no := item], was);
      assert no in Add(Build(live, items), need, no, item).buckets[was];
    } else {
      AddFiled(live, items, need, no, item);
    }
  }

  lemma BucketMinus<T>(live: map<Id, int>, items: map<Id, T>, n: int, no: Id)
    requires live.Keys <= items.Keys
    ensures Bucket(live - {no}, items, n) == Bucket(live, items, n) - {no}
  {}

  lemma RemoveFiled<T>(live: map<Id, int>, items: map<Id, T>, need: int, no: Id)
    requires live.Keys <= items.Keys
    requires no in live ==> live[no] == need
    ensures RemoveFrom(Build(live, items), need, no) == Build(live - {no}, items)
  {
    var f := RemoveFrom(Build(live, items), need, no);
    BuildAt(live, items, need);
    BucketMinus(live, items, need, no);
    forall n ensures (n in f.buckets <==> Bucket(live - {no}, items, n) != map[])
                     && (n in f.buckets ==> f.buckets[n] == Bucket(live - {no}, items, n)) {
      if n != need {
        BuildAt(live, items, n);
        BucketMinus(live, items, n, no);
        assert no !in Bucket(live, items, n);
        assert Bucket(live, items, n) - {no} == Bucket(live, items, n);
      }
    }
    SameFiling(f, live - {no}, items);
  }

  // Removing from a given need keeps the index equal to the list exactly when
  // that is the need the number is filed under, or the number is not filed.
  lemma RemoveRefines<T>(live: map<Id, int>, items: map<Id, T>, need: int, no: Id)
    requires live.Keys <= items.Keys
    ensures RemoveFrom(Build(live, items), need, no) == Build(live - {no}, items)
            <==> (no in live ==> live[no] == need)
  {
    if no in live && live[no] != need {
      var was := live[no];
      BuildAt(live, items, was);
      BucketMinus(live, items, was, no);
      assert no in Bucket(live, items, was);
      assert no in RemoveFrom(Build(live, items), need, no).buckets[was];
    } else {
      RemoveFiled(live, items, need, no);
    }
  }
}
