// A list of deposit numbers with its backing array, as the source holds it
// (internal/engine/shard.go:160-194 and 222-231, internal/engine/basket.go:68-71).
// Baskets change their lists through it and keep the content.

module Slices {
  import opened Model

  // The entries before `i` are filtered into the first `kept`, the others untouched.
  ghost predicate Filtered(now: seq<Id>, all: seq<Id>, no: Id, kept: nat, i: nat)
  {
    kept <= i <= |all| == |now| && now[..kept] == Without(all[..i], no) && now[i..] == all[i..]
  }

  // The kept prefix never overtakes the entry being read.
  lemma FilterStep(now: seq<Id>, all: seq<Id>, no: Id, kept: nat, i: nat)
    requires Filtered(now, all, no, kept, i) && i < |all|
    ensures now[i] == all[i]
    ensures now[i] != no ==> Filtered(now[kept := now[i]], all, no, kept + 1, i + 1)
    ensures now[i] == no ==> Filtered(now, all, no, kept, i + 1)
  {
    assert now[i] == now[i..][0] == all[i..][0];
    assert now[i + 1..] == now[i..][1..] == all[i..][1..] == all[i + 1..];
    assert all[..i + 1] == all[..i] + [all[i]];
    WithoutStep(all[..i], all[i], no);
    if now[i] != no {
      var after := now[kept := now[i]];
      assert after[..kept + 1] == now[..kept] + [now[i]];
      assert after[i + 1..] == now[i + 1..];
    }
  }

  class Slice {
    var data: array<Id>
    var count: nat

    ghost predicate Valid()
      reads this
    {
      count <= data.Length
    }

    ghost function Content(): seq<Id>
      reads this, data
      requires Valid()
    {
      data[..count]
    }

    // A slice of exactly these entries.
    constructor (list: seq<Id>)
      ensures Valid() && fresh(data) && Content() == list
    {
      data, count := new Id[|list|](i requires 0 <= i < |list| => list[i]), |list|;
    }

    method List() returns (list: seq<Id>)
      requires Valid()
      ensures list == Content()
    {
      list := data[..count];
    }

    // Writes in place while the backing array has room, and moves to a larger
    // array otherwise.
    method Append(no: Id)
      requires Valid()
      modifies this, data
      ensures Valid() && (data == old(data) || fresh(data))
      ensures Content() == old(Content()) + [no]
    {
      if count == data.Length {
        var larger := new Id[2 * count + 1];
        forall i | 0 <= i < count {
          larger[i] := data[i];
        }
        data := larger;
      }
      data[count] := no;
      count := count + 1;
    }

    // Filters the list into its own backing array: the kept prefix never
    // overtakes the entry being read.
    method RemoveDepositNo(no: Id)
      requires Valid()
      modifies this`count, data
      ensures Valid()
      ensures Content() == Without(old(Content()), no)
    {
      ghost var all := data[..];
      var kept := 0;
      for i := 0 to count
        invariant kept <= i && count == old(count) <= |all| == data.Length
        invariant Filtered(data[..], all, no, kept, i)
      {
        var item := data[i];
        FilterStep(data[..], all, no, kept, i);
        if item != no {
          data[kept] := item;
          kept := kept + 1;
        }
      }
      assert data[..][..kept] == data[..kept] && all[..count] == old(Content());
      count := kept;
    }

    // The list of a result: a copy in an array of its own.
    method CopyWith(no: Id) returns (list: array<Id>)
      requires Valid()
      ensures fresh(list) && list[..] == Content() + [no]
    {
      list := new Id[count + 1];
      forall i | 0 <= i < count {
        list[i] := data[i];
      }
      list[count] := no;
    }

    // A list handed out keeps its content whatever happens to the basket later:
    // `changes` is any run of appends and removals.
    method HandedOut(no: Id, changes: seq<(bool, Id)>) returns (list: array<Id>)
      requires Valid()
      modifies this, data
      ensures Valid() && list[..] == old(Content()) + [no]
      ensures Content() == Changed(old(Content()), changes)
    {
      list := CopyWith(no);
      for i := 0 to |changes|
        invariant Valid() && list != data && (data == old(data) || fresh(data))
        invariant list[..] == old(Content()) + [no]
        invariant Content() == Changed(old(Content()), changes[..i])
      {
        assert changes[..i + 1][..i] == changes[..i];
        if changes[i].0 {
          Append(changes[i].1);
        } else {
          RemoveDepositNo(changes[i].1);
        }
      }
      assert changes[..|changes|] == changes;
    }
  }

  // The content after a run of appends (`true`) and removals (`false`).
  function Changed(s: seq<Id>, changes: seq<(bool, Id)>): seq<Id>
  {
    if changes == [] then s
    else
      var n := |changes| - 1;
      var t := Changed(s, changes[..n]);
      if changes[n].0 then t + [changes[n].1] else Without(t, changes[n].1)
  }
}
