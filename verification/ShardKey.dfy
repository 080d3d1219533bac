// The text key of a shard (internal/biz/matching.go:733-736): channel, colon, currency,
// and the map of shards that is keyed by it (518-525).

module ShardKey {
  import opened Model
  import P = Pool
  import opened Recovery

  function KeyText(channel: string, currency: string): string
  {
    channel + ":" + currency
  }

  // Where two readings of one key split it.
  lemma SplitsAt(c: string, u: string, d: string, v: string)
    requires KeyText(c, u) == KeyText(d, v) && |c| < |d|
    ensures d[|c|] == ':' && ':' in d && ':' in u
  {
    var key := KeyText(c, u);
    assert key[|c|] == ':' && key == d + ":" + v;
    assert d[|c|] == key[|c|];
    assert key[|d|] == ':' && key[|d|] == u[|d| - |c| - 1];
  }

  // Channels without a colon never share a key.
  lemma PlainChannels(c: string, u: string, d: string, v: string)
    requires ':' !in c && ':' !in d && KeyText(c, u) == KeyText(d, v)
    ensures c == d && u == v
  {
    if |c| < |d| {
      SplitsAt(c, u, d, v);
    } else if |d| < |c| {
      SplitsAt(d, v, c, u);
    } else {
      SameSplit(c, u, d, v);
    }
  }

  lemma SameSplit(c: string, u: string, d: string, v: string)
    requires KeyText(c, u) == KeyText(d, v) && |c| == |d|
    ensures c == d && u == v
  {
    var key := KeyText(c, u);
    assert c == key[..|c|] && d == key[..|c|];
    assert u == key[|c| + 1..] && v == key[|c| + 1..];
  }

  // The key of a pair belongs to no other pair exactly when neither part has a colon.
  lemma Unshared(c: string, u: string)
    ensures (forall d, v :: KeyText(d, v) == KeyText(c, u) ==> d == c && v == u)
            <==> ':' !in c && ':' !in u
  {
    if i :| 0 <= i < |c| && c[i] == ':' {
      assert c == c[..i] + ":" + c[i + 1..];
      assert KeyText(c[..i], c[i + 1..] + ":" + u) == KeyText(c, u);
    } else if i :| 0 <= i < |u| && u[i] == ':' {
      assert u == u[..i] + ":" + u[i + 1..];
      assert KeyText(c + ":" + u[..i], u[i + 1..]) == KeyText(c, u);
    } else {
      forall d, v | KeyText(d, v) == KeyText(c, u) ensures d == c && v == u {
        if |c| < |d| {
          SplitsAt(c, u, d, v);
        } else if |d| < |c| {
          SplitsAt(d, v, c, u);
        } else {
          SameSplit(c, u, d, v);
        }
      }
    }
  }

  // ----- shards by text

  // A shard by text is for the pair it was made for, whoever finds it.
  datatype Slot = Slot(key: Key, pool: P.Pool)

  type ByText = map<string, Slot>

  function TextOf(key: Key): string
  {
    KeyText(key.channel.text, key.currency.text)
  }

  predicate Plain(key: Key)
  {
    ':' !in key.channel.text
  }

  // What a pair finds: the shard under its text, or a new one.
  function SlotOf(shards: ByText, key: Key): Slot
  {
    if TextOf(key) in shards then shards[TextOf(key)] else Slot(key, map[])
  }

  function Put(shards: ByText, key: Key, pool: P.Pool): ByText
  {
    shards[TextOf(key) := SlotOf(shards, key).(pool := pool)]
  }

  // One operation of the use case on the shard of a pair; what it leaves there may
  // depend on all it finds, as matching does.
  datatype Use = Use(key: Key, leaves: Slot -> P.Pool)

  function UseText(shards: ByText, use: Use): ByText
  {
    Put(shards, use.key, use.leaves(SlotOf(shards, use.key)))
  }

  function UsePairs(mem: Memory, use: Use): Memory
  {
    mem[use.key := use.leaves(Slot(use.key, PoolOf(mem, use.key)))]
  }

  function AllText(shards: ByText, uses: seq<Use>): ByText
  {
    if uses == [] then shards else UseText(AllText(shards, uses[..|uses| - 1]), uses[|uses| - 1])
  }

  function AllPairs(mem: Memory, uses: seq<Use>): Memory
  {
    if uses == [] then mem else UsePairs(AllPairs(mem, uses[..|uses| - 1]), uses[|uses| - 1])
  }

  // Every pair with a plain channel finds its own shard, as if shards were kept by pair.
  ghost predicate Refines(shards: ByText, mem: Memory)
  {
    forall key :: Plain(key) ==> SlotOf(shards, key) == Slot(key, PoolOf(mem, key))
  }

  lemma PlainApart(key: Key, other: Key)
    requires Plain(key) && Plain(other) && TextOf(key) == TextOf(other)
    ensures key == other
  {
    PlainChannels(key.channel.text, key.currency.text, other.channel.text, other.currency.text);
  }

  lemma UseRefines(shards: ByText, mem: Memory, use: Use)
    requires Refines(shards, mem) && Plain(use.key)
    ensures Refines(UseText(shards, use), UsePairs(mem, use))
  {
    forall key | Plain(key)
      ensures SlotOf(UseText(shards, use), key) == Slot(key, PoolOf(UsePairs(mem, use), key))
    {
      if TextOf(key) == TextOf(use.key) {
        PlainApart(key, use.key);
      }
    }
  }

  // Over every run of operations on pairs with plain channels, shards by text are
  // shards by pair.
  lemma {:induction false} RunRefines(uses: seq<Use>)
    requires forall use :: use in uses ==> Plain(use.key)
    ensures Refines(AllText(map[], uses), AllPairs(map[], uses))
  {
    if uses != [] {
      var n := |uses| - 1;
      RunRefines(uses[..n]);
      UseRefines(AllText(map[], uses[..n]), AllPairs(map[], uses[..n]), uses[n]);
    }
  }

  // No operation on another pair is ever seen by this one.
  ghost predicate Alone(key: Key)
  {
    forall shards, other, pool :: other != key ==> SlotOf(Put(shards, other, pool), key) == SlotOf(shards, key)
  }

  // That is so exactly when neither its channel nor its currency has a colon.
  lemma AloneExactly(key: Key)
    ensures Alone(key) <==> ':' !in key.channel.text && ':' !in key.currency.text
  {
    var c, u := key.channel.text, key.currency.text;
    Unshared(c, u);
    if ':' !in c && ':' !in u {
      forall shards, other, pool | other != key ensures SlotOf(Put(shards, other, pool), key) == SlotOf(shards, key) {
        assert TextOf(other) != TextOf(key);
      }
    } else {
      var d, v :| KeyText(d, v) == KeyText(c, u) && !(d == c && v == u);
      var other := Key(Id(d), Id(v));
      assert other != key && TextOf(other) == TextOf(key);
      assert SlotOf(Put(map[], other, map[]), key) == Slot(other, map[]) != SlotOf(map[], key);
    }
  }
}
