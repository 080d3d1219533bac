// The lock that keeps two instances off one shard (pkg/toolbox/redisx/lock.go:13-69):
// SET NX with a random token and a time to live, released by compare-and-delete.

module ShardLock {
  import opened Model

  // Times and durations are in milliseconds.
  const DEFAULT_TTL := 30000

  datatype Entry = Entry(token: Id, until: int)

  type Entries = map<Id, Entry>

  // An entry whose time is over is gone.
  predicate Live(entries: Entries, key: Id, now: int)
  {
    key in entries && now < entries[key].until
  }

  function Set(entries: Entries, key: Id, token: Id, ttl: int, now: int): Entries
  {
    if Live(entries, key, now) then entries else entries[key := Entry(token, now + ttl)]
  }

  function CompareAndDelete(entries: Entries, key: Id, token: Id, now: int): Entries
  {
    if Live(entries, key, now) && entries[key].token == token then entries - {key} else entries
  }

  function Ttl(ttl: int): int
  {
    if ttl <= 0 then DEFAULT_TTL else ttl
  }

  // ----- waiting for the lock

  // What one turn of the loop meets: the answer to SET NX, and, when the key is
  // taken, whether the context ends before the next tick.
  datatype Turn = Granted | Taken(cancelled: bool) | ClientError

  datatype Waited = Acquired | Failed | StillWaiting

  // A turn that ends the loop.
  predicate Ends(turn: Turn)
  {
    turn != Taken(false)
  }

  // The loop of waitLock, over the turns that happen.
  method WaitLock(turns: seq<Turn>) returns (waited: Waited, n: nat)
    ensures n <= |turns| && forall j :: 0 <= j < n - 1 ==> !Ends(turns[j])
    ensures waited == StillWaiting <==> forall j :: 0 <= j < |turns| ==> !Ends(turns[j])
    ensures waited == StillWaiting ==> n == |turns|
    ensures waited != StillWaiting ==> n > 0 && Ends(turns[n - 1])
    ensures waited == Acquired <==>
              exists i :: 0 <= i < |turns| && turns[i] == Granted && forall j :: 0 <= j < i ==> !Ends(turns[j])
  {
    n := 0;
    while n < |turns|
      invariant n <= |turns|
      invariant forall j :: 0 <= j < n ==> !Ends(turns[j])
    {
      n := n + 1;
      match turns[n - 1]
      case ClientError => return Failed, n;
      case Granted => return Acquired, n;
      case Taken(cancelled) =>
        if cancelled {
          return Failed, n;
        }
    }
    waited := StillWaiting;
  }

  // ----- all interleavings

  // Where one caller of WithLock is, with the time to live it asked for, and since when
  // it is inside.
  datatype Caller =
    | Waiting(key: Id, token: Id, ttl: int)
    | Inside(key: Id, token: Id, ttl: int, since: int)
    | Leaving(key: Id, token: Id)

  datatype State = State(entries: Entries, now: int, callers: map<nat, Caller>, used: set<Id>)

  // `lost` marks an answer that does not reach the caller although the command ran.
  datatype Step =
    | Begin(p: nat, key: Id, token: Id, ttl: int)
    | Try(p: nat, lost: bool)
    | GiveUp(p: nat)
    | Leave(p: nat)
    | Unlock(p: nat)
    | Crash(p: nat)
    | Tick(ms: nat)

  function Gone(s: State, p: nat): State
  {
    s.(callers := s.callers - {p})
  }

  // The tokens of a run are new: 16 random bytes (lines 87-97).
  function Next(s: State, step: Step): State
  {
    match step
    case Begin(p, key, token, ttl) =>
      if p in s.callers || token in s.used then s
      else s.(callers := s.callers[p := Waiting(key, token, ttl)], used := s.used + {token})
    case Try(p, lost) =>
      if !(p in s.callers && s.callers[p].Waiting?) then s
      else
        var c := s.callers[p];
        var after := s.(entries := Set(s.entries, c.key, c.token, Ttl(c.ttl), s.now));
        if lost || Live(s.entries, c.key, s.now) then after
        else after.(callers := s.callers[p := Inside(c.key, c.token, c.ttl, s.now)])
    case GiveUp(p) => if p in s.callers && s.callers[p].Waiting? then Gone(s, p) else s
    case Leave(p) =>
      if !(p in s.callers && s.callers[p].Inside?) then s
      else s.(callers := s.callers[p := Leaving(s.callers[p].key, s.callers[p].token)])
    case Unlock(p) =>
      if !(p in s.callers && s.callers[p].Leaving?) then s
      else Gone(s.(entries := CompareAndDelete(s.entries, s.callers[p].key, s.callers[p].token, s.now)), p)
    case Crash(p) => Gone(s, p)
    case Tick(ms) => s.(now := s.now + ms)
  }

  predicate InsideOf(s: State, p: nat, key: Id)
  {
    p in s.callers && s.callers[p].Inside? && s.callers[p].key == key
  }

  // The time a caller asked for, or half a minute when it asked for none, was over at `t`.
  predicate OverAt(c: Caller, t: int)
    requires c.Inside?
  {
    && (c.ttl > 0 ==> c.since + c.ttl <= t)
    && (c.ttl <= 0 ==> c.since + 30000 <= t)
  }

  // Still within the time it asked for.
  predicate OnTime(s: State, p: nat)
    requires p in s.callers && s.callers[p].Inside?
  {
    !OverAt(s.callers[p], s.now)
  }

  predicate CallerOk(s: State, p: nat)
    requires p in s.callers
  {
    var c := s.callers[p];
    && c.token in s.used
    && (c.Inside? ==> c.since <= s.now)
    && (c.Inside? && OnTime(s, p) ==>
          c.key in s.entries && s.entries[c.key] == Entry(c.token, c.since + Ttl(c.ttl)))
  }

  // Of two callers inside one key the one was let in when the time of the other was over.
  predicate Apart(c: Caller, d: Caller)
  {
    c.Inside? && d.Inside? && c.key == d.key ==> OverAt(c, d.since) || OverAt(d, c.since)
  }

  ghost predicate Owned(s: State)
  {
    && (forall k :: k in s.entries ==> s.entries[k].token in s.used)
    && (forall p :: p in s.callers ==> CallerOk(s, p))
    && (forall p, q :: p in s.callers && q in s.callers && s.callers[p].token == s.callers[q].token ==> p == q)
    && (forall p, q :: p in s.callers && q in s.callers && p != q ==> Apart(s.callers[p], s.callers[q]))
  }

  lemma StepCaller(s: State, step: Step, p: nat)
    requires Owned(s) && p in Next(s, step).callers
    ensures CallerOk(Next(s, step), p)
  {
    assert p in s.callers ==> CallerOk(s, p);
    if step.Unlock? && step.p in s.callers {
      assert p != step.p ==> s.callers[p].token != s.callers[step.p].token;
    }
  }

  lemma StepApart(s: State, step: Step, p: nat, q: nat)
    requires Owned(s) && p in Next(s, step).callers && q in Next(s, step).callers && p != q
    ensures Apart(Next(s, step).callers[p], Next(s, step).callers[q])
  {
    if p in s.callers && q in s.callers {
      assert CallerOk(s, p) && CallerOk(s, q) && Apart(s.callers[p], s.callers[q]);
    }
  }

  lemma StepOwned(s: State, step: Step)
    requires Owned(s)
    ensures Owned(Next(s, step))
  {
    forall p | p in Next(s, step).callers ensures CallerOk(Next(s, step), p) {
      StepCaller(s, step, p);
    }
    assert forall p :: p in s.callers ==> CallerOk(s, p);
    forall p, q | p in Next(s, step).callers && q in Next(s, step).callers && p != q
      ensures Apart(Next(s, step).callers[p], Next(s, step).callers[q]) {
      StepApart(s, step, p, q);
    }
  }

  function After(s: State, steps: seq<Step>): State
  {
    if steps == [] then s else Next(After(s, steps[..|steps| - 1]), steps[|steps| - 1])
  }

  const FREE := State(map[], 0, map[], {})

  lemma {:induction false} RunOwned(s: State, steps: seq<Step>)
    requires Owned(s)
    ensures Owned(After(s, steps))
  {
    if steps != [] {
      RunOwned(s, steps[..|steps| - 1]);
      StepOwned(After(s, steps[..|steps| - 1]), steps[|steps| - 1]);
    }
  }

  // What a caller waits or stays with is what it asked for, and it is inside since the
  // turn that let it in.
  lemma {:induction false} AskedFor(steps: seq<Step>, p: nat)
    requires p in After(FREE, steps).callers
    ensures var c := After(FREE, steps).callers[p];
            && (!c.Leaving? ==> exists i :: 0 <= i < |steps| && steps[i] == Begin(p, c.key, c.token, c.ttl))
            && (c.Inside? ==>
                  exists i :: 0 <= i < |steps| && steps[i] == Try(p, false) && After(FREE, steps[..i]).now == c.since)
  {
    if steps != [] {
      var n := |steps| - 1;
      var was := After(FREE, steps[..n]);
      if p in was.callers {
        AskedFor(steps[..n], p);
        assert forall i :: 0 <= i < n ==> steps[..n][i] == steps[i] && steps[..n][..i] == steps[..i];
      }
      assert steps[n] == steps[|steps| - 1];
    }
  }

  // A caller that is let in holds the key under its own token for the time it asked for,
  // or for half a minute when it asked for none.
  lemma GrantedFor(s: State, p: nat)
    requires p in s.callers && s.callers[p].Waiting? && !Live(s.entries, s.callers[p].key, s.now)
    ensures var c, after := s.callers[p], Next(s, Try(p, false));
            && after.callers == s.callers[p := Inside(c.key, c.token, c.ttl, s.now)] && after.now == s.now
            && after.entries.Keys == s.entries.Keys + {c.key}
            && (forall k :: k in s.entries && k != c.key ==> after.entries[k] == s.entries[k])
            && after.entries[c.key].token == c.token
            && (c.ttl > 0 ==> after.entries[c.key].until == s.now + c.ttl)
            && (c.ttl <= 0 ==> after.entries[c.key].until == s.now + 30000)
  {}

  // Of two callers inside one key, the one came in when the time the other had asked for
  // was over: the times of two grants never overlap.
  lemma GrantsApart(steps: seq<Step>, p: nat, q: nat, key: Id)
    requires var s := After(FREE, steps); InsideOf(s, p, key) && InsideOf(s, q, key) && p != q
    ensures var s := After(FREE, steps);
            OverAt(s.callers[p], s.callers[q].since) || OverAt(s.callers[q], s.callers[p].since)
  {
    RunOwned(FREE, steps);
    var s := After(FREE, steps);
    assert Apart(s.callers[p], s.callers[q]);
  }

  // Two callers inside one key are never both on time.
  lemma OneOnTime(steps: seq<Step>, p: nat, q: nat, key: Id)
    requires var s := After(FREE, steps);
             InsideOf(s, p, key) && InsideOf(s, q, key) && OnTime(s, p) && OnTime(s, q)
    ensures p == q
  {
    RunOwned(FREE, steps);
    var s := After(FREE, steps);
    assert CallerOk(s, p) && CallerOk(s, q);
  }

  // Mutual exclusion in every state in which nobody overstays.
  lemma Exclusion(steps: seq<Step>, key: Id)
    requires var s := After(FREE, steps); forall p :: InsideOf(s, p, key) ==> OnTime(s, p)
    ensures var s := After(FREE, steps); forall p, q :: InsideOf(s, p, key) && InsideOf(s, q, key) ==> p == q
  {
    var s := After(FREE, steps);
    forall p, q | InsideOf(s, p, key) && InsideOf(s, q, key) ensures p == q {
      OneOnTime(steps, p, q, key);
    }
  }

  // A release, however late, leaves every entry alone that is not the caller's own,
  // and frees its own key.
  lemma ReleaseIsOwn(steps: seq<Step>, p: nat, q: nat, key: Id)
    requires var s := After(FREE, steps); p in s.callers && s.callers[p].Leaving? && q in s.callers && q != p
    ensures var s, after := After(FREE, steps), Next(After(FREE, steps), Unlock(p));
            && (Live(s.entries, key, s.now) && s.entries[key].token == s.callers[q].token ==>
                  key in after.entries && after.entries[key] == s.entries[key])
            && (key != s.callers[p].key && key in s.entries ==>
                  key in after.entries && after.entries[key] == s.entries[key])
            && !(Live(after.entries, s.callers[p].key, s.now)
                 && after.entries[s.callers[p].key].token == s.callers[p].token)
            && after.callers == s.callers - {p}
  {
    RunOwned(FREE, steps);
    var s := After(FREE, steps);
    assert s.callers[p].token != s.callers[q].token;
  }

  // A caller that waits gets in exactly when no entry is live, and is then on time, so
  // a key stays taken no longer than the time to live of the last grant.
  lemma Enters(steps: seq<Step>, p: nat)
    requires var s := After(FREE, steps); p in s.callers && s.callers[p].Waiting?
    ensures var s, after := After(FREE, steps), Next(After(FREE, steps), Try(p, false));
            && (InsideOf(after, p, s.callers[p].key) <==> !Live(s.entries, s.callers[p].key, s.now))
            && (InsideOf(after, p, s.callers[p].key) ==> OnTime(after, p))
  {
    RunOwned(FREE, steps);
    assert CallerOk(After(FREE, steps), p);
  }

  lemma OneStepMore(s: State, steps: seq<Step>, step: Step)
    ensures After(s, steps + [step]) == Next(After(s, steps), step)
  {
    assert (steps + [step])[..|steps|] == steps;
  }

  // With one caller inside, a second one that waits for the same key gets in exactly when
  // no entry is live, and then the first has overstayed.
  lemma JoinsLate(steps: seq<Step>, p: nat, q: nat, key: Id)
    requires var s := After(FREE, steps);
             InsideOf(s, p, key) && q in s.callers && s.callers[q].Waiting? && s.callers[q].key == key
    ensures var s, after := After(FREE, steps), Next(After(FREE, steps), Try(q, false));
            && (InsideOf(after, p, key) && InsideOf(after, q, key) <==> !Live(s.entries, key, s.now))
            && (!Live(s.entries, key, s.now) ==> !OnTime(s, p))
            && (OnTime(s, p) ==> after == s)
  {
    RunOwned(FREE, steps);
    assert CallerOk(After(FREE, steps), p);
  }

  // Without the timing premise exclusion fails: the second caller gets in when the
  // entry of the first has run out, while the first is still inside.
  lemma LateOverlap(key: Id, a: Id, b: Id)
    requires a != b
    ensures var s := After(FREE, [Begin(0, key, a, 10), Try(0, false), Tick(10), Begin(1, key, b, 10), Try(1, false)]);
            InsideOf(s, 0, key) && InsideOf(s, 1, key) && !OnTime(s, 0) && OnTime(s, 1)
  {
    var steps := [Begin(0, key, a, 10), Try(0, false), Tick(10), Begin(1, key, b, 10), Try(1, false)];
    OneStepMore(FREE, [], steps[0]);
    assert steps[..1] == [] + [steps[0]];
    OneStepMore(FREE, steps[..1], steps[1]);
    assert steps[..2] == steps[..1] + [steps[1]];
    OneStepMore(FREE, steps[..2], steps[2]);
    assert steps[..3] == steps[..2] + [steps[2]];
    OneStepMore(FREE, steps[..3], steps[3]);
    assert steps[..4] == steps[..3] + [steps[3]];
    OneStepMore(FREE, steps[..4], steps[4]);
    assert steps == steps[..4] + [steps[4]];
  }
}
