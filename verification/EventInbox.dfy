// The inbox that makes event consumption idempotent: the repository whose methods
// are single statements (internal/data/event_inbox_repo.go:22-78), the gate that
// calls them (internal/biz/matching.go:220-252 and 279-306), and all interleavings
// of concurrent workers.

module EventInbox {
  import opened Model

  datatype EventStatus = Processing | Succeeded | Failed

  datatype EventRow = EventRow(topic: Id, bizNo: Id, status: EventStatus, errorMsg: Id)

  type Inbox = map<Id, EventRow>

  // How a statement ends for its caller: answered; refused before it had an effect;
  // or executed with the answer lost.
  datatype Io = Answered | Refused | AnswerLost

  // ----- the statements

  predicate CanRetry(inbox: Inbox, event: Id)
  {
    event in inbox && inbox[event].status == Failed
  }

  function Created(inbox: Inbox, event: Id, topic: Id, bizNo: Id): Inbox
  {
    if event in inbox then inbox else inbox[event := EventRow(topic, bizNo, Processing, EMPTY)]
  }

  function Retried(inbox: Inbox, event: Id): Inbox
  {
    if CanRetry(inbox, event) then inbox[event := inbox[event].(status := Processing, errorMsg := EMPTY)] else inbox
  }

  // The two final writes check nothing but the number of the event.
  function Marked(inbox: Inbox, event: Id, ok: bool, errorMsg: Id): Inbox
  {
    if event !in inbox then inbox
    else if ok then inbox[event := inbox[event].(status := Succeeded)]
    else inbox[event := inbox[event].(status := Failed, errorMsg := errorMsg)]
  }

  class EventInboxRepo {
    var rows: Inbox

    constructor ()
      ensures rows == map[]
    {
      rows := map[];
    }

    method TryCreateProcessing(event: Id, topic: Id, bizNo: Id, io: Io) returns (created: bool, failed: bool)
      modifies this
      ensures rows == if io.Refused? then old(rows) else Created(old(rows), event, topic, bizNo)
      ensures failed <==> !io.Answered?
      ensures created <==> io.Answered? && event !in old(rows)
    {
      created, failed := false, !io.Answered?;
      if !io.Refused? && event !in rows {
        rows := rows[event := EventRow(topic, bizNo, Processing, EMPTY)];
        created := io.Answered?;
      }
    }

    method GetByEventID(event: Id, io: Io) returns (row: Option<EventRow>)
      ensures row == if io.Answered? && event in rows then Some(rows[event]) else None
    {
      row := None;
      if io.Answered? && event in rows {
        row := Some(rows[event]);
      }
    }

    method RetryFailed(event: Id, io: Io) returns (retried: bool, failed: bool)
      modifies this
      ensures rows == if io.Refused? then old(rows) else Retried(old(rows), event)
      ensures failed <==> !io.Answered?
      ensures retried <==> io.Answered? && CanRetry(old(rows), event)
    {
      retried, failed := false, !io.Answered?;
      if !io.Refused? && event in rows && rows[event].status == Failed {
        rows := rows[event := rows[event].(status := Processing, errorMsg := EMPTY)];
        retried := io.Answered?;
      }
    }

    method MarkSucceeded(event: Id, io: Io) returns (failed: bool)
      modifies this
      ensures rows == if io.Refused? then old(rows) else Marked(old(rows), event, true, EMPTY)
      ensures failed <==> !io.Answered?
    {
      failed := !io.Answered?;
      if !io.Refused? && event in rows {
        rows := rows[event := rows[event].(status := Succeeded)];
      }
    }

    method MarkFailed(event: Id, errorMsg: Id, io: Io) returns (failed: bool)
      modifies this
      ensures rows == if io.Refused? then old(rows) else Marked(old(rows), event, false, errorMsg)
      ensures failed <==> !io.Answered?
    {
      failed := !io.Answered?;
      if !io.Refused? && event in rows {
        rows := rows[event := rows[event].(status := Failed, errorMsg := errorMsg)];
      }
    }

    // The gate without interference: an event may be processed when it is new or has
    // failed, and is then marked as being processed.
    method BeginEvent(event: Id, topic: Id, bizNo: Id, io: seq<Io>) returns (canProcess: bool, failed: bool)
      requires |io| == 3
      modifies this
      ensures canProcess ==> !failed && event != EMPTY && event in rows && rows[event].status == Processing
      ensures canProcess ==> event !in old(rows) || old(rows)[event].status == Failed
      ensures canProcess ==>
                rows == if event in old(rows) then Retried(old(rows), event)
                        else Created(old(rows), event, topic, if bizNo == EMPTY then event else bizNo)
      ensures canProcess && event !in old(rows) ==>
                && rows[event].topic == topic && rows[event].errorMsg == Id("")
                && rows[event].bizNo == (if bizNo == Id("") then event else bizNo)
      ensures canProcess && event in old(rows) ==>
                rows[event] == old(rows)[event].(status := Processing, errorMsg := Id(""))
      ensures (forall i :: 0 <= i < 3 ==> io[i].Answered?) ==>
                && (failed <==> event == EMPTY)
                && (canProcess <==> event != EMPTY && (event !in old(rows) || old(rows)[event].status == Failed))
                && (!canProcess ==> rows == old(rows))
      ensures rows - {event} == old(rows) - {event}
      ensures event in old(rows) && old(rows)[event].status != Failed ==> rows == old(rows)
      ensures failed <==>
                || event == EMPTY || !io[0].Answered?
                || (event in old(rows) && (!io[1].Answered? || (old(rows)[event].status == Failed && !io[2].Answered?)))
      ensures var s := Gated(old(rows), event, topic, if bizNo == EMPTY then event else bizNo, io);
              rows == s.inbox && (canProcess <==> Holds(s, 0, event))
    {
      if event == EMPTY {
        return false, true;
      }
      var number := if bizNo == EMPTY then event else bizNo;
      canProcess, failed := TryCreateProcessing(event, topic, number, io[0]);
      if failed || canProcess {
        return;
      }
      var row := GetByEventID(event, io[1]);
      if row.None? {
        return false, true;
      }
      if row.value.status == Failed {
        canProcess, failed := RetryFailed(event, io[2]);
      }
    }

    // Handling one event: the business call is made only behind the gate, and the
    // event ends with its outcome unless the final write is lost.
    method ProcessEvent(event: Id, topic: Id, bizNo: Id, business: () -> bool, errorMsg: Id, io: seq<Io>, last: Io)
      returns (processed: bool, failed: bool)
      requires |io| == 3
      modifies this
      ensures processed ==> event !in old(rows) || old(rows)[event].status == Failed
      ensures processed ==> event in rows && rows[event].status ==
                              if last.Refused? then Processing else if business() then Succeeded else Failed
      ensures processed && !last.Refused? && !business() ==> rows[event].errorMsg == errorMsg
      ensures processed && (last.Refused? || business()) ==> rows[event].errorMsg == Id("")
      ensures processed ==>
                rows[event].topic == (if event in old(rows) then old(rows)[event].topic else topic)
      ensures processed ==>
                rows[event].bizNo == if event in old(rows) then old(rows)[event].bizNo
                                     else if bizNo == Id("") then event else bizNo
      ensures processed ==> (failed <==> !business() || !last.Answered?)
      ensures !processed && (forall i :: 0 <= i < 3 ==> io[i].Answered?) ==> rows == old(rows)
      ensures rows - {event} == old(rows) - {event}
      ensures var s := Gated(old(rows), event, topic, if bizNo == EMPTY then event else bizNo, io);
              && (processed <==> Holds(s, 0, event))
              && rows == Next(Next(s, Finish(0, business())), Mark(0, errorMsg, last)).inbox
    {
      var canProcess;
      canProcess, failed := BeginEvent(event, topic, bizNo, io);
      if failed || !canProcess {
        return false, failed;
      }
      if business() {
        failed := MarkSucceeded(event, last);
      } else {
        var lost := MarkFailed(event, errorMsg, last);
        failed := true;
      }
      processed := true;
    }
  }

  // ----- concurrent workers

  // A worker between two of its statements. `Finishing` also stands for a final
  // write that is still on its way when the worker is gone.
  datatype Phase = Reading | Retrying | Running | Finishing(ok: bool)

  datatype Worker = Worker(event: Id, phase: Phase)

  datatype State = State(inbox: Inbox, workers: map<nat, Worker>, successes: map<Id, nat>)

  datatype Step =
    | Start(w: nat, event: Id, topic: Id, bizNo: Id, io: Io)
    | Read(w: nat, io: Io)
    | Retry(w: nat, io: Io)
    | Finish(w: nat, ok: bool)
    | Mark(w: nat, errorMsg: Id, io: Io)
    | Crash(w: nat)

  predicate In(s: State, w: nat, phase: Phase)
  {
    w in s.workers && s.workers[w].phase == phase
  }

  function Gone(s: State, w: nat): State
  {
    s.(workers := s.workers - {w})
  }

  function InPhase(s: State, w: nat, phase: Phase): State
    requires w in s.workers
  {
    s.(workers := s.workers[w := s.workers[w].(phase := phase)])
  }

  function Successes(s: State, event: Id): nat
  {
    if event in s.successes then s.successes[event] else 0
  }

  // A step that does not fit the phase of its worker changes nothing.
  function Next(s: State, step: Step): State
  {
    match step
    case Start(w, event, topic, bizNo, io) =>
      if w in s.workers || event == EMPTY || io.Refused? then s
      else
        var after := s.(inbox := Created(s.inbox, event, topic, bizNo));
        if io.AnswerLost? then after
        else after.(workers := s.workers[w := Worker(event, if event in s.inbox then Reading else Running)])
    case Read(w, io) =>
      if !In(s, w, Reading) then s
      else if io.Answered? && CanRetry(s.inbox, s.workers[w].event) then InPhase(s, w, Retrying)
      else Gone(s, w)
    case Retry(w, io) =>
      if !In(s, w, Retrying) then s
      else
        var event := s.workers[w].event;
        var after := if io.Refused? then s else s.(inbox := Retried(s.inbox, event));
        if io.Answered? && CanRetry(s.inbox, event) then InPhase(after, w, Running) else Gone(after, w)
    case Finish(w, ok) =>
      if !In(s, w, Running) then s
      else
        var event := s.workers[w].event;
        InPhase(s, w, Finishing(ok)).(successes :=
          if ok then s.successes[event := Successes(s, event) + 1] else s.successes)
    case Mark(w, errorMsg, io) =>
      if !(w in s.workers && s.workers[w].phase.Finishing?) then s
      else if io.Refused? then Gone(s, w)
      else Gone(s.(inbox := Marked(s.inbox, s.workers[w].event, s.workers[w].phase.ok, errorMsg)), w)
    case Crash(w) => Gone(s, w)
  }

  // One worker that comes to an event alone.
  function Gated(inbox: Inbox, event: Id, topic: Id, bizNo: Id, io: seq<Io>): State
    requires |io| == 3
  {
    Next(Next(Next(State(inbox, map[], map[]), Start(0, event, topic, bizNo, io[0])), Read(0, io[1])), Retry(0, io[2]))
  }

  // A worker between the gate and its final write.
  predicate Holds(s: State, w: nat, event: Id)
  {
    w in s.workers && s.workers[w].event == event && (s.workers[w].phase.Running? || s.workers[w].phase.Finishing?)
  }

  predicate HolderOk(s: State, w: nat)
    requires w in s.workers
  {
    var worker := s.workers[w];
    Holds(s, w, worker.event) ==>
      && worker.event in s.inbox && s.inbox[worker.event].status == Processing
      && Successes(s, worker.event) == (if worker.phase == Finishing(true) then 1 else 0)
  }

  ghost predicate Alone(s: State)
  {
    forall v, w | v in s.workers && w in s.workers ::
      Holds(s, v, s.workers[v].event) && Holds(s, w, s.workers[v].event) ==> v == w
  }

  predicate CountOk(s: State, event: Id)
  {
    if event !in s.inbox then Successes(s, event) == 0
    else match s.inbox[event].status
         case Processing => Successes(s, event) <= 1
         case Succeeded => Successes(s, event) == 1
         case Failed => Successes(s, event) == 0
  }

  ghost predicate Safe(s: State)
  {
    Alone(s) && (forall w :: w in s.workers ==> HolderOk(s, w)) && forall event :: CountOk(s, event)
  }

  // A worker gets through the gate only when the event is new or has failed, hence
  // when nobody holds it.
  lemma Entering(s: State, step: Step, w: nat, event: Id)
    requires Safe(s) && Holds(Next(s, step), w, event) && !Holds(s, w, event)
    ensures event !in s.inbox || s.inbox[event].status == Failed
    ensures Next(s, step).workers[w].phase == Running
    ensures forall v :: v != w && v in Next(s, step).workers ==>
              v in s.workers && Next(s, step).workers[v] == s.workers[v]
  {}

  lemma StepAlone(s: State, step: Step)
    requires Safe(s)
    ensures Alone(Next(s, step))
  {
    var after := Next(s, step);
    forall v, w | v in after.workers && w in after.workers && Holds(after, v, after.workers[v].event)
                  && Holds(after, w, after.workers[v].event)
      ensures v == w {
      var event := after.workers[v].event;
      assert v in s.workers ==> HolderOk(s, v);
      assert w in s.workers ==> HolderOk(s, w);
      if v != w && !Holds(s, v, event) {
        Entering(s, step, v, event);
      }
      if v != w && !Holds(s, w, event) {
        Entering(s, step, w, event);
      }
    }
  }

  // A worker that got through the gate finds the event as its first or failed attempt left it.
  lemma EnteredOk(s: State, step: Step, event: Id)
    requires Safe(s) && Holds(Next(s, step), step.w, event) && !Holds(s, step.w, event)
    ensures HolderOk(Next(s, step), step.w)
  {
    assert CountOk(s, event);
  }

  lemma StepActor(s: State, step: Step)
    requires Safe(s) && step.w in Next(s, step).workers
    ensures HolderOk(Next(s, step), step.w)
  {
    var event := Next(s, step).workers[step.w].event;
    if Holds(Next(s, step), step.w, event) {
      if Holds(s, step.w, event) {
        assert HolderOk(s, step.w);
      } else {
        EnteredOk(s, step, event);
      }
    }
  }

  lemma OtherStays(s: State, step: Step, w: nat)
    requires w in Next(s, step).workers && w != step.w
    ensures w in s.workers && Next(s, step).workers[w] == s.workers[w]
  {}

  // A step of a worker that does not hold an event leaves it alone while it is processing.
  lemma StepLeaves(s: State, step: Step, event: Id)
    requires !Holds(s, step.w, event) && event in s.inbox && s.inbox[event].status == Processing
    ensures event in Next(s, step).inbox && Next(s, step).inbox[event] == s.inbox[event]
    ensures Successes(Next(s, step), event) == Successes(s, event)
  {}

  lemma StepOther(s: State, step: Step, w: nat)
    requires Safe(s) && w in Next(s, step).workers && w != step.w
    ensures HolderOk(Next(s, step), w)
  {
    OtherStays(s, step, w);
    assert HolderOk(s, w);
    if Holds(s, w, s.workers[w].event) {
      StepLeaves(s, step, s.workers[w].event);
    }
  }

  lemma StepCount(s: State, step: Step, event: Id)
    requires Safe(s)
    ensures CountOk(Next(s, step), event)
  {
    assert CountOk(s, event);
    assert step.w in s.workers ==> HolderOk(s, step.w);
  }

  lemma StepSafe(s: State, step: Step)
    requires Safe(s)
    ensures Safe(Next(s, step))
  {
    StepAlone(s, step);
    forall w | w in Next(s, step).workers ensures HolderOk(Next(s, step), w) {
      if w == step.w {
        StepActor(s, step);
      } else {
        StepOther(s, step, w);
      }
    }
    forall event ensures CountOk(Next(s, step), event) {
      StepCount(s, step, event);
    }
  }

  // ----- runs

  function After(s: State, steps: seq<Step>): State
  {
    if steps == [] then s else Next(After(s, steps[..|steps| - 1]), steps[|steps| - 1])
  }

  const EMPTY_INBOX := State(map[], map[], map[])

  lemma {:induction false} RunSafe(s: State, steps: seq<Step>)
    requires Safe(s)
    ensures Safe(After(s, steps))
  {
    if steps != [] {
      RunSafe(s, steps[..|steps| - 1]);
      StepSafe(After(s, steps[..|steps| - 1]), steps[|steps| - 1]);
    }
  }

  // In every run, whatever the interleaving, the crashes and the lost answers: at
  // most one worker is in the business phase of an event, the event is then marked
  // as being processed, and the business succeeds at most once.
  lemma Exclusive(steps: seq<Step>, v: nat, w: nat, event: Id)
    ensures var s := After(EMPTY_INBOX, steps);
            && Successes(s, event) <= 1
            && (Holds(s, v, event) && Holds(s, w, event) ==> v == w)
            && (Holds(s, w, event) ==> event in s.inbox && s.inbox[event].status == Processing)
            && (event in s.inbox && s.inbox[event].status == Succeeded ==> Successes(s, event) == 1)
  {
    assert Safe(EMPTY_INBOX);
    RunSafe(EMPTY_INBOX, steps);
    var s := After(EMPTY_INBOX, steps);
    assert CountOk(s, event);
    assert w in s.workers ==> HolderOk(s, w);
  }

  // An event that nobody can take any more: it succeeded, or its worker was lost
  // between the gate and the final write.
  ghost predicate Closed(s: State, event: Id)
  {
    event in s.inbox && s.inbox[event].status != Failed && forall w :: !Holds(s, w, event)
  }

  lemma StepClosed(s: State, step: Step, event: Id)
    requires Safe(s) && Closed(s, event)
    ensures Closed(Next(s, step), event)
    ensures Next(s, step).inbox[event] == s.inbox[event] && Successes(Next(s, step), event) == Successes(s, event)
  {
    var after := Next(s, step);
    assert !Holds(s, step.w, event);
    forall w ensures !Holds(after, w, event) {
      assert !Holds(s, w, event);
      if Holds(after, w, event) {
        Entering(s, step, w, event);
      }
    }
  }

  lemma {:induction false} StaysClosed(s: State, steps: seq<Step>, event: Id)
    requires Safe(s) && Closed(s, event)
    ensures var after := After(s, steps);
            && Closed(after, event) && after.inbox[event] == s.inbox[event]
            && Successes(after, event) == Successes(s, event)
  {
    if steps != [] {
      StaysClosed(s, steps[..|steps| - 1], event);
      RunSafe(s, steps[..|steps| - 1]);
      StepClosed(After(s, steps[..|steps| - 1]), steps[|steps| - 1], event);
    }
  }

  // Success is final although the final writes check no status.
  lemma SuccessIsFinal(s: State, steps: seq<Step>, event: Id)
    requires Safe(s) && event in s.inbox && s.inbox[event].status == Succeeded
    ensures event in After(s, steps).inbox && After(s, steps).inbox[event] == s.inbox[event]
    ensures Successes(After(s, steps), event) == 1
  {
    assert CountOk(s, event);
    forall w ensures !Holds(s, w, event) {
      assert w in s.workers ==> HolderOk(s, w);
    }
    StaysClosed(s, steps, event);
  }

  // The steps by which one worker takes an event.
  function Taking(w: nat, event: Id): seq<Step>
  {
    [Start(w, event, EMPTY, event, Answered), Read(w, Answered), Retry(w, Answered)]
  }

  // The steps let the worker through the gate.
  predicate Takes(s: State, steps: seq<Step>, w: nat, event: Id)
  {
    Holds(After(s, steps), w, event)
  }

  lemma TakingWorks(s: State, w: nat, event: Id)
    requires w !in s.workers && event != EMPTY
    requires event !in s.inbox || s.inbox[event].status == Failed
    ensures Takes(s, Taking(w, event), w, event)
  {
    var steps := Taking(w, event);
    assert steps[..2] == [steps[0], steps[1]] && steps[..2][..1] == [steps[0]] && steps[..2][..1][..0] == [];
    assert After(s, steps[..2][..1]) == Next(s, steps[0]);
    assert After(s, steps[..2]) == Next(Next(s, steps[0]), steps[1]);
  }

  // An event nobody holds can be taken again exactly when it is new or has failed; one
  // whose worker was lost while processing never is.
  lemma CanBeTaken(s: State, event: Id)
    requires Safe(s) && event != EMPTY && forall w :: !Holds(s, w, event)
    ensures (exists steps, w :: Takes(s, steps, w, event))
            <==> event !in s.inbox || s.inbox[event].status == Failed
  {
    if event !in s.inbox || s.inbox[event].status == Failed {
      var w := Unused(s.workers);
      TakingWorks(s, w, event);
      assert Takes(s, Taking(w, event), w, event);
    } else {
      forall steps, w ensures !Takes(s, steps, w, event) {
        StaysClosed(s, steps, event);
      }
    }
  }

  lemma {:induction false} Bound(ks: set<nat>) returns (n: nat)
    ensures forall k :: k in ks ==> k < n
    decreases |ks|
  {
    if ks == {} {
      n := 0;
    } else {
      var k :| k in ks;
      n := Bound(ks - {k});
      assert forall j :: j in ks ==> j == k || j in ks - {k};
      n := if n <= k then k + 1 else n;
    }
  }

  lemma Unused(workers: map<nat, Worker>) returns (w: nat)
    ensures w !in workers
  {
    w := Bound(workers.Keys);
  }

  // A worker that is lost after its business call leaves the event open for ever:
  // a first delivery that succeeds, whose final write is lost.
  lemma LostWriteBlocks(event: Id, steps: seq<Step>)
    requires event != EMPTY
    ensures var lost := [Start(0, event, EMPTY, event, Answered), Finish(0, true), Mark(0, EMPTY, Refused)];
            var s := After(EMPTY_INBOX, lost);
            && event in After(s, steps).inbox && After(s, steps).inbox[event].status == Processing
            && Successes(After(s, steps), event) == 1
  {
    var lost := [Start(0, event, EMPTY, event, Answered), Finish(0, true), Mark(0, EMPTY, Refused)];
    assert lost[..2] == [lost[0], lost[1]] && lost[..2][..1] == [lost[0]] && lost[..2][..1][..0] == [];
    assert After(EMPTY_INBOX, lost[..2][..1]) == Next(EMPTY_INBOX, lost[0]);
    assert After(EMPTY_INBOX, lost[..2]) == Next(Next(EMPTY_INBOX, lost[0]), lost[1]);
    assert Safe(EMPTY_INBOX);
    RunSafe(EMPTY_INBOX, lost);
    StaysClosed(After(EMPTY_INBOX, lost), steps, event);
  }
}
