/** The client channel as an object: queues, tables and flags updated in place, one method for each
    piece of code that runs between two suspension points. `tasks` stands for the suspended request
    coroutines. */
module ClientChannel {
  import opened Common
  import opened Channel
  import opened ChannelRuns

  class ClientChannel {
    var tasks: map<Caller, Task>
    var sendInProgress: bool
    var sendWaiters: seq<Caller>
    var pendingResponses: map<RequestId, Caller>
    var bufferedResponses: map<RequestId, Frame>
    var readLoopRunning: bool
    var spawned: nat
    var reading: nat
    var nextRequestId: RequestId

    function View(): Chan
      reads this
    {
      Chan(tasks, sendInProgress, sendWaiters, pendingResponses, bufferedResponses, readLoopRunning,
        spawned, reading, nextRequestId)
    }

    constructor ()
      ensures View() == QUIET
    {
      tasks, sendInProgress, sendWaiters := map[], false, [];
      pendingResponses, bufferedResponses := map[], map[];
      readLoopRunning, spawned, reading, nextRequestId := false, 0, 0, 1;
    }

    method Suspend(c: Caller, phase: Phase)
      requires c in tasks
      modifies this`tasks
      ensures View() == Put(old(View()), c, phase)
    {
      tasks := tasks[c := tasks[c].(phase := phase)];
    }

    // ---------- sending ----------

    method Send(c: Caller)
      requires c in tasks
      modifies this`tasks, this`nextRequestId
      ensures View() == BeginSend(old(View()), c)
    {
      var id := nextRequestId;
      nextRequestId := nextRequestId + 1;
      Suspend(c, Phase.Sending(id));
    }

    /** One round of waiting for the send turn, and with the turn what follows it. */
    method WaitForSendTurn(c: Caller, renewalDue: bool)
      requires c in tasks
      modifies this
      ensures View() == Acquire(old(View()), c, renewalDue)
    {
      if sendInProgress {
        sendWaiters := sendWaiters + [c];
        Suspend(c, Waiting);
        return;
      }
      sendInProgress := true;
      if pendingResponses == map[] && renewalDue {
        Suspend(c, Renewing);
      } else {
        Send(c);
      }
    }

    method ReleaseSendTurn()
      modifies this`tasks, this`sendInProgress, this`sendWaiters
      ensures View() == Release(old(View()))
    {
      sendInProgress := false;
      if sendWaiters == [] || sendWaiters[0] !in tasks {
        return;
      }
      var waiter := sendWaiters[0];
      sendWaiters := sendWaiters[1..];
      Suspend(waiter, Woken);
    }

    method OnStart(c: Caller, handle: Handle, split: bool, renewalDue: bool)
      requires c !in tasks
      modifies this
      ensures View() == Step(old(View()), Start(c, handle, split, renewalDue))
    {
      hide Acquire;
      tasks := tasks[c := Task(handle, split, Woken)];
      WaitForSendTurn(c, renewalDue);
    }

    method OnWake(c: Caller, renewalDue: bool)
      requires c in tasks && tasks[c].phase.Woken?
      modifies this
      ensures View() == Step(old(View()), Wake(c, renewalDue))
    {
      hide Acquire;
      WaitForSendTurn(c, renewalDue);
    }

    method OnRenewed(c: Caller, ok: bool)
      requires c in tasks && tasks[c].phase.Renewing?
      modifies this
      ensures View() == Step(old(View()), RenewDone(c, ok))
    {
      hide Release, BeginSend, Put;
      if ok {
        Send(c);
      } else {
        Suspend(c, Done(None, Failed));
        ReleaseSendTurn();
      }
    }

    method OnSent(c: Caller, ok: bool)
      requires c in tasks && tasks[c].phase.Sending?
      modifies this
      ensures View() == Step(old(View()), SendDone(c, ok))
    {
      KeepsTask(View(), c, Sent(tasks[c].phase.id));
      hide Release, Receive, Put;
      var id, split := tasks[c].phase.id, tasks[c].split;
      if !ok {
        Suspend(c, Done(Some(id), Failed));
        ReleaseSendTurn();
      } else {
        Suspend(c, Sent(id));
        ReleaseSendTurn();
        if !split {
          ReceiveResponse(c, id);
        }
      }
    }

    // ---------- receiving ----------

    method EnsureReadLoop()
      modifies this`readLoopRunning, this`spawned
      ensures View() == EnsureLoop(old(View()))
    {
      if readLoopRunning {
        return;
      }
      readLoopRunning := true;
      spawned := spawned + 1;
    }

    method ReceiveResponse(c: Caller, id: RequestId)
      requires c in tasks
      modifies this
      ensures View() == Receive(old(View()), c, id)
    {
      if id in bufferedResponses {
        var frame := bufferedResponses[id];
        if frame.handle != tasks[c].handle {
          Suspend(c, Done(Some(id), Failed));
          return;
        }
        bufferedResponses := bufferedResponses - {id};
        Suspend(c, Done(Some(id), Received(frame.body)));
        return;
      }
      pendingResponses := pendingResponses[id := c];
      Suspend(c, Awaiting(id));
      EnsureReadLoop();
    }

    method OnAsk(c: Caller)
      requires c in tasks && tasks[c].phase.Sent?
      modifies this
      ensures View() == Step(old(View()), Ask(c))
    {
      hide Receive;
      ReceiveResponse(c, tasks[c].phase.id);
    }

    method DeliverResponse(frame: Frame)
      modifies this`tasks, this`pendingResponses, this`bufferedResponses
      ensures View() == Deliver(old(View()), frame)
    {
      if frame.id in pendingResponses && pendingResponses[frame.id] in tasks {
        var c := pendingResponses[frame.id];
        pendingResponses := pendingResponses - {frame.id};
        if frame.handle != tasks[c].handle {
          Suspend(c, Answered(frame.id, Failed));
        } else {
          Suspend(c, Answered(frame.id, Received(frame.body)));
        }
        return;
      }
      if frame.id !in bufferedResponses {
        bufferedResponses := bufferedResponses[frame.id := frame];
      }
    }

    /** Answers the pending requests, in no particular order. */
    method FailPendingResponses()
      requires PendingExact(tasks, pendingResponses)
      modifies this`tasks, this`pendingResponses
      ensures View() == FailPending(old(View()))
    {
      hide PendingExact, Failing, FailPending;
      ghost var s := View();
      var pending := pendingResponses;
      pendingResponses := map[];
      var rest := pending.Keys;
      NoneFailing(s);
      while rest != {}
        invariant rest <= pending.Keys && pendingResponses == map[] && tasks.Keys == s.tasks.Keys
        invariant forall c :: c in s.tasks ==> tasks[c] == Failing(s.tasks[c], rest)
        decreases rest
      {
        var id :| id in rest;
        FailNext(s, rest, id);
        rest := rest - {id};
        tasks := tasks[pending[id] := tasks[pending[id]].(phase := Answered(id, Failed))];
      }
      FailDone(s, tasks);
    }

    method ReadLoopHead()
      modifies this`reading, this`readLoopRunning, this`spawned
      ensures View() == LoopHead(old(View()))
    {
      if pendingResponses != map[] {
        reading := reading + 1;
      } else {
        ReadLoopEnd();
      }
    }

    method ReadLoopEnd()
      modifies this`readLoopRunning, this`spawned
      ensures View() == LoopEnd(old(View()))
    {
      readLoopRunning := false;
      if pendingResponses != map[] {
        EnsureReadLoop();
      }
    }

    method OnLoopStart()
      requires spawned > 0
      modifies this`reading, this`readLoopRunning, this`spawned
      ensures View() == Step(old(View()), LoopStart)
    {
      hide LoopHead;
      spawned := spawned - 1;
      ReadLoopHead();
    }

    method OnRead(frame: Option<Frame>)
      requires reading > 0 && PendingExact(tasks, pendingResponses)
      modifies this
      ensures View() == Step(old(View()), ReadDone(frame))
    {
      hide LoopHead, LoopEnd, Deliver, FailPending, PendingExact;
      reading := reading - 1;
      if frame.None? {
        FailPendingResponses();
        ReadLoopEnd();
      } else {
        DeliverResponse(frame.value);
        ReadLoopHead();
      }
    }

    method OnResume(c: Caller)
      requires c in tasks && tasks[c].phase.Answered?
      modifies this`tasks, this`pendingResponses
      ensures View() == Step(old(View()), Resume(c))
    {
      var p := tasks[c].phase;
      pendingResponses := pendingResponses - {p.id};
      Suspend(c, Done(Some(p.id), p.outcome));
    }
  }

  // ---------- helper lemmas ----------

  lemma KeepsTask(s: Chan, c: Caller, p: Phase)
    requires c in s.tasks
    ensures c in Release(Put(s, c, p)).tasks
  {
  }

  lemma NoneFailing(s: Chan)
    requires PendingExact(s.tasks, s.pending)
    ensures forall c :: c in s.tasks ==> Failing(s.tasks[c], s.pending.Keys) == s.tasks[c]
  {
  }

  lemma FailDone(s: Chan, tasks: map<Caller, Task>)
    requires PendingExact(s.tasks, s.pending) && tasks.Keys == s.tasks.Keys
    requires forall c :: c in s.tasks ==> tasks[c] == Failing(s.tasks[c], {})
    ensures FailPending(s) == s.(tasks := tasks, pending := map[])
  {
    assert FailPending(s).tasks == tasks;
  }

  /** A request after those whose ids are not in `rest` have been answered. */
  function Failing(t: Task, rest: set<RequestId>): Task {
    if t.phase.Awaiting? && t.phase.id !in rest then t.(phase := Answered(t.phase.id, Failed)) else t
  }

  lemma FailNext(s: Chan, rest: set<RequestId>, id: RequestId)
    requires PendingExact(s.tasks, s.pending) && id in rest && rest <= s.pending.Keys
    ensures s.pending[id] in s.tasks && Failing(s.tasks[s.pending[id]], rest) == s.tasks[s.pending[id]]
    ensures forall c :: c in s.tasks ==>
              Failing(s.tasks[c], rest - {id})
              == if c == s.pending[id] then s.tasks[c].(phase := Answered(id, Failed))
                 else Failing(s.tasks[c], rest)
  {
  }
}
