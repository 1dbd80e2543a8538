/** Which requests are sent, and which renew the security token first. */
module ChannelTurns {
  import opened Common
  import opened Channel
  import opened ChannelRuns
  import opened ChannelAnswers

  /** Request `c` has been given an id, to be sent under it. */
  predicate Numbered(tasks: map<Caller, Task>, c: Caller) {
    c in tasks && RequestOf(tasks[c].phase).Some?
  }

  /** Some request renews the token or is being sent. */
  ghost predicate Busy(tasks: map<Caller, Task>) {
    exists d :: d in tasks && (tasks[d].phase.Renewing? || tasks[d].phase.Sending?)
  }

  /** No request awaits its response. */
  ghost predicate Quiet(tasks: map<Caller, Task>) {
    forall d :: d in tasks ==> !tasks[d].phase.Awaiting?
  }

  /** Request `c` runs at the transport: it has just started, or it has been woken. */
  predicate Runs(s: Chan, op: ChannelOp, c: Caller) {
    || (op.Start? && op.c == c && c !in s.tasks)
    || (op.Wake? && op.c == c && c in s.tasks && s.tasks[c].phase.Woken?)
  }

  /** Request `c` finds the transport free, and the token is due while nobody awaits a response. */
  ghost predicate Renewal(s: Chan, op: ChannelOp, c: Caller) {
    Runs(s, op, c) && !Busy(s.tasks) && Quiet(s.tasks) && op.renewalDue
  }

  /** Request `c` finds the transport free without a renewal to do, or has done it. */
  ghost predicate Sends(s: Chan, op: ChannelOp, c: Caller) {
    || (Runs(s, op, c) && !Busy(s.tasks) && !(Quiet(s.tasks) && op.renewalDue))
    || (op == RenewDone(c, true) && Renews(s.tasks, c))
  }

  /** Request `c` is numbered, renews and waits in `tasks'` as in `tasks`. */
  predicate Alike(tasks: map<Caller, Task>, tasks': map<Caller, Task>, c: Caller) {
    && (Numbered(tasks', c) <==> Numbered(tasks, c)) && (Renews(tasks', c) <==> Renews(tasks, c))
  }

  // ---------- the pieces ----------

  lemma TurnIsBusy(s: Chan)
    requires Inv(s)
    ensures s.turn <==> Busy(s.tasks)
  {
    hide QueueExact, PendingExact, IdsApart, LoopExact, WakeUps;
  }

  lemma PendingIsQuiet(s: Chan)
    requires PendingExact(s.tasks, s.pending)
    ensures s.pending == map[] <==> Quiet(s.tasks)
  {
    if s.pending != map[] {
      var id :| id in s.pending;
    }
  }

  lemma AcquireTurns(s: Chan, d: Caller, renewalDue: bool, c: Caller)
    requires d in s.tasks && s.tasks[d].phase.Woken?
    ensures var s' := Acquire(s, d, renewalDue);
            if c == d
            then && (Renews(s'.tasks, d) <==> !s.turn && s.pending == map[] && renewalDue)
                 && (Numbered(s'.tasks, d) <==> !s.turn && !(s.pending == map[] && renewalDue))
            else Alike(s.tasks, s'.tasks, c)
  {
  }

  lemma BeginTurns(s: Chan, d: Caller, c: Caller)
    requires d in s.tasks
    ensures var s' := BeginSend(s, d);
            if c == d then Numbered(s'.tasks, d) && !Renews(s'.tasks, d) else Alike(s.tasks, s'.tasks, c)
  {
  }

  lemma ReleaseTurns(s: Chan, d: Caller, p: Phase, c: Caller)
    requires QueueExact(s.tasks, s.waiters) && d in s.tasks && !s.tasks[d].phase.Waiting? && (p.Sent? || p.Done?)
    ensures var s' := Release(Put(s, d, p));
            && d in s'.tasks && s'.tasks[d].phase == p
            && (if c == d then !Renews(s'.tasks, d) && (Numbered(s'.tasks, d) <==> RequestOf(p).Some?)
                else Alike(s.tasks, s'.tasks, c))
  {
  }

  lemma ReceiveTurns(s: Chan, d: Caller, id: RequestId, c: Caller)
    requires d in s.tasks && s.tasks[d].phase == Sent(id)
    ensures Alike(s.tasks, Receive(s, d, id).tasks, c)
  {
  }

  lemma ReadTurns(s: Chan, op: ChannelOp, c: Caller)
    requires PendingExact(s.tasks, s.pending) && (op.ReadDone? || op.LoopStart?)
    ensures Alike(s.tasks, Step(s, op).tasks, c)
  {
    hide Deliver, FailPending, PendingExact;
    if op.ReadDone? && s.reading > 0 {
      var s1 := s.(reading := s.reading - 1);
      FailTurns(s1, c);
      if op.frame.Some? {
        DeliverTurns(s1, op.frame.value, c);
      }
    }
  }

  lemma DeliverTurns(s: Chan, frame: Frame, c: Caller)
    requires PendingExact(s.tasks, s.pending)
    ensures Alike(s.tasks, Deliver(s, frame).tasks, c)
  {
  }

  lemma FailTurns(s: Chan, c: Caller)
    ensures Alike(s.tasks, FailPending(s).tasks, c)
  {
  }

  // ---------- steps and runs ----------

  /** What a step makes of request `c`. */
  ghost predicate TurnsWell(s: Chan, s': Chan, op: ChannelOp, c: Caller) {
    && (Numbered(s'.tasks, c) <==> Numbered(s.tasks, c) || Sends(s, op, c))
    && (Renews(s'.tasks, c) <==> Renewal(s, op, c) || (Renews(s.tasks, c) && !(op.RenewDone? && op.c == c)))
  }

  lemma RunsWell(s: Chan, op: ChannelOp, c: Caller, d: Caller)
    requires Inv(s) && Runs(s, op, d)
    ensures TurnsWell(s, Step(s, op), op, c)
  {
    InvParts(s);
    TurnIsBusy(s);
    PendingIsQuiet(s);
    hide Inv, Acquire, BeginSend, Busy, Quiet, QueueExact, PendingExact;
    if op.Start? {
      AcquireTurns(s.(tasks := s.tasks[d := Task(op.handle, op.split, Woken)]), d, op.renewalDue, c);
    } else {
      AcquireTurns(s, d, op.renewalDue, c);
    }
  }

  lemma ReleasesWell(s: Chan, op: ChannelOp, c: Caller, d: Caller)
    requires Inv(s) && Moves(s, op, d) && (op.RenewDone? || op.SendDone?)
    ensures TurnsWell(s, Step(s, op), op, c)
  {
    InvParts(s);
    hide Inv, Release, Receive, Put, BeginSend, Busy, Quiet, QueueExact, PendingExact;
    if op.RenewDone? {
      if op.ok {
        BeginTurns(s, d, c);
      } else {
        ReleaseTurns(s, d, Done(None, Failed), c);
      }
    } else {
      var id := s.tasks[d].phase.id;
      ReleaseTurns(s, d, if op.ok then Sent(id) else Done(Some(id), Failed), c);
      if op.ok && !s.tasks[d].split {
        ReceiveTurns(Release(Put(s, d, Sent(id))), d, id, c);
      }
    }
  }

  lemma StepTurns(s: Chan, op: ChannelOp, c: Caller)
    requires Inv(s)
    ensures TurnsWell(s, Step(s, op), op, c)
  {
    if d :| Runs(s, op, d) {
      RunsWell(s, op, c, d);
    } else if d :| Moves(s, op, d) && (op.RenewDone? || op.SendDone?) {
      ReleasesWell(s, op, c, d);
    } else if op.ReadDone? || op.LoopStart? {
      InvParts(s);
      ReadTurns(s, op, c);
    } else {
      OtherTurns(s, op, c);
    }
  }

  lemma OtherTurns(s: Chan, op: ChannelOp, c: Caller)
    requires (forall d :: !Runs(s, op, d)) && !op.ReadDone? && !op.LoopStart?
    requires op.RenewDone? || op.SendDone? ==> forall d :: !Moves(s, op, d)
    ensures TurnsWell(s, Step(s, op), op, c)
  {
    hide Acquire, Release, Receive, BeginSend, FinishSend, Busy, Quiet;
    assert !Runs(s, op, op.c);
    assert op.RenewDone? || op.SendDone? ==> !Moves(s, op, op.c);
    if op.Ask? && op.c in s.tasks && s.tasks[op.c].phase.Sent? {
      ReceiveTurns(s, op.c, s.tasks[op.c].phase.id, c);
    }
  }

  /** Step `i` lets request `c` renew the token, and the renewal has not ended. */
  ghost predicate RenewsAt(ops: seq<ChannelOp>, n: nat, c: Caller, i: int)
    requires n <= |ops|
  {
    && 0 <= i < n && Renewal(At(ops, i), ops[i], c)
    && forall j :: i < j < n ==> !(ops[j].RenewDone? && ops[j].c == c)
  }

  /** In every run a request is sent if and only if it found the transport free without a renewal to do,
      or its renewal succeeded; and it renews the token if and only if it found the transport free while
      the token was due and nobody awaited a response, and that has not ended yet. */
  lemma {:induction false} TurnsExactly(ops: seq<ChannelOp>, n: nat, c: Caller)
    requires n <= |ops|
    ensures Numbered(At(ops, n).tasks, c) <==> exists i :: 0 <= i < n && Sends(At(ops, i), ops[i], c)
    ensures Renews(At(ops, n).tasks, c) <==> exists i :: RenewsAt(ops, n, c, i)
  {
    hide At, Step, Inv, Kept, Sends, Renewal, Numbered, Renews;
    if n == 0 {
      AtFirst(ops);
      NobodyAtFirst(c);
    } else {
      var k := n - 1;
      TurnsExactly(ops, k, c);
      AlwaysKept(ops, k);
      AtNext(ops, k);
      StepTurns(At(ops, k), ops[k], c);
      if i :| RenewsAt(ops, k, c, i) {
        assert !(ops[k].RenewDone? && ops[k].c == c) ==> RenewsAt(ops, n, c, i);
      }
      if Renewal(At(ops, k), ops[k], c) {
        assert RenewsAt(ops, n, c, k);
      }
      assert forall i :: RenewsAt(ops, n, c, i) && i < k ==> RenewsAt(ops, k, c, i);
    }
  }

  lemma NobodyAtFirst(c: Caller)
    ensures !Numbered(QUIET.tasks, c) && !Renews(QUIET.tasks, c)
  {
  }
}
