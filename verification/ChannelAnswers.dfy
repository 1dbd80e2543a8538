/** What every request of the client channel is answered: the body of the response that carries its id
    and its handle, or a failure, and exactly when which. */
module ChannelAnswers {
  import opened Common
  import opened Channel
  import opened ChannelRuns

  // ---------- what a step answers ----------

  /** The first frame read that carries the id. */
  function FirstFor(frames: seq<Frame>, id: RequestId): (f: Option<Frame>)
    ensures f.Some? ==> f.value in frames && f.value.id == id
    ensures f.None? ==> forall g :: g in frames ==> g.id != id
  {
    if frames == [] then None
    else
      var n := |frames| - 1;
      var before := FirstFor(frames[..n], id);
      if before.Some? then before else if frames[n].id == id then Some(frames[n]) else None
  }

  /** What request `c` has been answered, if it has. */
  function Result(tasks: map<Caller, Task>, c: Caller): Option<Outcome> {
    if c !in tasks then None
    else match tasks[c].phase
         case Answered(_, outcome) => Some(outcome)
         case Done(_, outcome) => Some(outcome)
         case _ => None
  }

  /** Request `c` has returned to its caller. */
  predicate Finished(tasks: map<Caller, Task>, c: Caller) {
    c in tasks && tasks[c].phase.Done?
  }

  /** The frame answers a request that was sent with `handle` with the outcome `o`. */
  predicate Says(frame: Frame, handle: Handle, o: Outcome) {
    if frame.handle == handle then o == Received(frame.body) else o == Failed
  }

  /** Operation `op`, after `frames` have been read, answers request `c` with `o`: its renewal or its
      send fails; it asks for its response and the first frame read with its id says `o`; or it awaits
      its response, and a read fails or brings a frame with its id that says `o`. */
  ghost predicate Answers(s: Chan, frames: seq<Frame>, op: ChannelOp, c: Caller, o: Outcome) {
    c in s.tasks &&
    match s.tasks[c].phase
    case Renewing => op == RenewDone(c, false) && o == Failed
    case Sending(id) =>
      || (op == SendDone(c, false) && o == Failed)
      || (op == SendDone(c, true) && !s.tasks[c].split && HasCome(frames, id, s.tasks[c].handle, o))
    case Sent(id) => op == Ask(c) && HasCome(frames, id, s.tasks[c].handle, o)
    case Awaiting(id) =>
      && op.ReadDone? && s.reading > 0
      && (if op.frame.None? then o == Failed
          else op.frame.value.id == id && Says(op.frame.value, s.tasks[c].handle, o))
    case _ => false
  }

  ghost predicate HasCome(frames: seq<Frame>, id: RequestId, handle: Handle, o: Outcome) {
    FirstFor(frames, id).Some? && Says(FirstFor(frames, id).value, handle, o)
  }

  /** Request `c` has asked for the response with this id. */
  predicate Asked(tasks: map<Caller, Task>, c: Caller, id: RequestId) {
    c in tasks && match tasks[c].phase
                  case Awaiting(i) => i == id
                  case Answered(i, _) => i == id
                  case Done(i, _) => i == Some(id)
                  case _ => false
  }

  function Lookup(buffered: map<RequestId, Frame>, id: RequestId): Option<Frame> {
    if id in buffered then Some(buffered[id]) else None
  }

  /** Until it is asked for, the buffer has the first frame read with an id. */
  ghost predicate Kept(s: Chan, frames: seq<Frame>) {
    forall id :: (forall c :: !Asked(s.tasks, c, id)) ==> Lookup(s.buffered, id) == FirstFor(frames, id)
  }

  // ---------- the pieces ----------

  /** Nobody else is answered or asks. */
  ghost predicate Others(tasks: map<Caller, Task>, tasks': map<Caller, Task>, d: Caller) {
    && (forall c :: c != d ==> Result(tasks', c) == Result(tasks, c))
    && (forall c :: c != d ==> (Finished(tasks', c) <==> Finished(tasks, c)))
    && (forall c, id :: c != d && Asked(tasks, c, id) ==> Asked(tasks', c, id))
  }

  lemma AcquireOthers(s: Chan, d: Caller, renewalDue: bool)
    requires d in s.tasks
    ensures var s' := Acquire(s, d, renewalDue);
            Others(s.tasks, s'.tasks, d) && Result(s'.tasks, d).None? && s'.buffered == s.buffered
    ensures var s' := BeginSend(s, d);
            Others(s.tasks, s'.tasks, d) && Result(s'.tasks, d).None? && s'.buffered == s.buffered
  {
  }

  lemma ReleaseOthers(s: Chan, d: Caller, p: Phase)
    requires QueueExact(s.tasks, s.waiters) && d in s.tasks && !s.tasks[d].phase.Waiting?
    ensures var s' := Release(Put(s, d, p));
            && Others(s.tasks, s'.tasks, d) && s'.buffered == s.buffered
            && d in s'.tasks && s'.tasks[d] == s.tasks[d].(phase := p)
  {
  }

  lemma ReceiveOthers(s: Chan, d: Caller, id: RequestId)
    requires d in s.tasks
    ensures var s' := Receive(s, d, id);
            && Others(s.tasks, s'.tasks, d) && Asked(s'.tasks, d, id)
            && (Result(s'.tasks, d).Some? <==> id in s.buffered)
            && (Finished(s'.tasks, d) <==> id in s.buffered)
            && (id in s.buffered ==> Says(s.buffered[id], s.tasks[d].handle, Result(s'.tasks, d).value))
            && forall i :: i != id ==> Lookup(s'.buffered, i) == Lookup(s.buffered, i)
  {
  }

  lemma DeliverOthers(s: Chan, frame: Frame, c: Caller)
    requires PendingExact(s.tasks, s.pending)
    ensures var s' := Deliver(s, frame);
            && (if c in s.tasks && s.tasks[c].phase == Awaiting(frame.id)
                then Result(s'.tasks, c).Some? && Says(frame, s.tasks[c].handle, Result(s'.tasks, c).value)
                else Result(s'.tasks, c) == Result(s.tasks, c))
            && (Finished(s'.tasks, c) <==> Finished(s.tasks, c))
            && forall id :: Asked(s.tasks, c, id) ==> Asked(s'.tasks, c, id)
  {
  }

  lemma DeliverKept(s: Chan, frame: Frame, frames: seq<Frame>)
    requires PendingExact(s.tasks, s.pending) && Kept(s, frames)
    ensures Kept(Deliver(s, frame), frames + [frame])
  {
    var s' := Deliver(s, frame);
    assert (frames + [frame])[..|frames|] == frames;
    forall id | forall c :: !Asked(s'.tasks, c, id)
      ensures Lookup(s'.buffered, id) == FirstFor(frames + [frame], id)
    {
      forall c
        ensures !Asked(s.tasks, c, id)
      {
        DeliverOthers(s, frame, c);
      }
      if frame.id in s.pending {
        assert Asked(s'.tasks, s.pending[frame.id], frame.id);
      }
    }
  }

  lemma FailOthers(s: Chan, c: Caller)
    requires PendingExact(s.tasks, s.pending)
    ensures var s' := FailPending(s);
            && s'.buffered == s.buffered
            && Result(s'.tasks, c) == (if c in s.tasks && s.tasks[c].phase.Awaiting? then Some(Failed)
                                       else Result(s.tasks, c))
            && (Finished(s'.tasks, c) <==> Finished(s.tasks, c))
            && forall id :: Asked(s.tasks, c, id) ==> Asked(s'.tasks, c, id)
  {
  }

  /** An id is asked for by the request that has it only. */
  lemma NotAsked(s: Chan, d: Caller, id: RequestId)
    requires IdsApart(s.tasks, s.next) && d in s.tasks
    requires s.tasks[d].phase == Sent(id) || s.tasks[d].phase == Phase.Sending(id)
    ensures forall c :: !Asked(s.tasks, c, id)
  {
    forall c
      ensures !Asked(s.tasks, c, id)
    {
      assert c in s.tasks && c != d ==> RequestOf(s.tasks[c].phase) != RequestOf(s.tasks[d].phase);
    }
  }

  lemma BufferIsFirst(s: Chan, frames: seq<Frame>, d: Caller, id: RequestId)
    requires Inv(s) && Kept(s, frames) && d in s.tasks
    requires s.tasks[d].phase == Sent(id) || s.tasks[d].phase == Phase.Sending(id)
    ensures Lookup(s.buffered, id) == FirstFor(frames, id)
  {
    NotAsked(s, d, id);
  }

  lemma InvParts(s: Chan)
    requires Inv(s)
    ensures QueueExact(s.tasks, s.waiters) && PendingExact(s.tasks, s.pending)
  {
  }

  /** The frames read after the step. */
  function FramesAfter(s: Chan, frames: seq<Frame>, op: ChannelOp): seq<Frame> {
    frames + (if op.ReadDone? && op.frame.Some? && s.reading > 0 then [op.frame.value] else [])
  }

  /** The request that the step moves on, if it is about one. */
  predicate Moves(s: Chan, op: ChannelOp, d: Caller) {
    match op
    case Start(c, _, _, _) => c == d && c !in s.tasks
    case Wake(c, _) => c == d && c in s.tasks && s.tasks[c].phase.Woken?
    case RenewDone(c, _) => c == d && c in s.tasks && s.tasks[c].phase.Renewing?
    case SendDone(c, _) => c == d && c in s.tasks && s.tasks[c].phase.Sending?
    case Ask(c) => c == d && c in s.tasks && s.tasks[c].phase.Sent?
    case Resume(c) => c == d && c in s.tasks && s.tasks[c].phase.Answered?
    case _ => false
  }

  /** A step that moves request `d` on answers at most this one, as `Answers` says, and leaves the buffer
      alone except for what it takes out of it. */
  ghost predicate MovesWell(s: Chan, s': Chan, frames: seq<Frame>, op: ChannelOp, d: Caller) {
    && Others(s.tasks, s'.tasks, d)
    && (forall o :: Result(s'.tasks, d) == Some(o) <==> Result(s.tasks, d) == Some(o) || Answers(s, frames, op, d, o))
    && (Finished(s'.tasks, d) <==> Result(s'.tasks, d).Some?)
    && (forall id :: Asked(s.tasks, d, id) ==> Asked(s'.tasks, d, id))
    && (forall id :: Asked(s'.tasks, d, id) || Lookup(s'.buffered, id) == Lookup(s.buffered, id))
  }

  lemma AcquireWell(s: Chan, frames: seq<Frame>, op: ChannelOp, d: Caller)
    requires Inv(s) && Moves(s, op, d) && (op.Start? || op.Wake? || (op.RenewDone? && op.ok))
    ensures MovesWell(s, Step(s, op), frames, op, d)
  {
    hide Inv, Acquire, BeginSend;
    if op.Start? {
      var s1 := s.(tasks := s.tasks[d := Task(op.handle, op.split, Woken)]);
      AcquireOthers(s1, d, op.renewalDue);
      assert Others(s.tasks, s1.tasks, d);
    } else if op.Wake? {
      AcquireOthers(s, d, op.renewalDue);
    } else {
      AcquireOthers(s, d, true);
    }
  }

  lemma RenewalFailsWell(s: Chan, frames: seq<Frame>, op: ChannelOp, d: Caller)
    requires Inv(s) && Moves(s, op, d) && op.RenewDone? && !op.ok
    ensures MovesWell(s, Step(s, op), frames, op, d)
  {
    InvParts(s);
    hide Inv, Release, Put, QueueExact, PendingExact;
    ReleaseOthers(s, d, Done(None, Failed));
  }

  lemma SendFailsWell(s: Chan, frames: seq<Frame>, op: ChannelOp, d: Caller)
    requires Inv(s) && Moves(s, op, d) && op.SendDone? && !op.ok
    ensures MovesWell(s, Step(s, op), frames, op, d)
  {
    InvParts(s);
    hide Inv, Release, Put, QueueExact, PendingExact;
    ReleaseOthers(s, d, Done(Some(s.tasks[d].phase.id), Failed));
  }

  lemma SentWell(s: Chan, frames: seq<Frame>, op: ChannelOp, d: Caller)
    requires Inv(s) && Moves(s, op, d) && op.SendDone? && op.ok && s.tasks[d].split
    ensures MovesWell(s, Step(s, op), frames, op, d)
  {
    InvParts(s);
    hide Inv, Release, Put, QueueExact, PendingExact;
    ReleaseOthers(s, d, Sent(s.tasks[d].phase.id));
  }

  lemma AskWell(s: Chan, frames: seq<Frame>, op: ChannelOp, d: Caller)
    requires Inv(s) && Kept(s, frames) && Moves(s, op, d) && op.Ask?
    ensures MovesWell(s, Step(s, op), frames, op, d)
  {
    var id := s.tasks[d].phase.id;
    BufferIsFirst(s, frames, d, id);
    hide Inv, Kept, Receive;
    ReceiveOthers(s, d, id);
  }

  lemma CallWell(s: Chan, frames: seq<Frame>, op: ChannelOp, d: Caller)
    requires Inv(s) && Kept(s, frames) && Moves(s, op, d) && op.SendDone? && op.ok && !s.tasks[d].split
    ensures MovesWell(s, Step(s, op), frames, op, d)
  {
    InvParts(s);
    var id := s.tasks[d].phase.id;
    BufferIsFirst(s, frames, d, id);
    hide Inv, Kept, Release, Receive, Put, QueueExact, PendingExact;
    ReleaseOthers(s, d, Sent(id));
    ReceiveOthers(Release(Put(s, d, Sent(id))), d, id);
  }

  lemma ResumeWell(s: Chan, frames: seq<Frame>, op: ChannelOp, d: Caller)
    requires Moves(s, op, d) && op.Resume?
    ensures MovesWell(s, Step(s, op), frames, op, d)
  {
  }

  lemma MoveWell(s: Chan, frames: seq<Frame>, op: ChannelOp, d: Caller)
    requires Inv(s) && Kept(s, frames) && Moves(s, op, d)
    ensures MovesWell(s, Step(s, op), frames, op, d)
  {
    hide Inv, Kept, Step, MovesWell;
    if op.Start? || op.Wake? || (op.RenewDone? && op.ok) {
      AcquireWell(s, frames, op, d);
    } else if op.Resume? {
      ResumeWell(s, frames, op, d);
    } else if op.Ask? {
      AskWell(s, frames, op, d);
    } else if op.RenewDone? {
      RenewalFailsWell(s, frames, op, d);
    } else if !op.ok {
      SendFailsWell(s, frames, op, d);
    } else if s.tasks[d].split {
      SentWell(s, frames, op, d);
    } else {
      CallWell(s, frames, op, d);
    }
  }

  /** A step answers request `c` exactly when and as `Answers` says. */
  lemma StepAnswers(s: Chan, frames: seq<Frame>, op: ChannelOp, c: Caller, o: Outcome)
    requires Inv(s) && Kept(s, frames)
    ensures Result(Step(s, op).tasks, c) == Some(o)
            <==> Result(s.tasks, c) == Some(o) || Answers(s, frames, op, c, o)
  {
    InvParts(s);
    if d :| Moves(s, op, d) {
      hide Inv, Kept, Step, QueueExact, PendingExact;
      MoveWell(s, frames, op, d);
      if c != d {
        AnswersMoved(s, frames, op, d, c, o);
      }
    } else if op.ReadDone? && s.reading > 0 {
      ReadAnswers(s, frames, op, c, o);
    } else {
      StepIdle(s, op);
      AnswersIdle(s, frames, op, c, o);
    }
  }

  lemma AnswersMoved(s: Chan, frames: seq<Frame>, op: ChannelOp, d: Caller, c: Caller, o: Outcome)
    requires Moves(s, op, d) && c != d
    ensures !Answers(s, frames, op, c, o)
  {
  }

  /** Any other step leaves the requests and the buffer alone. */
  lemma StepIdle(s: Chan, op: ChannelOp)
    requires (forall d :: !Moves(s, op, d)) && (op.ReadDone? ==> s.reading == 0)
    ensures Step(s, op).tasks == s.tasks && Step(s, op).buffered == s.buffered
  {
    hide Acquire, Release, Receive, BeginSend, FinishSend, Deliver, FailPending;
    if !op.ReadDone? && !op.LoopStart? {
      assert !Moves(s, op, op.c);
    }
  }

  lemma AnswersIdle(s: Chan, frames: seq<Frame>, op: ChannelOp, c: Caller, o: Outcome)
    requires (forall d :: !Moves(s, op, d)) && (op.ReadDone? ==> s.reading == 0)
    ensures !Answers(s, frames, op, c, o)
  {
    assert !Moves(s, op, c);
  }

  lemma ReadAnswers(s: Chan, frames: seq<Frame>, op: ChannelOp, c: Caller, o: Outcome)
    requires PendingExact(s.tasks, s.pending) && op.ReadDone? && s.reading > 0
    ensures Result(Step(s, op).tasks, c) == Some(o)
            <==> Result(s.tasks, c) == Some(o) || Answers(s, frames, op, c, o)
  {
    hide PendingExact, Deliver, FailPending;
    var s1 := s.(reading := s.reading - 1);
    if op.frame.Some? {
      DeliverOthers(s1, op.frame.value, c);
    } else {
      FailOthers(s1, c);
    }
  }

  lemma StepKept(s: Chan, frames: seq<Frame>, op: ChannelOp)
    requires Inv(s) && Kept(s, frames)
    ensures Kept(Step(s, op), FramesAfter(s, frames, op))
  {
    InvParts(s);
    if d :| Moves(s, op, d) {
      hide Inv, Step, QueueExact, PendingExact;
      MoveWell(s, frames, op, d);
      KeptMoved(s, Step(s, op), frames, op, d);
      assert frames + [] == frames;
    } else if op.ReadDone? && s.reading > 0 {
      ReadKept(s, frames, op);
    } else {
      StepIdle(s, op);
      hide Step;
      assert frames + [] == frames;
    }
  }

  lemma KeptMoved(s: Chan, s': Chan, frames: seq<Frame>, op: ChannelOp, d: Caller)
    requires Kept(s, frames) && MovesWell(s, s', frames, op, d)
    ensures Kept(s', frames)
  {
    hide Asked, FirstFor, Lookup, Answers;
    forall id | forall c :: !Asked(s'.tasks, c, id)
      ensures Lookup(s'.buffered, id) == FirstFor(frames, id)
    {
      assert forall c :: Asked(s.tasks, c, id) ==> Asked(s'.tasks, c, id);
      assert !Asked(s'.tasks, d, id);
    }
  }

  lemma ReadKept(s: Chan, frames: seq<Frame>, op: ChannelOp)
    requires PendingExact(s.tasks, s.pending) && Kept(s, frames) && op.ReadDone? && s.reading > 0
    ensures Kept(Step(s, op), FramesAfter(s, frames, op))
  {
    hide PendingExact, Kept, Deliver, FailPending, LoopHead, LoopEnd, FirstFor;
    var s1 := s.(reading := s.reading - 1);
    KeptReading(s, s1, frames);
    if op.frame.Some? {
      DeliverKept(s1, op.frame.value, frames);
      KeptHead(Deliver(s1, op.frame.value), FramesAfter(s, frames, op));
    } else {
      FailKept(s1, frames);
      KeptHead(FailPending(s1), frames);
      assert frames + [] == frames;
    }
  }

  lemma KeptReading(s: Chan, s1: Chan, frames: seq<Frame>)
    requires Kept(s, frames) && s1.tasks == s.tasks && s1.buffered == s.buffered
    ensures Kept(s1, frames)
  {
  }

  lemma KeptHead(s: Chan, frames: seq<Frame>)
    requires Kept(s, frames)
    ensures Kept(LoopHead(s), frames) && Kept(LoopEnd(s), frames)
  {
    assert LoopHead(s).tasks == s.tasks && LoopEnd(s).tasks == s.tasks;
  }

  lemma FailKept(s: Chan, frames: seq<Frame>)
    requires PendingExact(s.tasks, s.pending) && Kept(s, frames)
    ensures Kept(FailPending(s), frames)
  {
    hide FailPending, PendingExact;
    var s' := FailPending(s);
    assert s'.buffered == s.buffered by {
      FailOthers(s, 0);
    }
    forall id | forall c :: !Asked(s'.tasks, c, id)
      ensures Lookup(s'.buffered, id) == FirstFor(frames, id)
    {
      forall c
        ensures !Asked(s.tasks, c, id)
      {
        FailOthers(s, c);
      }
    }
  }

  // ---------- runs ----------

  /** The state after the first `n` steps, and the frames read by then. */
  function At(ops: seq<ChannelOp>, n: nat): Chan
    requires n <= |ops|
  {
    Run(QUIET, ops[..n])
  }

  function FramesAt(ops: seq<ChannelOp>, n: nat): seq<Frame>
    requires n <= |ops|
  {
    Frames(ops[..n])
  }

  lemma AtNext(ops: seq<ChannelOp>, n: nat)
    requires n < |ops|
    ensures At(ops, n + 1) == Step(At(ops, n), ops[n])
    ensures FramesAt(ops, n + 1) == FramesAfter(At(ops, n), FramesAt(ops, n), ops[n])
  {
    hide Step;
    assert ops[..n + 1][..n] == ops[..n];
  }

  lemma AtFirst(ops: seq<ChannelOp>)
    ensures At(ops, 0) == QUIET && FramesAt(ops, 0) == [] && Kept(QUIET, [])
  {
  }

  lemma {:induction false} AlwaysKept(ops: seq<ChannelOp>, n: nat)
    requires n <= |ops|
    ensures Inv(At(ops, n)) && Kept(At(ops, n), FramesAt(ops, n))
  {
    hide Inv, Step, Kept;
    RunKeeps(ops[..n]);
    if n == 0 {
      AtFirst(ops);
    } else {
      AlwaysKept(ops, n - 1);
      AtNext(ops, n - 1);
      StepKept(At(ops, n - 1), FramesAt(ops, n - 1), ops[n - 1]);
    }
  }

  /** In every run, a request has the answer that a step of the run gave it, and no other. */
  lemma {:induction false} AnsweredExactly(ops: seq<ChannelOp>, n: nat, c: Caller, o: Outcome)
    requires n <= |ops|
    ensures Result(At(ops, n).tasks, c) == Some(o)
            <==> exists i :: 0 <= i < n && Answers(At(ops, i), FramesAt(ops, i), ops[i], c, o)
  {
    hide At, FramesAt, Inv, Kept, Step, Answers;
    if n == 0 {
      AtFirst(ops);
    } else {
      AnsweredExactly(ops, n - 1, c, o);
      AlwaysKept(ops, n - 1);
      AtNext(ops, n - 1);
      StepAnswers(At(ops, n - 1), FramesAt(ops, n - 1), ops[n - 1], c, o);
    }
  }

  /** A step returns request `c` to its caller exactly if it moves the request on and the request then has
      its answer. */
  lemma StepFinishes(s: Chan, frames: seq<Frame>, op: ChannelOp, c: Caller)
    requires Inv(s) && Kept(s, frames)
    ensures Finished(Step(s, op).tasks, c)
            <==> Finished(s.tasks, c) || (Moves(s, op, c) && Result(Step(s, op).tasks, c).Some?)
  {
    InvParts(s);
    if d :| Moves(s, op, d) {
      hide Inv, Kept, Step, QueueExact, PendingExact;
      MoveWell(s, frames, op, d);
      MovesOne(s, op, d, c);
    } else if op.ReadDone? && s.reading > 0 {
      ReadFinishes(s, op, c);
    } else {
      StepIdle(s, op);
      hide Step;
    }
  }

  lemma MovesOne(s: Chan, op: ChannelOp, d: Caller, c: Caller)
    requires Moves(s, op, d)
    ensures Moves(s, op, c) <==> c == d
    ensures !Finished(s.tasks, d)
  {
  }

  lemma ReadFinishes(s: Chan, op: ChannelOp, c: Caller)
    requires PendingExact(s.tasks, s.pending) && op.ReadDone? && s.reading > 0
    ensures Finished(Step(s, op).tasks, c) <==> Finished(s.tasks, c)
  {
    hide PendingExact, Deliver, FailPending;
    var s1 := s.(reading := s.reading - 1);
    if op.frame.Some? {
      DeliverOthers(s1, op.frame.value, c);
    } else {
      FailOthers(s1, c);
    }
  }

  /** In every run a request has returned to its caller if and only if some step of its own was taken after
      which it had its answer: at once, or by resuming after the answer has come. */
  lemma {:induction false} FinishedExactly(ops: seq<ChannelOp>, n: nat, c: Caller)
    requires n <= |ops|
    ensures Finished(At(ops, n).tasks, c)
            <==> exists i :: 0 <= i < n && Moves(At(ops, i), ops[i], c) && Result(At(ops, i + 1).tasks, c).Some?
  {
    hide At, FramesAt, Inv, Kept, Step, Moves;
    if n == 0 {
      AtFirst(ops);
    } else {
      FinishedExactly(ops, n - 1, c);
      AlwaysKept(ops, n - 1);
      AtNext(ops, n - 1);
      StepFinishes(At(ops, n - 1), FramesAt(ops, n - 1), ops[n - 1], c);
    }
  }

  /** When a frame is read that carries the id and the handle of a request that awaits its response, the
      request has the body of that frame as its answer, in every later state. */
  lemma ResponseReaches(ops: seq<ChannelOp>, i: nat, n: nat, c: Caller, body: Body)
    requires i < n <= |ops| && c in At(ops, i).tasks && At(ops, i).reading > 0
    requires var t := At(ops, i).tasks[c];
             t.phase.Awaiting? && ops[i] == ReadDone(Some(Frame(t.phase.id, t.handle, body)))
    ensures Result(At(ops, n).tasks, c) == Some(Received(body))
  {
    hide At, FramesAt;
    AnsweredExactly(ops, n, c, Received(body));
    assert Answers(At(ops, i), FramesAt(ops, i), ops[i], c, Received(body));
  }

  /** When a request asks for its response and one has been read with its id, it has the body of the
      first of them as its answer in every later state, if that has its handle, and otherwise a failure. */
  lemma BufferedReaches(ops: seq<ChannelOp>, i: nat, n: nat, c: Caller)
    requires i < n <= |ops| && c in At(ops, i).tasks
    requires var t := At(ops, i).tasks[c];
             || (t.phase.Sent? && ops[i] == Ask(c) && FirstFor(FramesAt(ops, i), t.phase.id).Some?)
             || (t.phase.Sending? && !t.split && ops[i] == SendDone(c, true)
                 && FirstFor(FramesAt(ops, i), t.phase.id).Some?)
    ensures var t := At(ops, i).tasks[c];
            var first := FirstFor(FramesAt(ops, i), t.phase.id).value;
            Result(At(ops, n).tasks, c) == Some(if first.handle == t.handle then Received(first.body) else Failed)
  {
    var t := At(ops, i).tasks[c];
    var first := FirstFor(FramesAt(ops, i), t.phase.id).value;
    var o := if first.handle == t.handle then Received(first.body) else Failed;
    hide At, FramesAt, FirstFor;
    AnsweredExactly(ops, n, c, o);
    assert Answers(At(ops, i), FramesAt(ops, i), ops[i], c, o);
  }

  /** The step fails request `c`: its renewal or its send fails, a read fails while it awaits its
      response, or the frame with its id carries another handle. */
  ghost predicate FailsAt(ops: seq<ChannelOp>, i: nat, c: Caller)
    requires i < |ops|
  {
    var s, frames, op := At(ops, i), FramesAt(ops, i), ops[i];
    c in s.tasks &&
    var t := s.tasks[c];
    || (t.phase.Renewing? && op == RenewDone(c, false))
    || (t.phase.Sending? && op == SendDone(c, false))
    || (t.phase.Awaiting? && op == ReadDone(None) && s.reading > 0)
    || (t.phase.Awaiting? && op.ReadDone? && op.frame.Some? && s.reading > 0
        && op.frame.value.id == t.phase.id && op.frame.value.handle != t.handle)
    || (((t.phase.Sent? && op == Ask(c)) || (t.phase.Sending? && !t.split && op == SendDone(c, true)))
        && FirstFor(frames, t.phase.id).Some? && FirstFor(frames, t.phase.id).value.handle != t.handle)
  }

  /** A request fails if and only if such a step of the run failed it. */
  lemma FailedExactly(ops: seq<ChannelOp>, n: nat, c: Caller)
    requires n <= |ops|
    ensures Result(At(ops, n).tasks, c) == Some(Failed) <==> exists i :: 0 <= i < n && FailsAt(ops, i, c)
  {
    hide At, FramesAt, Answers, FirstFor, FailsAt;
    AnsweredExactly(ops, n, c, Failed);
    forall i | 0 <= i < n
      ensures Answers(At(ops, i), FramesAt(ops, i), ops[i], c, Failed) <==> FailsAt(ops, i, c)
    {
      FailsMeans(ops, i, c);
    }
  }

  lemma FailsMeans(ops: seq<ChannelOp>, i: nat, c: Caller)
    requires i < |ops|
    ensures Answers(At(ops, i), FramesAt(ops, i), ops[i], c, Failed) <==> FailsAt(ops, i, c)
  {
    hide At, FramesAt, FirstFor;
  }

  // ---------- what a request was started with ----------

  /** Step `i` is the first that starts request `c`. */
  predicate StartsAt(ops: seq<ChannelOp>, n: nat, c: Caller, i: int)
    requires n <= |ops|
  {
    0 <= i < n && ops[i].Start? && ops[i].c == c && forall j :: 0 <= j < i ==> !(ops[j].Start? && ops[j].c == c)
  }

  /** The requests of a run are those started in it, with the handle and the way of use they were started
      with. */
  lemma {:induction false} RequestsAreStarted(ops: seq<ChannelOp>, n: nat, c: Caller)
    requires n <= |ops|
    ensures c in At(ops, n).tasks <==> exists i :: StartsAt(ops, n, c, i)
    ensures forall i :: StartsAt(ops, n, c, i) && c in At(ops, n).tasks ==>
              At(ops, n).tasks[c].handle == ops[i].handle && At(ops, n).tasks[c].split == ops[i].split
  {
    hide At, Step, FramesAt, Kept;
    if n == 0 {
      AtFirst(ops);
    } else {
      var k := n - 1;
      RequestsAreStarted(ops, k, c);
      AtNext(ops, k);
      StepStarts(At(ops, k), ops[k], c);
      if i :| StartsAt(ops, k, c, i) {
        assert StartsAt(ops, n, c, i);
      } else if ops[k].Start? && ops[k].c == c {
        NotStarted(ops, k, c);
        assert StartsAt(ops, n, c, k);
      }
      assert forall i :: StartsAt(ops, n, c, i) && i < k ==> StartsAt(ops, k, c, i);
    }
  }

  lemma {:induction false} NotStarted(ops: seq<ChannelOp>, n: nat, c: Caller)
    requires n <= |ops| && forall i :: !StartsAt(ops, n, c, i)
    ensures forall j :: 0 <= j < n ==> !(ops[j].Start? && ops[j].c == c)
  {
    if n > 0 {
      var k := n - 1;
      forall i
        ensures !StartsAt(ops, k, c, i)
      {
        assert !StartsAt(ops, n, c, i);
      }
      NotStarted(ops, k, c);
      assert !StartsAt(ops, n, c, k);
    }
  }

  lemma StepStarts(s: Chan, op: ChannelOp, c: Caller)
    ensures var s' := Step(s, op);
            && (c in s'.tasks <==> c in s.tasks || (op.Start? && op.c == c))
            && (c in s.tasks ==> s'.tasks[c].handle == s.tasks[c].handle && s'.tasks[c].split == s.tasks[c].split)
            && (c !in s.tasks && c in s'.tasks ==> s'.tasks[c].handle == op.handle && s'.tasks[c].split == op.split)
  {
    hide Acquire, Release, Receive, Deliver, FailPending, LoopHead, LoopEnd, BeginSend;
    if op.Start? && op.c !in s.tasks {
      SameAcquire(s.(tasks := s.tasks[op.c := Task(op.handle, op.split, Woken)]), op.c, op.renewalDue, c);
    } else if op.Wake? && op.c in s.tasks {
      SameAcquire(s, op.c, op.renewalDue, c);
    } else if op.RenewDone? && op.c in s.tasks {
      SameAcquire(s, op.c, true, c);
      SameRelease(s, op.c, Done(None, Failed), c);
    } else if op.SendDone? && op.c in s.tasks && s.tasks[op.c].phase.Sending? {
      var id := s.tasks[op.c].phase.id;
      SameRelease(s, op.c, Done(Some(id), Failed), c);
      SameRelease(s, op.c, Sent(id), c);
      SameReceive(Release(Put(s, op.c, Sent(id))), op.c, id, c);
    } else if op.Ask? && op.c in s.tasks && s.tasks[op.c].phase.Sent? {
      SameReceive(s, op.c, s.tasks[op.c].phase.id, c);
    } else if (op.ReadDone? && s.reading > 0) || op.LoopStart? {
      SameRead(s, op, c);
    }
  }

  predicate Same(tasks: map<Caller, Task>, tasks': map<Caller, Task>, c: Caller) {
    && (c in tasks' <==> c in tasks)
    && (c in tasks ==> tasks'[c].handle == tasks[c].handle && tasks'[c].split == tasks[c].split)
  }

  lemma SameAcquire(s: Chan, d: Caller, renewalDue: bool, c: Caller)
    requires d in s.tasks
    ensures Same(s.tasks, Acquire(s, d, renewalDue).tasks, c) && Same(s.tasks, BeginSend(s, d).tasks, c)
  {
  }

  lemma SameRelease(s: Chan, d: Caller, p: Phase, c: Caller)
    requires d in s.tasks
    ensures d in Release(Put(s, d, p)).tasks && Same(s.tasks, Release(Put(s, d, p)).tasks, c)
  {
  }

  lemma SameReceive(s: Chan, d: Caller, id: RequestId, c: Caller)
    requires d in s.tasks
    ensures Same(s.tasks, Receive(s, d, id).tasks, c)
  {
  }

  lemma SameRead(s: Chan, op: ChannelOp, c: Caller)
    requires op.ReadDone? || op.LoopStart?
    ensures Same(s.tasks, Step(s, op).tasks, c)
  {
    hide Deliver, FailPending;
    var s1 := s.(reading := if s.reading > 0 then s.reading - 1 else 0);
    SameFail(s1, c);
    if op.ReadDone? && op.frame.Some? {
      SameDeliver(s1, op.frame.value, c);
    }
  }

  lemma SameDeliver(s: Chan, frame: Frame, c: Caller)
    ensures Same(s.tasks, Deliver(s, frame).tasks, c)
  {
  }

  lemma SameFail(s: Chan, c: Caller)
    ensures Same(s.tasks, FailPending(s).tasks, c)
  {
  }
}
