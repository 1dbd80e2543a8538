/** What every run of the client channel keeps. */
module ChannelRuns {
  import opened Common
  import opened Channel

  // ---------- invariants ----------

  predicate Holds(p: Phase) {
    p.Renewing? || p.Sending?
  }

  /** The turn is taken exactly while one request has it. */
  ghost predicate TurnExact(tasks: map<Caller, Task>, turn: bool) {
    && (turn ==> exists c :: c in tasks && Holds(tasks[c].phase))
    && (forall c :: c in tasks && Holds(tasks[c].phase) ==> turn)
    && (forall c, d :: c in tasks && d in tasks && Holds(tasks[c].phase) && Holds(tasks[d].phase) ==> c == d)
  }

  /** The queue lists the waiting requests. */
  ghost predicate QueueExact(tasks: map<Caller, Task>, waiters: seq<Caller>) {
    && Distinct(waiters)
    && (forall i :: 0 <= i < |waiters| ==> waiters[i] in tasks && tasks[waiters[i]].phase.Waiting?)
    && (forall c :: c in tasks && tasks[c].phase.Waiting? ==> c in waiters)
  }

  /** Nobody waits in vain: the turn is held, or a wake-up is in flight. */
  ghost predicate WakeUps(tasks: map<Caller, Task>, turn: bool, waiters: seq<Caller>) {
    waiters != [] ==> turn || exists c :: c in tasks && tasks[c].phase.Woken?
  }

  /** One read loop exists exactly while a response is pending. */
  ghost predicate LoopExact(s: Chan) {
    && s.spawned + s.reading == (if s.looping then 1 else 0)
    && (s.looping <==> s.pending != map[])
  }

  ghost predicate PendingExact(tasks: map<Caller, Task>, pending: map<RequestId, Caller>) {
    && (forall id :: id in pending ==> pending[id] in tasks && tasks[pending[id]].phase == Awaiting(id))
    && (forall c :: c in tasks && tasks[c].phase.Awaiting? ==>
          tasks[c].phase.id in pending && pending[tasks[c].phase.id] == c)
  }

  function RequestOf(p: Phase): Option<RequestId> {
    match p
    case Waiting | Woken | Renewing => None
    case Sending(id) => Some(id)
    case Sent(id) => Some(id)
    case Awaiting(id) => Some(id)
    case Answered(id, _) => Some(id)
    case Done(id, _) => id
  }

  /** Every request has its own id. */
  ghost predicate IdsApart(tasks: map<Caller, Task>, next: RequestId) {
    && (forall c :: c in tasks && RequestOf(tasks[c].phase).Some? ==> RequestOf(tasks[c].phase).value < next)
    && (forall c, d :: c in tasks && d in tasks && c != d && RequestOf(tasks[c].phase).Some? ==>
          RequestOf(tasks[c].phase) != RequestOf(tasks[d].phase))
  }

  ghost predicate Inv(s: Chan) {
    && TurnExact(s.tasks, s.turn)
    && QueueExact(s.tasks, s.waiters)
    && WakeUps(s.tasks, s.turn, s.waiters)
    && LoopExact(s)
    && PendingExact(s.tasks, s.pending)
    && IdsApart(s.tasks, s.next)
  }

  // ---------- one request changes its phase ----------

  lemma TurnSame(tasks: map<Caller, Task>, turn: bool, c: Caller, t: Task)
    requires TurnExact(tasks, turn)
    requires Holds(t.phase) <==> c in tasks && Holds(tasks[c].phase)
    ensures TurnExact(tasks[c := t], turn)
  {
    if turn {
      var d :| d in tasks && Holds(tasks[d].phase);
      assert d in tasks[c := t] && Holds(tasks[c := t][d].phase);
    }
  }

  lemma TurnTaken(tasks: map<Caller, Task>, c: Caller, t: Task)
    requires TurnExact(tasks, false) && Holds(t.phase)
    ensures TurnExact(tasks[c := t], true)
  {
    assert c in tasks[c := t] && Holds(tasks[c := t][c].phase);
  }

  /** The only holder lets go. */
  lemma TurnGiven(tasks: map<Caller, Task>, c: Caller, t: Task)
    requires TurnExact(tasks, true) && c in tasks && Holds(tasks[c].phase) && !Holds(t.phase)
    ensures TurnExact(tasks[c := t], false)
  {
  }

  lemma QueueSame(tasks: map<Caller, Task>, waiters: seq<Caller>, c: Caller, t: Task)
    requires QueueExact(tasks, waiters)
    requires !t.phase.Waiting? && (c in tasks ==> !tasks[c].phase.Waiting?)
    ensures QueueExact(tasks[c := t], waiters)
  {
  }

  lemma QueueJoin(tasks: map<Caller, Task>, waiters: seq<Caller>, c: Caller, t: Task)
    requires QueueExact(tasks, waiters)
    requires t.phase.Waiting? && c in tasks && !tasks[c].phase.Waiting?
    ensures QueueExact(tasks[c := t], waiters + [c])
  {
    assert forall i :: 0 <= i < |waiters| ==> waiters[i] != c;
  }

  lemma QueueLeave(tasks: map<Caller, Task>, waiters: seq<Caller>, t: Task)
    requires QueueExact(tasks, waiters) && waiters != [] && !t.phase.Waiting?
    ensures QueueExact(tasks[waiters[0] := t], waiters[1..])
  {
    var tasks' := tasks[waiters[0] := t];
    forall c | c in tasks' && tasks'[c].phase.Waiting?
      ensures c in waiters[1..]
    {
      var i :| 0 <= i < |waiters| && waiters[i] == c;
      assert waiters[1..][i - 1] == c;
    }
  }

  lemma PendingSame(tasks: map<Caller, Task>, pending: map<RequestId, Caller>, c: Caller, t: Task)
    requires PendingExact(tasks, pending)
    requires !t.phase.Awaiting? && (c in tasks ==> !tasks[c].phase.Awaiting?)
    ensures PendingExact(tasks[c := t], pending)
  {
  }

  lemma IdsSame(tasks: map<Caller, Task>, next: RequestId, c: Caller, t: Task)
    requires IdsApart(tasks, next)
    requires RequestOf(t.phase).None? || (c in tasks && RequestOf(t.phase) == RequestOf(tasks[c].phase))
    ensures IdsApart(tasks[c := t], next)
  {
    hide RequestOf;
  }

  lemma IdsNew(tasks: map<Caller, Task>, next: RequestId, c: Caller, t: Task)
    requires IdsApart(tasks, next) && RequestOf(t.phase) == Some(next)
    ensures IdsApart(tasks[c := t], next + 1)
  {
    hide RequestOf;
  }

  // ---------- the pieces ----------

  lemma AddKeeps(s: Chan, c: Caller, t: Task)
    requires Inv(s) && c !in s.tasks && t.phase.Woken?
    ensures Inv(s.(tasks := s.tasks[c := t]))
  {
    hide TurnExact, QueueExact, PendingExact, IdsApart;
    TurnSame(s.tasks, s.turn, c, t);
    QueueSame(s.tasks, s.waiters, c, t);
    PendingSame(s.tasks, s.pending, c, t);
    IdsSame(s.tasks, s.next, c, t);
    assert c in s.tasks[c := t] && s.tasks[c := t][c].phase.Woken?;
  }

  lemma AcquireKeeps(s: Chan, c: Caller, renewalDue: bool)
    requires Inv(s) && c in s.tasks && s.tasks[c].phase.Woken?
    ensures Inv(Acquire(s, c, renewalDue))
  {
    hide TurnExact, QueueExact, PendingExact, IdsApart;
    if s.turn {
      var t := s.tasks[c].(phase := Waiting);
      TurnSame(s.tasks, s.turn, c, t);
      QueueJoin(s.tasks, s.waiters, c, t);
      PendingSame(s.tasks, s.pending, c, t);
      IdsSame(s.tasks, s.next, c, t);
    } else {
      var renew := s.pending == map[] && renewalDue;
      var t := s.tasks[c].(phase := if renew then Renewing else Phase.Sending(s.next));
      TurnTaken(s.tasks, c, t);
      QueueSame(s.tasks, s.waiters, c, t);
      PendingSame(s.tasks, s.pending, c, t);
      if renew {
        IdsSame(s.tasks, s.next, c, t);
      } else {
        IdsNew(s.tasks, s.next, c, t);
      }
    }
  }

  lemma RenewedKeeps(s: Chan, c: Caller)
    requires Inv(s) && c in s.tasks && s.tasks[c].phase.Renewing?
    ensures Inv(BeginSend(s, c))
  {
    var t := s.tasks[c].(phase := Phase.Sending(s.next));
    assert s.turn;
    hide TurnExact, QueueExact, PendingExact, IdsApart;
    TurnSame(s.tasks, s.turn, c, t);
    QueueSame(s.tasks, s.waiters, c, t);
    PendingSame(s.tasks, s.pending, c, t);
    IdsNew(s.tasks, s.next, c, t);
  }

  lemma HolderHasTurn(tasks: map<Caller, Task>, turn: bool, c: Caller)
    requires TurnExact(tasks, turn) && c in tasks && Holds(tasks[c].phase)
    ensures turn
  {
  }

  lemma FirstWaits(tasks: map<Caller, Task>, waiters: seq<Caller>)
    requires QueueExact(tasks, waiters) && waiters != []
    ensures waiters[0] in tasks && tasks[waiters[0]].phase.Waiting?
  {
  }

  /** The holder goes on to a phase without the turn and gives the turn back. */
  lemma ReleaseKeeps(s: Chan, c: Caller, p: Phase)
    requires Inv(s) && c in s.tasks && Holds(s.tasks[c].phase) && (p.Sent? || p.Done?)
    requires RequestOf(p) == None || RequestOf(p) == RequestOf(s.tasks[c].phase)
    ensures Inv(Release(Put(s, c, p)))
    ensures c in Release(Put(s, c, p)).tasks && Release(Put(s, c, p)).tasks[c] == s.tasks[c].(phase := p)
  {
    hide TurnExact, QueueExact, PendingExact, IdsApart;
    var t := s.tasks[c].(phase := p);
    var tasks := s.tasks[c := t];
    HolderHasTurn(s.tasks, s.turn, c);
    TurnGiven(s.tasks, c, t);
    QueueSame(s.tasks, s.waiters, c, t);
    PendingSame(s.tasks, s.pending, c, t);
    IdsSame(s.tasks, s.next, c, t);
    hide RequestOf, Holds;
    if s.waiters != [] {
      FirstWaits(tasks, s.waiters);
      WakeFirst(s, tasks);
    }
  }

  lemma WakeFirst(s: Chan, tasks: map<Caller, Task>)
    requires s.waiters != [] && QueueExact(tasks, s.waiters) && TurnExact(tasks, false)
    requires PendingExact(tasks, s.pending) && IdsApart(tasks, s.next) && LoopExact(s)
    ensures Inv(Release(s.(tasks := tasks)))
  {
    hide TurnExact, QueueExact, PendingExact, IdsApart;
    FirstWaits(tasks, s.waiters);
    var d := s.waiters[0];
    var u := tasks[d].(phase := Woken);
    TurnSame(tasks, false, d, u);
    QueueLeave(tasks, s.waiters, u);
    PendingSame(tasks, s.pending, d, u);
    IdsSame(tasks, s.next, d, u);
    assert d in tasks[d := u] && tasks[d := u][d].phase.Woken?;
  }

  lemma ReceiveKeeps(s: Chan, c: Caller, id: RequestId)
    requires Inv(s) && c in s.tasks && s.tasks[c].phase == Sent(id)
    ensures Inv(Receive(s, c, id))
  {
    hide TurnExact, QueueExact, PendingExact, IdsApart, WakeUps, LoopExact;
    ReceiveLoop(s, c, id);
    var t := Receive(s, c, id).tasks[c];
    hide EnsureLoop;
    assert RequestOf(t.phase) == Some(id) && !t.phase.Waiting? && !Holds(t.phase);
    TurnSame(s.tasks, s.turn, c, t);
    QueueSame(s.tasks, s.waiters, c, t);
    IdsSame(s.tasks, s.next, c, t);
    WakeSame(s.tasks, s.turn, s.waiters, c, t);
    if id in s.buffered {
      PendingSame(s.tasks, s.pending, c, t);
    } else {
      PendingMore(s, c, id);
    }
  }

  lemma ReceiveLoop(s: Chan, c: Caller, id: RequestId)
    requires LoopExact(s) && c in s.tasks
    ensures var s' := Receive(s, c, id);
            && LoopExact(s') && c in s'.tasks && s'.tasks == s.tasks[c := s'.tasks[c]]
            && s'.turn == s.turn && s'.waiters == s.waiters && s'.next == s.next
            && s'.pending == (if id in s.buffered then s.pending else s.pending[id := c])
  {
    assert id in s.pending[id := c];
  }

  lemma WakeSame(tasks: map<Caller, Task>, turn: bool, waiters: seq<Caller>, c: Caller, t: Task)
    requires WakeUps(tasks, turn, waiters) && (c in tasks ==> !tasks[c].phase.Woken?)
    ensures WakeUps(tasks[c := t], turn, waiters)
  {
    if waiters != [] && !turn {
      var d :| d in tasks && tasks[d].phase.Woken?;
      assert d in tasks[c := t] && tasks[c := t][d].phase.Woken?;
    }
  }

  lemma PendingMore(s: Chan, c: Caller, id: RequestId)
    requires PendingExact(s.tasks, s.pending) && IdsApart(s.tasks, s.next)
    requires c in s.tasks && s.tasks[c].phase == Sent(id)
    ensures PendingExact(s.tasks[c := s.tasks[c].(phase := Awaiting(id))], s.pending[id := c])
  {
    forall d | d in s.tasks && s.tasks[d].phase.Awaiting?
      ensures s.tasks[d].phase.id != id
    {
      assert RequestOf(s.tasks[c].phase) != RequestOf(s.tasks[d].phase);
    }
  }

  lemma DeliverKeeps(s: Chan, frame: Frame)
    requires Inv(s) && s.reading > 0
    ensures Inv(LoopHead(Deliver(s.(reading := s.reading - 1), frame)))
  {
    hide TurnExact, QueueExact, PendingExact, IdsApart, WakeUps, LoopExact;
    DeliverLoop(s, frame);
    if frame.id in s.pending {
      PendingAwaits(s.tasks, s.pending, frame.id);
      var c := s.pending[frame.id];
      var t := s.tasks[c].(phase := Answered(frame.id, Verdict(frame, s.tasks[c].handle)));
      PendingLess(s.tasks, s.pending, frame.id, t);
      TurnSame(s.tasks, s.turn, c, t);
      QueueSame(s.tasks, s.waiters, c, t);
      IdsSame(s.tasks, s.next, c, t);
      WakeSame(s.tasks, s.turn, s.waiters, c, t);
    }
  }

  lemma DeliverLoop(s: Chan, frame: Frame)
    requires LoopExact(s) && s.reading > 0
    ensures LoopExact(LoopHead(Deliver(s.(reading := s.reading - 1), frame)))
  {
    var s1 := Deliver(s.(reading := s.reading - 1), frame);
    assert s1.looping && s1.spawned == 0 && s1.reading == 0;
    hide Deliver;
  }

  lemma PendingAwaits(tasks: map<Caller, Task>, pending: map<RequestId, Caller>, id: RequestId)
    requires PendingExact(tasks, pending) && id in pending
    ensures pending[id] in tasks && tasks[pending[id]].phase == Awaiting(id)
  {
  }

  lemma PendingLess(tasks: map<Caller, Task>, pending: map<RequestId, Caller>, id: RequestId, t: Task)
    requires PendingExact(tasks, pending) && id in pending && !t.phase.Awaiting?
    ensures PendingExact(tasks[pending[id] := t], pending - {id})
  {
  }

  lemma FailKeeps(s: Chan)
    requires Inv(s) && s.reading > 0
    ensures Inv(LoopEnd(FailPending(s.(reading := s.reading - 1))))
  {
    hide TurnExact, QueueExact, PendingExact, IdsApart, WakeUps, LoopExact, FailPending, Fails;
    var s1 := s.(reading := s.reading - 1);
    var s' := FailPending(s1);
    FailPhases(s1);
    FailTurn(s.tasks, s'.tasks, s.turn);
    FailQueue(s.tasks, s'.tasks, s.turn, s.waiters);
    FailIds(s.tasks, s'.tasks, s.next);
    FailNone(s.tasks, s'.tasks);
    FailLoop(s);
  }

  lemma FailTurn(tasks: map<Caller, Task>, tasks': map<Caller, Task>, turn: bool)
    requires Fails(tasks, tasks') && TurnExact(tasks, turn)
    ensures TurnExact(tasks', turn)
  {
    if turn {
      var d :| d in tasks && Holds(tasks[d].phase);
      assert d in tasks' && Holds(tasks'[d].phase);
    }
  }

  lemma FailNone(tasks: map<Caller, Task>, tasks': map<Caller, Task>)
    requires Fails(tasks, tasks')
    ensures PendingExact(tasks', map[])
  {
  }

  lemma FailLoop(s: Chan)
    requires LoopExact(s) && s.reading > 0
    ensures LoopExact(LoopEnd(FailPending(s.(reading := s.reading - 1))))
  {
  }

  /** Awaiting requests are answered, the others go unchanged. */
  ghost predicate Fails(tasks: map<Caller, Task>, tasks': map<Caller, Task>) {
    && tasks'.Keys == tasks.Keys
    && forall c :: c in tasks ==>
         if tasks[c].phase.Awaiting? then tasks'[c].phase == Answered(tasks[c].phase.id, Failed)
         else tasks'[c].phase == tasks[c].phase
  }

  lemma FailPhases(s: Chan)
    requires PendingExact(s.tasks, s.pending)
    ensures Fails(s.tasks, FailPending(s).tasks)
    ensures FailPending(s) == s.(pending := map[], tasks := FailPending(s).tasks)
  {
  }

  lemma FailQueue(tasks: map<Caller, Task>, tasks': map<Caller, Task>, turn: bool, waiters: seq<Caller>)
    requires Fails(tasks, tasks') && QueueExact(tasks, waiters) && WakeUps(tasks, turn, waiters)
    ensures QueueExact(tasks', waiters) && WakeUps(tasks', turn, waiters)
  {
    if waiters != [] && !turn {
      var d :| d in tasks && tasks[d].phase.Woken?;
      assert d in tasks' && tasks'[d].phase.Woken?;
    }
  }

  lemma FailIds(tasks: map<Caller, Task>, tasks': map<Caller, Task>, next: RequestId)
    requires Fails(tasks, tasks') && IdsApart(tasks, next)
    ensures IdsApart(tasks', next)
  {
    assert forall c :: c in tasks' ==> RequestOf(tasks'[c].phase) == RequestOf(tasks[c].phase);
    hide RequestOf, Fails;
  }

  lemma ResumeKeeps(s: Chan, c: Caller)
    requires Inv(s) && c in s.tasks && s.tasks[c].phase.Answered?
    ensures Inv(Step(s, Resume(c))) && s.tasks[c].phase.id !in s.pending
  {
    var p := s.tasks[c].phase;
    assert p.id in s.pending ==> RequestOf(s.tasks[s.pending[p.id]].phase) == RequestOf(p);
    assert s.pending - {p.id} == s.pending;
    var t := s.tasks[c].(phase := Done(Some(p.id), p.outcome));
    hide TurnExact, QueueExact, PendingExact, IdsApart, WakeUps;
    TurnSame(s.tasks, s.turn, c, t);
    QueueSame(s.tasks, s.waiters, c, t);
    IdsSame(s.tasks, s.next, c, t);
    PendingSame(s.tasks, s.pending, c, t);
    WakeSame(s.tasks, s.turn, s.waiters, c, t);
  }

  // ---------- steps and runs ----------

  lemma SendDoneKeeps(s: Chan, c: Caller, ok: bool)
    requires Inv(s) && c in s.tasks && s.tasks[c].phase.Sending?
    ensures Inv(FinishSend(s, c, s.tasks[c].phase.id, ok))
  {
    hide Inv, Release, Receive;
    var id := s.tasks[c].phase.id;
    if !ok {
      ReleaseKeeps(s, c, Done(Some(id), Failed));
    } else {
      ReleaseKeeps(s, c, Sent(id));
      if !s.tasks[c].split {
        ReceiveKeeps(Release(Put(s, c, Sent(id))), c, id);
      }
    }
  }

  lemma LoopStartKeeps(s: Chan)
    requires Inv(s)
    ensures Inv(Step(s, LoopStart))
  {
    hide TurnExact, QueueExact, PendingExact, IdsApart, WakeUps;
  }

  lemma StepKeeps(s: Chan, op: ChannelOp)
    requires Inv(s)
    ensures Inv(Step(s, op))
  {
    hide Inv, Acquire, Release, BeginSend, FinishSend, Receive, Deliver, FailPending, LoopHead, LoopEnd;
    match op {
      case Start(c, handle, split, renewalDue) =>
        if c !in s.tasks {
          AddKeeps(s, c, Task(handle, split, Woken));
          AcquireKeeps(s.(tasks := s.tasks[c := Task(handle, split, Woken)]), c, renewalDue);
        }
      case Wake(c, renewalDue) =>
        if c in s.tasks && s.tasks[c].phase.Woken? {
          AcquireKeeps(s, c, renewalDue);
        }
      case RenewDone(c, ok) =>
        if c in s.tasks && s.tasks[c].phase.Renewing? {
          if ok {
            RenewedKeeps(s, c);
          } else {
            ReleaseKeeps(s, c, Done(None, Failed));
          }
        }
      case SendDone(c, ok) =>
        if c in s.tasks && s.tasks[c].phase.Sending? {
          SendDoneKeeps(s, c, ok);
        }
      case Ask(c) =>
        if c in s.tasks && s.tasks[c].phase.Sent? {
          ReceiveKeeps(s, c, s.tasks[c].phase.id);
        }
      case LoopStart => LoopStartKeeps(s);
      case ReadDone(frame) =>
        if s.reading > 0 {
          if frame.None? {
            FailKeeps(s);
          } else {
            DeliverKeeps(s, frame.value);
          }
        }
      case Resume(c) =>
        if c in s.tasks && s.tasks[c].phase.Answered? {
          ResumeKeeps(s, c);
        }
    }
  }

  function Run(s: Chan, ops: seq<ChannelOp>): Chan {
    if ops == [] then s else Step(Run(s, ops[..|ops| - 1]), ops[|ops| - 1])
  }

  /** In every run at most one request holds the send turn, queued requests are never forgotten, and
      one read loop runs exactly while responses are pending. */
  lemma {:induction false} RunKeeps(ops: seq<ChannelOp>)
    ensures Inv(Run(QUIET, ops))
  {
    hide Inv, Step;
    if ops == [] {
      EmptyKeeps();
    } else {
      RunKeeps(ops[..|ops| - 1]);
      StepKeeps(Run(QUIET, ops[..|ops| - 1]), ops[|ops| - 1]);
    }
  }

  lemma EmptyKeeps()
    ensures Inv(QUIET)
  {
  }

  // ---------- renewing while nobody reads ----------

  predicate Renews(tasks: map<Caller, Task>, c: Caller) {
    c in tasks && tasks[c].phase.Renewing?
  }

  /** A renewal is the only reader of the transport: no response is pending, so no loop runs. */
  ghost predicate OnlyReader(s: Chan) {
    forall c :: Renews(s.tasks, c) ==> s.pending == map[]
  }

  /** Every renewal of `tasks'` was under way in `tasks`. */
  ghost predicate NoNewRenewal(tasks: map<Caller, Task>, tasks': map<Caller, Task>) {
    forall c :: Renews(tasks', c) ==> Renews(tasks, c)
  }

  lemma AcquireReader(s: Chan, c: Caller, renewalDue: bool)
    requires OnlyReader(s) && c in s.tasks
    ensures OnlyReader(Acquire(s, c, renewalDue))
  {
    assert NoNewRenewal(s.tasks, Acquire(s, c, renewalDue).tasks) || s.pending == map[];
  }

  lemma ReleaseReader(s: Chan, c: Caller, p: Phase)
    requires c in s.tasks && !p.Renewing?
    ensures var s' := Release(Put(s, c, p)); NoNewRenewal(s.tasks, s'.tasks) && s'.pending == s.pending
  {
  }

  lemma ReceiveReader(s: Chan, c: Caller, id: RequestId)
    requires c in s.tasks
    ensures NoNewRenewal(s.tasks, Receive(s, c, id).tasks)
  {
  }

  /** Nobody renews while another request has the turn. */
  lemma SenderAlone(tasks: map<Caller, Task>, turn: bool, c: Caller)
    requires TurnExact(tasks, turn) && c in tasks && tasks[c].phase.Sending?
    ensures forall d :: !Renews(tasks, d)
  {
  }

  lemma SendDoneReader(s: Chan, c: Caller, ok: bool)
    requires TurnExact(s.tasks, s.turn) && OnlyReader(s) && c in s.tasks && s.tasks[c].phase.Sending?
    ensures OnlyReader(FinishSend(s, c, s.tasks[c].phase.id, ok))
  {
    SenderAlone(s.tasks, s.turn, c);
    hide TurnExact, Release, Receive;
    var id := s.tasks[c].phase.id;
    if !ok {
      ReleaseReader(s, c, Done(Some(id), Failed));
    } else {
      ReleaseReader(s, c, Sent(id));
      var s1 := Release(Put(s, c, Sent(id)));
      if !s.tasks[c].split && c in s1.tasks {
        ReceiveReader(s1, c, id);
      }
    }
  }

  lemma ReadReader(s: Chan, frame: Option<Frame>)
    requires OnlyReader(s)
    ensures OnlyReader(Step(s, ReadDone(frame)))
  {
    var s' := Step(s, ReadDone(frame));
    assert NoNewRenewal(s.tasks, s'.tasks);
    assert s.pending == map[] ==> s'.pending == map[];
  }

  /** Except by a split caller's asking, a response becomes pending only when a send completes, and
      then nobody renews. */
  lemma StepReader(s: Chan, op: ChannelOp)
    requires Inv(s) && OnlyReader(s) && !op.Ask?
    ensures OnlyReader(Step(s, op))
  {
    hide Inv, Acquire, Release, BeginSend, FinishSend, Receive, Deliver, FailPending, LoopHead, LoopEnd;
    if op.Start? && op.c !in s.tasks {
      var s1 := s.(tasks := s.tasks[op.c := Task(op.handle, op.split, Woken)]);
      assert NoNewRenewal(s.tasks, s1.tasks);
      AcquireReader(s1, op.c, op.renewalDue);
    } else if op.Wake? && op.c in s.tasks {
      AcquireReader(s, op.c, op.renewalDue);
    } else if op.RenewDone? && op.c in s.tasks {
      ReleaseReader(s, op.c, Done(None, Failed));
      BeginReader(s, op.c);
    } else if op.SendDone? && op.c in s.tasks && s.tasks[op.c].phase.Sending? {
      InvTurn(s);
      SendDoneReader(s, op.c, op.ok);
    } else if op.ReadDone? {
      ReadReader(s, op.frame);
    } else if op.LoopStart? || op.Resume? {
      OtherReader(s, op);
    }
  }

  lemma InvTurn(s: Chan)
    requires Inv(s)
    ensures TurnExact(s.tasks, s.turn)
  {
  }

  lemma BeginReader(s: Chan, c: Caller)
    requires c in s.tasks
    ensures var s' := BeginSend(s, c); NoNewRenewal(s.tasks, s'.tasks) && s'.pending == s.pending
  {
  }

  lemma OtherReader(s: Chan, op: ChannelOp)
    requires OnlyReader(s) && (op.LoopStart? || op.Resume?)
    ensures OnlyReader(Step(s, op))
  {
    var s' := Step(s, op);
    assert NoNewRenewal(s.tasks, s'.tasks);
    assert s.pending == map[] ==> s'.pending == map[];
  }

  /** A split caller asks for a response that has not come yet, while a renewal is under way. */
  ghost predicate Intrudes(s: Chan, op: ChannelOp) {
    && op.Ask? && op.c in s.tasks && s.tasks[op.c].phase.Sent? && s.tasks[op.c].phase.id !in s.buffered
    && exists c :: Renews(s.tasks, c)
  }

  lemma AskReader(s: Chan, op: ChannelOp)
    requires OnlyReader(s) && op.Ask?
    ensures OnlyReader(Step(s, op)) <==> !Intrudes(s, op)
  {
    if op.c in s.tasks && s.tasks[op.c].phase.Sent? {
      var id, s' := s.tasks[op.c].phase.id, Step(s, op);
      ReceiveReader(s, op.c, id);
      if Intrudes(s, op) {
        var c :| Renews(s.tasks, c);
        assert Renews(s'.tasks, c) && id in s'.pending;
      }
    }
  }

  /** A step brings a second reader into a renewal if and only if it is such an asking. */
  lemma StepReaderExactly(s: Chan, op: ChannelOp)
    requires Inv(s) && OnlyReader(s)
    ensures OnlyReader(Step(s, op)) <==> !Intrudes(s, op)
  {
    hide Inv, OnlyReader, Step;
    if op.Ask? {
      AskReader(s, op);
    } else {
      StepReader(s, op);
    }
  }

  /** No step of the run is such an asking. */
  ghost predicate NoIntrusion(ops: seq<ChannelOp>) {
    forall i :: 0 <= i < |ops| ==> !Intrudes(Run(QUIET, ops[..i]), ops[i])
  }

  ghost predicate AloneAfter(ops: seq<ChannelOp>, i: nat)
    requires i <= |ops|
  {
    OnlyReader(Run(QUIET, ops[..i]))
  }

  /** Renewals are the only reader at every point of the run. */
  ghost predicate AlwaysAlone(ops: seq<ChannelOp>) {
    forall i :: 0 <= i <= |ops| ==> AloneAfter(ops, i)
  }

  lemma AlwaysAloneNext(ops: seq<ChannelOp>)
    requires ops != []
    ensures AlwaysAlone(ops) <==> AlwaysAlone(ops[..|ops| - 1]) && OnlyReader(Run(QUIET, ops))
  {
    hide AloneAfter, OnlyReader, Run;
    var n := |ops| - 1;
    AloneAfterEnd(ops);
    forall i | 0 <= i <= n
      ensures AloneAfter(ops[..n], i) <==> AloneAfter(ops, i)
    {
      AloneAfterShorter(ops, n, i);
    }
  }

  lemma AloneAfterEnd(ops: seq<ChannelOp>)
    ensures AloneAfter(ops, |ops|) <==> OnlyReader(Run(QUIET, ops))
  {
    assert ops[..|ops|] == ops;
  }

  lemma AloneAfterShorter(ops: seq<ChannelOp>, n: nat, i: nat)
    requires i <= n <= |ops|
    ensures AloneAfter(ops[..n], i) <==> AloneAfter(ops, i)
  {
    assert ops[..n][..i] == ops[..i];
  }

  lemma NoIntrusionNext(ops: seq<ChannelOp>)
    requires ops != []
    ensures var n := |ops| - 1;
            NoIntrusion(ops) <==> NoIntrusion(ops[..n]) && !Intrudes(Run(QUIET, ops[..n]), ops[n])
  {
    hide Run, Intrudes;
    assert forall i :: 0 <= i < |ops| - 1 ==> ops[..|ops| - 1][..i] == ops[..i];
  }

  /** Throughout a run renewals are the only reader, if and only if no split caller asks during one
      for a response that has not come. */
  lemma {:induction false} RenewalReadsAlone(ops: seq<ChannelOp>)
    ensures AlwaysAlone(ops) <==> NoIntrusion(ops)
  {
    if ops != [] {
      hide Inv, OnlyReader, Step, Intrudes, AlwaysAlone, NoIntrusion;
      var n := |ops| - 1;
      RenewalReadsAlone(ops[..n]);
      AlwaysAloneNext(ops);
      NoIntrusionNext(ops);
      RunKeeps(ops[..n]);
      if AlwaysAlone(ops[..n]) {
        AloneAtEnd(ops[..n]);
        StepReaderExactly(Run(QUIET, ops[..n]), ops[n]);
      }
    }
  }

  lemma AloneAtEnd(ops: seq<ChannelOp>)
    requires AlwaysAlone(ops)
    ensures OnlyReader(Run(QUIET, ops))
  {
    AloneAfterEnd(ops);
  }

  /** In runs of calls only, renewing never meets a read of the transport. */
  lemma {:induction false} CallsOnly(ops: seq<ChannelOp>)
    requires forall i :: 0 <= i < |ops| ==> ops[i].Start? ==> !ops[i].split
    ensures var s := Run(QUIET, ops);
            forall c :: Renews(s.tasks, c) ==> s.spawned == 0 && s.reading == 0
  {
    assert NoIntrusion(ops) by {
      forall i | 0 <= i < |ops|
        ensures !Intrudes(Run(QUIET, ops[..i]), ops[i])
      {
        NeverSent(ops[..i]);
        hide Run;
      }
    }
    RenewalReadsAlone(ops);
    RunKeeps(ops);
    AloneAtEnd(ops);
  }

  /** A caller that calls is never between sending and asking. */
  lemma {:induction false} NeverSent(ops: seq<ChannelOp>)
    requires forall i :: 0 <= i < |ops| ==> ops[i].Start? ==> !ops[i].split
    ensures NoneSent(Run(QUIET, ops).tasks)
  {
    if ops != [] {
      NeverSent(ops[..|ops| - 1]);
      hide Run;
      StepNoneSent(Run(QUIET, ops[..|ops| - 1]), ops[|ops| - 1]);
    }
  }

  ghost predicate NoneSent(tasks: map<Caller, Task>) {
    forall c :: c in tasks ==> !tasks[c].split && !tasks[c].phase.Sent?
  }

  ghost predicate NoNewSent(tasks: map<Caller, Task>, tasks': map<Caller, Task>, but: Option<Caller>) {
    forall c :: c in tasks' && Some(c) != but ==>
      && (tasks'[c].phase.Sent? ==> c in tasks && tasks[c].phase.Sent?)
      && (tasks'[c].split ==> c in tasks && tasks[c].split)
  }

  lemma PutSent(s: Chan, c: Caller, p: Phase)
    requires c in s.tasks
    ensures NoNewSent(s.tasks, Put(s, c, p).tasks, if p.Sent? then Some(c) else None)
    ensures Put(s, c, p).tasks.Keys == s.tasks.Keys && Put(s, c, p).tasks[c].split == s.tasks[c].split
  {
  }

  lemma ReleaseSent(s: Chan)
    ensures NoNewSent(s.tasks, Release(s).tasks, None)
    ensures Release(s).tasks.Keys == s.tasks.Keys
  {
  }

  lemma ReceiveSent(s: Chan, c: Caller, id: RequestId)
    requires c in s.tasks
    ensures NoNewSent(s.tasks, Receive(s, c, id).tasks, None)
    ensures !Receive(s, c, id).tasks[c].phase.Sent?
  {
  }

  lemma FinishSent(s: Chan, c: Caller, id: RequestId, ok: bool)
    requires c in s.tasks && NoneSent(s.tasks)
    ensures NoneSent(FinishSend(s, c, id, ok).tasks)
  {
    hide Release, Receive, Put;
    if !ok {
      PutSent(s, c, Done(Some(id), Failed));
      ReleaseSent(Put(s, c, Done(Some(id), Failed)));
    } else {
      PutSent(s, c, Sent(id));
      var s1 := Put(s, c, Sent(id));
      ReleaseSent(s1);
      ReceiveSent(Release(s1), c, id);
    }
  }

  lemma AcquireSent(s: Chan, c: Caller, renewalDue: bool)
    requires c in s.tasks
    ensures NoNewSent(s.tasks, Acquire(s, c, renewalDue).tasks, None)
    ensures NoNewSent(s.tasks, BeginSend(s, c).tasks, None)
  {
  }

  lemma ReadSent(s: Chan, op: ChannelOp)
    requires op.ReadDone? || op.LoopStart? || op.Resume?
    ensures NoNewSent(s.tasks, Step(s, op).tasks, None)
  {
    hide Deliver, FailPending;
    if op.ReadDone? && s.reading > 0 {
      var s1 := s.(reading := s.reading - 1);
      if op.frame.Some? {
        DeliverSent(s1, op.frame.value);
      } else {
        FailSent(s1);
      }
    }
  }

  lemma DeliverSent(s: Chan, frame: Frame)
    ensures NoNewSent(s.tasks, Deliver(s, frame).tasks, None)
  {
  }

  lemma FailSent(s: Chan)
    ensures NoNewSent(s.tasks, FailPending(s).tasks, None)
  {
  }

  lemma StepNoneSent(s: Chan, op: ChannelOp)
    requires NoneSent(s.tasks) && (op.Start? ==> !op.split)
    ensures NoneSent(Step(s, op).tasks)
  {
    hide Acquire, Release, BeginSend, FinishSend, Receive, Deliver, FailPending, LoopHead, LoopEnd;
    if op.Start? && op.c !in s.tasks {
      AcquireSent(s.(tasks := s.tasks[op.c := Task(op.handle, op.split, Woken)]), op.c, op.renewalDue);
    } else if op.Wake? && op.c in s.tasks {
      AcquireSent(s, op.c, op.renewalDue);
    } else if op.RenewDone? && op.c in s.tasks {
      AcquireSent(s, op.c, true);
      PutSent(s, op.c, Done(None, Failed));
      ReleaseSent(Put(s, op.c, Done(None, Failed)));
    } else if op.SendDone? && op.c in s.tasks && s.tasks[op.c].phase.Sending? {
      FinishSent(s, op.c, s.tasks[op.c].phase.id, op.ok);
    } else if op.ReadDone? || op.LoopStart? || op.Resume? {
      ReadSent(s, op);
    }
  }

  lemma SplitStart()
    ensures var s := Step(Step(Step(QUIET, Start(1, 1, true, false)), SendDone(1, true)), Start(2, 2, false, true));
            Renews(s.tasks, 2) && Parted(s)
  {
    var s1 := Step(QUIET, Start(1, 1, true, false));
    assert s1.tasks[1].phase == Phase.Sending(1) && s1.tasks.Keys == {1} && s1.turn;
    var s2 := Step(s1, SendDone(1, true));
    assert s2.tasks.Keys == {1} && s2.tasks[1].phase == Sent(1) && !s2.turn && s2.pending == map[];
  }

  /** Request 1 has been sent and not asked for, and nobody reads. */
  ghost predicate Parted(s: Chan) {
    && 1 in s.tasks && s.tasks[1].phase == Sent(1) && s.buffered == map[]
    && !s.looping && s.reading == 0 && s.spawned == 0
  }

  lemma SplitAsk(s: Chan)
    requires Renews(s.tasks, 2) && Parted(s)
    ensures var s' := Step(Step(s, Ask(1)), LoopStart);
            Renews(s'.tasks, 2) && s'.reading == 1
  {
    var s1 := Step(s, Ask(1));
    assert Renews(s1.tasks, 2) && 1 in s1.pending && s1.spawned == 1;
  }

  /** The split use does break it: while one caller renews, another asks for its response, and a loop
      starts to read the transport. */
  lemma SplitUseReadsDuringRenewal()
    ensures var s := Run(QUIET, [Start(1, 1, true, false), SendDone(1, true), Start(2, 2, false, true),
                                 Ask(1), LoopStart]);
            Renews(s.tasks, 2) && s.reading == 1
  {
    var a, b, c, d, e := Start(1, 1, true, false), SendDone(1, true), Start(2, 2, false, true), Ask(1), LoopStart;
    var s3 := Step(Step(Step(QUIET, a), b), c);
    SplitStart();
    SplitAsk(s3);
    hide Step, Renews;
    assert [a, b][..1] == [a] && [a, b, c][..2] == [a, b] && [a, b, c, d][..3] == [a, b, c];
    assert [a, b, c, d, e][..4] == [a, b, c, d];
    assert Run(QUIET, [a]) == Step(QUIET, a) && Run(QUIET, [a, b]) == Step(Step(QUIET, a), b);
    assert Run(QUIET, [a, b, c]) == s3 && Run(QUIET, [a, b, c, d]) == Step(s3, d);
  }

  // ---------- responses reach their requests ----------

  /** The frames read from the transport so far. */
  function Frames(ops: seq<ChannelOp>): seq<Frame> {
    if ops == [] then []
    else
      var n := |ops| - 1;
      var op := ops[n];
      Frames(ops[..n])
      + (if op.ReadDone? && op.frame.Some? && Run(QUIET, ops[..n]).reading > 0 then [op.frame.value] else [])
  }

  function Answer(p: Phase): Outcome {
    match p
    case Answered(_, outcome) => outcome
    case Done(_, outcome) => outcome
    case _ => Failed
  }

  /** A body received came in a frame with the request's own id and handle. */
  ghost predicate Genuine(tasks: map<Caller, Task>, frames: seq<Frame>) {
    forall c :: c in tasks && Answer(tasks[c].phase).Received? ==>
      && RequestOf(tasks[c].phase).Some?
      && Frame(RequestOf(tasks[c].phase).value, tasks[c].handle, Answer(tasks[c].phase).body) in frames
  }

  ghost predicate Stored(buffered: map<RequestId, Frame>, frames: seq<Frame>) {
    forall id :: id in buffered ==> buffered[id].id == id && buffered[id] in frames
  }

  lemma GenuinePut(tasks: map<Caller, Task>, frames: seq<Frame>, c: Caller, t: Task)
    requires Genuine(tasks, frames)
    requires Answer(t.phase).Received? ==>
               && RequestOf(t.phase).Some?
               && Frame(RequestOf(t.phase).value, t.handle, Answer(t.phase).body) in frames
    ensures Genuine(tasks[c := t], frames)
  {
    hide Answer, RequestOf;
  }

  lemma AcquireGenuine(s: Chan, c: Caller, renewalDue: bool, frames: seq<Frame>)
    requires Genuine(s.tasks, frames) && c in s.tasks
    ensures Genuine(Acquire(s, c, renewalDue).tasks, frames)
    ensures Genuine(BeginSend(s, c).tasks, frames)
    ensures Acquire(s, c, renewalDue).buffered == s.buffered && BeginSend(s, c).buffered == s.buffered
  {
    hide Genuine;
    GenuinePut(s.tasks, frames, c, s.tasks[c].(phase := Waiting));
    GenuinePut(s.tasks, frames, c, s.tasks[c].(phase := Renewing));
    GenuinePut(s.tasks, frames, c, s.tasks[c].(phase := Phase.Sending(s.next)));
  }

  lemma ReleaseGenuine(s: Chan, c: Caller, p: Phase, frames: seq<Frame>)
    requires Genuine(s.tasks, frames) && c in s.tasks && Answer(p).Failed?
    ensures Genuine(Release(Put(s, c, p)).tasks, frames)
    ensures Release(Put(s, c, p)).buffered == s.buffered && c in Release(Put(s, c, p)).tasks
  {
    hide Genuine;
    var tasks := Put(s, c, p).tasks;
    GenuinePut(s.tasks, frames, c, s.tasks[c].(phase := p));
    if s.waiters != [] && s.waiters[0] in tasks {
      GenuinePut(tasks, frames, s.waiters[0], tasks[s.waiters[0]].(phase := Woken));
    }
  }

  lemma ReceiveGenuine(s: Chan, c: Caller, id: RequestId, frames: seq<Frame>)
    requires Genuine(s.tasks, frames) && Stored(s.buffered, frames) && c in s.tasks
    ensures Genuine(Receive(s, c, id).tasks, frames) && Stored(Receive(s, c, id).buffered, frames)
  {
    hide Genuine;
    GenuinePut(s.tasks, frames, c, Receive(s, c, id).tasks[c]);
  }

  lemma DeliverGenuine(s: Chan, frame: Frame, frames: seq<Frame>)
    requires Genuine(s.tasks, frames) && Stored(s.buffered, frames) && frame in frames
    ensures Genuine(Deliver(s, frame).tasks, frames) && Stored(Deliver(s, frame).buffered, frames)
  {
    hide Genuine;
    if frame.id in s.pending && s.pending[frame.id] in s.tasks {
      GenuinePut(s.tasks, frames, s.pending[frame.id], Deliver(s, frame).tasks[s.pending[frame.id]]);
    }
  }

  lemma FailGenuine(s: Chan, frames: seq<Frame>)
    requires Genuine(s.tasks, frames)
    ensures Genuine(FailPending(s).tasks, frames) && FailPending(s).buffered == s.buffered
  {
  }

  lemma FinishGenuine(s: Chan, c: Caller, id: RequestId, ok: bool, frames: seq<Frame>)
    requires Genuine(s.tasks, frames) && Stored(s.buffered, frames) && c in s.tasks
    ensures Genuine(FinishSend(s, c, id, ok).tasks, frames) && Stored(FinishSend(s, c, id, ok).buffered, frames)
  {
    hide Genuine, Stored, Release, Receive, Put;
    if !ok {
      ReleaseGenuine(s, c, Done(Some(id), Failed), frames);
    } else {
      ReleaseGenuine(s, c, Sent(id), frames);
      ReceiveGenuine(Release(Put(s, c, Sent(id))), c, id, frames);
    }
  }

  lemma StepGenuine(s: Chan, op: ChannelOp, frames: seq<Frame>)
    requires Genuine(s.tasks, frames) && Stored(s.buffered, frames)
    requires op.ReadDone? && op.frame.Some? && s.reading > 0 ==> op.frame.value in frames
    ensures Genuine(Step(s, op).tasks, frames) && Stored(Step(s, op).buffered, frames)
  {
    hide Genuine, Stored, Acquire, Release, BeginSend, FinishSend, Receive, Deliver, FailPending;
    if op.Start? && op.c !in s.tasks {
      GenuinePut(s.tasks, frames, op.c, Task(op.handle, op.split, Woken));
      AcquireGenuine(s.(tasks := s.tasks[op.c := Task(op.handle, op.split, Woken)]), op.c, op.renewalDue, frames);
    } else if op.Wake? && op.c in s.tasks {
      AcquireGenuine(s, op.c, op.renewalDue, frames);
    } else if op.RenewDone? && op.c in s.tasks {
      AcquireGenuine(s, op.c, true, frames);
      ReleaseGenuine(s, op.c, Done(None, Failed), frames);
    } else if op.SendDone? && op.c in s.tasks && s.tasks[op.c].phase.Sending? {
      FinishGenuine(s, op.c, s.tasks[op.c].phase.id, op.ok, frames);
    } else if op.Ask? && op.c in s.tasks && s.tasks[op.c].phase.Sent? {
      ReceiveGenuine(s, op.c, s.tasks[op.c].phase.id, frames);
    } else if op.ReadDone? && s.reading > 0 {
      var s1 := s.(reading := s.reading - 1);
      if op.frame.Some? {
        DeliverGenuine(s1, op.frame.value, frames);
      } else {
        FailGenuine(s1, frames);
      }
    } else if op.Resume? && op.c in s.tasks && s.tasks[op.c].phase.Answered? {
      ResumeGenuine(s, op.c, frames);
    }
  }

  lemma ResumeGenuine(s: Chan, c: Caller, frames: seq<Frame>)
    requires Genuine(s.tasks, frames) && c in s.tasks && s.tasks[c].phase.Answered?
    ensures Genuine(Step(s, Resume(c)).tasks, frames) && Step(s, Resume(c)).buffered == s.buffered
  {
    GenuinePut(s.tasks, frames, c, Step(s, Resume(c)).tasks[c]);
    hide Genuine;
  }

  lemma InvIds(s: Chan)
    requires Inv(s)
    ensures IdsApart(s.tasks, s.next)
  {
  }

  lemma NothingRead()
    ensures Genuine(QUIET.tasks, []) && Stored(QUIET.buffered, [])
  {
  }

  lemma MoreFrames(s: Chan, frames: seq<Frame>, more: seq<Frame>)
    requires Genuine(s.tasks, frames) && Stored(s.buffered, frames)
    ensures Genuine(s.tasks, frames + more) && Stored(s.buffered, frames + more)
  {
    hide Answer, RequestOf;
  }

  /** In every run, a request is answered only with the body of a frame that carried its id and its
      handle; ids are never shared, so no frame answers two requests. */
  lemma {:induction false} ResponsesMatch(ops: seq<ChannelOp>)
    ensures var s := Run(QUIET, ops);
            && Genuine(s.tasks, Frames(ops)) && Stored(s.buffered, Frames(ops)) && IdsApart(s.tasks, s.next)
  {
    hide Genuine, Stored, Step, IdsApart, Inv;
    RunKeeps(ops);
    InvIds(Run(QUIET, ops));
    if ops == [] {
      NothingRead();
    } else {
      var n := |ops| - 1;
      ResponsesMatch(ops[..n]);
      var s := Run(QUIET, ops[..n]);
      var more := if ops[n].ReadDone? && ops[n].frame.Some? && s.reading > 0 then [ops[n].frame.value] else [];
      MoreFrames(s, Frames(ops[..n]), more);
      assert Frames(ops) == Frames(ops[..n]) + more;
      StepGenuine(s, ops[n], Frames(ops));
    }
  }
}
