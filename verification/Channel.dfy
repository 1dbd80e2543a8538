/** The client channel as a value: requests take turns to be sent, one loop reads the responses while
    any is awaited, and the security token is renewed by reading the transport directly. The steps
    are what runs between two suspension points of the coroutines involved. */
module Channel {
  import opened Common

  type Caller = nat
  type RequestId = nat
  type Handle = nat
  type Body = nat

  datatype Outcome = Received(body: Body) | Failed

  /** Where a request coroutine stands. */
  datatype Phase =
    | Waiting                                        // queued for the send turn
    | Woken                                          // its wake-up is posted, it has not run yet
    | Renewing                                       // has the turn, renews the security token
    | Sending(id: RequestId)                         // has the turn, the transport is sending
    | Sent(id: RequestId)                            // split use: sent, the response not asked for yet
    | Awaiting(id: RequestId)                        // its response is pending
    | Answered(id: RequestId, outcome: Outcome)      // answered, it has not run yet
    | Done(request: Option<RequestId>, outcome: Outcome)

  /** A `split` caller sends and receives in two calls; the others use Call. */
  datatype Task = Task(handle: Handle, split: bool, phase: Phase)

  datatype Frame = Frame(id: RequestId, handle: Handle, body: Body)

  datatype Chan = Chan(
    tasks: map<Caller, Task>,
    turn: bool,
    waiters: seq<Caller>,
    pending: map<RequestId, Caller>,
    buffered: map<RequestId, Frame>,
    looping: bool,
    spawned: nat,        // read loops started that have not run yet
    reading: nat,        // read loops waiting for the transport
    next: RequestId)

  const QUIET: Chan := Chan(map[], false, [], map[], map[], false, 0, 0, 1)

  // ---------- pieces of a step ----------

  function Put(s: Chan, c: Caller, phase: Phase): Chan
    requires c in s.tasks
  {
    s.(tasks := s.tasks[c := s.tasks[c].(phase := phase)])
  }

  /** Tries to take the send turn, and with it either renews the token or sends. */
  function Acquire(s: Chan, c: Caller, renewalDue: bool): Chan
    requires c in s.tasks
  {
    if s.turn then Put(s, c, Waiting).(waiters := s.waiters + [c])
    else if s.pending == map[] && renewalDue then Put(s.(turn := true), c, Renewing)
    else BeginSend(s.(turn := true), c)
  }

  function BeginSend(s: Chan, c: Caller): Chan
    requires c in s.tasks
  {
    Put(s, c, Sending(s.next)).(next := s.next + 1)
  }

  function Release(s: Chan): Chan {
    if s.waiters == [] || s.waiters[0] !in s.tasks then s.(turn := false)
    else Put(s, s.waiters[0], Woken).(turn := false, waiters := s.waiters[1..])
  }

  function EnsureLoop(s: Chan): Chan {
    if s.looping then s else s.(looping := true, spawned := s.spawned + 1)
  }

  function Receive(s: Chan, c: Caller, id: RequestId): Chan
    requires c in s.tasks
  {
    if id in s.buffered then
      if s.buffered[id].handle != s.tasks[c].handle then Put(s, c, Done(Some(id), Failed))
      else Put(s.(buffered := s.buffered - {id}), c, Done(Some(id), Received(s.buffered[id].body)))
    else EnsureLoop(Put(s.(pending := s.pending[id := c]), c, Awaiting(id)))
  }

  function Verdict(frame: Frame, handle: Handle): Outcome {
    if frame.handle != handle then Failed else Received(frame.body)
  }

  function Deliver(s: Chan, frame: Frame): Chan {
    if frame.id in s.pending && s.pending[frame.id] in s.tasks then
      var c := s.pending[frame.id];
      Put(s.(pending := s.pending - {frame.id}), c, Answered(frame.id, Verdict(frame, s.tasks[c].handle)))
    else if frame.id in s.buffered then s
    else s.(buffered := s.buffered[frame.id := frame])
  }

  function FailPending(s: Chan): Chan {
    s.(pending := map[],
       tasks := map c | c in s.tasks ::
         if s.tasks[c].phase.Awaiting? && s.tasks[c].phase.id in s.pending
            && s.pending[s.tasks[c].phase.id] == c
         then s.tasks[c].(phase := Answered(s.tasks[c].phase.id, Failed))
         else s.tasks[c])
  }

  function LoopHead(s: Chan): Chan {
    if s.pending != map[] then s.(reading := s.reading + 1) else LoopEnd(s)
  }

  function LoopEnd(s: Chan): Chan {
    var s1 := s.(looping := false);
    if s1.pending != map[] then EnsureLoop(s1) else s1
  }

  // ---------- steps ----------

  datatype ChannelOp =
    | Start(c: Caller, handle: Handle, split: bool, renewalDue: bool)
    | Wake(c: Caller, renewalDue: bool)
    | RenewDone(c: Caller, ok: bool)
    | SendDone(c: Caller, ok: bool)
    | Ask(c: Caller)                     // a split caller asks for its response
    | LoopStart
    | ReadDone(frame: Option<Frame>)
    | Resume(c: Caller)

  /** A step that is not due changes nothing. */
  function Step(s: Chan, op: ChannelOp): Chan {
    match op
    case Start(c, handle, split, renewalDue) =>
      if c in s.tasks then s
      else Acquire(s.(tasks := s.tasks[c := Task(handle, split, Woken)]), c, renewalDue)
    case Wake(c, renewalDue) =>
      if c in s.tasks && s.tasks[c].phase.Woken? then Acquire(s, c, renewalDue) else s
    case RenewDone(c, ok) =>
      if !(c in s.tasks && s.tasks[c].phase.Renewing?) then s
      else if ok then BeginSend(s, c)
      else Release(Put(s, c, Done(None, Failed)))
    case SendDone(c, ok) =>
      if !(c in s.tasks && s.tasks[c].phase.Sending?) then s
      else FinishSend(s, c, s.tasks[c].phase.id, ok)
    case Ask(c) =>
      if c in s.tasks && s.tasks[c].phase.Sent? then Receive(s, c, s.tasks[c].phase.id) else s
    case LoopStart => if s.spawned == 0 then s else LoopHead(s.(spawned := s.spawned - 1))
    case ReadDone(frame) =>
      if s.reading == 0 then s
      else
        var s1 := s.(reading := s.reading - 1);
        if frame.None? then LoopEnd(FailPending(s1)) else LoopHead(Deliver(s1, frame.value))
    case Resume(c) =>
      if c in s.tasks && s.tasks[c].phase.Answered? then
        var p := s.tasks[c].phase;
        Put(s, c, Done(Some(p.id), p.outcome)).(pending := s.pending - {p.id})
      else s
  }

  /** The send has completed: the turn goes back, and a Call goes on to wait for its response. */
  function FinishSend(s: Chan, c: Caller, id: RequestId, ok: bool): Chan
    requires c in s.tasks
  {
    if !ok then Release(Put(s, c, Done(Some(id), Failed)))
    else
      var s1 := Release(Put(s, c, Sent(id)));
      if s.tasks[c].split then s1 else Receive(s1, c, id)
  }
}
