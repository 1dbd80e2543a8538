/** Whether a request queued for the send turn gets it. A woken request takes the turn only if it is
    still free when it runs; a new request that starts in between takes it first, and the woken one
    queues again at the back. */
module ChannelFairness {
  import opened Common
  import opened Channel
  import opened ChannelRuns

  // ---------- overtaken for ever ----------

  /** The woken request `c` finds the turn taken. */
  predicate Misses(s: Chan, op: ChannelOp, c: Caller) {
    op.Wake? && op.c == c && c in s.tasks && s.tasks[c].phase.Woken? && s.turn
  }

  /** How often request `c` misses its turn in a run. */
  function Missed(ops: seq<ChannelOp>, c: Caller): nat {
    if ops == [] then 0
    else
      var n := |ops| - 1;
      Missed(ops[..n], c) + (if Misses(Run(QUIET, ops[..n]), ops[n], c) then 1 else 0)
  }

  /** Request `c` is the only one queued, `h` has the turn and is sending, and the requests from `m` on
      have not started. */
  ghost predicate Cornered(s: Chan, c: Caller, h: Caller, m: nat) {
    && c in s.tasks && s.tasks[c].phase.Waiting? && s.waiters == [c] && s.turn
    && h in s.tasks && h != c && s.tasks[h].phase.Sending?
    && forall t :: t in s.tasks ==> t < m
  }

  lemma RunMore(ops: seq<ChannelOp>, op: ChannelOp, c: Caller)
    ensures Run(QUIET, ops + [op]) == Step(Run(QUIET, ops), op)
    ensures Missed(ops + [op], c) == Missed(ops, c) + (if Misses(Run(QUIET, ops), op, c) then 1 else 0)
  {
    hide Step, Misses;
    assert (ops + [op])[..|ops|] == ops;
  }

  /** The holder's send ends, a new request takes the turn, and the woken one finds it taken. */
  lemma Overtaken(s: Chan, c: Caller, h: Caller, m: nat)
    requires Cornered(s, c, h, m)
    ensures var s1 := Step(s, SendDone(h, false));
            var s2 := Step(s1, Start(m, 0, false, false));
            && Misses(s2, Wake(c, false), c)
            && Cornered(Step(s2, Wake(c, false)), c, m, m + 1)
  {
    var s1 := Step(s, SendDone(h, false));
    assert s1.tasks.Keys == s.tasks.Keys && s1.tasks[c].phase.Woken? && !s1.turn && s1.waiters == [];
    hide Receive, Deliver, FailPending, LoopHead, LoopEnd, Release;
    var s2 := Step(s1, Start(m, 0, false, false));
    assert s2.tasks.Keys == s.tasks.Keys + {m} && s2.tasks[m].phase.Sending? && s2.turn;
    assert s2.tasks[c].phase.Woken? && s2.waiters == [];
  }

  lemma {:induction false} Overtakes(n: nat) returns (ops: seq<ChannelOp>, h: Caller)
    ensures Missed(ops, 2) == n && Cornered(Run(QUIET, ops), 2, h, n + 3)
  {
    hide Run, Missed, Step, Misses;
    if n == 0 {
      ops, h := [Start(1, 0, false, false)] + [Start(2, 0, false, false)], 1;
      assert [] + [Start(1, 0, false, false)] == [Start(1, 0, false, false)];
      NothingRun();
      RunMore([], Start(1, 0, false, false), 2);
      RunMore([Start(1, 0, false, false)], Start(2, 0, false, false), 2);
      FirstCornered();
    } else {
      ops, h := Overtakes(n - 1);
      var m := n + 2;
      Overtaken(Run(QUIET, ops), 2, h, m);
      var a, b, d := SendDone(h, false), Start(m, 0, false, false), Wake(2, false);
      RunMore(ops, a, 2);
      RunMore(ops + [a], b, 2);
      RunMore(ops + [a] + [b], d, 2);
      NotWake(Run(QUIET, ops), a, 2);
      NotWake(Run(QUIET, ops + [a]), b, 2);
      ops, h := ops + [a] + [b] + [d], m;
    }
  }

  lemma NothingRun()
    ensures Run(QUIET, []) == QUIET && Missed([], 2) == 0
  {
  }

  lemma NotWake(s: Chan, op: ChannelOp, c: Caller)
    requires !op.Wake?
    ensures !Misses(s, op, c)
  {
  }

  lemma FirstCornered()
    ensures var s := Step(Step(QUIET, Start(1, 0, false, false)), Start(2, 0, false, false));
            Cornered(s, 2, 1, 3)
    ensures !Misses(QUIET, Start(1, 0, false, false), 2)
    ensures forall s :: !Misses(s, Start(2, 0, false, false), 2)
  {
    var s1 := Step(QUIET, Start(1, 0, false, false));
    assert s1.tasks.Keys == {1} && s1.tasks[1].phase.Sending? && s1.turn && s1.waiters == [];
  }

  /** For every n there is a run in which one request, queued all along, misses its turn n times. */
  lemma WaiterOvertaken(n: nat) returns (ops: seq<ChannelOp>)
    ensures Missed(ops, 2) == n
    ensures 2 in Run(QUIET, ops).tasks && Run(QUIET, ops).tasks[2].phase.Waiting?
  {
    hide Run, Missed;
    var h;
    ops, h := Overtakes(n);
  }

  // ---------- never overtaken ----------

  ghost predicate SomeoneWoken(tasks: map<Caller, Task>) {
    exists c :: c in tasks && tasks[c].phase.Woken?
  }

  /** No new request starts between the posting of a wake-up and the woken request's running. */
  ghost predicate Polite(s: Chan, ops: seq<ChannelOp>) {
    forall i :: 0 <= i < |ops| && ops[i].Start? ==> !SomeoneWoken(Run(s, ops[..i]).tasks)
  }

  /** A woken request is the only one, and the turn is free for it. */
  ghost predicate WakeFindsTurn(tasks: map<Caller, Task>, turn: bool) {
    && (forall c :: c in tasks && tasks[c].phase.Woken? ==> !turn)
    && (forall c, d :: c in tasks && d in tasks && tasks[c].phase.Woken? && tasks[d].phase.Woken? ==> c == d)
  }

  lemma PoliteNext(s: Chan, ops: seq<ChannelOp>)
    requires Polite(s, ops) && ops != []
    ensures var n := |ops| - 1;
            Polite(s, ops[..n]) && (ops[n].Start? ==> !SomeoneWoken(Run(s, ops[..n]).tasks))
  {
    hide Run, SomeoneWoken;
    assert forall i :: 0 <= i < |ops| - 1 ==> ops[..|ops| - 1][..i] == ops[..i];
  }

  /** Nobody is woken but those woken before. */
  ghost predicate NoNewWake(tasks: map<Caller, Task>, tasks': map<Caller, Task>) {
    forall c :: c in tasks' && tasks'[c].phase.Woken? ==> c in tasks && tasks[c].phase.Woken?
  }

  lemma AcquireWakes(s: Chan, c: Caller, renewalDue: bool)
    requires c in s.tasks
    ensures var s' := Acquire(s, c, renewalDue);
            && s'.turn && NoNewWake(s.tasks, s'.tasks) && c in s'.tasks && !s'.tasks[c].phase.Woken?
            && (!s.turn ==> Holds(s'.tasks[c].phase))
            && s'.waiters == (if s.turn then s.waiters + [c] else s.waiters)
            && forall d :: d in s.tasks && d != c ==> d in s'.tasks && s'.tasks[d] == s.tasks[d]
  {
  }

  lemma ReleaseWakes(s: Chan, c: Caller, p: Phase)
    requires c in s.tasks && (p.Sent? || p.Done?)
    ensures var s' := Release(Put(s, c, p));
            && !s'.turn && c in s'.tasks
            && (s.waiters == [] || c != s.waiters[0] ==> s'.tasks[c].phase == p)
            && (forall d :: d in s'.tasks && s'.tasks[d].phase.Woken? ==>
                  (d in s.tasks && d != c && s.tasks[d].phase.Woken?)
                  || (s.waiters != [] && d == s.waiters[0] && s'.waiters == s.waiters[1..]))
            && (s.waiters != [] && s.waiters[0] in s.tasks ==>
                  && s'.waiters == s.waiters[1..] && s.waiters[0] in s'.tasks
                  && s'.tasks[s.waiters[0]].phase.Woken?)
            && (s.waiters == [] ==> s'.waiters == [])
            && s'.tasks.Keys == s.tasks.Keys
            && forall d :: d in s.tasks && d != c && (s.waiters == [] || d != s.waiters[0]) ==>
                 s'.tasks[d] == s.tasks[d]
  {
  }

  lemma ReceiveWakes(s: Chan, c: Caller, id: RequestId)
    requires c in s.tasks
    ensures var s' := Receive(s, c, id);
            && s'.turn == s.turn && s'.waiters == s.waiters && s'.tasks.Keys == s.tasks.Keys
            && (s'.tasks[c].phase.Done? || s'.tasks[c].phase.Awaiting?)
            && forall d :: d in s.tasks && d != c ==> s'.tasks[d] == s.tasks[d]
  {
  }

  /** How a queued request stands: 0 when woken, else its place in the queue, from 1. */
  ghost predicate Stands(s: Chan, c: Caller, rank: int) {
    && c in s.tasks
    && if rank == 0 then s.tasks[c].phase.Woken?
       else 1 <= rank <= |s.waiters| && s.waiters[rank - 1] == c && s.tasks[c].phase.Waiting?
  }

  /** The operation gives the turn back. */
  predicate Frees(s: Chan, op: ChannelOp) {
    s.turn && !Step(s, op).turn
  }

  ghost predicate Queued(s: Chan, c: Caller) {
    c in s.tasks && (s.tasks[c].phase.Waiting? || s.tasks[c].phase.Woken?)
  }

  ghost predicate Fair(s: Chan) {
    Inv(s) && WakeFindsTurn(s.tasks, s.turn)
  }

  // ---------- steps ----------

  /** The steps that have nothing to do with the turn. */
  predicate Aside(op: ChannelOp) {
    op.Ask? || op.LoopStart? || op.ReadDone? || op.Resume? || (op.RenewDone? && op.ok)
  }

  lemma AsideDelivers(s: Chan, frame: Frame, c: Caller)
    requires PendingExact(s.tasks, s.pending)
    ensures var s' := Deliver(s, frame);
            && s'.turn == s.turn && s'.waiters == s.waiters && NoNewWake(s.tasks, s'.tasks)
            && (Queued(s, c) ==> c in s'.tasks && s'.tasks[c] == s.tasks[c])
            && (Queued(s', c) ==> Queued(s, c)) && (c in s.tasks ==> c in s'.tasks)
  {
  }

  lemma AsideFails(s: Chan, c: Caller)
    ensures var s' := FailPending(s);
            && s'.turn == s.turn && s'.waiters == s.waiters && NoNewWake(s.tasks, s'.tasks)
            && (Queued(s, c) ==> c in s'.tasks && s'.tasks[c] == s.tasks[c])
            && (Queued(s', c) ==> Queued(s, c)) && (c in s.tasks ==> c in s'.tasks)
  {
  }

  lemma AsideKeeps(s: Chan, op: ChannelOp, c: Caller)
    requires Aside(op) && PendingExact(s.tasks, s.pending)
    ensures var s' := Step(s, op);
            && s'.turn == s.turn && s'.waiters == s.waiters && NoNewWake(s.tasks, s'.tasks)
            && (Queued(s, c) ==> c in s'.tasks && s'.tasks[c] == s.tasks[c])
            && (Queued(s', c) ==> Queued(s, c)) && (c in s.tasks ==> c in s'.tasks)
  {
    hide Receive, Deliver, FailPending, PendingExact, LoopHead, LoopEnd;
    if op.Ask? && op.c in s.tasks && s.tasks[op.c].phase.Sent? {
      ReceiveWakes(s, op.c, s.tasks[op.c].phase.id);
    } else if op.ReadDone? && s.reading > 0 {
      var s1 := s.(reading := s.reading - 1);
      if op.frame.Some? {
        AsideDelivers(s1, op.frame.value, c);
        LoopLeaves(Deliver(s1, op.frame.value));
      } else {
        AsideFails(s1, c);
        LoopLeaves(FailPending(s1));
      }
    } else if op.LoopStart? && s.spawned > 0 {
      LoopLeaves(s.(spawned := s.spawned - 1));
    }
  }

  lemma LoopLeaves(s: Chan)
    ensures LoopHead(s).tasks == s.tasks && LoopHead(s).turn == s.turn && LoopHead(s).waiters == s.waiters
    ensures LoopEnd(s).tasks == s.tasks && LoopEnd(s).turn == s.turn && LoopEnd(s).waiters == s.waiters
  {
  }

  /** What the end of a send or of a failed renewal leaves: the turn free, and the first in the queue
      woken. */
  lemma FreedLeaves(s: Chan, op: ChannelOp, c: Caller)
    requires Inv(s) && (op.SendDone? || (op.RenewDone? && !op.ok))
    requires op.c in s.tasks && (if op.SendDone? then s.tasks[op.c].phase.Sending? else s.tasks[op.c].phase.Renewing?)
    ensures var s' := Step(s, op);
            && s.turn && !s'.turn && s'.waiters == (if s.waiters == [] then [] else s.waiters[1..])
            && (forall d :: d in s'.tasks && s'.tasks[d].phase.Woken? ==>
                  (d in s.tasks && s.tasks[d].phase.Woken?) || (s.waiters != [] && d == s.waiters[0]))
            && (s.waiters != [] ==> s.waiters[0] in s'.tasks && s'.tasks[s.waiters[0]].phase.Woken?)
            && !Queued(s', op.c) && (c in s.tasks ==> c in s'.tasks)
            && (c in s.tasks && c != op.c && (s.waiters == [] || c != s.waiters[0]) ==>
                  c in s'.tasks && s'.tasks[c] == s.tasks[c])
  {
    hide PendingExact, IdsApart, LoopExact, WakeUps, Release, Receive;
    var h := op.c;
    HolderHasTurn(s.tasks, s.turn, h);
    if s.waiters != [] {
      FirstWaits(s.tasks, s.waiters);
    }
    hide TurnExact, QueueExact;
    var p := if op.RenewDone? then Done(None, Failed)
             else if op.ok then Sent(s.tasks[h].phase.id) else Done(Some(s.tasks[h].phase.id), Failed);
    ReleaseWakes(s, h, p);
    var s1 := Release(Put(s, h, p));
    if op.SendDone? && op.ok && !s.tasks[h].split {
      ReceiveWakes(s1, h, s.tasks[h].phase.id);
    }
  }

  lemma TakenLeaves(s: Chan, op: ChannelOp)
    requires (op.Start? && op.c !in s.tasks) || (op.Wake? && op.c in s.tasks && s.tasks[op.c].phase.Woken?)
    ensures var s' := Step(s, op);
            && s'.turn && op.c in s'.tasks && !s'.tasks[op.c].phase.Woken?
            && (!s.turn ==> Holds(s'.tasks[op.c].phase))
            && s.waiters <= s'.waiters
            && (forall d :: d in s'.tasks && s'.tasks[d].phase.Woken? ==> d in s.tasks && s.tasks[d].phase.Woken?)
            && forall d :: d in s.tasks && d != op.c ==> d in s'.tasks && s'.tasks[d] == s.tasks[d]
  {
    hide Acquire;
    if op.Start? {
      AcquireWakes(s.(tasks := s.tasks[op.c := Task(op.handle, op.split, Woken)]), op.c, op.renewalDue);
    } else {
      AcquireWakes(s, op.c, op.renewalDue);
    }
  }

  /** The step is due. */
  predicate Due(s: Chan, op: ChannelOp) {
    match op
    case Start(c, _, _, _) => c !in s.tasks
    case Wake(c, _) => c in s.tasks && s.tasks[c].phase.Woken?
    case RenewDone(c, _) => c in s.tasks && s.tasks[c].phase.Renewing?
    case SendDone(c, _) => c in s.tasks && s.tasks[c].phase.Sending?
    case _ => true
  }

  lemma NotDue(s: Chan, op: ChannelOp)
    requires !Due(s, op)
    ensures Step(s, op) == s
  {
  }

  lemma StepFair(s: Chan, op: ChannelOp)
    requires Fair(s) && (op.Start? ==> !SomeoneWoken(s.tasks))
    ensures Fair(Step(s, op))
  {
    StepKeeps(s, op);
    if !Due(s, op) {
      NotDue(s, op);
    } else if Aside(op) {
      AsideKeeps(s, op, 0);
      hide Inv, Step;
    } else if op.Start? || op.Wake? {
      TakenLeaves(s, op);
      hide Inv, Step;
    } else {
      FreedLeaves(s, op, 0);
      hide Inv, Step;
    }
  }

  /** A request that is queued after a step was so before it, or started with it. */
  lemma QueuedBefore(s: Chan, op: ChannelOp, c: Caller)
    requires Inv(s) && c in s.tasks && Queued(Step(s, op), c)
    ensures Queued(s, c)
  {
    if !Due(s, op) {
      NotDue(s, op);
    } else if Aside(op) {
      AsideKeeps(s, op, c);
    } else if op.Start? || op.Wake? {
      TakenLeaves(s, op);
      hide Inv, Step;
    } else {
      FreedLeaves(s, op, c);
      FirstQueued(s);
      hide Inv, Step;
    }
  }

  lemma FirstQueued(s: Chan)
    requires Inv(s)
    ensures s.waiters != [] ==> Queued(s, s.waiters[0])
  {
    if s.waiters != [] {
      FirstWaits(s.tasks, s.waiters);
    }
  }

  /** While a request stays queued, every step that gives the turn back brings it one place forward,
      and no step takes it back. */
  lemma StepRank(s: Chan, op: ChannelOp, c: Caller, rank: int) returns (rank': int)
    requires Fair(s) && (op.Start? ==> !SomeoneWoken(s.tasks))
    requires Stands(s, c, rank) && Queued(Step(s, op), c)
    ensures Stands(Step(s, op), c, rank') && 0 <= rank' <= rank - (if Frees(s, op) then 1 else 0)
  {
    rank' := rank;
    if !Due(s, op) {
      NotDue(s, op);
    } else if Aside(op) {
      AsideKeeps(s, op, c);
      hide Inv, Step;
    } else if op.Start? || op.Wake? {
      TakenLeaves(s, op);
      hide Inv, Step;
    } else {
      FreedLeaves(s, op, c);
      hide Inv, Step;
      rank' := rank - 1;
    }
  }

  // ---------- runs ----------

  lemma {:induction false} PoliteIsFair(ops: seq<ChannelOp>)
    requires Polite(QUIET, ops)
    ensures Fair(Run(QUIET, ops))
  {
    hide Fair, Step, Polite;
    if ops == [] {
      QuietIsFair();
    } else {
      var n := |ops| - 1;
      PoliteNext(QUIET, ops);
      PoliteIsFair(ops[..n]);
      StepFair(Run(QUIET, ops[..n]), ops[n]);
    }
  }

  lemma QuietIsFair()
    ensures Fair(QUIET)
  {
    EmptyKeeps();
    hide Inv;
  }

  /** If no new request starts between a wake-up and its running, no woken request ever misses its
      turn. */
  lemma {:induction false} NobodyMisses(ops: seq<ChannelOp>, c: Caller)
    requires Polite(QUIET, ops)
    ensures Missed(ops, c) == 0
  {
    hide Run, Polite, Inv, SomeoneWoken;
    if ops != [] {
      var n := |ops| - 1;
      PoliteNext(QUIET, ops);
      NobodyMisses(ops[..n], c);
      PoliteIsFair(ops[..n]);
    }
  }

  /** How often the turn is given back in a run from `s`. */
  function Freed(s: Chan, ops: seq<ChannelOp>): nat {
    if ops == [] then 0
    else
      var n := |ops| - 1;
      Freed(s, ops[..n]) + (if Frees(Run(s, ops[..n]), ops[n]) then 1 else 0)
  }

  lemma {:induction false} RunConcat(s: Chan, a: seq<ChannelOp>, b: seq<ChannelOp>)
    ensures Run(s, a + b) == Run(Run(s, a), b)
  {
    hide Step;
    if b == [] {
      assert a + b == a;
    } else {
      var n := |b| - 1;
      RunConcat(s, a, b[..n]);
      assert (a + b)[..|a + b| - 1] == a + b[..n];
    }
  }

  lemma {:induction false} RankFalls(s: Chan, ops: seq<ChannelOp>, c: Caller, rank: int) returns (rank': int)
    requires Fair(s) && Polite(s, ops) && rank >= 0 && Stands(s, c, rank) && Queued(Run(s, ops), c)
    ensures Fair(Run(s, ops))
    ensures Stands(Run(s, ops), c, rank') && 0 <= rank' <= rank - Freed(s, ops)
  {
    hide Fair, Step, Polite, Stands, Queued, Frees;
    if ops == [] {
      rank' := rank;
    } else {
      var n := |ops| - 1;
      PoliteNext(s, ops);
      FairRun(s, ops[..n]);
      var s1 := Run(s, ops[..n]);
      StandsQueued(s, c, rank);
      KeepsAll(s, ops[..n], c);
      FairInv(s1);
      QueuedBefore(s1, ops[n], c);
      var rank1 := RankFalls(s, ops[..n], c, rank);
      rank' := StepRank(s1, ops[n], c, rank1);
      StepFair(s1, ops[n]);
    }
  }

  lemma {:induction false} FairRun(s: Chan, ops: seq<ChannelOp>)
    requires Fair(s) && Polite(s, ops)
    ensures Fair(Run(s, ops))
  {
    hide Fair, Step, Polite;
    if ops != [] {
      PoliteNext(s, ops);
      FairRun(s, ops[..|ops| - 1]);
      StepFair(Run(s, ops[..|ops| - 1]), ops[|ops| - 1]);
    }
  }

  lemma FairInv(s: Chan)
    requires Fair(s)
    ensures Inv(s)
  {
  }

  lemma StandsQueued(s: Chan, c: Caller, rank: int)
    requires Stands(s, c, rank)
    ensures Queued(s, c) && c in s.tasks
  {
  }

  /** Requests never go away. */
  lemma {:induction false} KeepsAll(s: Chan, ops: seq<ChannelOp>, c: Caller)
    requires Fair(s) && Polite(s, ops) && c in s.tasks
    ensures c in Run(s, ops).tasks
  {
    hide Step, Fair, Polite;
    if ops != [] {
      var n := |ops| - 1;
      PoliteNext(s, ops);
      KeepsAll(s, ops[..n], c);
      FairRun(s, ops[..n]);
      FairInv(Run(s, ops[..n]));
      StepKeepsTask(Run(s, ops[..n]), ops[n], c);
    }
  }

  lemma StepKeepsTask(s: Chan, op: ChannelOp, c: Caller)
    requires Inv(s) && c in s.tasks
    ensures c in Step(s, op).tasks
  {
    hide TurnExact, QueueExact, IdsApart, LoopExact, WakeUps;
    if !Due(s, op) {
      NotDue(s, op);
    } else if Aside(op) {
      AsideKeeps(s, op, c);
      hide Step;
    } else if op.Start? || op.Wake? {
      TakenLeaves(s, op);
      hide Step;
    } else {
      FreedLeaves(s, op, c);
      hide Step;
    }
  }

  /** While no new request starts between a wake-up and its running, a request at place `p` of the
      queue gets the turn before it has been given back `p + 2` times: as long as the request is still
      queued, the turn has been given back at most `p + 1` times. */
  lemma PoliteBound(before: seq<ChannelOp>, after: seq<ChannelOp>, p: nat)
    requires Polite(QUIET, before) && Polite(Run(QUIET, before), after)
    requires p < |Run(QUIET, before).waiters|
    ensures var s := Run(QUIET, before);
            Queued(Run(QUIET, before + after), s.waiters[p]) ==> Freed(s, after) <= p + 1
  {
    hide Run, Polite, Fair, Freed;
    var s := Run(QUIET, before);
    var c := s.waiters[p];
    PoliteIsFair(before);
    FairInv(s);
    PlaceStands(s, p);
    RunConcat(QUIET, before, after);
    hide Stands, Queued;
    if Queued(Run(s, after), c) {
      var rank := RankFalls(s, after, c, p + 1);
    }
  }

  lemma PlaceStands(s: Chan, p: nat)
    requires Inv(s) && p < |s.waiters|
    ensures Stands(s, s.waiters[p], p + 1)
  {
    hide TurnExact, PendingExact, IdsApart, LoopExact;
  }
}
