/** Fairness of the publish rotation over whole runs of a session. */
module SessionRuns {
  import opened Common
  import opened Retransmission
  import opened Subscription
  import opened SubscriptionTheorems
  import opened Rotation
  import opened Session

  datatype SessionOp =
    | PollAt(now: Time)
    | Join(id: SubId, sub: Sub)          // created here or transferred in
    | Leave(id: SubId)                   // deleted or transferred away
    | Touch(id: SubId, step: Op)         // anything that happens to one subscription

  lemma PollValid(s: Session, now: Time)
    requires Valid(s)
    ensures Valid(Poll(s, now).0)
  {
    var i := Choose(s, now);
    if i.Some? {
      AdvanceKeeps(s.rota, i.value);
      var id := s.rota.order[i.value];
      assert s.subs[id := TryPublish(s.subs[id], now).0].Keys == s.subs.Keys;
      hide TryPublish;
    } else {
      assert PrimeAll(s.subs, now).Keys == s.subs.Keys;
    }
  }

  ghost function Do(s: Session, op: SessionOp): (s': Session)
    requires Valid(s)
    ensures Valid(s')
  {
    match op
    case PollAt(now) => PollValid(s, now); Poll(s, now).0
    case Join(id, sub) => if id in s.subs then s else AddValid(s, id, sub); Add(s, id, sub)
    case Leave(id) => DropValid(s, id); Drop(s, id)
    case Touch(id, o) =>
      if id !in s.subs then s
      else
        var subs := s.subs[id := Step(s.subs[id], o)];
        assert subs.Keys == s.subs.Keys;
        s.(subs := subs)
  }

  ghost function DoAll(s: Session, ops: seq<SessionOp>): (s': Session)
    requires Valid(s)
    ensures Valid(s')
  {
    if ops == [] then s else Do(DoAll(s, ops[..|ops| - 1]), ops[|ops| - 1])
  }

  function Polls(ops: seq<SessionOp>): nat {
    if ops == [] then 0 else Polls(ops[..|ops| - 1]) + (if ops[|ops| - 1].PollAt? then 1 else 0)
  }

  function Joins(ops: seq<SessionOp>): nat {
    if ops == [] then 0 else Joins(ops[..|ops| - 1]) + (if ops[|ops| - 1].Join? then 1 else 0)
  }

  /** The operation leaves `x` in the session, and a poll finds it ready with data but serves
      another. */
  ghost predicate PassesOver(s: Session, op: SessionOp, x: SubId)
    requires Valid(s)
  {
    match op
    case PollAt(now) =>
      x in ReadySet(s.subs, now, true)
      && !(Poll(s, now).1.Served? && Poll(s, now).1.subscription == x)
    case Leave(id) => id != x
    case _ => true
  }

  ghost predicate Bypassed(s: Session, ops: seq<SessionOp>, x: SubId)
    requires Valid(s)
  {
    ops != [] ==>
      var n := |ops| - 1;
      Bypassed(s, ops[..n], x) && PassesOver(DoAll(s, ops[..n]), ops[n], x)
  }

  lemma BypassApproaches(s: Session, op: SessionOp, x: SubId)
    requires Valid(s) && x in s.subs && PassesOver(s, op, x)
    ensures var s' := Do(s, op);
            && x in s'.subs && x in s'.rota.order && x in s.rota.order
            && Ahead(s'.rota, x) <= Ahead(s.rota, x)
                 - (if op.PollAt? then 1 else 0) + (if op.Join? then 1 else 0)
  {
    assert x in Elements(s.rota.order);
    match op {
      case PollAt(now) => PollApproaches(s, now, x);
      case Join(id, sub) =>
        if id !in s.subs {
          assert id !in Elements(s.rota.order);
          AppendDelays(s.rota, id, x);
        }
      case Leave(id) => EraseApproaches(s.rota, id, x);
      case Touch(id, o) => hide Step;
    }
  }

  lemma PollApproaches(s: Session, now: Time, x: SubId)
    requires Valid(s) && x in s.rota.order && x in ReadySet(s.subs, now, true)
    requires !(Poll(s, now).1.Served? && Poll(s, now).1.subscription == x)
    ensures var s' := Poll(s, now).0;
            x in s'.subs && x in s'.rota.order && s'.rota.cursor < |s'.rota.order|
            && Ahead(s'.rota, x) < Ahead(s.rota, x)
  {
    TurnApproaches(s.rota, ReadySet(s.subs, now, true), x);
    var i := Choose(s, now).value;
    var id := s.rota.order[i];
    assert id in ReadySet(s.subs, now, true);
    ReadyExactlyAtDeadline(s.subs[id], now);
    hide TryPublish, IsPublishReady, Rotation.Ahead, Next;
  }

  /** Bounded bypass: while a subscription stays ready with data, the polls that serve others are
      at most the turns that were ahead of it, plus one for each subscription that joins meanwhile. */
  lemma {:induction false} BoundedBypass(s: Session, ops: seq<SessionOp>, x: SubId)
    requires Valid(s) && x in s.subs && Bypassed(s, ops, x)
    ensures var s' := DoAll(s, ops);
            && x in s'.subs && x in s.rota.order && x in s'.rota.order
            && Ahead(s'.rota, x) + Polls(ops) <= Ahead(s.rota, x) + Joins(ops)
  {
    assert x in Elements(s.rota.order);
    if ops != [] {
      var n := |ops| - 1;
      BoundedBypass(s, ops[..n], x);
      BypassApproaches(DoAll(s, ops[..n]), ops[n], x);
      hide Valid, Do, Rotation.Ahead, PassesOver;
    }
  }
}
