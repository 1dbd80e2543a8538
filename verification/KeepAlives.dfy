/** A poll serves subscriptions with data first. Whether one without data, whose keep-alive or first
    response is due, can be passed over for ever depends on what the others can have to send. */
module KeepAlives {
  import opened Common
  import opened PendingQueue
  import Retransmission
  import opened Bindings
  import opened Subscription
  import opened SubscriptionTheorems
  import opened Rotation
  import opened Session
  import opened SessionRuns
  import SubscriptionRuns
  import Crowding
  import Starvation

  type Time = Retransmission.Time

  // ---------- being passed over ----------

  /** The time of the last poll, or `from` before the first one. */
  function Latest(ops: seq<SessionOp>, from: Time): Time {
    if ops == [] then from
    else if ops[|ops| - 1].PollAt? then ops[|ops| - 1].now
    else Latest(ops[..|ops| - 1], from)
  }

  /** A poll at which `x` is ready serves another; or another subscription receives a report or an
      acknowledgement. */
  ghost predicate Waits(s: Session, op: SessionOp, x: SubId, since: Time)
    requires Valid(s)
  {
    match op
    case PollAt(now) =>
      && now >= since && x in ReadySet(s.subs, now, false)
      && !(Poll(s, now).1.Served? && Poll(s, now).1.subscription == x)
    case Touch(id, o) => id != x && Starvation.Quiet(o) && !o.Publish?
    case _ => false
  }

  ghost predicate PassedOver(s: Session, ops: seq<SessionOp>, x: SubId, from: Time)
    requires Valid(s)
  {
    ops != [] ==>
      var n := |ops| - 1;
      PassedOver(s, ops[..n], x, from) && Waits(DoAll(s, ops[..n]), ops[n], x, Latest(ops[..n], from))
  }

  /** `x` can be passed over by `n` polls, at times that never go back. */
  ghost predicate CanWait(s: Session, x: SubId, n: nat, from: Time)
    requires Valid(s)
  {
    exists ops :: PassedOver(s, ops, x, from) && Polls(ops) == n
  }

  /** Some item of the subscription reports. */
  ghost predicate Reports(sub: Sub) {
    exists j :: j in sub.table.items && sub.table.items[j].mode == Reporting
  }

  /** The subscription never runs out of entries: its items report, or it is disabled and so never
      sends the ones it has. */
  ghost predicate NeverEmpty(sub: Sub) {
    Reports(sub) || (!sub.params.enabled && sub.pending != [])
  }

  /** Every subscription's clock runs and its handles are in order, as in every run. */
  ghost predicate Steady(s: Session) {
    Valid(s) && Clocked(s) && forall id :: id in s.subs ==> Handles(s.subs[id].table)
  }

  lemma Extend(s: Session, ops: seq<SessionOp>, op: SessionOp, x: SubId, from: Time)
    requires Valid(s) && PassedOver(s, ops, x, from) && Waits(DoAll(s, ops), op, x, Latest(ops, from))
    ensures PassedOver(s, ops + [op], x, from) && DoAll(s, ops + [op]) == Do(DoAll(s, ops), op)
    ensures Polls(ops + [op]) == Polls(ops) + (if op.PollAt? then 1 else 0)
    ensures op.PollAt? ==> Latest(ops + [op], from) == op.now
    ensures !op.PollAt? ==> Latest(ops + [op], from) == Latest(ops, from)
  {
    hide Valid, Do, Waits;
    assert (ops + [op])[..|ops|] == ops;
  }

  lemma PassedOverNext(s: Session, ops: seq<SessionOp>, x: SubId, from: Time)
    requires Valid(s) && PassedOver(s, ops, x, from) && ops != []
    ensures var n := |ops| - 1;
            && PassedOver(s, ops[..n], x, from)
            && Waits(DoAll(s, ops[..n]), ops[n], x, Latest(ops[..n], from))
            && DoAll(s, ops) == Do(DoAll(s, ops[..n]), ops[n])
            && Polls(ops) == Polls(ops[..n]) + (if ops[n].PollAt? then 1 else 0)
  {
    hide Valid, Do, Waits;
  }

  // ---------- the polls that pass it over are bounded ----------

  /** How many entries the subscriptions other than `x` have waiting. */
  function OthersPending(subs: map<SubId, Sub>, order: seq<SubId>, x: SubId): nat {
    if order == [] then 0
    else
      var n := |order| - 1;
      OthersPending(subs, order[..n], x)
      + (if order[n] in subs && order[n] != x then |subs[order[n]].pending| else 0)
  }

  lemma {:induction false} PendingSame(subs: map<SubId, Sub>, subs': map<SubId, Sub>, order: seq<SubId>, x: SubId)
    requires subs'.Keys == subs.Keys && forall id :: id in subs && id != x ==> |subs'[id].pending| == |subs[id].pending|
    ensures OthersPending(subs', order, x) == OthersPending(subs, order, x)
  {
    if order != [] {
      PendingSame(subs, subs', order[..|order| - 1], x);
    }
  }

  lemma {:induction false} PendingFalls(subs: map<SubId, Sub>, z: SubId, sub: Sub, order: seq<SubId>, x: SubId)
    requires z in subs && z != x && |sub.pending| < |subs[z].pending|
    ensures OthersPending(subs[z := sub], order, x) <= OthersPending(subs, order, x)
    ensures z in order ==> OthersPending(subs[z := sub], order, x) < OthersPending(subs, order, x)
  {
    if order != [] {
      PendingFalls(subs, z, sub, order[..|order| - 1], x);
      assert order == order[..|order| - 1] + [order[|order| - 1]];
    }
  }

  /** No subscription but `x` has more to send than it has waiting now, and so much is left: entries of
      the others, and turns ahead of `x` after the last of them. */
  ghost predicate Left(s: Session, x: SubId, left: int) {
    && Valid(s) && Clocked(s) && x in s.rota.order && x in s.subs && s.subs[x].pending == []
    && (forall y :: y in s.subs && y != x ==> !NeverEmpty(s.subs[y]))
    && |s.rota.order| * OthersPending(s.subs, s.rota.order, x) + Ahead(s.rota, x) <= left
  }

  lemma QuietSub(sub: Sub, o: Op)
    requires Starvation.Quiet(o) && !o.Publish? && !Reports(sub)
    ensures var sub' := Step(sub, o);
            sub'.pending == sub.pending && !Reports(sub') && sub'.params == sub.params
            && sub'.lastPublish == sub.lastPublish
  {
    Starvation.QuietQueues(sub, o);
    Starvation.QuietKeeps(sub, o);
    QuietClock(sub, o);
    hide Step, Queues;
  }

  lemma QuietClock(sub: Sub, o: Op)
    requires Starvation.Quiet(o) && !o.Publish?
    ensures Step(sub, o).lastPublish == sub.lastPublish
  {
    hide Push, Queues;
  }

  lemma TouchLeft(s: Session, id: SubId, o: Op, x: SubId, left: int)
    requires Left(s, x, left) && id != x && Starvation.Quiet(o) && !o.Publish?
    ensures Left(Do(s, Touch(id, o)), x, left)
  {
    if id in s.subs {
      QuietSub(s.subs[id], o);
      var s' := Do(s, Touch(id, o));
      hide Step, Starvation.Quiet, Valid, Ahead, Reports;
      assert s'.subs == s.subs[id := Step(s.subs[id], o)] && s'.rota == s.rota;
      PendingSame(s.subs, s'.subs, s.rota.order, x);
    }
  }

  lemma Less(a: nat, b: nat, n: nat, h: nat)
    requires b < a && h < n
    ensures n * b + h < n * a
  {
    assert n * (b + 1) == n * b + n;
    Monotone(n, b + 1, a);
  }

  /** A subscription with data that it may send sends some; one without keeps none. */
  lemma PublishTakes(sub: Sub, now: Time)
    requires IsPublishReady(sub, now) && !NeverEmpty(sub)
    ensures var sub' := TryPublish(sub, now).0;
            && !NeverEmpty(sub')
            && (if sub.pending == [] then sub'.pending == [] else |sub'.pending| < |sub.pending|)
  {
    Starvation.PublishTakes(sub, now);
    Starvation.PublishKeepsTable(sub, now);
    TryPublishStamps(sub, now);
    PublishIsStep(sub, now);
    hide Step, TryPublish;
  }

  lemma PublishIsStep(sub: Sub, now: Time)
    ensures Step(sub, Publish(now)) == TryPublish(sub, now).0
    ensures sub.lastPublish.Some? ==> Prime(sub, now) == sub
    ensures IsPublishReady(sub, now) ==> sub.lastPublish.Some?
  {
    hide TryPublish;
  }

  /** A poll that passes `x` over takes an entry from another subscription or brings the turn of `x`
      closer. */
  lemma PollLeft(s: Session, now: Time, x: SubId, left: int)
    requires Left(s, x, left) && x in ReadySet(s.subs, now, false)
    requires !(Poll(s, now).1.Served? && Poll(s, now).1.subscription == x)
    ensures Left(Poll(s, now).0, x, left - 1)
  {
    ChooseExact(s, now);
    var i := Choose(s, now).value;
    PollServes(s, now, i);
    var z := s.rota.order[i];
    var sub := TryPublish(s.subs[z], now).0;
    PublishTakes(s.subs[z], now);
    hide TryPublish, IsPublishReady, Poll, Valid, Clocked, NeverEmpty;
    var rota := Advance(s.rota, i);
    assert Poll(s, now).0 == Session(s.subs[z := sub], rota);
    assert z in s.rota.order && z != x && s.subs[z := sub].Keys == s.subs.Keys;
    if s.subs[z].pending != [] {
      PendingFalls(s.subs, z, sub, s.rota.order, x);
      Less(OthersPending(s.subs, s.rota.order, x), OthersPending(s.subs[z := sub], s.rota.order, x),
        |s.rota.order|, Ahead(rota, x));
    } else {
      NoDataReady(s, now, x, i);
      PendingSame(s.subs, s.subs[z := sub], s.rota.order, x);
    }
  }

  /** A poll that serves a subscription without data found none with data ready. */
  lemma NoDataReady(s: Session, now: Time, x: SubId, i: nat)
    requires Valid(s) && Choose(s, now) == Some(i) && s.subs[s.rota.order[i]].pending == []
    requires x in s.rota.order && x in ReadySet(s.subs, now, false) && s.rota.order[i] != x
    ensures Ahead(Advance(s.rota, i), x) < Ahead(s.rota, x)
  {
    assert Next(s.rota, ReadySet(s.subs, now, true)).None?;
    TurnApproaches(s.rota, ReadySet(s.subs, now, false), x);
  }

  lemma {:induction false} LeftFalls(s: Session, ops: seq<SessionOp>, x: SubId, from: Time, left: int)
    requires Valid(s) && Left(s, x, left) && PassedOver(s, ops, x, from)
    ensures Left(DoAll(s, ops), x, left - Polls(ops))
  {
    hide PassedOver, Left, Valid, DoAll, Polls, Do, Waits;
    if ops == [] {
      NothingDone(s, x, from);
    } else {
      var n := |ops| - 1;
      PassedOverNext(s, ops, x, from);
      LeftFalls(s, ops[..n], x, from, left);
      var s1 := DoAll(s, ops[..n]);
      LeftValid(s1, x, left - Polls(ops[..n]));
      StepLeft(s1, ops[n], x, Latest(ops[..n], from), left - Polls(ops[..n]));
    }
  }

  lemma NothingDone(s: Session, x: SubId, from: Time)
    requires Valid(s)
    ensures DoAll(s, []) == s && Polls([]) == 0 && PassedOver(s, [], x, from)
  {
  }

  lemma LeftValid(s: Session, x: SubId, left: int)
    requires Left(s, x, left)
    ensures Valid(s) && left >= 0
  {
    hide OthersPending, NeverEmpty, Valid, Clocked;
    Monotone(|s.rota.order|, 0, OthersPending(s.subs, s.rota.order, x));
  }

  lemma StepLeft(s: Session, op: SessionOp, x: SubId, since: Time, left: int)
    requires Valid(s) && Left(s, x, left) && Waits(s, op, x, since)
    ensures Left(Do(s, op), x, left - (if op.PollAt? then 1 else 0))
  {
    hide Left, Valid, Poll, ReadySet;
    if op.PollAt? {
      PollLeft(s, op.now, x, left);
    } else {
      TouchLeft(s, op.id, op.step, x, left);
    }
  }

  // ---------- passing it over again and again ----------

  /** What makes `y` ready again, if it needs that: a report. */
  lemma ReportKeeps(sub: Sub) returns (o: Op)
    requires Handles(sub.table) && Reports(sub)
    ensures Starvation.Quiet(o) && !o.Publish?
    ensures var sub' := Step(sub, o);
            && sub'.pending != [] && Reports(sub') && Handles(sub'.table)
            && sub'.params == sub.params && sub'.lastPublish == sub.lastPublish
  {
    var j :| j in sub.table.items && sub.table.items[j].mode == Reporting;
    var item := sub.table.items[j];
    o := Notify(item.handle, Crowding.ReportOf(item), true);
    Starvation.ReportQueues(sub, j);
    PushLeaves(sub.pending, Crowding.EntryFor(sub.table.items, j), item.params);
    hide Step, Handles, Push;
  }

  lemma PushLeaves(q: seq<Entry>, e: Entry, p: ItemParams)
    ensures Push(q, e, p) != []
  {
    if q == [] {
      CountAppend(q, e, e.source);
    }
  }

  /** The deadline of a subscription that does not change stays passed. */
  function Deadline(sub: Sub): Time {
    if NextPublishDeadline(sub).Some? then NextPublishDeadline(sub).value else 0
  }

  lemma ReadyFrom(sub: Sub, now: Time)
    requires sub.lastPublish.Some? && now >= Deadline(sub)
    ensures IsPublishReady(sub, now)
  {
    ReadyExactlyAtDeadline(sub, now);
  }

  ghost predicate Kept(s: Session, x: SubId, y: SubId) {
    && Steady(s) && x in s.subs && y in s.subs && x != y
    && s.subs[x].pending == [] && NeverEmpty(s.subs[y])
  }

  /** A publish leaves a subscription as full as it was, as far as that lasts. */
  lemma PublishKeeps(sub: Sub, now: Time)
    requires NeverEmpty(sub) && Handles(sub.table)
    ensures var sub' := TryPublish(sub, now).0;
            NeverEmpty(sub') && Handles(sub'.table)
  {
    Starvation.PublishTakes(sub, now);
    Starvation.PublishKeepsTable(sub, now);
    TryPublishStamps(sub, now);
    PublishIsStep(sub, now);
    DisabledKeeps(sub, now);
    hide Step, TryPublish, Handles;
  }

  lemma DisabledKeeps(sub: Sub, now: Time)
    ensures !sub.params.enabled ==> !SubscriptionRuns.CarriesData(sub, now)
  {
  }

  /** A poll with `y` ready with data, when `x` is ready without, serves another than `x`. */
  lemma PollServesOther(s: Session, x: SubId, y: SubId, now: Time)
    requires Kept(s, x, y) && y in ReadySet(s.subs, now, true)
    ensures Poll(s, now).1.Served? && Poll(s, now).1.subscription != x
    ensures Kept(Poll(s, now).0, x, y)
  {
    assert y in Elements(s.rota.order);
    TurnApproaches(s.rota, ReadySet(s.subs, now, true), y);
    var i := Choose(s, now).value;
    var z := s.rota.order[i];
    assert z in ReadySet(s.subs, now, true);
    PollServes(s, now, i);
    ServedHandles(s.subs[z], now);
    if z == y {
      PublishKeeps(s.subs[y], now);
    }
    hide Poll, TryPublish, Valid, Clocked, Handles, NeverEmpty, IsPublishReady;
  }

  lemma ServedHandles(sub: Sub, now: Time)
    requires Handles(sub.table)
    ensures Handles(TryPublish(sub, now).0.table)
  {
    Starvation.PublishKeepsTable(sub, now);
    PublishIsStep(sub, now);
  }

  lemma TouchKept(s: Session, x: SubId, y: SubId, o: Op)
    requires Kept(s, x, y)
    requires var sub := Step(s.subs[y], o);
             NeverEmpty(sub) && Handles(sub.table) && sub.lastPublish.Some?
    ensures Kept(Do(s, Touch(y, o)), x, y)
  {
    hide Step, Handles, NeverEmpty, Valid;
    var s' := Do(s, Touch(y, o));
    assert s'.subs == s.subs[y := Step(s.subs[y], o)];
  }

  /** For every number of polls there is a run in which all of them pass `x` over. */
  lemma {:induction false} WaitsForever(s: Session, x: SubId, y: SubId, n: nat, from: Time)
    returns (ops: seq<SessionOp>)
    requires Kept(s, x, y)
    ensures PassedOver(s, ops, x, from) && Polls(ops) == n && Kept(DoAll(s, ops), x, y)
  {
    hide PassedOver, Polls, DoAll, Kept;
    KeptSteady(s, x, y);
    if n == 0 {
      ops := [];
      NothingDone(s, x, from);
    } else {
      ops := WaitsForever(s, x, y, n - 1, from);
      ops := OneMore(s, x, y, ops, from);
    }
  }

  lemma KeptSteady(s: Session, x: SubId, y: SubId)
    requires Kept(s, x, y)
    ensures Steady(s)
  {
  }

  lemma OneMore(s: Session, x: SubId, y: SubId, ops: seq<SessionOp>, from: Time) returns (ops': seq<SessionOp>)
    requires Valid(s) && PassedOver(s, ops, x, from) && Kept(DoAll(s, ops), x, y)
    ensures PassedOver(s, ops', x, from) && Polls(ops') == Polls(ops) + 1 && Kept(DoAll(s, ops'), x, y)
  {
    hide PassedOver, Polls, DoAll, Valid, Handles, Latest, Poll, Do, Step, IsPublishReady, Clocked;
    ops' := ops;
    var s1 := DoAll(s, ops);
    if Reports(s1.subs[y]) {
      var o := ReportKeeps(s1.subs[y]);
      ClockOf(s1, y);
      TouchKept(s1, x, y, o);
      TouchWaits(s1, y, o, x, Latest(ops, from));
      Extend(s, ops, Touch(y, o), x, from);
      ops' := ops + [Touch(y, o)];
      TouchedIs(s1, y, o);
    }
    var s2 := DoAll(s, ops');
    var now := Max(Latest(ops', from), Max(Deadline(s2.subs[x]), Deadline(s2.subs[y])));
    ClockOf(s2, x);
    ClockOf(s2, y);
    ReadyFrom(s2.subs[x], now);
    ReadyFrom(s2.subs[y], now);
    PollServesOther(s2, x, y, now);
    PollWaitsAgain(s2, x, now, Latest(ops', from));
    Extend(s, ops', PollAt(now), x, from);
    ops' := ops' + [PollAt(now)];
    PolledIs(s2, now);
  }

  lemma ClockOf(s: Session, y: SubId)
    requires Steady(s) && y in s.subs
    ensures s.subs[y].lastPublish.Some? && Valid(s)
  {
  }

  lemma TouchedIs(s: Session, y: SubId, o: Op)
    requires Valid(s) && y in s.subs
    ensures Do(s, Touch(y, o)).subs == s.subs[y := Step(s.subs[y], o)]
  {
    hide Step;
  }

  lemma PolledIs(s: Session, now: Time)
    requires Valid(s)
    ensures Do(s, PollAt(now)) == Poll(s, now).0
  {
    hide Poll;
  }

  lemma TouchWaits(s: Session, y: SubId, o: Op, x: SubId, since: Time)
    requires Valid(s) && y != x && Starvation.Quiet(o) && !o.Publish?
    ensures Waits(s, Touch(y, o), x, since)
  {
  }

  lemma PollWaitsAgain(s: Session, x: SubId, now: Time, since: Time)
    requires Valid(s) && now >= since && x in s.subs && IsPublishReady(s.subs[x], now)
    requires Poll(s, now).1.Served? && Poll(s, now).1.subscription != x
    ensures Waits(s, PollAt(now), x, since)
  {
    hide Poll, IsPublishReady;
  }

  // ---------- exactly when ----------

  /** A subscription without data can be passed over by any number of polls, though its keep-alive or
      first response is due at each of them, if and only if another subscription has an item that
      reports, or is disabled with entries waiting. */
  lemma WaitsExactly(s: Session, x: SubId, from: Time)
    requires Steady(s) && x in s.subs && s.subs[x].pending == []
    ensures (forall n: nat :: CanWait(s, x, n, from))
            <==> exists y :: y in s.subs && y != x && NeverEmpty(s.subs[y])
  {
    hide PassedOver, Polls, NeverEmpty, Handles, Valid, DoAll, Clocked;
    if y :| y in s.subs && y != x && NeverEmpty(s.subs[y]) {
      forall n: nat
        ensures CanWait(s, x, n, from)
      {
        var ops := WaitsForever(s, x, y, n, from);
      }
    } else {
      InOrder(s, x);
      var left := |s.rota.order| * OthersPending(s.subs, s.rota.order, x) + Ahead(s.rota, x);
      LeftValid(s, x, left);
      if CanWait(s, x, left + 1, from) {
        var ops :| PassedOver(s, ops, x, from) && Polls(ops) == left + 1;
        LeftFalls(s, ops, x, from, left);
        LeftValid(DoAll(s, ops), x, left - Polls(ops));
      }
      assert !CanWait(s, x, left + 1, from);
    }
  }

  lemma InOrder(s: Session, x: SubId)
    requires Valid(s) && x in s.subs
    ensures x in s.rota.order && s.rota.cursor < |s.rota.order|
  {
    assert x in Elements(s.rota.order);
  }
}
