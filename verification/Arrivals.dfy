/** What the notifications of a subscription say: every entry queued is what arrived for an item in that
    step of the run, read off the item's fields, and every arrival is queued. */
module Arrivals {
  import opened Common
  import opened PendingQueue
  import opened Retransmission
  import opened Bindings
  import opened Subscription
  import opened SubscriptionRuns
  import opened SubscriptionTheorems

  // ---------- one step ----------

  /** The status of an item is notified: an event item's under no handle, a value item's under its client
      handle if it reports and the deadband passes. */
  predicate Notifies(item: Item, status: Status, passes: bool, data: Data) {
    if item.attribute == EventNotifier then data == StatusChange(status)
    else item.mode == Reporting && passes && data == StatusValue(item.params.clientHandle, status)
  }

  /** Entry `e` arrives with the operation: a reported value or event of a reporting item under the handle
      the item is bound under, or the status of an item whose bind has failed or whose backing
      subscription has. */
  predicate Arrives(b: Table, op: Op, e: Entry) {
    e.source in b.items &&
    var item := b.items[e.source];
    match op
    case Notify(h, report, passes) =>
      && item.handle == h && item.mode == Reporting
      && (match report
          case Change(v) => passes && e.data == DataChange(item.params.clientHandle, v)
          case Event(f) => e.data == EventFields(item.params.clientHandle, f))
    case BindResult(h, status, _, passes) =>
      && h in b.binds && b.binds[h] == e.source && item.handle == h
      && status != Good && Notifies(item, status, passes, e.data)
    case ItemError(id, status, passes) => id == e.source && Notifies(item, status, passes, e.data)
    case _ => false
  }

  ghost predicate Something(b: Table, op: Op) {
    exists e :: Arrives(b, op, e)
  }

  /** An operation queues exactly what arrives with it. */
  lemma QueuesArrived(b: Table, op: Op, e: Entry)
    requires Handles(b)
    ensures Queues(b, op) == Some(e) <==> Arrives(b, op, e)
  {
    if op.Notify? {
      HolderIs(b, op.handle, e.source);
    }
    hide Handles, Holder;
  }

  lemma HolderIs(b: Table, h: Handle, id: ItemId)
    requires Handles(b)
    ensures Holder(b, h) == Some(id) <==> id in b.items && b.items[id].handle == h
  {
    if Bound(b, h, id) {
      assert Live(b, h);
    }
  }

  /** In particular a report under a live item's handle is queued, under the item's client handle and as
      reported, if and only if the item reports and, for a value, the deadband passes. */
  lemma ReportQueued(id: nat, p: Params, now: Time, ops: seq<Op>, item: ItemId, report: Report, passes: bool)
    requires item in Run(Initial(id, p, now), ops).table.items
    ensures var b := Run(Initial(id, p, now), ops).table;
            var i := b.items[item];
            Queues(b, Notify(i.handle, report, passes))
            == if i.mode == Reporting && (report.Change? ==> passes)
               then Some(Entry(item, match report
                                     case Change(v) => DataChange(i.params.clientHandle, v)
                                     case Event(f) => EventFields(i.params.clientHandle, f)))
               else None
  {
    var s := Run(Initial(id, p, now), ops);
    InvHandles(s, History(id, p, now, ops));
    hide Run, Handles, Queues;
    var i := s.table.items[item];
    var op := Notify(i.handle, report, passes);
    var data := match report
                case Change(v) => DataChange(i.params.clientHandle, v)
                case Event(f) => EventFields(i.params.clientHandle, f);
    QueuesArrived(s.table, op, Entry(item, data));
    var e := Queues(s.table, op);
    if e.Some? {
      QueuesArrived(s.table, op, e.value);
      OneHolder(s.table, item, e.value.source);
    }
  }

  lemma OneHolder(b: Table, i: ItemId, j: ItemId)
    requires Handles(b) && i in b.items && j in b.items && b.items[i].handle == b.items[j].handle
    ensures i == j
  {
  }

  // ---------- runs ----------

  /** The steps of a run with which something arrives. */
  ghost function ArrivalSteps(s: Sub, ops: seq<Op>): seq<nat> {
    if ops == [] then []
    else
      var n := |ops| - 1;
      ArrivalSteps(s, ops[..n])
      + (if Something(Run(s, ops[..n]).table, ops[n]) then [n] else [])
  }

  /** The k-th entry arrived with the step `steps[k]`, the steps are in order, and with no other step did
      anything arrive. */
  ghost predicate Arrived(s: Sub, ops: seq<Op>, entries: seq<Entry>, steps: seq<nat>) {
    && |steps| == |entries|
    && (forall k :: 0 <= k < |steps| ==> steps[k] < |ops|)
    && (forall j, k :: 0 <= j < k < |steps| ==> steps[j] < steps[k])
    && (forall k :: 0 <= k < |steps| ==>
          Arrives(Run(s, ops[..steps[k]]).table, ops[steps[k]], entries[k]))
    && (forall i, e :: 0 <= i < |ops| && Arrives(Run(s, ops[..i]).table, ops[i], e) ==> i in steps)
  }

  /** What a run queues is what arrives with its steps, in order: each entry once, and nothing else. */
  lemma {:induction false} QueuedArrived(id: nat, p: Params, now: Time, ops: seq<Op>)
    ensures var s := Initial(id, p, now);
            Arrived(s, ops, Enqueued(s, ops), ArrivalSteps(s, ops))
  {
    hide Run, Arrives, Arrived, Something, Queues, Initial, Handles, Inv;
    var s := Initial(id, p, now);
    if ops == [] {
      NothingArrived(s);
    } else {
      var n := |ops| - 1;
      QueuedArrived(id, p, now, ops[..n]);
      InvHandles(Run(s, ops[..n]), History(id, p, now, ops[..n]));
      QueuesArrives(Run(s, ops[..n]).table, ops[n]);
      var e := Queues(Run(s, ops[..n]).table, ops[n]);
      ArrivedNext(s, ops, Enqueued(s, ops[..n]), ArrivalSteps(s, ops[..n]), e);
    }
  }

  lemma NothingArrived(s: Sub)
    ensures Arrived(s, [], [], [])
  {
  }

  lemma QueuesArrives(b: Table, op: Op)
    requires Handles(b)
    ensures Queues(b, op).Some? <==> Something(b, op)
    ensures Queues(b, op).Some? ==> Arrives(b, op, Queues(b, op).value)
  {
    hide Arrives, Queues, Handles;
    forall e
      ensures Queues(b, op) == Some(e) <==> Arrives(b, op, e)
    {
      QueuesArrived(b, op, e);
    }
    if Queues(b, op).Some? {
      assert Arrives(b, op, Queues(b, op).value);
    }
  }

  lemma ArrivedNext(s: Sub, ops: seq<Op>, entries: seq<Entry>, steps: seq<nat>, e: Option<Entry>)
    requires ops != [] && Arrived(s, ops[..|ops| - 1], entries, steps)
    requires var n := |ops| - 1;
             && (e.Some? <==> Something(Run(s, ops[..n]).table, ops[n]))
             && (e.Some? ==> Arrives(Run(s, ops[..n]).table, ops[n], e.value))
    ensures var n := |ops| - 1;
            Arrived(s, ops, entries + (if e.Some? then [e.value] else []), steps + (if e.Some? then [n] else []))
  {
    hide Run, Arrives;
    var n := |ops| - 1;
    var before := ops[..n];
    assert forall i :: 0 <= i < n ==> before[..i] == ops[..i];
    var entries', steps' := entries + (if e.Some? then [e.value] else []), steps + (if e.Some? then [n] else []);
    forall k | 0 <= k < |steps'|
      ensures Arrives(Run(s, ops[..steps'[k]]).table, ops[steps'[k]], entries'[k])
    {
      if k < |steps| {
        assert Arrives(Run(s, before[..steps[k]]).table, before[steps[k]], entries[k]);
      }
    }
    forall i, x | 0 <= i < |ops| && Arrives(Run(s, ops[..i]).table, ops[i], x)
      ensures i in steps'
    {
      if i < n {
        assert Arrives(Run(s, before[..i]).table, before[i], x);
      } else {
        assert i == n && Something(Run(s, ops[..n]).table, ops[n]);
        assert steps'[|steps|] == n;
      }
    }
  }

  /** So what is delivered arrived: the i-th datum the publishes of a run carry arrived, as it is, with a
      step of the run, and in that order. Nothing that arrived is lost but for the entries dropped. */
  lemma DeliveredArrived(id: nat, p: Params, now: Time, ops: seq<Op>)
    ensures var s, b := Initial(id, p, now), History(id, p, now, ops).book;
            var delivered, steps, entries := Flatten(Sends(s, ops)), ArrivalSteps(s, ops), Enqueued(s, ops);
            && Arrived(s, ops, entries, steps)
            && |b.done| == |delivered|
            && (forall i :: 0 <= i < |delivered| ==>
                  && 0 <= b.done[i] < |steps|
                  && delivered[i] == entries[b.done[i]].data)
            && (forall i, j :: 0 <= i < j < |delivered| ==> steps[b.done[i]] < steps[b.done[j]])
            && (forall k :: 0 <= k < |steps| ==> k in b.done || k in b.waiting || k in b.dropped)
  {
    hide Run, Arrives, Queues, Inv, History, Flatten, Sends, Enqueued, ArrivalSteps;
    QueuedArrived(id, p, now, ops);
    NotificationsConserved(id, p, now, ops);
  }
}
