/** The guarantees of a server subscription, stated over every run. */
module SubscriptionTheorems {
  import opened Common
  import opened PendingQueue
  import opened Retransmission
  import opened Bindings
  import opened Subscription
  import opened SubscriptionRuns

  // ---------- notifications ----------

  /** Everything the run queued is delivered, waiting or dropped, and only one of these. What the
      publishes were answered with, and then what waits, is what was queued, in the order it was
      queued. */
  lemma NotificationsConserved(id: nat, p: Params, now: Time, ops: seq<Op>)
    ensures var s, b := Run(Initial(id, p, now), ops), History(id, p, now, ops).book;
            var queued, delivered := Enqueued(Initial(id, p, now), ops), Flatten(Sends(Initial(id, p, now), ops));
            && b.queued == queued
            && (forall k :: 0 <= k < |queued| ==>
                  && ((k in b.done || k in b.waiting) <==> k !in b.dropped)
                  && !(k in b.done && k in b.waiting))
            && Increasing(b.done) && Increasing(b.waiting)
            && (forall i, j :: 0 <= i < |b.done| && 0 <= j < |b.waiting| ==> b.done[i] < b.waiting[j])
            && |b.done| == |delivered| && |b.waiting| == |s.pending|
            && (forall i :: 0 <= i < |b.done| ==>
                  0 <= b.done[i] < |queued| && delivered[i] == queued[b.done[i]].data)
            && (forall i :: 0 <= i < |b.waiting| ==>
                  0 <= b.waiting[i] < |queued| && s.pending[i] == queued[b.waiting[i]])
  {
    hide Inv, Balanced, Increasing, Flatten, Run, Sends, Enqueued;
    var s, t := Run(Initial(id, p, now), ops), History(id, p, now, ops);
    HistorySent(id, p, now, ops);
    HistoryLedger(id, p, now, ops, 0);
    InvBalanced(s, t);
    BalancedMeans(Flatten(t.mail.sent), s.pending, t.book);
    forall k | 0 <= k < |t.book.queued|
      ensures (k in t.book.done || k in t.book.waiting) <==> k !in t.book.dropped
      ensures !(k in t.book.done && k in t.book.waiting)
    {
      BalancedCovers(Flatten(t.mail.sent), s.pending, t.book, k);
    }
  }

  lemma HistorySent(id: nat, p: Params, now: Time, ops: seq<Op>)
    ensures History(id, p, now, ops).mail.sent == Sends(Initial(id, p, now), ops)
    ensures History(id, p, now, ops).steps == |ops|
  {
    InitialInv(id, p, now);
    hide Inv, Follow, Sends;
    MailIsSent(Initial(id, p, now), NO_HISTORY, ops);
    assert [] + Sends(Initial(id, p, now), ops) == Sends(Initial(id, p, now), ops);
  }

  lemma HistoryLedger(id: nat, p: Params, now: Time, ops: seq<Op>, n: int)
    ensures var s, t := Initial(id, p, now), History(id, p, now, ops);
            && t.book.queued == Enqueued(s, ops)
            && (n in t.mail.acked <==> Acknowledged(s, ops, n))
            && (n in t.mail.evicted <==> Evicted(s, ops, n))
  {
    InitialInv(id, p, now);
    hide Inv, Follow, Enqueued, Acknowledged, Evicted;
    LedgerIsOfRun(Initial(id, p, now), NO_HISTORY, ops, n);
    assert [] + Enqueued(Initial(id, p, now), ops) == Enqueued(Initial(id, p, now), ops);
  }

  lemma InvBalanced(s: Sub, t: Trace)
    requires Inv(s, t)
    ensures Balanced(Flatten(t.mail.sent), s.pending, t.book)
  {
  }

  lemma BalancedMeans(flat: seq<Data>, q: seq<Entry>, b: Book)
    requires Balanced(flat, q, b)
    ensures Increasing(b.done) && Increasing(b.waiting) && |b.done| == |flat| && |b.waiting| == |q|
    ensures forall i, j :: 0 <= i < |b.done| && 0 <= j < |b.waiting| ==> b.done[i] < b.waiting[j]
    ensures forall i :: 0 <= i < |b.done| ==> 0 <= b.done[i] < |b.queued| && flat[i] == b.queued[b.done[i]].data
    ensures forall i :: 0 <= i < |b.waiting| ==> 0 <= b.waiting[i] < |b.queued| && q[i] == b.queued[b.waiting[i]]
  {
  }

  // ---------- why entries are dropped ----------

  /** In state `s`, whose ledger is `b`, operation `op` drops entry `k`, which belongs to `item`:
      either it queues another entry of that item, which is then over its limit and gives up `k`, or
      it deletes the item, with `k` waiting. */
  ghost predicate Drops(s: Sub, b: Book, op: Op, cause: Cause, k: int, item: ItemId) {
    match cause
    case OverLimit(_) =>
      var e := Queues(s.table, op);
      e.Some? && e.value.source == item && GivesUp(s.pending, b, e.value, s.table.items[item].params, k)
    case ItemDeleted(_) => op.DeleteItems? && item in op.items && k in b.waiting
  }

  lemma StepDrops(s: Sub, t: Trace, op: Op, k: int)
    requires Inv(s, t)
    ensures Lined(s, t.book)
    ensures var b' := Record(t, s, op).book;
            && t.book.queued <= b'.queued
            && (k in t.book.dropped ==> 0 <= k < |t.book.queued|)
            && (k in b'.dropped ==>
                  && 0 <= k < |b'.queued|
                  && (if k in t.book.dropped then b'.dropped[k] == t.book.dropped[k]
                      else b'.dropped[k].step == t.steps
                           && Drops(s, t.book, op, b'.dropped[k], k, b'.queued[k].source)))
  {
    InvLined(s, t);
    InvBalanced(s, t);
    BalancedLined(s, Flatten(t.mail.sent), t.book);
    hide Inv, Balanced, GivesUp, Flatten, Lined;
    var flat, b' := Flatten(t.mail.sent), RecordBook(t.book, s, op, t.steps);
    if k in b'.dropped {
      if op.DeleteItems? {
        LinedMeans(s, t.book);
        DeleteDrops(flat, s.pending, t.book, op.items, t.steps, k);
      } else if !op.Publish? {
        var e := Queues(s.table, op);
        if e.Some? {
          LinedMeans(s, t.book);
          PushDrops(flat, s.pending, t.book, e.value, s.table.items[e.value.source].params, t.steps, k);
        }
      }
    }
  }

  lemma LinedMeans(s: Sub, b: Book)
    requires Lined(s, b)
    ensures |b.waiting| == |s.pending| && forall i :: 0 <= i < |b.waiting| ==> 0 <= b.waiting[i] < |b.queued|
  {
  }

  /** Every entry dropped in a run was dropped by the step its cause names. Either that step queued
      another entry of the same item, which put the item over the limit it had in that state, and the
      entry dropped was the item's oldest in the queue, or its newest if it keeps the oldest; or that
      step deleted the item while the entry waited, and the item is gone for good. */
  lemma {:induction false} DropsJustified(id: nat, p: Params, now: Time, ops: seq<Op>, k: int)
    ensures var s, b := Run(Initial(id, p, now), ops), History(id, p, now, ops).book;
            k in b.dropped ==>
              && 0 <= k < |b.queued|
              && var i := b.dropped[k].step;
                 && i < |ops|
                 && Drops(Run(Initial(id, p, now), ops[..i]), History(id, p, now, ops[..i]).book, ops[i],
                      b.dropped[k], k, b.queued[k].source)
                 && (b.dropped[k].ItemDeleted? ==> b.queued[k].source !in s.table.items)
  {
    hide Run, History, Drops, Inv, Lined, Step, Record;
    var s, t := Run(Initial(id, p, now), ops), History(id, p, now, ops);
    DeletedStaysAway(s, t, k);
    if ops == [] {
      NothingDropped(id, p, now);
    } else {
      var n := |ops| - 1;
      DropsJustified(id, p, now, ops[..n], k);
      var s1, t1 := Run(Initial(id, p, now), ops[..n]), History(id, p, now, ops[..n]);
      HistoryNext(id, p, now, ops);
      HistorySent(id, p, now, ops[..n]);
      StepDrops(s1, t1, ops[n], k);
      if k in t1.book.dropped {
        var i := t1.book.dropped[k].step;
        assert ops[..n][..i] == ops[..i];
      }
    }
  }

  lemma HistoryNext(id: nat, p: Params, now: Time, ops: seq<Op>)
    requires ops != []
    ensures var n := |ops| - 1;
            var s, t := Run(Initial(id, p, now), ops[..n]), History(id, p, now, ops[..n]);
            && Lined(s, t.book)
            && History(id, p, now, ops) == Record(t, s, ops[n])
            && Run(Initial(id, p, now), ops) == Step(s, ops[n])
  {
    InitialInv(id, p, now);
    InvLined(Run(Initial(id, p, now), ops[..|ops| - 1]), History(id, p, now, ops[..|ops| - 1]));
    hide Inv, Record, Step;
  }

  lemma NothingDropped(id: nat, p: Params, now: Time)
    ensures History(id, p, now, []).book.dropped == map[]
  {
    hide Inv;
  }

  lemma DeletedStaysAway(s: Sub, t: Trace, k: int)
    requires Inv(s, t)
    ensures k in t.book.dropped && 0 <= k < |t.book.queued| && t.book.dropped[k].ItemDeleted? ==>
              t.book.queued[k].source !in s.table.items
  {
  }

  // ---------- queue limits ----------

  /** Item `item` is there, with room for `n` entries. */
  ghost predicate HasRoom(s: Sub, item: ItemId, n: nat) {
    item in s.table.items && n <= Limit(s.table.items[item].params)
  }

  /** No item ever has more waiting than an effective size it has had, so not more than the largest. */
  lemma {:induction false} QueueWithinPeak(id: nat, p: Params, now: Time, ops: seq<Op>, item: ItemId)
    ensures var s := Run(Initial(id, p, now), ops);
            item in s.table.items ==>
              exists i :: 0 <= i <= |ops| && HasRoom(Run(Initial(id, p, now), ops[..i]), item, Count(s.pending, item))
  {
    hide Run, Count, Step, StepTable, Queues, Inv;
    var s0 := Initial(id, p, now);
    var s := Run(s0, ops);
    if ops == [] {
      NoItems(id, p, now);
    } else if item in s.table.items {
      var n := |ops| - 1;
      var s1, t1 := Run(s0, ops[..n]), History(id, p, now, ops[..n]);
      HistoryNext(id, p, now, ops);
      StepRoom(s1, t1, ops[n], item);
      assert ops[..|ops|] == ops;
      if HasRoom(s1, item, Count(s.pending, item)) {
        assert HasRoom(Run(s0, ops[..n]), item, Count(s.pending, item));
      } else if HasRoom(s, item, Count(s.pending, item)) {
        assert HasRoom(Run(s0, ops[..|ops|]), item, Count(s.pending, item));
      } else {
        QueueWithinPeak(id, p, now, ops[..n], item);
        var i :| 0 <= i <= n && HasRoom(Run(s0, ops[..n][..i]), item, Count(s1.pending, item));
        assert ops[..n][..i] == ops[..i];
        assert HasRoom(Run(s0, ops[..i]), item, Count(s.pending, item));
      }
    }
  }

  lemma NoItems(id: nat, p: Params, now: Time)
    ensures Run(Initial(id, p, now), []).table.items == map[]
  {
  }

  /** A step leaves an item with room for what it has waiting, now or before the step, or with no more
      waiting than before. */
  lemma StepRoom(s: Sub, t: Trace, op: Op, item: ItemId)
    requires Inv(s, t) && item in Step(s, op).table.items
    ensures var s' := Step(s, op);
            var n' := Count(s'.pending, item);
            || HasRoom(s, item, n') || HasRoom(s', item, n')
            || (item in s.table.items && n' <= Count(s.pending, item))
  {
    hide Count, Queues, Inv;
    StepCount(s, op, item);
    StepsTable(s, op);
    InvHandles(s, t);
    StepItems(s.table, op);
    if item !in s.table.items {
      NoneWaits(s, t, item);
    }
    hide Step, StepTable, Handles;
  }

  /** An item that is not there has nothing waiting. */
  lemma NoneWaits(s: Sub, t: Trace, item: ItemId)
    requires Inv(s, t) && item !in s.table.items
    ensures Count(s.pending, item) == 0
  {
    assert forall i :: 0 <= i < |s.pending| ==> s.pending[i].source in s.table.items.Keys;
    CountAbsent(s.pending, item);
  }

  /** The item, if it is there, has no more waiting than its size. */
  ghost predicate WithinLimit(s: Sub, item: ItemId) {
    item in s.table.items ==> Count(s.pending, item) <= Limit(s.table.items[item].params)
  }

  /** A modify asks for a smaller size than the item has waiting. */
  ghost predicate Undercuts(s: Sub, op: Op, item: ItemId) {
    && op.ModifyItem? && op.item == item
    && item in s.table.items && Limit(op.itemParams) < Count(s.pending, item)
  }

  /** Only such a modify takes an item over its size. */
  lemma StepWithinLimit(s: Sub, t: Trace, op: Op, item: ItemId)
    requires Inv(s, t) && WithinLimit(s, item)
    ensures WithinLimit(Step(s, op), item) <==> !Undercuts(s, op, item)
  {
    hide Count, Queues, Inv;
    StepCount(s, op, item);
    StepsTable(s, op);
    InvHandles(s, t);
    StepItems(s.table, op);
    if item !in s.table.items {
      NoneWaits(s, t, item);
    }
    NothingQueued(s, op);
    hide Step, StepTable, Handles;
  }

  lemma NothingQueued(s: Sub, op: Op)
    ensures op.ModifyItem? ==> Queues(s.table, op).None?
  {
  }

  ghost predicate AlwaysWithin(s: Sub, ops: seq<Op>, item: ItemId) {
    forall i :: 0 <= i <= |ops| ==> WithinLimit(Run(s, ops[..i]), item)
  }

  ghost predicate NeverUndercuts(s: Sub, ops: seq<Op>, item: ItemId) {
    forall i :: 0 <= i < |ops| ==> !Undercuts(Run(s, ops[..i]), ops[i], item)
  }

  lemma AlwaysWithinNext(s: Sub, ops: seq<Op>, item: ItemId)
    requires ops != []
    ensures AlwaysWithin(s, ops, item) <==> AlwaysWithin(s, ops[..|ops| - 1], item) && WithinLimit(Run(s, ops), item)
  {
    hide Run, WithinLimit;
    var before := ops[..|ops| - 1];
    assert ops[..|ops|] == ops;
    forall i | 0 <= i <= |before|
      ensures before[..i] == ops[..i]
    {
    }
    if AlwaysWithin(s, ops, item) {
      forall i | 0 <= i <= |before|
        ensures WithinLimit(Run(s, before[..i]), item)
      {
        assert WithinLimit(Run(s, ops[..i]), item);
      }
    }
    if AlwaysWithin(s, before, item) && WithinLimit(Run(s, ops), item) {
      forall i | 0 <= i <= |ops|
        ensures WithinLimit(Run(s, ops[..i]), item)
      {
        assert i <= |before| ==> WithinLimit(Run(s, before[..i]), item);
      }
    }
  }

  lemma NeverUndercutsNext(s: Sub, ops: seq<Op>, item: ItemId)
    requires ops != []
    ensures var n := |ops| - 1;
            NeverUndercuts(s, ops, item)
            <==> NeverUndercuts(s, ops[..n], item) && !Undercuts(Run(s, ops[..n]), ops[n], item)
  {
    hide Run, Undercuts;
    assert forall i :: 0 <= i < |ops| - 1 ==> ops[..|ops| - 1][..i] == ops[..i];
  }

  /** Throughout a run an item has no more waiting than its size at that moment, if and only if no
      modify of it asks for a smaller size than it has waiting at that moment. */
  lemma {:induction false} WithinLimitExactly(id: nat, p: Params, now: Time, ops: seq<Op>, item: ItemId)
    ensures var s := Initial(id, p, now);
            AlwaysWithin(s, ops, item) <==> NeverUndercuts(s, ops, item)
  {
    hide Run, WithinLimit, Undercuts, Inv, Step, AlwaysWithin, NeverUndercuts, Initial;
    var s := Initial(id, p, now);
    if ops == [] {
      WithinAtFirst(id, p, now, item);
    } else {
      var n := |ops| - 1;
      WithinLimitExactly(id, p, now, ops[..n], item);
      AlwaysWithinNext(s, ops, item);
      NeverUndercutsNext(s, ops, item);
      if AlwaysWithin(s, ops[..n], item) {
        WithinAtEnd(s, ops[..n], item);
        HistoryNext(id, p, now, ops);
        StepWithinLimit(Run(s, ops[..n]), History(id, p, now, ops[..n]), ops[n], item);
      }
    }
  }

  lemma WithinAtFirst(id: nat, p: Params, now: Time, item: ItemId)
    ensures var s := Initial(id, p, now); AlwaysWithin(s, [], item) && NeverUndercuts(s, [], item)
  {
    var none: seq<Op> := [];
    assert none[..0] == none;
  }

  lemma WithinAtEnd(s: Sub, ops: seq<Op>, item: ItemId)
    requires AlwaysWithin(s, ops, item)
    ensures WithinLimit(Run(s, ops), item)
  {
    assert ops[..|ops|] == ops;
    assert WithinLimit(Run(s, ops[..|ops|]), item);
  }

  /** So an item can have more waiting than its size: two values in a queue of two, then a modify to
      a queue of one. */
  lemma ShrunkItemIsOverfull(id: nat, p: Params, now: Time)
    ensures var two, one := ItemParams(9, 2, true), ItemParams(9, 1, true);
            var s := Run(Initial(id, p, now),
                       [CreateItem(ItemRequest(Value, Reporting, two, Good)), Notify(1, Change(10), true),
                        Notify(1, Change(11), true), ModifyItem(1, one, Good)]);
            1 in s.table.items && s.table.items[1].params == one && Count(s.pending, 1) == 2 > Limit(one)
  {
    var two, one := ItemParams(9, 2, true), ItemParams(9, 1, true);
    var a, b := CreateItem(ItemRequest(Value, Reporting, two, Good)), Notify(1, Change(10), true);
    var c, d := Notify(1, Change(11), true), ModifyItem(1, one, Good);
    hide Initial, Step, Count;
    var s1 := Step(Initial(id, p, now), a);
    CreatesFirst(id, p, now, two);
    var s2, s3 := Step(s1, b), Step(Step(s1, b), c);
    NotifiesFirst(s1, two, 10);
    NotifiesFirst(s2, two, 11);
    ShrinksFirst(s3, one);
    assert [a, b][..1] == [a] && [a, b, c][..2] == [a, b] && [a, b, c, d][..3] == [a, b, c];
    assert Run(Initial(id, p, now), [a]) == s1 && Run(Initial(id, p, now), [a, b]) == s2;
    assert Run(Initial(id, p, now), [a, b, c]) == s3;
  }

  /** The one item of the subscription, reporting, under handle 1. */
  ghost predicate First(s: Sub, q: ItemParams) {
    && s.table.items.Keys == {1} && s.table.items[1].handle == 1
    && s.table.items[1].mode == Reporting && s.table.items[1].params == q
  }

  lemma CreatesFirst(id: nat, p: Params, now: Time, q: ItemParams)
    ensures var s := Step(Initial(id, p, now), CreateItem(ItemRequest(Value, Reporting, q, Good)));
            First(s, q) && Count(s.pending, 1) == 0
  {
    hide Revise;
  }

  lemma NotifiesFirst(s: Sub, q: ItemParams, v: int)
    requires First(s, q) && Count(s.pending, 1) < Limit(q)
    ensures var s' := Step(s, Notify(1, Change(v), true));
            First(s', q) && Count(s'.pending, 1) == Count(s.pending, 1) + 1
  {
    assert Bound(s.table, 1, 1);
    assert Holder(s.table, 1) == Some(1);
    StepCount(s, Notify(1, Change(v), true), 1);
    hide Count, Push;
  }

  lemma ShrinksFirst(s: Sub, q: ItemParams)
    requires s.table.items.Keys == {1}
    ensures var s' := Step(s, ModifyItem(1, q, Good));
            1 in s'.table.items && s'.table.items[1].params == q && s'.pending == s.pending
  {
  }

  /** An item over its limit stays exactly that far over it until something is published, deleted
      or modified, however much is queued for it. */
  lemma {:induction false} OverfullStays(s: Sub, t: Trace, ops: seq<Op>, item: ItemId)
    requires Inv(s, t) && item in s.table.items
    requires Count(s.pending, item) > Limit(s.table.items[item].params)
    requires forall op :: op in ops ==> !op.Publish? && !op.DeleteItems? && !op.ModifyItem?
    ensures var s' := Run(s, ops);
            && item in s'.table.items
            && s'.table.items[item].params == s.table.items[item].params
            && Count(s'.pending, item) == Count(s.pending, item)
  {
    if ops != [] {
      hide Count, Queues, Step, StepTable, Inv;
      var n := |ops| - 1;
      OverfullStays(s, t, ops[..n], item);
      assert ops[n] in ops;
      var s1, t1 := Run(s, ops[..n]), Follow(s, t, ops[..n]);
      InvHandles(s1, t1);
      OverfullStep(s1, ops[n], item);
    }
  }

  lemma OverfullStep(s: Sub, op: Op, item: ItemId)
    requires Handles(s.table) && item in s.table.items && !op.Publish? && !op.DeleteItems? && !op.ModifyItem?
    requires Count(s.pending, item) > Limit(s.table.items[item].params)
    ensures var s' := Step(s, op);
            && item in s'.table.items
            && s'.table.items[item].params == s.table.items[item].params
            && Count(s'.pending, item) == Count(s.pending, item)
  {
    hide Count, Queues, Handles;
    StepCount(s, op, item);
    StepItems(s.table, op);
    StepsTable(s, op);
    hide Step, StepTable;
  }

  // ---------- progress of one entry ----------

  /** Entry `k` has been delivered or dropped, or waits at a position no later than `pos`. */
  ghost predicate Within(b: Book, k: int, pos: int) {
    k in b.done || k in b.dropped || Among(b.waiting, k, pos)
  }

  ghost predicate Among(ks: seq<int>, k: int, pos: int) {
    exists i :: 0 <= i < |ks| && i <= pos && ks[i] == k
  }

  lemma PushWithin(b: Book, q: seq<Entry>, e: Entry, p: ItemParams, step: nat, k: int, pos: int)
    requires |q| == |b.waiting| && Within(b, k, pos)
    ensures Within(BookPush(b, q, e, p, step), k, pos)
  {
    var b' := BookPush(b, q, e, p, step);
    if i :| 0 <= i < |b.waiting| && i <= pos && b.waiting[i] == k {
      var waiting := b.waiting + [|b.queued|];
      assert waiting[i] == k;
      match Victim(q + [e], e.source, p)
      case None => assert b'.waiting[i] == k;
      case Some(v) =>
        if v > i {
          assert b'.waiting[i] == k;
        } else if v < i {
          assert b'.waiting[i - 1] == k;
        }
    }
  }

  lemma {:induction false} SurvivorsWithin(
      queued: seq<Entry>, ks: seq<int>, ids: seq<ItemId>, i: nat)
    requires i < |ks| && forall j :: 0 <= j < |ks| ==> 0 <= ks[j] < |queued|
    ensures ks[i] in Removed(queued, ks, ids)
            || Among(Survivors(queued, ks, ids), ks[i], i)
  {
    var n := |ks| - 1;
    var r0, r := Survivors(queued, ks[..n], ids), Survivors(queued, ks, ids);
    var out0, out := Removed(queued, ks[..n], ids), Removed(queued, ks, ids);
    SurvivorsShorter(queued, ks[..n], ids);
    assert r == r0 + (if queued[ks[n]].source in ids then [] else [ks[n]]);
    assert out == out0 + (if queued[ks[n]].source in ids then {ks[n]} else {});
    if i < n {
      SurvivorsWithin(queued, ks[..n], ids, i);
      assert ks[..n][i] == ks[i];
      if ks[i] !in out0 {
        var j :| 0 <= j < |r0| && j <= i && r0[j] == ks[i];
        assert r[j] == r0[j];
      }
    } else if queued[ks[n]].source !in ids {
      assert r[|r0|] == ks[n];
    }
  }

  lemma {:induction false} SurvivorsShorter(queued: seq<Entry>, ks: seq<int>, ids: seq<ItemId>)
    requires forall j :: 0 <= j < |ks| ==> 0 <= ks[j] < |queued|
    ensures |Survivors(queued, ks, ids)| <= |ks|
  {
    if ks != [] {
      SurvivorsShorter(queued, ks[..|ks| - 1], ids);
    }
  }

  lemma DeleteWithin(b: Book, ids: seq<ItemId>, step: nat, k: int, pos: int)
    requires forall i :: 0 <= i < |b.waiting| ==> 0 <= b.waiting[i] < |b.queued|
    requires Within(b, k, pos)
    ensures Within(BookDelete(b, ids, step), k, pos)
  {
    if i :| 0 <= i < |b.waiting| && i <= pos && b.waiting[i] == k {
      SurvivorsWithin(b.queued, b.waiting, ids, i);
      hide Survivors, Removed;
    }
  }

  /** A surviving entry never moves back, and each data publish moves it forward by the whole
      per-publish limit. */
  lemma {:induction false} EntryProgress(s: Sub, t: Trace, ops: seq<Op>, k: int, pos: nat, m: nat)
    requires Inv(s, t) && PerPublish(s.params) == m
    requires pos < |t.book.waiting| && t.book.waiting[pos] == k
    requires forall op :: op in ops && op.ModifySub? ==> PerPublish(op.params) == m
    ensures Within(Follow(s, t, ops).book, k, pos - m * |Sends(s, ops)|)
    ensures PerPublish(Run(s, ops).params) == m
  {
    hide Inv, Within, Step, Record, DataSent, CarriesData;
    if ops != [] {
      var n := |ops| - 1;
      EntryProgress(s, t, ops[..n], k, pos, m);
      assert ops[n] in ops;
      var s1, t1 := Run(s, ops[..n]), Follow(s, t, ops[..n]);
      var d := |Sends(s, ops[..n])|;
      DataSentExact(s1, ops[n]);
      StepWithin(s1, t1, ops[n], k, pos - m * d);
      StepLimit(s1, ops[n]);
      assert m * (d + 1) == m * d + m;
    } else {
      WaitsWithin(t.book, k, pos);
    }
  }

  lemma WaitsWithin(b: Book, k: int, pos: nat)
    requires pos < |b.waiting| && b.waiting[pos] == k
    ensures Within(b, k, pos)
  {
  }

  lemma StepLimit(s: Sub, op: Op)
    ensures PerPublish(Step(s, op).params) == PerPublish(if op.ModifySub? then op.params else s.params)
  {
  }

  lemma StepWithin(s: Sub, t: Trace, op: Op, k: int, pos: int)
    requires Inv(s, t) && Within(t.book, k, pos)
    ensures Lined(s, t.book)
    ensures var moved := op.Publish? && CarriesData(s, op.now);
            Within(Record(t, s, op).book, k, if moved then pos - PerPublish(s.params) else pos)
  {
    hide Within, Balanced, Justified, Faithful, Tidy, Queues;
    if op.DeleteItems? {
      DeleteWithin(t.book, op.items, t.steps, k, pos);
    } else if op.Publish? {
      if CarriesData(s, op.now) {
        DrainAll(t.book, k, pos, PerPublish(s.params));
      }
    } else {
      var e := Queues(s.table, op);
      if e.Some? {
        PushWithin(t.book, s.pending, e.value, s.table.items[e.value.source].params, t.steps, k, pos);
      }
    }
  }

  lemma DrainAll(b: Book, k: int, pos: int, m: nat)
    requires Within(b, k, pos)
    ensures Within(BookDrain(b, Min(m, |b.waiting|)), k, pos - m)
  {
    var n := Min(m, |b.waiting|);
    var b' := BookDrain(b, n);
    if i :| 0 <= i < |b.waiting| && i <= pos && b.waiting[i] == k {
      if i < n {
        assert b'.done[|b.done| + i] == k;
      } else {
        assert b'.waiting[i - n] == k;
      }
    }
  }

  /** With per-publish limit `m`, the entry at position `pos` is delivered or dropped by the time
      ceil((pos + 1) / m) publishes have carried data. */
  lemma EntryDelivered(s: Sub, t: Trace, ops: seq<Op>, k: int, pos: nat, m: nat)
    requires Inv(s, t) && PerPublish(s.params) == m
    requires pos < |t.book.waiting| && t.book.waiting[pos] == k
    requires forall op :: op in ops && op.ModifySub? ==> PerPublish(op.params) == m
    requires m * |Sends(s, ops)| >= pos + 1
    ensures var b := Follow(s, t, ops).book; k in b.done || k in b.dropped
  {
    hide Inv, Follow, Run, Sends, PerPublish;
    EntryProgress(s, t, ops, k, pos, m);
  }

  // ---------- messages ----------

  /** Sent messages are numbered 1, 2, 3, ... (keep-alives take no number); those held are in number
      order and within the bound; Republish answers with the original message exactly while no step of
      the run has acknowledged or evicted it; and what was evicted is below all that is held. */
  lemma RepublishAfterRun(id: nat, p: Params, now: Time, ops: seq<Op>, n: nat)
    ensures var s0 := Initial(id, p, now);
            var s, sent := Run(s0, ops), Sends(s0, ops);
            && s.ring.retained == Size(s.ring.held) <= MAX_RETAINED
            && s.ring.next == |sent| + 1
            && (forall i, j :: 0 <= i < j < |s.ring.held| ==> s.ring.held[i].number < s.ring.held[j].number)
            && (1 <= n <= |sent| ==> sent[n - 1].number == n)
            && Republish(s.ring, n) ==
               (if 1 <= n <= |sent| && !Acknowledged(s0, ops, n) && !Evicted(s0, ops, n)
                then Some(sent[n - 1]) else None)
            && (Evicted(s0, ops, n) ==> forall i :: 0 <= i < |s.ring.held| ==> n < s.ring.held[i].number)
  {
    hide Run, History, Sends, Acknowledged, Evicted, Inv;
    var s, t := Run(Initial(id, p, now), ops), History(id, p, now, ops);
    HistorySent(id, p, now, ops);
    HistoryLedger(id, p, now, ops, n);
    InvFaithful(s, t);
    RepublishExact(s.ring, t.mail, n);
    hide Size, Holds;
  }

  lemma InvFaithful(s: Sub, t: Trace)
    requires Inv(s, t)
    ensures Faithful(s.ring, t.mail)
  {
    hide Balanced, Justified, Tidy;
  }

  // ---------- bindings ----------

  /** Every backing id ever granted is held by live items or has been released, grant for grant. */
  lemma GrantsAccounted(id: nat, p: Params, now: Time, ops: seq<Op>, x: BackingId)
    requires x != 0
    ensures var s, t := Run(Initial(id, p, now), ops), History(id, p, now, ops);
            && t.granted[x] == multiset(s.table.releases)[x] + |Holders(s.table.items, x)|
            && (t.granted[x] == 1 ==>
                  || (|Holders(s.table.items, x)| == 1 && multiset(s.table.releases)[x] == 0)
                  || (|Holders(s.table.items, x)| == 0 && multiset(s.table.releases)[x] == 1))
            && (forall i, j :: i in s.table.items && j in s.table.items && i != j ==>
                  s.table.items[i].handle != s.table.items[j].handle)
  {
    var s, t := Run(Initial(id, p, now), ops), History(id, p, now, ops);
    assert Grants(s.table, t.granted) && Handles(s.table);
    if t.granted[x] == 1 {
      GrantedOnce(s.table, t.granted, x);
    }
  }

  lemma StepLive(b: Table, op: Op, h: Handle)
    requires Handles(b) && h < b.nextHandle && !Live(b, h)
    ensures !Live(StepTable(b, op), h)
  {
    var b' := StepTable(b, op);
    if op.DeleteItems? {
      DeleteEachItems(b, op.items);
    }
    forall id
      ensures !Bound(b', h, id)
    {
      assert !Bound(b, h, id);
    }
  }

  lemma DeadHandleQueuesNothing(s: Sub, h: Handle, report: Report, passes: bool)
    requires !Live(s.table, h)
    ensures Step(s, Notify(h, report, passes)) == s
  {
    assert Holder(s.table, h) == None;
  }

  /** Two live items never share a handle, and a handle an item has given up is never bound again:
      whatever arrives under it, in any later state, queues nothing. */
  lemma {:induction false} AbandonedHandleIsDead(s: Sub, t: Trace, ops: seq<Op>, h: Handle)
    requires Inv(s, t) && h < s.table.nextHandle && !Live(s.table, h)
    ensures var s' := Run(s, ops);
            && h < s'.table.nextHandle && !Live(s'.table, h)
            && (forall report, passes :: Step(s', Notify(h, report, passes)) == s')
  {
    hide Live, Step, StepTable, Record;
    if ops != [] {
      var n := |ops| - 1;
      AbandonedHandleIsDead(s, t, ops[..n], h);
      var s1, t1 := Run(s, ops[..n]), Follow(s, t, ops[..n]);
      InvHandles(s1, t1);
      StepLive(s1.table, ops[n], h);
      StepItems(s1.table, ops[n]);
      StepsTable(s1, ops[n]);
    }
    hide Inv, Handles;
    var s' := Run(s, ops);
    forall report, passes
      ensures Step(s', Notify(h, report, passes)) == s'
    {
      DeadHandleQueuesNothing(s', h, report, passes);
    }
  }

  lemma InvHandles(s: Sub, t: Trace)
    requires Inv(s, t)
    ensures Handles(s.table)
  {
  }

  lemma StepsTable(s: Sub, op: Op)
    ensures Step(s, op).table == StepTable(s.table, op)
  {
  }

  // ---------- the publish clock ----------

  /** Ready means the next deadline has passed, and exactly then a publish is answered; an answered
      subscription is not ready again at the same instant. */
  lemma ReadyExactlyAtDeadline(s: Sub, now: Time)
    ensures var d := NextPublishDeadline(s);
            && (IsPublishReady(s, now) <==> d.Some? && d.value <= now)
            && (TryPublish(s, now).1.Some? <==> IsPublishReady(s, now))
            && (IsPublishReady(s, now) ==> !IsPublishReady(TryPublish(s, now).0, now))
  {
    KeepAliveAtLeastInterval(s.params);
  }

  /** The revised lifetime is at least three keep-alives exactly when the 32-bit product does not
      wrap. */
  lemma ReviseLifetimeExact(p: Params)
    requires p.keepAlive < UINT32 && p.lifetime < UINT32
    ensures Revise(p).lifetime >= 3 * Revise(p).keepAlive <==> Revise(p).keepAlive <= 0x5555_5555
  {
  }
}
