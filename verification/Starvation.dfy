/** Fairness between the items of one subscription. Entries move forward (see EntryDelivered), but an
    item that keeps its newest entry loses its place each time it reports. Whether such an item can
    be passed over for ever depends on how much the other items may have waiting. */
module Starvation {
  import opened Common
  import opened PendingQueue
  import opened Retransmission
  import opened Bindings
  import opened Subscription
  import opened SubscriptionRuns
  import opened Crowding

  // ---------- being passed over ----------

  /** Values are reported, acknowledged and published; the configuration stands and nothing fails. */
  predicate Quiet(op: Op) {
    op.Notify? || op.Publish? || op.Ack? || (op.BindResult? && op.status == Good)
  }

  /** If the operation is a publish that carries data, it carries none of item `i`. */
  ghost predicate Skips(s: Sub, op: Op, i: ItemId) {
    op.Publish? && CarriesData(s, op.now) ==> NoneOf(s.pending[..BatchSize(s)], i)
  }

  /** A quiet run none of whose publishes carries anything of item `i`. */
  ghost predicate PassedOver(s: Sub, ops: seq<Op>, i: ItemId) {
    ops != [] ==>
      var n := |ops| - 1;
      PassedOver(s, ops[..n], i) && Quiet(ops[n]) && Skips(Run(s, ops[..n]), ops[n], i)
  }

  lemma PassedOverNext(s: Sub, ops: seq<Op>, i: ItemId)
    requires PassedOver(s, ops, i) && ops != []
    ensures var n := |ops| - 1;
            var s1 := Run(s, ops[..n]);
            && PassedOver(s, ops[..n], i) && Quiet(ops[n]) && Skips(s1, ops[n], i)
            && Run(s, ops) == Step(s1, ops[n])
            && Sends(s, ops) == Sends(s, ops[..n]) + DataSent(s1, ops[n])
  {
    hide Step, Quiet, Skips, DataSent;
  }

  lemma NoSteps(s: Sub)
    ensures Run(s, []) == s && Sends(s, []) == []
  {
  }

  /** Item `i` can be passed over by `n` publishes with data. */
  ghost predicate CanMiss(s: Sub, i: ItemId, n: nat) {
    exists ops :: PassedOver(s, ops, i) && |Sends(s, ops)| == n
  }

  // ---------- quiet steps ----------

  /** Items keep their mode and size. */
  ghost predicate SameSettings(items: map<ItemId, Item>, items': map<ItemId, Item>) {
    && items'.Keys == items.Keys
    && forall j :: j in items ==> items'[j].mode == items[j].mode && items'[j].params == items[j].params
  }

  lemma QuietKeeps(s: Sub, op: Op)
    requires Quiet(op)
    ensures var s' := Step(s, op);
            && SameSettings(s.table.items, s'.table.items) && s'.params == s.params
            && s'.table.nextItem == s.table.nextItem
  {
    hide Retain, Push, Acknowledge, Numbers;
  }

  /** What a quiet step other than a publish queues is a report of a reporting item. */
  lemma QuietQueues(s: Sub, op: Op)
    requires Quiet(op) && !op.Publish?
    ensures var e := Queues(s.table, op);
            && Step(s, op).pending == Enqueue(s.pending, s.table, e)
            && (e.Some? ==> s.table.items[e.value.source].mode == Reporting)
  {
    hide Push;
  }

  lemma {:induction false} PassedOverKeeps(s: Sub, ops: seq<Op>, i: ItemId)
    requires PassedOver(s, ops, i)
    ensures var s' := Run(s, ops);
            && SameSettings(s.table.items, s'.table.items) && s'.params == s.params
            && s'.table.nextItem == s.table.nextItem
  {
    hide Step, Quiet, Skips, Run, Sends, PassedOver;
    if ops == [] {
      NoSteps(s);
    } else {
      var n := |ops| - 1;
      PassedOverNext(s, ops, i);
      PassedOverKeeps(s, ops[..n], i);
      QuietKeeps(Run(s, ops[..n]), ops[n]);
    }
  }

  // ---------- an item that keeps its place ----------

  /** An entry of item `i` waits at a position no later than `pos`. */
  ghost predicate Stands(q: seq<Entry>, i: ItemId, pos: int) {
    exists x :: 0 <= x < |q| && x <= pos && q[x].source == i
  }

  /** Item `i` never gives up its first entry: it keeps the oldest, or does not report. */
  predicate KeepsPlace(items: map<ItemId, Item>, i: ItemId) {
    i in items && (!items[i].params.discardOldest || items[i].mode != Reporting)
  }

  lemma PushStands(q: seq<Entry>, e: Entry, p: ItemParams, i: ItemId, pos: int)
    requires Stands(q, i, pos) && (e.source == i ==> !p.discardOldest)
    ensures Stands(Push(q, e, p), i, pos)
  {
    hide Positions, Count;
    var x :| 0 <= x < |q| && x <= pos && q[x].source == i;
    var q1 := q + [e];
    assert q1[x].source == i;
    match Victim(q1, e.source, p)
    case None => assert Push(q, e, p)[x].source == i;
    case Some(v) =>
      assert e.source == i ==> q1[|q|].source == i;
      assert v != x;
      if x < v {
        assert Push(q, e, p)[x].source == i;
      } else {
        assert Push(q, e, p)[x - 1].source == i;
      }
  }

  lemma NotInFront(q: seq<Entry>, m: nat, x: nat, i: ItemId)
    requires m <= |q| && x < |q| && q[x].source == i && NoneOf(q[..m], i)
    ensures x >= m
  {
  }

  lemma StepStands(s: Sub, op: Op, i: ItemId, pos: int)
    requires Quiet(op) && Skips(s, op, i) && KeepsPlace(s.table.items, i) && Stands(s.pending, i, pos)
    ensures Stands(Step(s, op).pending, i, pos - |DataSent(s, op)|)
  {
    hide Step, CarriesData, BatchSize, DataMessage, Push, Queues, DataSent, Quiet;
    DataSentExact(s, op);
    if op.Publish? {
      if CarriesData(s, op.now) {
        var x :| 0 <= x < |s.pending| && x <= pos && s.pending[x].source == i;
        var m := BatchSize(s);
        NotInFront(s.pending, m, x, i);
        PublishTakes(s, op.now);
        assert s.pending[m..][x - m].source == i;
      } else {
        PublishTakes(s, op.now);
      }
    } else {
      QuietQueues(s, op);
      hide Stands;
      var e := Queues(s.table, op);
      if e.Some? {
        PushStands(s.pending, e.value, s.table.items[e.value.source].params, i, pos);
      }
    }
  }

  lemma PublishTakes(s: Sub, now: Time)
    ensures Step(s, Publish(now)).pending
            == if CarriesData(s, now) then s.pending[BatchSize(s)..] else s.pending
    ensures CarriesData(s, now) ==> BatchSize(s) >= 1 && BatchSize(s) == Min(PerPublish(s.params), |s.pending|)
  {
    hide Retain, Numbers;
  }

  lemma {:induction false} PlaceApproaches(s: Sub, ops: seq<Op>, i: ItemId, pos: int)
    requires PassedOver(s, ops, i) && KeepsPlace(s.table.items, i) && Stands(s.pending, i, pos)
    ensures Stands(Run(s, ops).pending, i, pos - |Sends(s, ops)|)
  {
    hide Step, Quiet, Skips, Stands, DataSent, Run, Sends, PassedOver;
    if ops == [] {
      NoSteps(s);
    } else {
      var n := |ops| - 1;
      PassedOverNext(s, ops, i);
      PlaceApproaches(s, ops[..n], i, pos);
      PassedOverKeeps(s, ops[..n], i);
      StepStands(Run(s, ops[..n]), ops[n], i, pos - |Sends(s, ops[..n])|);
    }
  }

  // ---------- an item the others cannot crowd out ----------

  ghost predicate Crowded(s: Sub, i: ItemId, left: int) {
    && Count(s.pending, i) > 0
    && (forall x :: 0 <= x < |s.pending| ==> s.pending[x].source < s.table.nextItem)
    && OthersBeyond(s.pending, s.table.items, i, s.table.nextItem) <= left
  }

  /** A publish that passes `i` over takes a whole batch from the other items, more than they have
      room for; so it takes some of what they have beyond their room. */
  lemma PublishCrowded(s: Sub, now: Time, i: ItemId, left: int)
    requires Crowded(s, i, left) && CarriesData(s, now) && NoneOf(s.pending[..BatchSize(s)], i)
    requires OthersRoom(s.table.items, i, s.table.nextItem) < PerPublish(s.params)
    ensures Crowded(Step(s, Publish(now)), i, left - 1)
  {
    hide Count, Step, CarriesData, PerPublish, OthersBeyond, OthersRoom, OthersWaiting;
    PublishTakes(s, now);
    PublishKeepsTable(s, now);
    var m := BatchSize(s);
    var front, rest := s.pending[..m], s.pending[m..];
    assert front + rest == s.pending;
    CountSplit(front, rest, i);
    CountNone(front, i);
    CountNone(rest, i);
    assert m == PerPublish(s.params) by {
      CountNone(s.pending, i);
      assert m == |s.pending| ==> front == s.pending;
    }
    WaitingTotal(front, i, s.table.nextItem);
    BeyondDrains(front, rest, s.table.items, i, s.table.nextItem);
  }

  lemma PublishKeepsTable(s: Sub, now: Time)
    ensures Step(s, Publish(now)).table == s.table
  {
  }

  lemma QuietCrowded(s: Sub, op: Op, i: ItemId, left: int)
    requires Crowded(s, i, left) && Quiet(op) && !op.Publish?
    requires forall j :: j in s.table.items ==> j < s.table.nextItem
    ensures Crowded(Step(s, op), i, left)
  {
    QuietQueues(s, op);
    QuietKeeps(s, op);
    var s', e := Step(s, op), Queues(s.table, op);
    hide Count, Step, Queues, Quiet, Push, OthersBeyond;
    if e.Some? {
      PushSources(s.pending, e.value, s.table.items[e.value.source].params, s.table.nextItem);
    }
    forall j: nat
      ensures Count(s'.pending, j) == Count(s.pending, j)
              || (Count(s.pending, j) < Count(s'.pending, j) <= Room(s.table.items, j))
      ensures Room(s'.table.items, j) == Room(s.table.items, j)
    {
      if e.Some? {
        PushCount(s.pending, e.value, s.table.items[e.value.source].params, j);
      }
    }
    hide Room;
    BeyondFalls(s.pending, s.table.items, s'.pending, s'.table.items, i, s.table.nextItem);
  }

  lemma StepCrowded(s: Sub, op: Op, i: ItemId, left: int)
    requires Crowded(s, i, left) && Quiet(op) && Skips(s, op, i)
    requires forall j :: j in s.table.items ==> j < s.table.nextItem
    requires OthersRoom(s.table.items, i, s.table.nextItem) < PerPublish(s.params)
    ensures Crowded(Step(s, op), i, left - |DataSent(s, op)|)
  {
    DataSentExact(s, op);
    hide Crowded, OthersRoom, DataMessage, NoneOf;
    if !op.Publish? {
      QuietCrowded(s, op, i, left);
    } else if CarriesData(s, op.now) {
      PublishCrowded(s, op.now, i, left);
    } else {
      IdlePublish(s, op.now, i, left);
    }
  }

  lemma IdlePublish(s: Sub, now: Time, i: ItemId, left: int)
    requires Crowded(s, i, left) && !CarriesData(s, now)
    ensures Crowded(Step(s, Publish(now)), i, left)
  {
    PublishTakes(s, now);
    PublishKeepsTable(s, now);
    hide Step, Count, OthersBeyond;
  }

  lemma {:induction false} RoomSame(items: map<ItemId, Item>, items': map<ItemId, Item>, i: ItemId, below: nat)
    requires SameSettings(items, items')
    ensures OthersRoom(items', i, below) == OthersRoom(items, i, below)
  {
    if below > 0 {
      RoomSame(items, items', i, below - 1);
    }
  }

  lemma {:induction false} CrowdThins(s: Sub, ops: seq<Op>, i: ItemId, left: int)
    requires Crowded(s, i, left) && PassedOver(s, ops, i)
    requires forall j :: j in s.table.items ==> j < s.table.nextItem
    requires OthersRoom(s.table.items, i, s.table.nextItem) < PerPublish(s.params)
    ensures Crowded(Run(s, ops), i, left - |Sends(s, ops)|)
  {
    hide Step, Quiet, Skips, Crowded, DataSent, OthersRoom, PerPublish, Run, Sends, PassedOver;
    if ops == [] {
      NoSteps(s);
    } else {
      var n := |ops| - 1;
      PassedOverNext(s, ops, i);
      CrowdThins(s, ops[..n], i, left);
      PassedOverKeeps(s, ops[..n], i);
      var s1 := Run(s, ops[..n]);
      RoomSame(s.table.items, s1.table.items, i, s.table.nextItem);
      StepCrowded(s1, ops[n], i, left - |Sends(s, ops[..n])|);
    }
  }

  // ---------- crowding an item out ----------

  function ReportOps(items: map<ItemId, Item>, js: seq<ItemId>): seq<Op>
    requires AllReport(items, js)
  {
    if js == [] then []
    else
      var n := |js| - 1;
      ReportOps(items, js[..n]) + [Notify(items[js[n]].handle, ReportOf(items[js[n]]), true)]
  }

  lemma ReportQueues(s: Sub, j: ItemId)
    requires Handles(s.table) && j in s.table.items && s.table.items[j].mode == Reporting
    ensures var item := s.table.items[j];
            Step(s, Notify(item.handle, ReportOf(item), true))
            == s.(pending := Push(s.pending, EntryFor(s.table.items, j), item.params))
  {
    var h := s.table.items[j].handle;
    assert Bound(s.table, h, j);
    assert Holder(s.table, h) == Some(j);
    hide Push;
  }

  lemma {:induction false} ReportsRun(s: Sub, js: seq<ItemId>, i: ItemId)
    requires Handles(s.table) && AllReport(s.table.items, js)
    ensures var ops := ReportOps(s.table.items, js);
            && Run(s, ops) == s.(pending := PushAll(s.pending, s.table.items, js))
            && PassedOver(s, ops, i) && Sends(s, ops) == []
  {
    hide Handles, Step, Push, EntryFor, ReportOf;
    if js != [] {
      var n := |js| - 1;
      ReportsRun(s, js[..n], i);
      var ops := ReportOps(s.table.items, js);
      assert ops[..|ops| - 1] == ReportOps(s.table.items, js[..n]);
      ReportQueues(Run(s, ops[..|ops| - 1]), js[n]);
    }
  }

  /** The item can be replaced, and the others have room for a whole publish. */
  ghost predicate CrowdedOut(s: Sub, i: ItemId) {
    && i in s.table.items && s.table.items[i].mode == Reporting && s.table.items[i].params.discardOldest
    && OthersRoom(s.table.items, i, s.table.nextItem) >= PerPublish(s.params)
  }

  /** Reports can line up a whole publish of other items' entries before the first of item `i`. */
  lemma LineUp(s: Sub, i: ItemId) returns (js: seq<ItemId>, front: seq<Entry>, back: seq<Entry>)
    requires CrowdedOut(s, i)
    ensures AllReport(s.table.items, js)
    ensures PushAll(s.pending, s.table.items, js) == front + back
    ensures NoneOf(front, i) && |front| >= PerPublish(s.params)
  {
    hide Count, PushAll, PerPublish, OthersRoom, Room, Without;
    var items, below := s.table.items, s.table.nextItem;
    var fill := Fill(s.pending, items, i, below);
    var q := PushAll(s.pending, items, fill);
    assert q + [] == q;
    var k;
    k, back := Refresh(q, [], items, i);
    js, front := fill + Repeat(i, k), Without(q, [i]);
    PushAllConcat(s.pending, items, fill, Repeat(i, k));
    WithoutNoneOf(q, i);
    forall j | 0 <= j < below && j != i
      ensures Count(front, j) >= Room(items, j)
    {
      CountOthers(q, i, j);
    }
    WaitingAtLeast(front, items, i, below);
    WaitingTotal(front, i, below);
  }

  ghost predicate Ready(s: Sub) {
    Handles(s.table) && s.params.enabled && s.lastPublish.Some?
  }

  lemma PublishSkips(s: Sub, i: ItemId, front: seq<Entry>, back: seq<Entry>)
    requires Ready(s) && s.pending == front + back && NoneOf(front, i) && |front| >= PerPublish(s.params)
    ensures var op := Publish(s.lastPublish.value + PublishingInterval(s.params));
            var s' := Step(s, op);
            && Skips(s, op, i) && |DataSent(s, op)| == 1
            && s'.table == s.table && s'.params == s.params && Ready(s')
  {
    hide Handles, Retain, Numbers;
    var op := Publish(s.lastPublish.value + PublishingInterval(s.params));
    assert CarriesData(s, op.now);
    DataSentExact(s, op);
    assert BatchSize(s) <= |front|;
    assert s.pending[..BatchSize(s)] == front[..BatchSize(s)];
  }

  lemma {:induction false} Joined(s: Sub, a: seq<Op>, b: seq<Op>, i: ItemId)
    requires PassedOver(s, a, i) && PassedOver(Run(s, a), b, i)
    ensures PassedOver(s, a + b, i)
    ensures Sends(s, a + b) == Sends(s, a) + Sends(Run(s, a), b)
  {
    hide Quiet, Skips, DataSent, Step;
    if b == [] {
      assert a + b == a;
    } else {
      var n := |b| - 1;
      Joined(s, a, b[..n], i);
      RunConcat(s, a, b[..n]);
      assert (a + b)[..|a + b| - 1] == a + b[..n];
      hide Run;
    }
  }

  /** One round: reports line up the others, then a publish passes item `i` over. */
  lemma Round(s: Sub, i: ItemId) returns (ops: seq<Op>)
    requires Ready(s) && CrowdedOut(s, i)
    ensures PassedOver(s, ops, i) && |Sends(s, ops)| == 1
    ensures Ready(Run(s, ops)) && CrowdedOut(Run(s, ops), i)
  {
    hide Handles, Step, PushAll, Skips, DataSent, PerPublish, OthersRoom, Sends, PassedOver, Run;
    var js, front, back := LineUp(s, i);
    ReportsRun(s, js, i);
    var reports := ReportOps(s.table.items, js);
    var s1 := Run(s, reports);
    PublishSkips(s1, i, front, back);
    var publish := Publish(s1.lastPublish.value + PublishingInterval(s1.params));
    ops := reports + [publish];
    OneStep(s1, publish, i);
    Joined(s, reports, [publish], i);
    RunConcat(s, reports, [publish]);
  }

  lemma OneStep(s: Sub, op: Op, i: ItemId)
    requires Quiet(op) && Skips(s, op, i)
    ensures PassedOver(s, [op], i) && Run(s, [op]) == Step(s, op) && Sends(s, [op]) == DataSent(s, op)
  {
    hide Quiet, Skips, DataSent, Step;
    assert [op][..0] == [];
    assert PassedOver(s, [], i) && Run(s, []) == s && Sends(s, []) == [];
  }

  /** For every number of publishes there is a run in which all of them pass the item over. */
  lemma {:induction false} ItemStarves(s: Sub, i: ItemId, n: nat) returns (ops: seq<Op>)
    requires Ready(s) && CrowdedOut(s, i)
    ensures PassedOver(s, ops, i) && |Sends(s, ops)| == n
    ensures Ready(Run(s, ops)) && CrowdedOut(Run(s, ops), i)
  {
    hide Ready, CrowdedOut, Sends, PassedOver, Run;
    if n == 0 {
      ops := [];
      NoSteps(s);
      NothingPassedOver(s, i);
    } else {
      var before := ItemStarves(s, i, n - 1);
      var round := Round(Run(s, before), i);
      ops := before + round;
      Joined(s, before, round, i);
      RunConcat(s, before, round);
    }
  }

  lemma NothingPassedOver(s: Sub, i: ItemId)
    ensures PassedOver(s, [], i)
  {
  }

  /** Otherwise the publishes that pass the item over are bounded from the start: by its place in the
      queue if it keeps that, and else by what the others have waiting beyond their room. */
  lemma ItemServed(s: Sub, t: Trace, i: ItemId, ops: seq<Op>)
    requires Inv(s, t) && i in s.table.items && Count(s.pending, i) > 0
    requires !CrowdedOut(s, i) && PassedOver(s, ops, i)
    ensures |Sends(s, ops)|
            <= if KeepsPlace(s.table.items, i) then |s.pending|
               else OthersBeyond(s.pending, s.table.items, i, s.table.nextItem)
  {
    hide Count, PassedOver, Sends, Run, OthersBeyond, OthersRoom, PerPublish, Inv;
    if KeepsPlace(s.table.items, i) {
      CountNone(s.pending, i);
      assert Stands(s.pending, i, |s.pending|);
      PlaceApproaches(s, ops, i, |s.pending|);
    } else {
      InvBelow(s, t);
      CrowdThins(s, ops, i, OthersBeyond(s.pending, s.table.items, i, s.table.nextItem));
    }
  }

  lemma InvBelow(s: Sub, t: Trace)
    requires Inv(s, t)
    ensures forall x :: 0 <= x < |s.pending| ==> s.pending[x].source < s.table.nextItem
    ensures forall j :: j in s.table.items ==> j < s.table.nextItem
    ensures Handles(s.table) && s.lastPublish.Some?
  {
    hide Balanced, Faithful;
  }

  /** In every reachable state, an item with an entry waiting can be passed over by any number of
      publishes with data, if and only if it reports and keeps its newest entries, and the sizes of
      the other reporting items add up to at least the per-publish limit. */
  lemma StarvesExactly(s: Sub, t: Trace, i: ItemId)
    requires Inv(s, t) && s.params.enabled && i in s.table.items && Count(s.pending, i) > 0
    ensures (forall n: nat :: CanMiss(s, i, n))
            <==> && s.table.items[i].mode == Reporting && s.table.items[i].params.discardOldest
                 && OthersRoom(s.table.items, i, s.table.nextItem) >= PerPublish(s.params)
  {
    hide Inv, Count, Sends, PassedOver, OthersRoom, PerPublish, OthersBeyond;
    InvBelow(s, t);
    if CrowdedOut(s, i) {
      forall n: nat
        ensures CanMiss(s, i, n)
      {
        var ops := ItemStarves(s, i, n);
      }
    } else {
      var n := |s.pending| + OthersBeyond(s.pending, s.table.items, i, s.table.nextItem) + 1;
      if CanMiss(s, i, n) {
        var ops :| PassedOver(s, ops, i) && |Sends(s, ops)| == n;
        ItemServed(s, t, i, ops);
      }
      assert !CanMiss(s, i, n);
    }
  }

  /** A run to such a state: two items, and a publish that may carry two entries. Item 1 has a queue of
      two and item 2 one of one, so item 2 can be passed over for ever although the per-publish limit
      is not below the number of items. */
  lemma StarvationReachable(id: nat, p: Params, now: Time)
    requires p.enabled && p.maxPerPublish == 2
    ensures var s := Run(Initial(id, p, now),
              [CreateItem(ItemRequest(Value, Reporting, ItemParams(1, 2, true), Good)),
               CreateItem(ItemRequest(Value, Reporting, ItemParams(2, 1, true), Good)),
               Notify(2, Change(0), true)]);
            && s.table.items.Keys == {1, 2} && PerPublish(s.params) == 2 && Count(s.pending, 2) > 0
            && forall n: nat :: CanMiss(s, 2, n)
  {
    hide Step, Count, Initial, Sends, PassedOver, Inv, Handles, CanMiss, EntryFor, Push, PerPublish, OthersRoom;
    var a := CreateItem(ItemRequest(Value, Reporting, ItemParams(1, 2, true), Good));
    var b := CreateItem(ItemRequest(Value, Reporting, ItemParams(2, 1, true), Good));
    var c := Notify(2, Change(0), true);
    var s0 := Initial(id, p, now);
    var s1, s2 := Step(s0, a), Step(Step(s0, a), b);
    var s := Step(s2, c);
    assert [a, b][..1] == [a] && [a, b, c][..2] == [a, b];
    assert Run(s0, []) == s0 && Run(s0, [a]) == s1 && Run(s0, [a, b]) == s2 && Run(s0, [a, b, c]) == s;
    CreatesBoth(id, p, now);
    InvBelow(s2, History(id, p, now, [a, b]));
    ReportQueues(s2, 2);
    EntrySource(s2.table.items, 2);
    PushCount(s2.pending, EntryFor(s2.table.items, 2), ItemParams(2, 1, true), 2);
    RoomOfOne(s.table.items);
    StarvesExactly(s, History(id, p, now, [a, b, c]), 2);
  }

  lemma CreatesBoth(id: nat, p: Params, now: Time)
    requires p.enabled && p.maxPerPublish == 2
    ensures var s := Step(Step(Initial(id, p, now),
                       CreateItem(ItemRequest(Value, Reporting, ItemParams(1, 2, true), Good))),
                       CreateItem(ItemRequest(Value, Reporting, ItemParams(2, 1, true), Good)));
            && s.table.items.Keys == {1, 2} && s.table.nextItem == 3
            && s.table.items[1] == Item(Value, Reporting, ItemParams(1, 2, true), Good, 1, 0)
            && s.table.items[2] == Item(Value, Reporting, ItemParams(2, 1, true), Good, 2, 0)
            && s.params.enabled && PerPublish(s.params) == 2 && s.pending == []
  {
    var one, two := ItemParams(1, 2, true), ItemParams(2, 1, true);
    CreateOne(EMPTY, ItemRequest(Value, Reporting, one, Good));
    var b1 := Create(EMPTY, ItemRequest(Value, Reporting, one, Good));
    CreateOne(b1, ItemRequest(Value, Reporting, two, Good));
    hide Create;
  }

  lemma CreateOne(b: Table, r: ItemRequest)
    requires r.attribute == Value && r.start == Good
    ensures var b' := Create(b, r);
            && b'.items == b.items[b.nextItem := Item(Value, r.mode, r.params, Good, b.nextHandle, 0)]
            && b'.nextItem == b.nextItem + 1 && b'.nextHandle == b.nextHandle + 1 && b'.started
  {
  }
}
