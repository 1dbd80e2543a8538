/** What a monitored item is after a run: which requests made it what it is, and how requests about items
    are answered. */
module ItemHistory {
  import opened Common
  import opened PendingQueue
  import opened Retransmission
  import opened Bindings
  import opened Subscription
  import opened SubscriptionRuns
  import opened SubscriptionTheorems

  // ---------- one step ----------

  /** A create that would start the backing subscription. */
  predicate Starts(op: Op) {
    op.CreateItem? && op.request.attribute != Unsupported && op.request.start == Good
  }

  /** The create takes item `id`. */
  predicate Takes(b: Table, op: Op, id: ItemId) {
    op.CreateItem? && id == b.nextItem && op.request.attribute != Unsupported && (b.started || op.request.start == Good)
  }

  /** The item is bound under a fresh handle: it is taken, or modified. */
  predicate Binds(b: Table, op: Op, id: ItemId) {
    Takes(b, op, id) || (op.ModifyItem? && op.item == id && id in b.items)
  }

  /** The backing subscription grants the item's present binding an id. */
  predicate GrantedTo(b: Table, op: Op, id: ItemId) {
    && op.BindResult? && op.status == Good && id in b.items
    && op.handle == b.items[id].handle && op.handle in b.binds
  }

  /** What a step makes of an item that it leaves. */
  ghost predicate Becomes(b: Table, b': Table, op: Op, id: ItemId)
    requires id in b.items && id in b'.items
  {
    var i, i' := b.items[id], b'.items[id];
    && i'.attribute == i.attribute
    && i'.params == (if op.ModifyItem? && op.item == id then op.itemParams else i.params)
    && i'.mode == (if op.ChangeMode? && op.item == id then op.mode else i.mode)
    && i'.handle == (if Binds(b, op, id) then b.nextHandle else i.handle)
    && i'.backing == (if Binds(b, op, id) then 0 else if GrantedTo(b, op, id) then op.granted else i.backing)
  }

  /** The item as it is taken. */
  ghost predicate Fresh(b: Table, b': Table, op: Op, id: ItemId)
    requires op.CreateItem? && id in b'.items
  {
    var i' := b'.items[id];
    && i'.attribute == op.request.attribute && i'.params == op.request.params && i'.mode == op.request.mode
    && i'.handle == b.nextHandle && i'.backing == 0
  }

  lemma StepLeaves(b: Table, op: Op, id: ItemId)
    requires Handles(b)
    ensures var b' := StepTable(b, op);
            && (id in b'.items <==> Takes(b, op, id) || (id in b.items && !(op.DeleteItems? && id in op.items)))
            && (Takes(b, op, id) ==> id !in b.items && Fresh(b, b', op, id))
            && b'.nextItem == b.nextItem + (if op.CreateItem? then 1 else 0)
            && (b'.started <==> b.started || Starts(op))
  {
    if op.DeleteItems? {
      DeleteEachItems(b, op.items);
      hide DeleteEach;
    }
  }

  lemma StepBecomes(b: Table, op: Op, id: ItemId)
    requires Handles(b) && id in b.items && id in StepTable(b, op).items
    ensures Becomes(b, StepTable(b, op), op, id)
  {
    ItemMeans(b, id);
    hide Handles;
    if op.DeleteItems? {
      DeleteEachItems(b, op.items);
      hide DeleteEach;
    } else if op.BindResult? {
      SettleBecomes(b, op, id);
    } else if op.ModifyItem? {
      ModifyBecomes(b, op, id);
    } else {
      hide DeleteEach, Settle, Modify;
    }
  }

  lemma SettleBecomes(b: Table, op: Op, id: ItemId)
    requires op.BindResult? && id in b.items && id in StepTable(b, op).items
    requires b.items[id].handle in b.binds ==> b.binds[b.items[id].handle] == id
    ensures Becomes(b, StepTable(b, op), op, id)
  {
    hide DeleteEach, Modify, Create, SetMode;
  }

  lemma ModifyBecomes(b: Table, op: Op, id: ItemId)
    requires op.ModifyItem? && id in b.items && id in StepTable(b, op).items
    requires b.started && b.items[id].attribute != Unsupported
    ensures Becomes(b, StepTable(b, op), op, id)
  {
    hide DeleteEach, Settle, Create, SetMode;
  }

  lemma ItemMeans(b: Table, id: ItemId)
    requires Handles(b) && id in b.items
    ensures b.started && b.items[id].attribute != Unsupported && id < b.nextItem
    ensures b.items[id].handle in b.binds ==> b.binds[b.items[id].handle] == id
  {
  }

  // ---------- runs ----------

  /** The items after the first `n` steps. */
  ghost function At(s: Sub, ops: seq<Op>, n: nat): Table
    requires n <= |ops|
  {
    Run(s, ops[..n]).table
  }

  ghost predicate New(s: Sub) {
    exists id, p, now :: s == Initial(id, p, now)
  }

  lemma AtNext(s: Sub, ops: seq<Op>, n: nat)
    requires New(s) && n < |ops|
    ensures Handles(At(s, ops, n)) && At(s, ops, n + 1) == StepTable(At(s, ops, n), ops[n])
  {
    var id, p, now :| s == Initial(id, p, now);
    InvHandles(Run(s, ops[..n]), History(id, p, now, ops[..n]));
    StepsTable(Run(s, ops[..n]), ops[n]);
    hide Step, StepTable, Handles, New;
    assert ops[..n + 1][..n] == ops[..n];
  }

  lemma AtFirst(s: Sub, ops: seq<Op>)
    requires New(s)
    ensures At(s, ops, 0) == Bindings.EMPTY
  {
  }

  /** The backing subscription has been started exactly if some create could start it. */
  lemma {:induction false} StartedExactly(s: Sub, ops: seq<Op>, n: nat)
    requires New(s) && n <= |ops|
    ensures At(s, ops, n).started <==> exists i :: 0 <= i < n && Starts(ops[i])
  {
    hide At, StepTable, Handles, Starts, New;
    if n == 0 {
      AtFirst(s, ops);
    } else {
      StartedExactly(s, ops, n - 1);
      AtNext(s, ops, n - 1);
      StepLeaves(At(s, ops, n - 1), ops[n - 1], 0);
    }
  }

  /** Step `i` took the item, and no later one deleted it. */
  ghost predicate TakenAt(s: Sub, ops: seq<Op>, n: nat, id: ItemId, i: int)
    requires n <= |ops|
  {
    && 0 <= i < n && Takes(At(s, ops, i), ops[i], id)
    && forall j :: i < j < n ==> !(ops[j].DeleteItems? && id in ops[j].items)
  }

  /** The parameters the item was last given: by the last modify of it after step `i`, or by the create
      that step is. */
  function ParamsSince(ops: seq<Op>, n: nat, id: ItemId, i: nat): ItemParams
    requires i < n <= |ops| && ops[i].CreateItem?
  {
    if n == i + 1 then ops[i].request.params
    else if ops[n - 1].ModifyItem? && ops[n - 1].item == id then ops[n - 1].itemParams
    else ParamsSince(ops, n - 1, id, i)
  }

  /** The mode it was last given. */
  function ModeSince(ops: seq<Op>, n: nat, id: ItemId, i: nat): Mode
    requires i < n <= |ops| && ops[i].CreateItem?
  {
    if n == i + 1 then ops[i].request.mode
    else if ops[n - 1].ChangeMode? && ops[n - 1].item == id then ops[n - 1].mode
    else ModeSince(ops, n - 1, id, i)
  }

  /** In every run an item is there exactly while a create has taken it and no delete has named it since;
      and then it has the attribute it was created for, and the parameters and the mode it was last given. */
  lemma {:induction false} ItemExactly(s: Sub, ops: seq<Op>, n: nat, id: ItemId)
    requires New(s) && n <= |ops|
    ensures id in At(s, ops, n).items <==> exists i :: TakenAt(s, ops, n, id, i)
    ensures forall i :: TakenAt(s, ops, n, id, i) && id in At(s, ops, n).items ==>
              var item := At(s, ops, n).items[id];
              && ops[i].CreateItem?
              && item.attribute == ops[i].request.attribute
              && item.params == ParamsSince(ops, n, id, i) && item.mode == ModeSince(ops, n, id, i)
  {
    hide At, StepTable, Handles, Binds, GrantedTo, New;
    if n == 0 {
      AtFirst(s, ops);
    } else {
      var k := n - 1;
      ItemExactly(s, ops, k, id);
      AtNext(s, ops, k);
      var b, b', op := At(s, ops, k), At(s, ops, n), ops[k];
      StepLeaves(b, op, id);
      if Takes(b, op, id) {
        assert TakenAt(s, ops, n, id, k);
      } else if i :| TakenAt(s, ops, k, id, i) && !(op.DeleteItems? && id in op.items) {
        assert TakenAt(s, ops, n, id, i);
      }
      if id in b.items && id in b'.items {
        StepBecomes(b, op, id);
      }
      assert forall i :: TakenAt(s, ops, n, id, i) && i < k ==> TakenAt(s, ops, k, id, i);
      assert forall i :: TakenAt(s, ops, n, id, i) ==> Takes(At(s, ops, i), ops[i], id);
    }
  }

  // ---------- bindings ----------

  /** Step `i` bound the item under handle `h`, and no later one bound it again. */
  ghost predicate BoundAt(s: Sub, ops: seq<Op>, n: nat, id: ItemId, h: Handle, i: int)
    requires n <= |ops|
  {
    && 0 <= i < n && Binds(At(s, ops, i), ops[i], id) && h == At(s, ops, i).nextHandle
    && forall j :: i < j < n ==> !Binds(At(s, ops, j), ops[j], id)
  }

  /** A live item is bound under the handle the last step that bound it took. Its backing id is the one
      granted to that binding since, at most once, and 0 when none has been. */
  lemma {:induction false} BindingExactly(s: Sub, ops: seq<Op>, n: nat, id: ItemId) returns (i: int)
    requires New(s) && n <= |ops|
    ensures id in At(s, ops, n).items ==>
              var b := At(s, ops, n);
              && BoundAt(s, ops, n, id, b.items[id].handle, i)
              && (forall j :: i < j < n && GrantedTo(At(s, ops, j), ops[j], id) ==>
                    b.items[id].backing == ops[j].granted && b.items[id].handle !in b.binds)
              && ((forall j :: i < j < n ==> !GrantedTo(At(s, ops, j), ops[j], id)) ==> b.items[id].backing == 0)
  {
    hide At, StepTable, Handles, Takes, Binds, GrantedTo, New;
    i := 0;
    if n == 0 {
      AtFirst(s, ops);
    } else {
      var k := n - 1;
      i := BindingExactly(s, ops, k, id);
      AtNext(s, ops, k);
      var b, b', op := At(s, ops, k), At(s, ops, n), ops[k];
      StepLeaves(b, op, id);
      BindsMeans(b, op, id);
      if id in b'.items {
        if id in b.items {
          StepBecomes(b, op, id);
          StepBinds(b, op, id, b.items[id].handle);
        }
        if Binds(b, op, id) {
          i := k;
        }
      }
    }
  }

  lemma BindsMeans(b: Table, op: Op, id: ItemId)
    ensures Takes(b, op, id) ==> Binds(b, op, id) && op.CreateItem?
    ensures Binds(b, op, id) && !Takes(b, op, id) ==> id in b.items
  {
  }

  lemma StepBinds(b: Table, op: Op, id: ItemId, h: Handle)
    requires Handles(b) && id in b.items && h == b.items[id].handle
    ensures h !in b.binds ==> h !in StepTable(b, op).binds && !GrantedTo(b, op, id)
    ensures GrantedTo(b, op, id) ==> h !in StepTable(b, op).binds
  {
    if op.DeleteItems? {
      DeleteEachItems(b, op.items);
      hide DeleteEach;
    }
  }

  // ---------- answers ----------

  /** How a create is answered, and what it leaves: the item, if it is taken, is there under the id of the
      answer, as it was asked for; otherwise there is no item more. */
  lemma CreateAnswered(s: Sub, ops: seq<Op>, r: ItemRequest)
    requires New(s)
    ensures var b := Run(s, ops).table;
            var a, b' := CreateAnswer(b, r), Create(b, r);
            && (a.status == Good
                <==> r.attribute != Unsupported
                     && (r.start == Good || exists i :: 0 <= i < |ops| && Starts(ops[i])))
            && (a.status != Good ==>
                  && a.status == (if r.attribute == Unsupported then BadAttributeIdInvalid else r.start)
                  && a.item == 0 && b'.items == b.items)
            && (a.status == Good ==>
                  && a.item != 0 && a.item !in b.items && b'.items.Keys == b.items.Keys + {a.item}
                  && b'.items[a.item].attribute == r.attribute && b'.items[a.item].mode == r.mode
                  && b'.items[a.item].params == r.params)
            && a.samplingMs == r.params.samplingMs
            && a.queueSize == (if r.params.queueSize == 0 then 1 else r.params.queueSize)
  {
    assert ops[..|ops|] == ops;
    StartedExactly(s, ops, |ops|);
    FreshId(s, ops, |ops|);
    hide Run, New, Starts;
  }

  lemma {:induction false} FreshId(s: Sub, ops: seq<Op>, n: nat)
    requires New(s) && n <= |ops|
    ensures At(s, ops, n).nextItem > 0
    ensures forall id :: id in At(s, ops, n).items ==> id < At(s, ops, n).nextItem
  {
    hide At, StepTable, Takes, New, Handles;
    if n == 0 {
      AtFirst(s, ops);
    } else {
      FreshId(s, ops, n - 1);
      AtNext(s, ops, n - 1);
      forall id | id in At(s, ops, n).items
        ensures id < At(s, ops, n).nextItem
      {
        StepLeaves(At(s, ops, n - 1), ops[n - 1], id);
        BindsMeans(At(s, ops, n - 1), ops[n - 1], id);
        TakesNext(At(s, ops, n - 1), ops[n - 1], id);
      }
      StepLeaves(At(s, ops, n - 1), ops[n - 1], 0);
    }
  }

  lemma TakesNext(b: Table, op: Op, id: ItemId)
    ensures Takes(b, op, id) ==> id == b.nextItem
  {
  }

  /** How a modify is answered: an item that is there is always bound again, whatever starting the backing
      subscription would answer, because it was started for it. */
  lemma ModifyAnswered(s: Sub, ops: seq<Op>, c: ItemChange)
    requires New(s)
    ensures Modified(Run(s, ops).table, c, ModifyAnswer(Run(s, ops).table, c),
              Modify(Run(s, ops).table, c.item, c.params, c.start))
  {
    var id, p, now :| s == Initial(id, p, now);
    var b := Run(s, ops).table;
    InvHandles(Run(s, ops), History(id, p, now, ops));
    hide Run, New, Handles, Modified, Modify, ModifyAnswer;
    if c.item in b.items {
      ItemMeans(b, c.item);
    }
    Modifies(b, c);
  }

  lemma Modifies(b: Table, c: ItemChange)
    requires c.item in b.items ==> b.started && b.items[c.item].attribute != Unsupported
    ensures Modified(b, c, ModifyAnswer(b, c), Modify(b, c.item, c.params, c.start))
  {
    hide Release;
  }

  ghost predicate Modified(b: Table, c: ItemChange, a: ItemResult, b': Table) {
    if c.item !in b.items then a.status == BadMonitoredItemIdInvalid && b' == b
    else
      && a.status == Good && a.samplingMs == c.params.samplingMs
      && a.queueSize == (if c.params.queueSize == 0 then 1 else c.params.queueSize)
      && b'.items.Keys == b.items.Keys && b'.items[c.item].params == c.params
      && b'.items[c.item].handle == b.nextHandle
      && forall id :: id in b.items && id != c.item ==> b'.items[id] == b.items[id]
  }

  /** Of several deletions of one item in a request only the first succeeds. */
  lemma {:induction false} DeleteAnswered(b: Table, ids: seq<ItemId>, k: nat)
    requires k < |ids|
    ensures |DeleteAnswers(b, ids)| == |ids|
    ensures DeleteAnswers(b, ids)[k]
            == if ids[k] in b.items && ids[k] !in ids[..k] then Good else BadMonitoredItemIdInvalid
  {
    var n := |ids| - 1;
    DeleteLength(b, ids[..n]);
    if k < n {
      DeleteAnswered(b, ids[..n], k);
      assert ids[..n][..k] == ids[..k];
    } else {
      DeleteEachItems(b, ids[..n]);
    }
  }

  lemma {:induction false} DeleteLength(b: Table, ids: seq<ItemId>)
    ensures |DeleteAnswers(b, ids)| == |ids|
  {
    if ids != [] {
      DeleteLength(b, ids[..|ids| - 1]);
    }
  }

  /** A mode request succeeds for the items that are there, and changes nothing but their modes. */
  lemma {:induction false} SetModeAnswered(b: Table, ids: seq<ItemId>, mode: Mode)
    ensures var (b', out) := SetModeAll(b, ids, mode);
            && |out| == |ids| && b' == b.(items := b'.items) && b'.items.Keys == b.items.Keys
            && (forall k :: 0 <= k < |ids| ==> out[k] == if ids[k] in b.items then Good else BadMonitoredItemIdInvalid)
            && (forall id :: id in b.items ==>
                  b'.items[id] == b.items[id].(mode := if id in ids then mode else b.items[id].mode))
  {
    if ids != [] {
      var n := |ids| - 1;
      SetModeAnswered(b, ids[..n], mode);
      var b1 := SetModeAll(b, ids[..n], mode).0;
      ModeSet(b1, ids[n], mode);
      hide SetMode;
      assert ids == ids[..n] + [ids[n]];
    }
  }

  lemma ModeSet(b: Table, id: ItemId, mode: Mode)
    ensures var b' := SetMode(b, id, mode);
            && b' == b.(items := b'.items) && b'.items.Keys == b.items.Keys
            && forall x :: x in b.items ==> b'.items[x] == if x == id then b.items[x].(mode := mode) else b.items[x]
  {
  }
}
