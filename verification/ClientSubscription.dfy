/** The client's shared subscription as an object: the handshake flags, the item table and the parked
    list updated in place, one method for each region run under the lock. What has been handed to the
    executor is kept in ghost fields. */
module ClientSubscription {
  import opened Common
  import opened ClientItems

  class ClientSubscription {
    var impl: bool
    var isCreating: bool
    var nextLocalId: LocalId
    var itemsByLocalId: map<LocalId, Record>
    var pendingSubscriptions: seq<LocalId>
    var closedViews: set<ViewId>
    ghost var awaiting: bool
    ghost var flushDue: bool
    ghost var due: multiset<LocalId>
    ghost var inFlight: multiset<LocalId>
    ghost var deleteDue: multiset<ServerId>
    ghost var doomed: set<LocalId>

    ghost function View(): State
      reads this
    {
      State(impl, isCreating, awaiting, flushDue, nextLocalId, itemsByLocalId, pendingSubscriptions,
        due, inFlight, deleteDue, closedViews, doomed)
    }

    constructor ()
      ensures View() == NEW
    {
      impl, isCreating, nextLocalId, itemsByLocalId, pendingSubscriptions := false, false, 1, map[], [];
      closedViews, doomed := {}, {};
      awaiting, flushDue := false, false;
      due, inFlight, deleteDue := multiset{}, multiset{}, multiset{};
    }

    // ---------- the creation handshake ----------

    method EnsureCreated()
      modifies this`impl, this`isCreating, this`awaiting
      ensures View() == Ensured(old(View()))
    {
      if impl || isCreating {
        return;
      }
      isCreating := true;
      impl := true;
      awaiting := true;
    }

    /** The server has answered the creation. */
    method OnCreated(ok: bool)
      requires awaiting
      modifies this`impl, this`isCreating, this`awaiting, this`flushDue, this`pendingSubscriptions
      ensures View() == CreationAnswered(old(View()), ok)
    {
      awaiting := false;
      isCreating := false;
      if !ok {
        impl := false;
        pendingSubscriptions := [];
      } else {
        flushDue := true;
      }
    }

    method FlushPendingSubscriptions()
      requires flushDue
      modifies this`flushDue, this`pendingSubscriptions, this`due
      ensures View() == Flushed(old(View()))
    {
      var pending := pendingSubscriptions;
      pendingSubscriptions := [];
      flushDue := false;
      SpawnEach(pending);
    }

    method SpawnEach(pending: seq<LocalId>)
      modifies this`due
      ensures due == old(due) + multiset(pending)
    {
      for i := 0 to |pending|
        invariant due == old(due) + multiset(pending[..i])
      {
        assert pending[..i + 1] == pending[..i] + [pending[i]];
        SpawnCreateMonitoredItem(pending[i]);
      }
      assert pending[..|pending|] == pending;
    }

    // ---------- items ----------

    method SpawnCreateMonitoredItem(local: LocalId)
      modifies this`due
      ensures due == old(due) + multiset{local}
    {
      due := due + multiset{local};
    }

    method AddItem(view: ViewId) returns (local: LocalId)
      modifies this`nextLocalId, this`itemsByLocalId, this`pendingSubscriptions, this`due
      ensures View() == Added(old(View()), view) && local == old(nextLocalId)
    {
      var defer := isCreating || !impl;
      local := nextLocalId;
      nextLocalId := nextLocalId + 1;
      itemsByLocalId := itemsByLocalId[local := Record(view, 0)];
      if defer {
        pendingSubscriptions := pendingSubscriptions + [local];
      } else {
        SpawnCreateMonitoredItem(local);
      }
    }

    method AddItems(view: ViewId, count: nat) returns (locals: seq<LocalId>)
      modifies this`impl, this`isCreating, this`awaiting
      modifies this`nextLocalId, this`itemsByLocalId, this`pendingSubscriptions, this`due
      ensures View() == AddAll(Ensured(old(View())), view, count)
      ensures |locals| == count && forall i :: 0 <= i < count ==> locals[i] == old(nextLocalId) + i
    {
      hide Added, Ensured;
      ghost var next := nextLocalId;
      EnsureSameNext(View());
      EnsureCreated();
      ghost var s := View();
      locals := [];
      for i := 0 to count
        invariant View() == AddAll(s, view, i) && nextLocalId == next + i
        invariant |locals| == i && forall j :: 0 <= j < i ==> locals[j] == next + j
      {
        AddSameNext(View(), view);
        var local := AddItem(view);
        locals := locals + [local];
      }
    }

    /** The coroutine of an item starts. */
    method OnBeginCreate(local: LocalId) returns (sent: bool)
      requires local in due
      modifies this`due, this`inFlight
      ensures View() == CreateBegun(old(View()), local) && sent == impl
    {
      due := due - multiset{local};
      if !impl {
        return false;
      }
      inFlight := inFlight + multiset{local};
      return true;
    }

    /** The server has answered the creation of an item. */
    method OnEndCreate(local: LocalId, granted: Option<ServerId>) returns (deleted: Option<ServerId>)
      requires local in inFlight
      modifies this`inFlight, this`itemsByLocalId
      ensures View() == CreateEnded(old(View()), local, granted)
      ensures deleted == if local in old(itemsByLocalId) then None else granted
    {
      inFlight := inFlight - multiset{local};
      if granted.None? {
        return None;
      }
      if local in itemsByLocalId {
        itemsByLocalId := itemsByLocalId[local := itemsByLocalId[local].(server := granted.value)];
        return None;
      }
      return granted;
    }

    method ErasePending(local: LocalId)
      modifies this`pendingSubscriptions
      ensures pendingSubscriptions == Without(old(pendingSubscriptions), local)
    {
      var kept := [];
      for i := 0 to |pendingSubscriptions|
        invariant kept == Without(pendingSubscriptions[..i], local)
      {
        assert pendingSubscriptions[..i + 1][..i] == pendingSubscriptions[..i];
        if pendingSubscriptions[i] != local {
          kept := kept + [pendingSubscriptions[i]];
        }
      }
      assert pendingSubscriptions[..|pendingSubscriptions|] == pendingSubscriptions;
      pendingSubscriptions := kept;
    }

    method RemoveItem(local: LocalId)
      modifies this`pendingSubscriptions, this`itemsByLocalId, this`deleteDue, this`doomed
      ensures View() == Removed(old(View()), local)
    {
      hide Without;
      ErasePending(local);
      doomed := doomed - {local};
      if local !in itemsByLocalId {
        return;
      }
      var server := itemsByLocalId[local].server;
      itemsByLocalId := itemsByLocalId - {local};
      if server != 0 {
        deleteDue := deleteDue + multiset{server};
      }
    }

    /** A view removes its own items only, each once; `removed` names them in the order taken. */
    method RemoveItems(view: ViewId, ids: seq<LocalId>) returns (results: seq<Status>, ghost removed: seq<LocalId>)
      modifies this`pendingSubscriptions, this`itemsByLocalId, this`deleteDue, this`doomed
      ensures Lists(removed, OfView(old(itemsByLocalId), view) * Elements(ids))
      ensures View() == RemoveAll(old(View()), removed)
      ensures |results| == |ids|
      ensures itemsByLocalId == old(itemsByLocalId) - (OfView(old(itemsByLocalId), view) * Elements(ids))
      ensures forall i :: 0 <= i < |ids| ==>
                results[i] == if ids[i] in OfView(old(itemsByLocalId), view) && ids[i] !in ids[..i]
                              then Good else BadMonitoredItemIdInvalid
    {
      hide OfView, Without, Removed;
      ghost var s, items := View(), itemsByLocalId;
      results, removed := [], [];
      assert items - (OfView(items, view) * Elements(ids[..0])) == items;
      for i := 0 to |ids|
        invariant |results| == i && View() == RemoveAll(s, removed)
        invariant Lists(removed, OfView(items, view) * Elements(ids[..i]))
        invariant itemsByLocalId == items - (OfView(items, view) * Elements(ids[..i]))
        invariant forall j :: 0 <= j < i ==>
                    results[j] == if ids[j] in OfView(items, view) && ids[j] !in ids[..j]
                                  then Good else BadMonitoredItemIdInvalid
      {
        StillOwned(items, view, ids, i);
        NextOwned(OfView(items, view), ids, i, removed);
        RemovedItems(View(), ids[i]);
        var owned := ids[i] in itemsByLocalId && itemsByLocalId[ids[i]].view == view;
        if !owned {
          results := results + [BadMonitoredItemIdInvalid];
        } else {
          results := results + [Good];
          RemoveItem(ids[i]);
          assert (removed + [ids[i]])[..|removed|] == removed;
          removed := removed + [ids[i]];
        }
      }
      assert ids[..|ids|] == ids;
    }

    /** The first close of a view collects its items and removes exactly these. A second one changes
        nothing. */
    method CloseView(view: ViewId) returns (ghost removed: seq<LocalId>)
      modifies this`pendingSubscriptions, this`itemsByLocalId, this`deleteDue, this`closedViews, this`doomed
      ensures View() == RemoveAll(Closed(old(View()), view), removed)
      ensures if view in old(closedViews) then removed == []
              else && Lists(removed, OfView(old(itemsByLocalId), view))
                   && itemsByLocalId == old(itemsByLocalId) - OfView(old(itemsByLocalId), view)
    {
      hide Removed;
      removed := [];
      if view in closedViews {
        return;
      }
      closedViews := closedViews + {view};
      var locals := CollectItems(view);
      removed := locals;
      assert locals[..0] == [];
      ghost var s := View();
      for i := 0 to |locals|
        invariant View() == RemoveAll(s, locals[..i])
      {
        assert locals[..i + 1][..i] == locals[..i];
        RemoveItem(locals[i]);
      }
      assert locals[..|locals|] == locals;
      RemoveAllItems(s, locals);
    }

    /** The items of a view, in no particular order; they are now doomed. */
    method CollectItems(view: ViewId) returns (locals: seq<LocalId>)
      modifies this`doomed
      ensures Lists(locals, OfView(itemsByLocalId, view)) && doomed == old(doomed) + OfView(itemsByLocalId, view)
    {
      locals := [];
      var rest := itemsByLocalId.Keys;
      while rest != {}
        invariant rest <= itemsByLocalId.Keys && doomed == old(doomed)
        invariant Lists(locals, OfView(itemsByLocalId, view) - rest)
        decreases rest
      {
        var local :| local in rest;
        rest := rest - {local};
        if itemsByLocalId[local].view == view {
          ListsAppend(locals, Elements(locals), local);
          locals := locals + [local];
          assert Elements(locals) == OfView(itemsByLocalId, view) - rest;
        } else {
          assert OfView(itemsByLocalId, view) - rest == OfView(itemsByLocalId, view) - (rest + {local});
        }
      }
      assert OfView(itemsByLocalId, view) - {} == OfView(itemsByLocalId, view);
      doomed := doomed + OfView(itemsByLocalId, view);
    }

    /** A deletion handed to the executor goes out. */
    method OnBeginDelete(server: ServerId) returns (sent: bool)
      requires server in deleteDue
      modifies this`deleteDue
      ensures View() == DeleteBegun(old(View()), server) && sent == impl
    {
      deleteDue := deleteDue - multiset{server};
      sent := impl;
    }
  }

  // ---------- helper lemmas ----------

  lemma EnsureSameNext(s: State)
    ensures Ensured(s).nextLocal == s.nextLocal
  {
  }

  lemma AddSameNext(s: State, view: ViewId)
    ensures Added(s, view).nextLocal == s.nextLocal + 1
  {
  }
}
