/** The monitored items of a subscription and their bindings on the backing subscription. A bind
    is asynchronous: it is put in flight under a fresh handle and its result may arrive after the
    item has been deleted or bound again. */
module Bindings {
  import opened Common
  import opened PendingQueue

  type Handle = nat
  type BackingId = nat

  datatype Attribute = Value | EventNotifier | Unsupported
  datatype Mode = Disabled | Sampling | Reporting

  /** `handle` identifies the current binding towards the backing subscription; `backing` is the
      id it granted, 0 while the bind is in flight or after it failed. */
  datatype Item = Item(
    attribute: Attribute, mode: Mode, params: ItemParams, status: Status,
    handle: Handle, backing: BackingId)

  datatype Table = Table(
    items: map<ItemId, Item>,
    nextItem: nat,
    nextHandle: nat,
    started: bool,               // the backing subscription exists
    binds: map<Handle, ItemId>,  // binds in flight
    releases: seq<BackingId>)    // removals issued to the backing subscription, in order

  const EMPTY: Table := Table(map[], 1, 1, false, map[], [])

  /** `start` is what creating the backing subscription would answer. */
  datatype ItemRequest = ItemRequest(
    attribute: Attribute, mode: Mode, params: ItemParams, start: Status)

  predicate Supported(a: Attribute) {
    a != Unsupported
  }

  function Release(b: Table, backing: BackingId): (b': Table)
    ensures b' == b.(releases := b'.releases)
  {
    if backing == 0 || !b.started then b else b.(releases := b.releases + [backing])
  }

  /** What binding would answer, before anything changes. */
  function BindStatus(b: Table, attribute: Attribute, start: Status): Status {
    if !Supported(attribute) then BadAttributeIdInvalid
    else if !b.started then start
    else Good
  }

  /** Binds item `id`: the binding it had is released, a fresh handle is taken and a bind is put
      in flight under it. */
  function Rebind(b: Table, id: ItemId, item: Item): (b': Table)
    ensures b' == b.(started := true, releases := b'.releases, nextHandle := b.nextHandle + 1,
                     items := b.items[id := item.(status := Good, handle := b.nextHandle, backing := 0)],
                     binds := b.binds[b.nextHandle := id])
  {
    var b1 := Release(b.(started := true), item.backing);
    b1.(items := b1.items[id := item.(status := Good, handle := b.nextHandle, backing := 0)],
        binds := b1.binds[b.nextHandle := id],
        nextHandle := b.nextHandle + 1)
  }

  function Create(b: Table, r: ItemRequest): Table {
    var b1 := b.(nextItem := b.nextItem + 1);
    if BindStatus(b, r.attribute, r.start) != Good then b1
    else Rebind(b1, b.nextItem, Item(r.attribute, r.mode, r.params, Bad, 0, 0))
  }

  function Modify(b: Table, id: ItemId, p: ItemParams, start: Status): Table {
    if id !in b.items then b
    else
      var item := b.items[id].(params := p);
      var status := BindStatus(b, item.attribute, start);
      if status != Good then b.(items := b.items[id := item.(status := status)])
      else Rebind(b, id, item)
  }

  function DeleteOne(b: Table, id: ItemId): Table {
    if id !in b.items then b
    else
      var b1 := Release(b, b.items[id].backing);
      b1.(items := b1.items - {id})
  }

  function DeleteEach(b: Table, ids: seq<ItemId>): Table {
    if ids == [] then b
    else DeleteOne(DeleteEach(b, ids[..|ids| - 1]), ids[|ids| - 1])
  }

  function SetMode(b: Table, id: ItemId, mode: Mode): Table {
    if id in b.items then b.(items := b.items[id := b.items[id].(mode := mode)]) else b
  }

  /** The result of the bind in flight under `h` arrives. It belongs to the item only if the item
      is still there and still bound under `h`; otherwise what was granted is released. */
  function Settle(b: Table, h: Handle, status: Status, granted: BackingId): Table
    requires h in b.binds
  {
    var id := b.binds[h];
    var b1 := b.(binds := b.binds - {h});
    if id !in b.items || b.items[id].handle != h then
      if status == Good then Release(b1, granted) else b1
    else
      var item := b.items[id].(status := status);
      b1.(items := b.items[id := if status == Good then item.(backing := granted) else item])
  }

  /** Item `id` is currently bound under `h`. */
  ghost predicate Bound(b: Table, h: Handle, id: ItemId) {
    id in b.items && b.items[id].handle == h
  }

  ghost predicate Live(b: Table, h: Handle) {
    exists id :: Bound(b, h, id)
  }

  ghost function Holder(b: Table, h: Handle): (r: Option<ItemId>)
    ensures r.Some? ==> Bound(b, h, r.value)
    ensures r.None? ==> !Live(b, h)
  {
    if exists id :: Bound(b, h, id) then (var id :| Bound(b, h, id); Some(id)) else None
  }

  // ---------- invariants ----------

  /** Live items are bound under distinct handles already given out. */
  ghost predicate Apart(items: map<ItemId, Item>, nextItem: nat, nextHandle: nat, started: bool) {
    && (forall id :: id in items ==>
          && id < nextItem && started && Supported(items[id].attribute)
          && 0 < items[id].handle < nextHandle)
    && (forall i, j :: i in items && j in items && i != j ==> items[i].handle != items[j].handle)
  }

  /** A handle whose bind is still in flight has no backing id yet, and the bind knows its item. */
  ghost predicate InFlight(items: map<ItemId, Item>, binds: map<Handle, ItemId>, nextHandle: nat, started: bool) {
    && (forall h :: h in binds ==> 0 < h < nextHandle && started)
    && (forall id :: id in items && items[id].handle in binds ==>
          items[id].backing == 0 && binds[items[id].handle] == id)
  }

  ghost predicate Handles(b: Table) {
    && b.nextHandle > 0
    && Apart(b.items, b.nextItem, b.nextHandle, b.started)
    && InFlight(b.items, b.binds, b.nextHandle, b.started)
  }

  /** The live items holding backing id `x`. */
  function Holders(items: map<ItemId, Item>, x: BackingId): set<ItemId> {
    set id | id in items && items[id].backing == x
  }

  /** Grant for grant, every backing id handed out is held by a live item or has been released. */
  ghost predicate Grants(b: Table, granted: multiset<BackingId>) {
    forall x :: x != 0 ==> granted[x] == multiset(b.releases)[x] + |Holders(b.items, x)|
  }

  ghost predicate Tidy(b: Table, granted: multiset<BackingId>) {
    Handles(b) && Grants(b, granted)
  }

  // ---------- every operation keeps them ----------

  lemma HoldersUpdate(items: map<ItemId, Item>, id: ItemId, item: Item, x: BackingId)
    ensures |Holders(items[id := item], x)| ==
            |Holders(items, x)|
            - (if id in items && items[id].backing == x then 1 else 0)
            + (if item.backing == x then 1 else 0)
  {
    var before, after := Holders(items, x), Holders(items[id := item], x);
    var rest := before - {id};
    assert before == if id in items && items[id].backing == x then rest + {id} else rest;
    assert after == if item.backing == x then rest + {id} else rest;
  }

  lemma HoldersRemove(items: map<ItemId, Item>, id: ItemId, x: BackingId)
    requires id in items
    ensures |Holders(items - {id}, x)| ==
            |Holders(items, x)| - (if items[id].backing == x then 1 else 0)
  {
    assert Holders(items - {id}, x) == Holders(items, x) - {id};
  }

  lemma ReleaseCount(b: Table, r: BackingId, x: BackingId)
    requires b.started && x != 0
    ensures multiset(Release(b, r).releases)[x]
         == multiset(b.releases)[x] + (if r == x then 1 else 0)
  {
  }

  lemma RebindHandles(b: Table, id: ItemId, item: Item)
    requires Handles(b) && Supported(item.attribute) && id < b.nextItem
    ensures Handles(Rebind(b, id, item))
  {
  }

  lemma RebindTidy(b: Table, id: ItemId, item: Item, granted: multiset<BackingId>)
    requires Tidy(b, granted) && Supported(item.attribute) && id < b.nextItem
    requires if id in b.items then item.backing == b.items[id].backing else item.backing == 0
    ensures Tidy(Rebind(b, id, item), granted)
  {
    RebindHandles(b, id, item);
    hide Handles;
    var b' := Rebind(b, id, item);
    forall x | x != 0
      ensures granted[x] == multiset(b'.releases)[x] + |Holders(b'.items, x)|
    {
      HoldersUpdate(b.items, id, b'.items[id], x);
      ReleaseCount(b.(started := true), item.backing, x);
    }
  }

  lemma CreateTidy(b: Table, r: ItemRequest, granted: multiset<BackingId>)
    requires Tidy(b, granted)
    ensures Tidy(Create(b, r), granted)
  {
    var b1 := b.(nextItem := b.nextItem + 1);
    assert Tidy(b1, granted);
    if BindStatus(b, r.attribute, r.start) == Good {
      RebindTidy(b1, b.nextItem, Item(r.attribute, r.mode, r.params, Bad, 0, 0), granted);
    }
  }

  lemma ModifyTidy(b: Table, id: ItemId, p: ItemParams, start: Status, granted: multiset<BackingId>)
    requires Tidy(b, granted)
    ensures Tidy(Modify(b, id, p, start), granted)
  {
    if id in b.items {
      RebindTidy(b, id, b.items[id].(params := p), granted);
    }
  }

  lemma DeleteOneTidy(b: Table, id: ItemId, granted: multiset<BackingId>)
    requires Tidy(b, granted)
    ensures Tidy(DeleteOne(b, id), granted)
  {
    if id in b.items {
      var b' := DeleteOne(b, id);
      forall x | x != 0
        ensures granted[x] == multiset(b'.releases)[x] + |Holders(b'.items, x)|
      {
        HoldersRemove(b.items, id, x);
        ReleaseCount(b, b.items[id].backing, x);
      }
    }
  }

  lemma {:induction false} DeleteEachTidy(b: Table, ids: seq<ItemId>, granted: multiset<BackingId>)
    requires Tidy(b, granted)
    ensures Tidy(DeleteEach(b, ids), granted)
  {
    if ids != [] {
      DeleteEachTidy(b, ids[..|ids| - 1], granted);
      DeleteOneTidy(DeleteEach(b, ids[..|ids| - 1]), ids[|ids| - 1], granted);
    }
  }

  lemma SetModeTidy(b: Table, id: ItemId, mode: Mode, granted: multiset<BackingId>)
    requires Tidy(b, granted)
    ensures Tidy(SetMode(b, id, mode), granted)
  {
    if id in b.items {
      forall x | x != 0 {
        HoldersUpdate(b.items, id, b.items[id].(mode := mode), x);
      }
    }
  }

  /** An item gets another status, mode, parameters or backing id, but keeps its handle. */
  lemma SameHandleApart(b: Table, id: ItemId, item: Item)
    requires Apart(b.items, b.nextItem, b.nextHandle, b.started) && id in b.items
    requires item.handle == b.items[id].handle && item.attribute == b.items[id].attribute
    ensures Apart(b.items[id := item], b.nextItem, b.nextHandle, b.started)
  {
  }

  lemma SettledInFlight(b: Table, h: Handle, id: ItemId, item: Item)
    requires Apart(b.items, b.nextItem, b.nextHandle, b.started)
    requires InFlight(b.items, b.binds, b.nextHandle, b.started)
    requires id in b.items && b.items[id].handle == h == item.handle
    ensures InFlight(b.items[id := item], b.binds - {h}, b.nextHandle, b.started)
  {
  }

  lemma SettleHandles(b: Table, h: Handle, status: Status, x: BackingId)
    requires Handles(b) && h in b.binds
    ensures Handles(Settle(b, h, status, x))
  {
    var id, b' := b.binds[h], Settle(b, h, status, x);
    if Bound(b, h, id) {
      hide Apart, InFlight;
      SameHandleApart(b, id, b'.items[id]);
      SettledInFlight(b, h, id, b'.items[id]);
    } else {
      hide Apart;
    }
  }

  lemma SettleGrants(b: Table, h: Handle, status: Status, x: BackingId, granted: multiset<BackingId>)
    requires Tidy(b, granted) && h in b.binds
    ensures Grants(Settle(b, h, status, x), if status == Good then granted + multiset{x} else granted)
  {
    var id, b' := b.binds[h], Settle(b, h, status, x);
    if Bound(b, h, id) {
      assert b.items[id].backing == 0 && b'.releases == b.releases;
      forall y: BackingId
        ensures |Holders(b'.items, y)| == |Holders(b.items, y)|
                - (if y == 0 then 1 else 0) + (if b'.items[id].backing == y then 1 else 0)
      {
        HoldersUpdate(b.items, id, b'.items[id], y);
      }
    } else {
      assert b'.items == b.items;
    }
  }

  lemma SettleTidy(b: Table, h: Handle, status: Status, x: BackingId, granted: multiset<BackingId>)
    requires Tidy(b, granted) && h in b.binds
    ensures Tidy(Settle(b, h, status, x), if status == Good then granted + multiset{x} else granted)
  {
    SettleHandles(b, h, status, x);
    SettleGrants(b, h, status, x, granted);
  }

  lemma CreateHandles(b: Table, r: ItemRequest)
    requires Handles(b)
    ensures Handles(Create(b, r))
  {
    if Supported(r.attribute) {
      RebindHandles(b.(nextItem := b.nextItem + 1), b.nextItem,
        Item(r.attribute, r.mode, r.params, Bad, 0, 0));
    }
  }

  lemma ModifyHandles(b: Table, id: ItemId, p: ItemParams, start: Status)
    requires Handles(b)
    ensures Handles(Modify(b, id, p, start))
  {
    if id in b.items {
      RebindHandles(b, id, b.items[id].(params := p));
    }
  }

  lemma DeleteOneHandles(b: Table, id: ItemId)
    requires Handles(b)
    ensures Handles(DeleteOne(b, id))
  {
  }

  lemma SetModeHandles(b: Table, id: ItemId, mode: Mode)
    requires Handles(b)
    ensures Handles(SetMode(b, id, mode))
  {
  }

  // ---------- what deleting leaves ----------

  lemma {:induction false} DeleteEachItems(b: Table, ids: seq<ItemId>)
    ensures var b' := DeleteEach(b, ids);
            && b' == b.(items := b'.items, releases := b'.releases)
            && (forall id :: id in b'.items <==> id in b.items && id !in ids)
            && (forall id :: id in b'.items ==> b'.items[id] == b.items[id])
  {
    if ids != [] {
      var n := |ids| - 1;
      DeleteEachItems(b, ids[..n]);
      assert ids == ids[..n] + [ids[n]];
    }
  }

  // ---------- consequences ----------

  /** When the backing subscription never grants one id twice, each granted id is either held by
      exactly one live item and was never released, or released exactly once and held by none. */
  lemma GrantedOnce(b: Table, granted: multiset<BackingId>, x: BackingId)
    requires Tidy(b, granted) && x != 0 && granted[x] == 1
    ensures || (|Holders(b.items, x)| == 1 && multiset(b.releases)[x] == 0)
            || (|Holders(b.items, x)| == 0 && multiset(b.releases)[x] == 1)
  {
  }

  /** A late result leaves every item as it is and releases exactly what it was granted. */
  lemma LateResult(b: Table, h: Handle, status: Status, x: BackingId)
    requires Handles(b) && h in b.binds && !Live(b, h) && x != 0
    ensures var b' := Settle(b, h, status, x);
            b'.items == b.items
            && b'.releases == b.releases + (if status == Good then [x] else [])
  {
    assert !Bound(b, h, b.binds[h]);
  }
}
