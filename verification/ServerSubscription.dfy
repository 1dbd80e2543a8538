/** The server subscription as the object it is: fields updated in place, loops over queues and
    requests. Every method is proved to do what the subscription functions say. */
module ServerSubscription {
  import opened Common
  import opened PendingQueue
  import opened Retransmission
  import opened Bindings
  import opened Subscription

  class ServerSubscription {
    const id: nat
    var params: Params
    var initialSent: bool
    var lastPublish: Option<Time>
    var items: map<ItemId, Item>
    var nextItem: nat
    var nextHandle: nat
    var started: bool
    var binds: map<Handle, ItemId>
    var releases: seq<BackingId>
    var pending: seq<Entry>
    var held: seq<Message>
    var retained: int
    var nextNumber: nat

    function TableView(): Table
      reads this
    {
      Table(items, nextItem, nextHandle, started, binds, releases)
    }

    function RingView(): Ring
      reads this
    {
      Ring(held, retained, nextNumber)
    }

    function View(): Sub
      reads this
    {
      Sub(id, params, initialSent, lastPublish, TableView(), pending, RingView())
    }

    ghost predicate Valid()
      reads this
    {
      Handles(TableView())
    }

    constructor (id: nat, requested: Params, now: Time)
      ensures Valid() && View() == Initial(id, requested, now)
    {
      this.id := id;
      params := Revise(requested);
      initialSent, lastPublish := false, Some(now);
      items, nextItem, nextHandle, started, binds, releases := map[], 1, 1, false, map[], [];
      pending, held, retained, nextNumber := [], [], 0, 1;
    }

    method ModifySubscription(request: nat, requested: Params) returns (status: Status)
      modifies this`params
      ensures request != id ==> status == BadSubscriptionIdInvalid && View() == old(View())
      ensures request == id ==> status == Good && View() == Step(old(View()), ModifySub(requested))
    {
      if request != id {
        return BadSubscriptionIdInvalid;
      }
      params := Revise(requested);
      status := Good;
    }

    method SetPublishingEnabled(enabled: bool)
      modifies this`params
      ensures View() == Step(old(View()), SetEnabled(enabled))
    {
      params := params.(enabled := enabled);
    }

    // ---------- monitored items ----------

    method RemoveBackingItem(backing: BackingId)
      modifies this`releases
      ensures TableView() == Release(old(TableView()), backing)
    {
      if backing == 0 || !started {
        return;
      }
      releases := releases + [backing];
    }

    /** Binds `item` as item `target`; an answer other than Good changes nothing. */
    method RebindItem(target: ItemId, item: Item, start: Status) returns (status: Status)
      modifies this`items, this`nextHandle, this`started, this`binds, this`releases
      ensures status == BindStatus(old(TableView()), item.attribute, start)
      ensures TableView() ==
              if status == Good then Rebind(old(TableView()), target, item) else old(TableView())
    {
      if !Supported(item.attribute) {
        return BadAttributeIdInvalid;
      }
      if !started {
        if start != Good {
          return start;
        }
        started := true;
      }
      RemoveBackingItem(item.backing);
      items := items[target := item.(status := Good, handle := nextHandle, backing := 0)];
      binds := binds[nextHandle := target];
      nextHandle := nextHandle + 1;
      status := Good;
    }

    method CreateOne(r: ItemRequest) returns (result: ItemResult)
      modifies this`items, this`nextItem, this`nextHandle, this`started, this`binds, this`releases
      ensures TableView() == Create(old(TableView()), r)
      ensures result == CreateAnswer(old(TableView()), r)
    {
      var target := nextItem;
      nextItem := nextItem + 1;
      var status := RebindItem(target, Item(r.attribute, r.mode, r.params, Bad, 0, 0), r.start);
      result := ItemResult(status, if status == Good then target else 0, r.params.samplingMs, Limit(r.params));
    }

    method CreateMonitoredItems(request: nat, requests: seq<ItemRequest>)
      returns (status: Status, results: seq<ItemResult>)
      requires Valid()
      modifies this`items, this`nextItem, this`nextHandle, this`started, this`binds, this`releases
      ensures Valid()
      ensures request != id ==>
                status == BadSubscriptionIdInvalid && results == [] && TableView() == old(TableView())
      ensures request == id ==>
                status == Good && (TableView(), results) == CreateAll(old(TableView()), requests)
    {
      results := [];
      if request != id {
        return BadSubscriptionIdInvalid, [];
      }
      ghost var b0 := TableView();
      hide Handles, Create, CreateAnswer;
      for i := 0 to |requests|
        invariant Valid() && (TableView(), results) == CreateAll(b0, requests[..i])
      {
        assert requests[..i + 1][..i] == requests[..i];
        CreateHandles(TableView(), requests[i]);
        var result := CreateOne(requests[i]);
        results := results + [result];
      }
      assert requests[..|requests|] == requests;
      status := Good;
    }

    method ModifyOne(c: ItemChange) returns (result: ItemResult)
      modifies this`items, this`nextHandle, this`started, this`binds, this`releases
      ensures TableView() == Modify(old(TableView()), c.item, c.params, c.start)
      ensures result == ModifyAnswer(old(TableView()), c)
    {
      if c.item !in items {
        return ItemResult(BadMonitoredItemIdInvalid, 0, 0, 0);
      }
      var item := items[c.item].(params := c.params);
      var status := RebindItem(c.item, item, c.start);
      if status != Good {
        items := items[c.item := item.(status := status)];
      }
      result := ItemResult(status, 0, c.params.samplingMs, Limit(c.params));
    }

    method ModifyMonitoredItems(request: nat, changes: seq<ItemChange>)
      returns (status: Status, results: seq<ItemResult>)
      requires Valid()
      modifies this`items, this`nextHandle, this`started, this`binds, this`releases
      ensures Valid()
      ensures request != id ==>
                status == BadSubscriptionIdInvalid && results == [] && TableView() == old(TableView())
      ensures request == id ==>
                status == Good && (TableView(), results) == ModifyAll(old(TableView()), changes)
    {
      results := [];
      if request != id {
        return BadSubscriptionIdInvalid, [];
      }
      ghost var b0 := TableView();
      hide Handles, Modify, ModifyAnswer;
      for i := 0 to |changes|
        invariant Valid() && (TableView(), results) == ModifyAll(b0, changes[..i])
      {
        assert changes[..i + 1][..i] == changes[..i];
        ModifyHandles(TableView(), changes[i].item, changes[i].params, changes[i].start);
        var result := ModifyOne(changes[i]);
        results := results + [result];
      }
      assert changes[..|changes|] == changes;
      status := Good;
    }

    method ForgetItem(item: ItemId) returns (status: Status)
      modifies this`items, this`releases
      ensures TableView() == DeleteOne(old(TableView()), item)
      ensures status == FoundAnswer(old(TableView()), item)
    {
      if item !in items {
        return BadMonitoredItemIdInvalid;
      }
      RemoveBackingItem(items[item].backing);
      items := items - {item};
      status := Good;
    }

    method ForgetItems(ids: seq<ItemId>) returns (results: seq<Status>)
      requires Valid()
      modifies this`items, this`releases
      ensures Valid() && TableView() == DeleteEach(old(TableView()), ids)
      ensures results == DeleteAnswers(old(TableView()), ids)
    {
      ghost var b0 := TableView();
      results := [];
      hide Handles, DeleteOne, FoundAnswer;
      for i := 0 to |ids|
        invariant Valid() && TableView() == DeleteEach(b0, ids[..i])
        invariant results == DeleteAnswers(b0, ids[..i])
      {
        assert ids[..i + 1][..i] == ids[..i];
        DeleteOneHandles(TableView(), ids[i]);
        var result := ForgetItem(ids[i]);
        results := results + [result];
      }
      assert ids[..|ids|] == ids;
    }

    method PurgePending(ids: seq<ItemId>)
      modifies this`pending
      ensures pending == Without(old(pending), ids)
    {
      var kept := [];
      for i := 0 to |pending|
        invariant kept == Without(pending[..i], ids)
      {
        assert pending[..i + 1][..i] == pending[..i];
        if pending[i].source !in ids {
          kept := kept + [pending[i]];
        }
      }
      assert pending[..|pending|] == pending;
      pending := kept;
    }

    method DeleteMonitoredItems(request: nat, ids: seq<ItemId>)
      returns (status: Status, results: seq<Status>)
      requires Valid()
      modifies this`items, this`releases, this`pending
      ensures Valid()
      ensures request != id ==>
                status == BadSubscriptionIdInvalid && results == [] && View() == old(View())
      ensures request == id ==> status == Good && results == DeleteAnswers(old(TableView()), ids)
      ensures request == id ==> View() == Step(old(View()), DeleteItems(ids))
    {
      if request != id {
        return BadSubscriptionIdInvalid, [];
      }
      hide Handles, DeleteEach, Without, DeleteAnswers;
      results := ForgetItems(ids);
      PurgePending(ids);
      status := Good;
    }

    method SetMonitoringMode(request: nat, ids: seq<ItemId>, mode: Mode)
      returns (status: Status, results: seq<Status>)
      requires Valid()
      modifies this`items
      ensures Valid()
      ensures request != id ==>
                status == BadSubscriptionIdInvalid && results == [] && TableView() == old(TableView())
      ensures request == id ==>
                status == Good && (TableView(), results) == SetModeAll(old(TableView()), ids, mode)
    {
      results := [];
      if request != id {
        return BadSubscriptionIdInvalid, [];
      }
      ghost var b0 := TableView();
      hide Handles;
      for i := 0 to |ids|
        invariant Valid() && (TableView(), results) == SetModeAll(b0, ids[..i], mode)
      {
        assert ids[..i + 1][..i] == ids[..i];
        SetModeHandles(TableView(), ids[i], mode);
        if ids[i] !in items {
          results := results + [BadMonitoredItemIdInvalid];
        } else {
          items := items[ids[i] := items[ids[i]].(mode := mode)];
          results := results + [Good];
        }
      }
      assert ids[..|ids|] == ids;
      status := Good;
    }

    // ---------- queueing ----------

    method EnforceQueueLimit(source: ItemId, p: ItemParams)
      modifies this`pending
      ensures pending == Trim(old(pending), source, p)
    {
      var queueSize := Max(1, p.queueSize);
      var indices := [];
      for i := 0 to |pending|
        invariant indices == Positions(pending[..i], source)
      {
        assert pending[..i + 1][..i] == pending[..i];
        if pending[i].source == source {
          indices := indices + [i];
        }
      }
      assert pending[..|pending|] == pending;
      if |indices| <= queueSize {
        return;
      }
      PositionsSpan(pending, source);
      if !p.discardOldest {
        pending := RemoveAt(pending, indices[|indices| - 1]);
        return;
      }
      pending := RemoveAt(pending, indices[0]);
    }

    method QueueNotification(entry: Entry)
      requires entry.source in items
      modifies this`pending
      ensures pending == Enqueue(old(pending), TableView(), Some(entry))
    {
      pending := pending + [entry];
      EnforceQueueLimit(entry.source, items[entry.source].params);
    }

    method QueueItemStatus(source: ItemId, status: Status, passes: bool)
      requires source in items
      modifies this`pending
      ensures pending ==
              Enqueue(old(pending), TableView(), StatusEntry(TableView(), source, status, passes))
    {
      var item := items[source];
      if item.attribute == EventNotifier {
        QueueNotification(Entry(source, StatusChange(status)));
        return;
      }
      if item.mode != Reporting {
        return;
      }
      if !passes {
        return;
      }
      QueueNotification(Entry(source, StatusValue(item.params.clientHandle, status)));
    }

    method QueueReport(source: ItemId, report: Report, passes: bool)
      requires source in items
      modifies this`pending
      ensures pending ==
              Enqueue(old(pending), TableView(), ReportEntry(TableView(), source, report, passes))
    {
      var item := items[source];
      if item.mode != Reporting {
        return;
      }
      match report
      case Change(value) =>
        if passes {
          QueueNotification(Entry(source, DataChange(item.params.clientHandle, value)));
        }
      case Event(fields) =>
        QueueNotification(Entry(source, EventFields(item.params.clientHandle, fields)));
    }

    /** The result of a bind this subscription put in flight. */
    method OnBindResult(handle: Handle, status: Status, granted: BackingId, passes: bool)
      requires Valid() && handle in binds
      modifies this`items, this`binds, this`releases, this`pending
      ensures Valid() && View() == Step(old(View()), BindResult(handle, status, granted, passes))
    {
      hide Handles;
      SettleHandles(TableView(), handle, status, granted);
      var target := binds[handle];
      if target !in items || items[target].handle != handle {
        binds := binds - {handle};
        if status == Good {
          RemoveBackingItem(granted);
        }
        return;
      }
      if status != Good {
        QueueItemStatus(target, status, passes);
        items := items[target := items[target].(status := status)];
        binds := binds - {handle};
        return;
      }
      items := items[target := items[target].(status := status, backing := granted)];
      binds := binds - {handle};
    }

    /** The item bound under `handle`; handles are distinct, so there is at most one. */
    method FindBound(handle: Handle) returns (found: Option<ItemId>)
      requires Valid()
      ensures found == Holder(TableView(), handle)
    {
      var rest := items.Keys;
      while rest != {}
        invariant rest <= items.Keys
        invariant forall i :: i in items && i !in rest ==> items[i].handle != handle
        decreases rest
      {
        var i :| i in rest;
        if items[i].handle == handle {
          assert Bound(TableView(), handle, i);
          return Some(i);
        }
        rest := rest - {i};
      }
      assert forall i :: !Bound(TableView(), handle, i);
      found := None;
    }

    method OnNotifications(arrivals: seq<Arrival>)
      requires Valid()
      modifies this`pending
      ensures pending == NotifyAll(old(pending), TableView(), arrivals)
    {
      ghost var q0 := pending;
      hide Handles;
      for n := 0 to |arrivals|
        invariant pending == NotifyAll(q0, TableView(), arrivals[..n])
      {
        assert arrivals[..n + 1][..n] == arrivals[..n];
        var found := FindBound(arrivals[n].handle);
        if found.Some? {
          QueueReport(found.value, arrivals[n].report, arrivals[n].passes);
        }
      }
      assert arrivals[..|arrivals|] == arrivals;
    }

    /** The backing subscription failed: every item hears of it, in some order. */
    method OnSubscriptionError(status: Status, passes: ItemId -> bool) returns (ghost order: seq<ItemId>)
      modifies this`pending
      ensures Lists(order, items.Keys)
      ensures pending == ErrorAll(old(pending), TableView(), order, status, passes)
    {
      ghost var q0 := pending;
      order := [];
      var rest := items.Keys;
      ghost var seen: set<ItemId> := {};
      assert Lists(order, seen) && ErrorAll(q0, TableView(), order, status, passes) == q0;
      hide *;
      while rest != {}
        invariant seen + rest == items.Keys && seen !! rest && Lists(order, seen)
        invariant pending == ErrorAll(q0, TableView(), order, status, passes)
        decreases rest
      {
        var i :| i in rest;
        ErrorAllNext(q0, TableView(), order, i, status, passes);
        ListsAppend(order, seen, i);
        QueueItemStatus(i, status, passes(i));
        order, seen, rest := order + [i], seen + {i}, rest - {i};
      }
    }

    // ---------- publishing ----------

    method PrimePublishCycle(now: Time)
      modifies this`lastPublish
      ensures View() == Prime(old(View()), now)
    {
      if !params.enabled || lastPublish.Some? {
        return;
      }
      lastPublish := Some(now);
    }

    method AvailableSequenceNumbers() returns (numbers: seq<nat>)
      ensures numbers == Numbers(held)
    {
      numbers := [];
      for i := 0 to |held|
        invariant numbers == Numbers(held[..i])
      {
        assert held[..i + 1][..i] == held[..i];
        numbers := numbers + [held[i].number];
      }
      assert held[..|held|] == held;
    }

    /** Takes `count` entries off the front of the pending queue. */
    method Drain(count: nat) returns (data: seq<Data>)
      requires count <= |pending|
      modifies this`pending
      ensures data == Payload(old(pending)[..count]) && pending == old(pending)[count..]
    {
      ghost var q0 := pending;
      data := [];
      for i := 0 to count
        invariant pending == q0[i..] && data == Payload(q0[..i])
      {
        assert q0[..i + 1][..i] == q0[..i];
        data := data + [pending[0].data];
        pending := pending[1..];
      }
    }

    method KeepForRepublish(message: Message)
      modifies this`held, this`retained, this`nextNumber
      ensures RingView() == Retain(old(RingView()), message)
    {
      nextNumber := nextNumber + 1;
      held := held + [message];
      retained := retained + |message.data|;
      ghost var kept := Evict(held, retained);
      while |held| > 1 && retained > MAX_RETAINED
        invariant Evict(held, retained) == kept && nextNumber == old(nextNumber) + 1
        decreases |held|
      {
        retained := retained - |held[0].data|;
        held := held[1..];
      }
    }

    method PublishPending(now: Time) returns (response: Response)
      requires params.enabled && pending != []
      modifies this`lastPublish, this`initialSent, this`pending, this`held, this`retained, this`nextNumber
      ensures (View(), response) == PublishData(old(View()), now)
    {
      hide Payload, Retain, Numbers;
      ghost var s0 := View();
      var requested := if params.maxPerPublish == 0 then |pending| else params.maxPerPublish;
      var data := Drain(Min(Min(requested, MAX_PER_RESPONSE), |pending|));
      var message := Message(nextNumber, now, data);
      assert message == DataMessage(s0, now);
      KeepForRepublish(message);
      lastPublish := Some(now);
      initialSent := true;
      var available := AvailableSequenceNumbers();
      response := Response(id, pending != [], message, available);
    }

    method TryPublish(now: Time) returns (response: Option<Response>)
      modifies this`lastPublish, this`initialSent, this`pending, this`held, this`retained, this`nextNumber
      ensures (View(), response) == Subscription.TryPublish(old(View()), now)
    {
      hide PublishData;
      PrimePublishCycle(now);
      if !(params.enabled && pending != []) {
        if !IsPublishReady(View(), now) {
          return None;
        }
        var available := AvailableSequenceNumbers();
        lastPublish := Some(now);
        initialSent := true;
        return Some(Response(id, false, Message(nextNumber, now, []), available));
      }
      if !IsPublishReady(View(), now) {
        return None;
      }
      var answer := PublishPending(now);
      response := Some(answer);
    }

    // ---------- acknowledging ----------

    method FindMessage(number: nat) returns (found: Option<nat>)
      ensures found == Find(held, number)
    {
      for i := 0 to |held|
        invariant forall j :: 0 <= j < i ==> held[j].number != number
      {
        if held[i].number == number {
          return Some(i);
        }
      }
      found := None;
    }

    method AcknowledgeOne(number: nat) returns (status: Status)
      modifies this`held, this`retained
      ensures (RingView(), status) == Acknowledge(old(RingView()), number)
    {
      var found := FindMessage(number);
      if found.None? {
        return BadSequenceNumberUnknown;
      }
      retained := retained - |held[found.value].data|;
      held := RemoveAt(held, found.value);
      status := Good;
    }

    method AcknowledgeEach(numbers: seq<nat>) returns (results: seq<Status>)
      modifies this`held, this`retained
      ensures (RingView(), results) == AcknowledgeAll(old(RingView()), numbers)
    {
      ghost var r0 := RingView();
      results := [];
      for i := 0 to |numbers|
        invariant (RingView(), results) == AcknowledgeAll(r0, numbers[..i])
      {
        assert numbers[..i + 1][..i] == numbers[..i];
        var status := AcknowledgeOne(numbers[i]);
        results := results + [status];
      }
      assert numbers[..|numbers|] == numbers;
    }

    method RepublishMessage(number: nat) returns (status: Status, message: Option<Message>)
      ensures message == Republish(RingView(), number)
      ensures status == if message.Some? then Good else BadMessageNotAvailable
    {
      var found := FindMessage(number);
      if found.None? {
        return BadMessageNotAvailable, None;
      }
      return Good, Some(held[found.value]);
    }
  }
}
