/** A server subscription as a value: its state, what one service call or one backing event does
    to it, and what each call answers. The class in ServerSubscription.dfy keeps the same state in
    mutable fields and is proved to follow these functions. */
module Subscription {
  import opened Common
  import opened PendingQueue
  import opened Retransmission
  import opened Bindings

  const DEFAULT_KEEP_ALIVE: nat := 3
  const UINT32: nat := 0x1_0000_0000

  datatype Params = Params(
    intervalMs: int, lifetime: nat, keepAlive: nat, maxPerPublish: nat, enabled: bool)

  datatype Sub = Sub(
    id: nat,
    params: Params,
    initialSent: bool,
    lastPublish: Option<Time>,
    table: Table,
    pending: seq<Entry>,
    ring: Ring)

  /** What the backing subscription reports under a backing handle. */
  datatype Report = Change(value: int) | Event(fields: int)

  /** Everything that can happen to a subscription. `start` is what creating the backing
      subscription would answer, `passes` the deadband verdict on a data value. */
  datatype Op =
    | ModifySub(params: Params)
    | SetEnabled(enabled: bool)
    | CreateItem(request: ItemRequest)
    | ModifyItem(item: ItemId, itemParams: ItemParams, start: Status)
    | DeleteItems(items: seq<ItemId>)
    | ChangeMode(item: ItemId, mode: Mode)
    | BindResult(handle: Handle, status: Status, granted: BackingId, passes: bool)
    | Notify(handle: Handle, report: Report, passes: bool)
    | ItemError(item: ItemId, status: Status, passes: bool)
    | Ack(number: nat)
    | Publish(now: Time)

  // ---------- parameters and the publish clock ----------

  /** The 32-bit product can wrap, exactly as the unsigned arithmetic of the server does. */
  function Revise(p: Params): Params {
    var keepAlive := if p.keepAlive == 0 then DEFAULT_KEEP_ALIVE else p.keepAlive;
    var least := (3 * keepAlive) % UINT32;
    p.(keepAlive := keepAlive, lifetime := if p.lifetime < least then least else p.lifetime)
  }

  function PublishingInterval(p: Params): (ms: int)
    ensures ms >= 1
  {
    Max(1, p.intervalMs)
  }

  function KeepAliveInterval(p: Params): int {
    PublishingInterval(p) * Max(1, p.keepAlive)
  }

  lemma KeepAliveAtLeastInterval(p: Params)
    ensures KeepAliveInterval(p) >= PublishingInterval(p)
  {
    var i, k := PublishingInterval(p), Max(1, p.keepAlive);
    assert i * k == i + i * (k - 1);
  }

  predicate HasPublishable(s: Sub) {
    s.params.enabled && s.pending != []
  }

  predicate IsPublishReady(s: Sub, now: Time) {
    match s.lastPublish
    case None => false
    case Some(last) =>
      if s.initialSent && s.params.enabled && s.pending != []
      then now - last >= PublishingInterval(s.params)
      else if !s.initialSent then now - last >= PublishingInterval(s.params)
      else now - last >= KeepAliveInterval(s.params)
  }

  function NextPublishDeadline(s: Sub): Option<Time> {
    match s.lastPublish
    case None => None
    case Some(last) =>
      if !s.initialSent then Some(last + PublishingInterval(s.params))
      else Some(last + (if HasPublishable(s) then PublishingInterval(s.params)
                        else KeepAliveInterval(s.params)))
  }

  function Prime(s: Sub, now: Time): Sub {
    if !s.params.enabled || s.lastPublish.Some? then s else s.(lastPublish := Some(now))
  }

  // ---------- what a step queues ----------

  function StatusEntry(b: Table, id: ItemId, status: Status, passes: bool): Option<Entry>
    requires id in b.items
  {
    var item := b.items[id];
    if item.attribute == EventNotifier then Some(Entry(id, StatusChange(status)))
    else if item.mode == Reporting && passes
    then Some(Entry(id, StatusValue(item.params.clientHandle, status)))
    else None
  }

  function ReportEntry(b: Table, id: ItemId, report: Report, passes: bool): Option<Entry>
    requires id in b.items
  {
    var item := b.items[id];
    if item.mode != Reporting then None
    else match report
         case Change(v) =>
           if passes then Some(Entry(id, DataChange(item.params.clientHandle, v))) else None
         case Event(f) => Some(Entry(id, EventFields(item.params.clientHandle, f)))
  }

  /** The entry an operation puts into the pending queue, if it queues one. */
  ghost function Queues(b: Table, op: Op): (e: Option<Entry>)
    ensures e.Some? ==> e.value.source in b.items
  {
    match op
    case BindResult(h, status, _, passes) =>
      if h in b.binds && status != Good && Bound(b, h, b.binds[h])
      then StatusEntry(b, b.binds[h], status, passes) else None
    case Notify(h, report, passes) =>
      (match Holder(b, h)
       case None => None
       case Some(id) => ReportEntry(b, id, report, passes))
    case ItemError(id, status, passes) =>
      if id in b.items then StatusEntry(b, id, status, passes) else None
    case _ => None
  }

  function Enqueue(q: seq<Entry>, b: Table, e: Option<Entry>): seq<Entry>
    requires e.Some? ==> e.value.source in b.items
  {
    match e
    case None => q
    case Some(entry) => Push(q, entry, b.items[entry.source].params)
  }

  // ---------- publishing ----------

  datatype Response = Response(
    subscription: nat, more: bool, message: Message, available: seq<nat>)

  /** How many entries one response may carry: what the client asked, capped by the server. */
  function PerPublish(p: Params): (m: nat)
    ensures 1 <= m <= MAX_PER_RESPONSE
  {
    if p.maxPerPublish == 0 then MAX_PER_RESPONSE else Min(p.maxPerPublish, MAX_PER_RESPONSE)
  }

  function BatchSize(s: Sub): (m: nat)
    ensures m <= |s.pending| && m <= MAX_PER_RESPONSE
  {
    Min(PerPublish(s.params), |s.pending|)
  }

  function DataMessage(s: Sub, now: Time): Message {
    Message(s.ring.next, now, Payload(s.pending[..BatchSize(s)]))
  }

  function PublishKeepAlive(s: Sub, now: Time): (Sub, Response) {
    (s.(lastPublish := Some(now), initialSent := true),
     Response(s.id, false, Message(s.ring.next, now, []), Numbers(s.ring.held)))
  }

  function PublishData(s: Sub, now: Time): (Sub, Response) {
    var m := BatchSize(s);
    var ring := Retain(s.ring, DataMessage(s, now));
    (s.(pending := s.pending[m..], ring := ring, lastPublish := Some(now), initialSent := true),
     Response(s.id, m < |s.pending|, DataMessage(s, now), Numbers(ring.held)))
  }

  function TryPublish(s: Sub, now: Time): (Sub, Option<Response>) {
    var s1 := Prime(s, now);
    if !IsPublishReady(s1, now) then (s1, None)
    else if HasPublishable(s1) then (PublishData(s1, now).0, Some(PublishData(s1, now).1))
    else (PublishKeepAlive(s1, now).0, Some(PublishKeepAlive(s1, now).1))
  }

  // ---------- steps and runs ----------

  function Initial(id: nat, requested: Params, now: Time): Sub {
    Sub(id, Revise(requested), false, Some(now), EMPTY, [], Ring([], 0, 1))
  }

  /** What an operation does to the items and their bindings. */
  function StepTable(b: Table, op: Op): Table {
    match op
    case CreateItem(r) => Create(b, r)
    case ModifyItem(id, p, start) => Modify(b, id, p, start)
    case DeleteItems(ids) => DeleteEach(b, ids)
    case ChangeMode(id, mode) => SetMode(b, id, mode)
    case BindResult(h, status, x, _) => if h in b.binds then Settle(b, h, status, x) else b
    case _ => b
  }

  ghost function Step(s: Sub, op: Op): Sub {
    match op
    case ModifySub(p) => s.(params := Revise(p))
    case SetEnabled(b) => s.(params := s.params.(enabled := b))
    case DeleteItems(ids) =>
      s.(table := StepTable(s.table, op), pending := Without(s.pending, ids))
    case Ack(n) => s.(ring := Acknowledge(s.ring, n).0)
    case Publish(now) => TryPublish(s, now).0
    case _ =>
      s.(table := StepTable(s.table, op), pending := Enqueue(s.pending, s.table, Queues(s.table, op)))
  }

  ghost function Run(s: Sub, ops: seq<Op>): Sub {
    if ops == [] then s else Step(Run(s, ops[..|ops| - 1]), ops[|ops| - 1])
  }

  lemma {:induction false} RunConcat(s: Sub, a: seq<Op>, b: seq<Op>)
    ensures Run(s, a + b) == Run(Run(s, a), b)
  {
    if b == [] {
      assert a + b == a;
    } else {
      var n := |b| - 1;
      RunConcat(s, a, b[..n]);
      assert (a + b)[..|a + b| - 1] == a + b[..n];
    }
  }

  // ---------- whole requests ----------

  datatype ItemChange = ItemChange(item: ItemId, params: ItemParams, start: Status)
  datatype Arrival = Arrival(handle: Handle, report: Report, passes: bool)
  datatype ItemResult = ItemResult(status: Status, item: ItemId, samplingMs: int, queueSize: nat)

  function CreateAnswer(b: Table, r: ItemRequest): ItemResult {
    var status := BindStatus(b, r.attribute, r.start);
    ItemResult(status, if status == Good then b.nextItem else 0, r.params.samplingMs, Limit(r.params))
  }

  function ModifyAnswer(b: Table, c: ItemChange): ItemResult {
    if c.item !in b.items then ItemResult(BadMonitoredItemIdInvalid, 0, 0, 0)
    else ItemResult(BindStatus(b, b.items[c.item].attribute, c.start), 0, c.params.samplingMs, Limit(c.params))
  }

  function FoundAnswer(b: Table, id: ItemId): Status {
    if id in b.items then Good else BadMonitoredItemIdInvalid
  }

  /** The items of a request are taken one after the other; each answer is what the state left by
      the ones before it gives. */
  function CreateAll(b: Table, rs: seq<ItemRequest>): (Table, seq<ItemResult>) {
    if rs == [] then (b, [])
    else
      var n := |rs| - 1;
      var (b1, out) := CreateAll(b, rs[..n]);
      (Create(b1, rs[n]), out + [CreateAnswer(b1, rs[n])])
  }

  function ModifyAll(b: Table, cs: seq<ItemChange>): (Table, seq<ItemResult>) {
    if cs == [] then (b, [])
    else
      var n := |cs| - 1;
      var (b1, out) := ModifyAll(b, cs[..n]);
      (Modify(b1, cs[n].item, cs[n].params, cs[n].start), out + [ModifyAnswer(b1, cs[n])])
  }

  function DeleteAnswers(b: Table, ids: seq<ItemId>): seq<Status> {
    if ids == [] then []
    else
      var n := |ids| - 1;
      DeleteAnswers(b, ids[..n]) + [FoundAnswer(DeleteEach(b, ids[..n]), ids[n])]
  }

  function SetModeAll(b: Table, ids: seq<ItemId>, mode: Mode): (Table, seq<Status>) {
    if ids == [] then (b, [])
    else
      var n := |ids| - 1;
      var (b1, out) := SetModeAll(b, ids[..n], mode);
      (SetMode(b1, ids[n], mode), out + [FoundAnswer(b1, ids[n])])
  }

  function AcknowledgeAll(r: Ring, ns: seq<nat>): (Ring, seq<Status>) {
    if ns == [] then (r, [])
    else
      var n := |ns| - 1;
      var (r1, out) := AcknowledgeAll(r, ns[..n]);
      var (r2, status) := Acknowledge(r1, ns[n]);
      (r2, out + [status])
  }

  ghost function NotifyAll(q: seq<Entry>, b: Table, arrivals: seq<Arrival>): seq<Entry> {
    if arrivals == [] then q
    else
      var n := |arrivals| - 1;
      var a := arrivals[n];
      Enqueue(NotifyAll(q, b, arrivals[..n]), b, Queues(b, Notify(a.handle, a.report, a.passes)))
  }

  ghost function ErrorAll(
      q: seq<Entry>, b: Table, order: seq<ItemId>, status: Status, passes: ItemId -> bool): seq<Entry>
  {
    if order == [] then q
    else
      var n := |order| - 1;
      Enqueue(ErrorAll(q, b, order[..n], status, passes), b,
        Queues(b, ItemError(order[n], status, passes(order[n]))))
  }

  lemma ErrorAllNext(
      q: seq<Entry>, b: Table, order: seq<ItemId>, i: ItemId, status: Status, passes: ItemId -> bool)
    requires i in b.items
    ensures ErrorAll(q, b, order + [i], status, passes)
         == Enqueue(ErrorAll(q, b, order, status, passes), b, StatusEntry(b, i, status, passes(i)))
  {
    assert (order + [i])[..|order|] == order;
  }

  // Each of these is a run of single operations, so the theorems about runs apply to requests.

  lemma {:induction false} CreateAllRuns(s: Sub, rs: seq<ItemRequest>) returns (ops: seq<Op>)
    ensures Run(s, ops) == s.(table := CreateAll(s.table, rs).0)
  {
    if rs == [] {
      ops := [];
    } else {
      var n := |rs| - 1;
      var ops0 := CreateAllRuns(s, rs[..n]);
      ops := ops0 + [CreateItem(rs[n])];
      assert ops[..|ops| - 1] == ops0;
    }
  }

  lemma {:induction false} ModifyAllRuns(s: Sub, cs: seq<ItemChange>) returns (ops: seq<Op>)
    ensures Run(s, ops) == s.(table := ModifyAll(s.table, cs).0)
  {
    if cs == [] {
      ops := [];
    } else {
      var n := |cs| - 1;
      var ops0 := ModifyAllRuns(s, cs[..n]);
      ops := ops0 + [ModifyItem(cs[n].item, cs[n].params, cs[n].start)];
      assert ops[..|ops| - 1] == ops0;
    }
  }

  lemma {:induction false} SetModeAllRuns(s: Sub, ids: seq<ItemId>, mode: Mode) returns (ops: seq<Op>)
    ensures Run(s, ops) == s.(table := SetModeAll(s.table, ids, mode).0)
  {
    if ids == [] {
      ops := [];
    } else {
      var n := |ids| - 1;
      var ops0 := SetModeAllRuns(s, ids[..n], mode);
      ops := ops0 + [ChangeMode(ids[n], mode)];
      assert ops[..|ops| - 1] == ops0;
    }
  }

  lemma {:induction false} AcknowledgeAllRuns(s: Sub, ns: seq<nat>) returns (ops: seq<Op>)
    ensures Run(s, ops) == s.(ring := AcknowledgeAll(s.ring, ns).0)
  {
    if ns == [] {
      ops := [];
    } else {
      var n := |ns| - 1;
      var ops0 := AcknowledgeAllRuns(s, ns[..n]);
      ops := ops0 + [Ack(ns[n])];
      assert ops[..|ops| - 1] == ops0;
    }
  }

  lemma {:induction false} NotifyAllRuns(s: Sub, arrivals: seq<Arrival>) returns (ops: seq<Op>)
    ensures Run(s, ops) == s.(pending := NotifyAll(s.pending, s.table, arrivals))
  {
    if arrivals == [] {
      ops := [];
    } else {
      var n := |arrivals| - 1;
      var ops0 := NotifyAllRuns(s, arrivals[..n]);
      ops := ops0 + [Notify(arrivals[n].handle, arrivals[n].report, arrivals[n].passes)];
      assert ops[..|ops| - 1] == ops0;
    }
  }

  lemma {:induction false} ErrorAllRuns(
      s: Sub, order: seq<ItemId>, status: Status, passes: ItemId -> bool) returns (ops: seq<Op>)
    ensures Run(s, ops) == s.(pending := ErrorAll(s.pending, s.table, order, status, passes))
  {
    if order == [] {
      ops := [];
    } else {
      var n := |order| - 1;
      var ops0 := ErrorAllRuns(s, order[..n], status, passes);
      ops := ops0 + [ItemError(order[n], status, passes(order[n]))];
      assert ops[..|ops| - 1] == ops0;
    }
  }
}
