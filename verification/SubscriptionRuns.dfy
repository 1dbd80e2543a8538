/** What holds after every run of a subscription, whatever the order of service calls, backing
    notifications, late bind results and publishes. */
module SubscriptionRuns {
  import opened Common
  import opened PendingQueue
  import opened Retransmission
  import opened Bindings
  import opened Subscription

  /** The history a run leaves beside the state it reaches. */
  datatype Trace = Trace(
    book: Book,                     // notifications: queued, delivered, waiting, dropped
    mail: Mail,                     // messages: sent, acknowledged, evicted
    granted: multiset<BackingId>,   // ids the backing subscription handed out
    steps: nat)                     // how long the run is

  const NO_HISTORY: Trace := Trace(Book([], [], [], map[]), Mail([], {}, {}), multiset{}, 0)

  // ---------- recording one operation ----------

  /** A publish at `now` carries data. */
  predicate CarriesData(s: Sub, now: Time) {
    IsPublishReady(Prime(s, now), now) && HasPublishable(s)
  }

  ghost predicate Lined(s: Sub, b: Book) {
    && |b.waiting| == |s.pending|
    && forall i :: 0 <= i < |b.waiting| ==> 0 <= b.waiting[i] < |b.queued|
  }

  ghost function RecordBook(b: Book, s: Sub, op: Op, step: nat): Book
    requires Lined(s, b)
  {
    match op
    case DeleteItems(ids) => BookDelete(b, ids, step)
    case Publish(now) => if CarriesData(s, now) then BookDrain(b, BatchSize(s)) else b
    case _ =>
      match Queues(s.table, op)
      case None => b
      case Some(e) => BookPush(b, s.pending, e, s.table.items[e.source].params, step)
  }

  ghost function RecordMail(m: Mail, s: Sub, op: Op): Mail {
    match op
    case Ack(n) => MailAck(m, s.ring, n)
    case Publish(now) => if CarriesData(s, now) then MailSend(m, s.ring, DataMessage(s, now)) else m
    case _ => m
  }

  function RecordGrant(granted: multiset<BackingId>, b: Table, op: Op): multiset<BackingId> {
    if op.BindResult? && op.handle in b.binds && op.status == Good
    then granted + multiset{op.granted} else granted
  }

  ghost function Record(t: Trace, s: Sub, op: Op): Trace
    requires Lined(s, t.book)
  {
    Trace(RecordBook(t.book, s, op, t.steps), RecordMail(t.mail, s, op),
      RecordGrant(t.granted, s.table, op), t.steps + 1)
  }

  // ---------- the invariant of every run ----------

  /** What the messages sent so far carry, one after the other. */
  function Flatten(sent: seq<Message>): seq<Data> {
    if sent == [] then [] else Flatten(sent[..|sent| - 1]) + sent[|sent| - 1].data
  }

  ghost predicate Inv(s: Sub, t: Trace) {
    && Lined(s, t.book)
    && Balanced(Flatten(t.mail.sent), s.pending, t.book)
    && Justified(s.table.items.Keys, s.table.nextItem, s.pending, t.book)
    && Faithful(s.ring, t.mail)
    && Tidy(s.table, t.granted)
    && s.lastPublish.Some?
  }

  // ---------- one step at a time, one ledger at a time ----------

  lemma StepTidy(b: Table, granted: multiset<BackingId>, op: Op)
    requires Tidy(b, granted)
    ensures Tidy(StepTable(b, op), RecordGrant(granted, b, op))
  {
    hide Tidy;
    match op {
      case CreateItem(r) => CreateTidy(b, r, granted);
      case ModifyItem(id, p, start) => ModifyTidy(b, id, p, start, granted);
      case DeleteItems(ids) => DeleteEachTidy(b, ids, granted);
      case ChangeMode(id, mode) => SetModeTidy(b, id, mode, granted);
      case BindResult(h, status, x, _) =>
        if h in b.binds {
          SettleTidy(b, h, status, x, granted);
        }
      case _ =>
    }
  }

  /** Live items come and go, but ids are never used again and only a modify changes a limit. */
  lemma StepItems(b: Table, op: Op)
    requires Handles(b)
    ensures var b' := StepTable(b, op);
            && b.nextItem <= b'.nextItem && b.nextHandle <= b'.nextHandle
            && (forall id :: id in b'.items ==> id in b.items || (op.CreateItem? && id == b.nextItem))
            && (!op.DeleteItems? ==> b.items.Keys <= b'.items.Keys)
            && (op.CreateItem? && b.nextItem in b'.items ==>
                  BindStatus(b, op.request.attribute, op.request.start) == Good
                  && b'.items[b.nextItem].params == op.request.params)
            && (forall id :: id in b.items && id in b'.items && !op.ModifyItem? ==>
                  b'.items[id].params == b.items[id].params)
            && (forall id :: id in b.items && id in b'.items && op.ModifyItem? ==>
                  b'.items[id].params == if id == op.item then op.itemParams else b.items[id].params)
  {
    if op.DeleteItems? {
      DeleteEachItems(b, op.items);
    }
  }

  lemma StepFaithful(s: Sub, t: Trace, op: Op)
    requires Faithful(s.ring, t.mail)
    ensures Faithful(Step(s, op).ring, RecordMail(t.mail, s, op))
  {
    hide Faithful;
    match op {
      case Ack(n) => AckFaithful(s.ring, t.mail, n);
      case Publish(now) =>
        if CarriesData(s, now) {
          RingNext(s.ring, t.mail);
          SendFaithful(s.ring, t.mail, DataMessage(s, now));
        }
      case _ =>
    }
  }

  lemma RingNext(r: Ring, m: Mail)
    requires Faithful(r, m)
    ensures r.next == |m.sent| + 1
  {
  }

  lemma StepBalanced(s: Sub, t: Trace, op: Op)
    requires Lined(s, t.book) && Balanced(Flatten(t.mail.sent), s.pending, t.book)
    ensures Balanced(Flatten(RecordMail(t.mail, s, op).sent), Step(s, op).pending,
              RecordBook(t.book, s, op, t.steps))
  {
    hide Balanced, Retain;
    var flat := Flatten(t.mail.sent);
    if op.DeleteItems? {
      DeleteBalanced(flat, s.pending, t.book, op.items, t.steps);
    } else if op.Publish? {
      if CarriesData(s, op.now) {
        DrainBalanced(flat, s.pending, t.book, BatchSize(s));
        var sent := t.mail.sent + [DataMessage(s, op.now)];
        assert sent[..|t.mail.sent|] == t.mail.sent;
        assert RecordMail(t.mail, s, op).sent == sent;
      }
    } else {
      var e := Queues(s.table, op);
      if e.Some? {
        PushBalanced(flat, s.pending, t.book, e.value, s.table.items[e.value.source].params, t.steps);
      }
    }
  }

  lemma BalancedLined(s: Sub, flat: seq<Data>, b: Book)
    requires Balanced(flat, s.pending, b)
    ensures Lined(s, b) && Increasing(b.waiting)
    ensures forall k :: k in b.dropped ==> 0 <= k < |b.queued|
  {
  }

  lemma JustifiedGrows(live: set<ItemId>, next: nat, live': set<ItemId>, next': nat,
      q: seq<Entry>, b: Book)
    requires Justified(live, next, q, b) && next <= next' && live <= live'
    requires forall id :: id in live' ==> id in live || (id == next && next < next')
    ensures Justified(live', next', q, b)
  {
  }

  lemma JustifiedDrain(live: set<ItemId>, next: nat, q: seq<Entry>, b: Book, m: nat)
    requires Justified(live, next, q, b) && m <= |q| && m <= |b.waiting|
    ensures Justified(live, next, q[m..], BookDrain(b, m))
  {
  }

  lemma StepJustified(s: Sub, t: Trace, op: Op)
    requires Lined(s, t.book) && Balanced(Flatten(t.mail.sent), s.pending, t.book)
    requires Handles(s.table)
    requires Justified(s.table.items.Keys, s.table.nextItem, s.pending, t.book)
    ensures var s' := Step(s, op);
            Justified(s'.table.items.Keys, s'.table.nextItem, s'.pending, RecordBook(t.book, s, op, t.steps))
  {
    hide Balanced, Justified, Handles, Flatten, Lined;
    BalancedLined(s, Flatten(t.mail.sent), t.book);
    var b, b' := s.table, StepTable(s.table, op);
    if op.DeleteItems? {
      DeleteJustified(b.items.Keys, b.nextItem, s.pending, t.book, op.items, t.steps);
      DeleteEachItems(b, op.items);
      hide DeleteEach;
      assert b'.items.Keys == b.items.Keys - Elements(op.items);
    } else if op.Publish? {
      if CarriesData(s, op.now) {
        JustifiedDrain(b.items.Keys, b.nextItem, s.pending, t.book, BatchSize(s));
      }
    } else if op.CreateItem? {
      HandlesBelow(b);
      CreateGrows(b, op.request);
      hide Create;
      JustifiedGrows(b.items.Keys, b.nextItem, b'.items.Keys, b'.nextItem, s.pending, t.book);
    } else {
      SameItems(b, op);
      hide StepTable;
      var e := Queues(b, op);
      if e.Some? {
        PushJustified(b.items.Keys, b.nextItem, s.pending, t.book, e.value,
          b.items[e.value.source].params, t.steps);
      }
    }
  }

  lemma HandlesBelow(b: Table)
    requires Handles(b)
    ensures forall id :: id in b.items.Keys ==> id < b.nextItem
  {
  }

  lemma CreateGrows(b: Table, r: ItemRequest)
    ensures var b' := Create(b, r);
            && b'.nextItem == b.nextItem + 1
            && b.items.Keys <= b'.items.Keys <= b.items.Keys + {b.nextItem}
  {
  }

  lemma SameItems(b: Table, op: Op)
    requires !op.DeleteItems? && !op.CreateItem?
    ensures var b' := StepTable(b, op); b'.items.Keys == b.items.Keys && b'.nextItem == b.nextItem
  {
  }

  /** What a step does to an item's share of the queue. Only a publish or a delete shrinks it, and
      queueing never grows it past the limit of that moment. */
  lemma StepCount(s: Sub, op: Op, id: ItemId)
    ensures var e, n, n' := Queues(s.table, op), Count(s.pending, id), Count(Step(s, op).pending, id);
            if e.Some? && e.value.source == id
            then n' == if n < Limit(s.table.items[id].params) then n + 1 else n
            else n' <= n && (!op.Publish? && !op.DeleteItems? ==> n' == n)
  {
    hide Count;
    if op.DeleteItems? {
      CountWithout(s.pending, op.items, id);
    } else if op.Publish? {
      var m := |s.pending| - |Step(s, op).pending|;
      assert s.pending == s.pending[..m] + Step(s, op).pending;
      CountSplit(s.pending[..m], Step(s, op).pending, id);
    } else {
      var e := Queues(s.table, op);
      if e.Some? {
        PushCount(s.pending, e.value, s.table.items[e.value.source].params, id);
      }
    }
  }

  lemma StepKeeps(s: Sub, t: Trace, op: Op)
    requires Inv(s, t)
    ensures Inv(Step(s, op), Record(t, s, op))
  {
    assert Handles(s.table);
    StepTidy(s.table, t.granted, op);
    StepFaithful(s, t, op);
    StepBalanced(s, t, op);
    StepJustified(s, t, op);
    var s', t' := Step(s, op), Record(t, s, op);
    assert s'.table == StepTable(s.table, op);
    BalancedLined(s', Flatten(t'.mail.sent), t'.book);
  }

  // ---------- whole runs ----------

  lemma InitialInv(id: nat, p: Params, now: Time)
    ensures Inv(Initial(id, p, now), NO_HISTORY)
  {
    hide Revise;
    EmptyTidy();
    hide Tidy;
  }

  lemma EmptyTidy()
    ensures Tidy(EMPTY, multiset{})
  {
  }

  /** The history after the operations `ops`, which keep the invariant. */
  ghost function Follow(s: Sub, t: Trace, ops: seq<Op>): (t': Trace)
    requires Inv(s, t)
    ensures Inv(Run(s, ops), t')
  {
    if ops == [] then t
    else
      var n := |ops| - 1;
      var t1 := Follow(s, t, ops[..n]);
      StepKeeps(Run(s, ops[..n]), t1, ops[n]);
      Record(t1, Run(s, ops[..n]), ops[n])
  }

  /** The history of a run from a fresh subscription. */
  ghost function History(id: nat, p: Params, now: Time, ops: seq<Op>): (t: Trace)
    ensures Inv(Run(Initial(id, p, now), ops), t)
  {
    InitialInv(id, p, now);
    Follow(Initial(id, p, now), NO_HISTORY, ops)
  }

  // ---------- what a run delivers ----------

  /** The message with data, if any, that a publish is answered with. */
  function DataSent(s: Sub, op: Op): seq<Message> {
    if !op.Publish? then []
    else
      match TryPublish(s, op.now).1
      case None => []
      case Some(response) => if response.message.data == [] then [] else [response.message]
  }

  /** The messages with data that the publishes of a run are answered with, in order. */
  ghost function Sends(s: Sub, ops: seq<Op>): seq<Message> {
    if ops == [] then []
    else
      var n := |ops| - 1;
      Sends(s, ops[..n]) + DataSent(Run(s, ops[..n]), ops[n])
  }

  /** A publish is answered with data exactly when it carries some. */
  lemma DataSentExact(s: Sub, op: Op)
    ensures DataSent(s, op)
            == if op.Publish? && CarriesData(s, op.now) then [DataMessage(s, op.now)] else []
  {
    hide Retain, Numbers;
    if op.Publish? {
      var s1 := Prime(s, op.now);
      assert DataMessage(s1, op.now) == DataMessage(s, op.now);
      assert s.pending != [] ==> |DataMessage(s, op.now).data| > 0;
    }
  }

  /** The ledger's messages are the ones the publishes were answered with. */
  lemma {:induction false} MailIsSent(s: Sub, t: Trace, ops: seq<Op>)
    requires Inv(s, t)
    ensures Follow(s, t, ops).mail.sent == t.mail.sent + Sends(s, ops)
    ensures Follow(s, t, ops).steps == t.steps + |ops|
  {
    hide Inv, Step, RecordBook, CarriesData, DataMessage, DataSent;
    if ops != [] {
      var n := |ops| - 1;
      MailIsSent(s, t, ops[..n]);
      var s1, t1 := Run(s, ops[..n]), Follow(s, t, ops[..n]);
      InvLined(s1, t1);
      assert Follow(s, t, ops) == Record(t1, s1, ops[n]);
      DataSentExact(s1, ops[n]);
      MailGrows(t1.mail, s1, ops[n]);
    }
  }

  lemma InvLined(s: Sub, t: Trace)
    requires Inv(s, t)
    ensures Lined(s, t.book)
  {
  }

  lemma MailGrows(m: Mail, s: Sub, op: Op)
    ensures RecordMail(m, s, op).sent == m.sent
              + if op.Publish? && CarriesData(s, op.now) then [DataMessage(s, op.now)] else []
  {
    hide CarriesData, DataMessage;
  }

  // ---------- what a run queues, and how messages leave ----------

  /** The entries the operations of a run queue, in order. */
  ghost function Enqueued(s: Sub, ops: seq<Op>): seq<Entry> {
    if ops == [] then []
    else
      var n := |ops| - 1;
      var e := Queues(Run(s, ops[..n]).table, ops[n]);
      Enqueued(s, ops[..n]) + (if e.Some? then [e.value] else [])
  }

  /** The operation acknowledges message `n`. */
  ghost predicate Acknowledges(s: Sub, op: Op, n: int) {
    op.Ack? && op.number == n && Acknowledge(s.ring, op.number).1 == Good
  }

  /** The operation publishes data, and message `n`, with the messages after it and the new one, no
      longer fits. */
  ghost predicate Evicts(s: Sub, op: Op, n: int) {
    op.Publish? && CarriesData(s, op.now) && Overflows(s.ring.held, DataMessage(s, op.now), n)
  }

  /** Some step of the run acknowledges message `n`. */
  ghost predicate Acknowledged(s: Sub, ops: seq<Op>, n: int) {
    exists i :: 0 <= i < |ops| && Acknowledges(Run(s, ops[..i]), ops[i], n)
  }

  /** Some step of the run evicts message `n`. */
  ghost predicate Evicted(s: Sub, ops: seq<Op>, n: int) {
    exists i :: 0 <= i < |ops| && Evicts(Run(s, ops[..i]), ops[i], n)
  }

  lemma AcknowledgedNext(s: Sub, ops: seq<Op>, n: int)
    requires ops != []
    ensures var m := |ops| - 1;
            Acknowledged(s, ops, n)
            <==> Acknowledged(s, ops[..m], n) || Acknowledges(Run(s, ops[..m]), ops[m], n)
  {
    hide Run, Acknowledges;
    var m := |ops| - 1;
    if Acknowledged(s, ops[..m], n) {
      var i :| 0 <= i < m && Acknowledges(Run(s, ops[..m][..i]), ops[..m][i], n);
      assert ops[..m][..i] == ops[..i];
      assert Acknowledges(Run(s, ops[..i]), ops[i], n);
    }
    if Acknowledged(s, ops, n) {
      var i :| 0 <= i < |ops| && Acknowledges(Run(s, ops[..i]), ops[i], n);
      if i < m {
        assert ops[..m][..i] == ops[..i];
        assert Acknowledges(Run(s, ops[..m][..i]), ops[..m][i], n);
      }
    }
  }

  lemma EvictedNext(s: Sub, ops: seq<Op>, n: int)
    requires ops != []
    ensures var m := |ops| - 1;
            Evicted(s, ops, n) <==> Evicted(s, ops[..m], n) || Evicts(Run(s, ops[..m]), ops[m], n)
  {
    hide Run, Evicts;
    var m := |ops| - 1;
    if Evicted(s, ops[..m], n) {
      var i :| 0 <= i < m && Evicts(Run(s, ops[..m][..i]), ops[..m][i], n);
      assert ops[..m][..i] == ops[..i];
      assert Evicts(Run(s, ops[..i]), ops[i], n);
    }
    if Evicted(s, ops, n) {
      var i :| 0 <= i < |ops| && Evicts(Run(s, ops[..i]), ops[i], n);
      if i < m {
        assert ops[..m][..i] == ops[..i];
        assert Evicts(Run(s, ops[..m][..i]), ops[..m][i], n);
      }
    }
  }

  lemma StepRemoves(s: Sub, t: Trace, op: Op, n: int)
    requires Inv(s, t)
    ensures var m := RecordMail(t.mail, s, op);
            && (n in m.acked <==> n in t.mail.acked || Acknowledges(s, op, n))
            && (n in m.evicted <==> n in t.mail.evicted || Evicts(s, op, n))
  {
    hide Balanced, Justified, Tidy, Flatten, Lined, Overflows, CarriesData, Retain;
    if op.Publish? && CarriesData(s, op.now) {
      RingNext(s.ring, t.mail);
      BatchNotEmpty(s, op.now);
      SendEvicts(s.ring, t.mail, DataMessage(s, op.now), n);
    }
  }

  lemma BatchNotEmpty(s: Sub, now: Time)
    requires CarriesData(s, now)
    ensures 1 <= |DataMessage(s, now).data| <= MAX_PER_RESPONSE && DataMessage(s, now).number == s.ring.next
  {
  }

  lemma BookGrows(b: Book, s: Sub, op: Op, step: nat)
    requires Lined(s, b)
    ensures var e := Queues(s.table, op);
            RecordBook(b, s, op, step).queued == b.queued + (if e.Some? then [e.value] else [])
  {
    hide CarriesData, Survivors, Removed;
    assert b.queued + [] == b.queued;
  }

  /** The ledger is that of the run: it has the entries the operations queued, and the messages they
      acknowledged and evicted. */
  lemma {:induction false} LedgerIsOfRun(s: Sub, t: Trace, ops: seq<Op>, n: int)
    requires Inv(s, t)
    ensures var t' := Follow(s, t, ops);
            && t'.book.queued == t.book.queued + Enqueued(s, ops)
            && (n in t'.mail.acked <==> n in t.mail.acked || Acknowledged(s, ops, n))
            && (n in t'.mail.evicted <==> n in t.mail.evicted || Evicted(s, ops, n))
  {
    hide Inv, Step, RecordBook, RecordMail, Acknowledged, Evicted, Acknowledges, Evicts, Queues, Lined;
    if ops == [] {
      NothingRemoved(s, n);
      assert t.book.queued + Enqueued(s, ops) == t.book.queued;
    } else {
      var m := |ops| - 1;
      LedgerIsOfRun(s, t, ops[..m], n);
      var s1, t1 := Run(s, ops[..m]), Follow(s, t, ops[..m]);
      InvLined(s1, t1);
      assert Follow(s, t, ops) == Record(t1, s1, ops[m]);
      BookGrows(t1.book, s1, ops[m], t1.steps);
      StepRemoves(s1, t1, ops[m], n);
      AcknowledgedNext(s, ops, n);
      EvictedNext(s, ops, n);
    }
  }

  lemma NothingRemoved(s: Sub, n: int)
    ensures !Acknowledged(s, [], n) && !Evicted(s, [], n)
  {
  }
}
