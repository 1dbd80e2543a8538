/** The pending queue of a subscription: one queue shared by all monitored items, trimmed per
    item. Beside it, the ledger of everything ever queued and what became of it. */
module PendingQueue {
  import opened Common

  type ItemId = nat

  datatype ItemParams = ItemParams(
    clientHandle: nat, queueSize: nat, discardOldest: bool, samplingMs: int := 0)

  /** The payload of one queued entry: exactly one monitored-item notification. */
  datatype Data =
    | DataChange(clientHandle: nat, value: int)
    | StatusValue(clientHandle: nat, status: Status)
    | EventFields(clientHandle: nat, fields: int)
    | StatusChange(status: Status)

  datatype Entry = Entry(source: ItemId, data: Data)

  /** The effective queue size of an item. */
  function Limit(p: ItemParams): nat {
    if p.queueSize == 0 then 1 else p.queueSize
  }

  /** How many entries of one item are waiting. */
  function Count(q: seq<Entry>, id: ItemId): nat {
    if q == [] then 0
    else Count(q[..|q| - 1], id) + (if q[|q| - 1].source == id then 1 else 0)
  }

  /** Where the entries of one item stand in the shared queue, in order. */
  function Positions(q: seq<Entry>, id: ItemId): (ps: seq<nat>)
    ensures |ps| == Count(q, id)
  {
    if q == [] then []
    else
      var n := |q| - 1;
      Positions(q[..n], id) + (if q[n].source == id then [n] else [])
  }

  /** The positions run from the item's first entry to its last. */
  ghost predicate Spans(q: seq<Entry>, id: ItemId, ps: seq<nat>) {
    && (forall i :: 0 <= i < |ps| ==> ps[i] < |q| && q[ps[i]].source == id)
    && (forall j :: 0 <= j < |q| && q[j].source == id ==> ps != [] && ps[0] <= j <= ps[|ps| - 1])
  }

  lemma SpansAppend(q: seq<Entry>, id: ItemId, ps: seq<nat>, e: Entry)
    requires Spans(q, id, ps)
    ensures Spans(q + [e], id, ps + (if e.source == id then [|q|] else []))
  {
  }

  lemma {:induction false} PositionsSpan(q: seq<Entry>, id: ItemId)
    ensures Spans(q, id, Positions(q, id))
  {
    hide Spans;
    if q == [] {
      assert Positions(q, id) == [];
      SpansEmpty(id);
    } else {
      var n := |q| - 1;
      PositionsSpan(q[..n], id);
      SpansAppend(q[..n], id, Positions(q[..n], id), q[n]);
      assert q == q[..n] + [q[n]];
    }
  }

  lemma SpansEmpty(id: ItemId)
    ensures Spans([], id, [])
  {
  }

  /** The entry an overfull item gives up: its oldest, or the newest when it keeps the oldest. */
  function Victim(q: seq<Entry>, id: ItemId, p: ItemParams): (v: Option<nat>)
    ensures v.Some? <==> Count(q, id) > Limit(p)
    ensures v.Some? ==> v.value < |q| && q[v.value].source == id
    ensures v.Some? ==> forall j :: 0 <= j < |q| && q[j].source == id ==>
              if p.discardOldest then v.value <= j else j <= v.value
  {
    var ps := Positions(q, id);
    PositionsSpan(q, id);
    if |ps| <= Limit(p) then None
    else Some(if p.discardOldest then ps[0] else ps[|ps| - 1])
  }

  function Trim(q: seq<Entry>, id: ItemId, p: ItemParams): seq<Entry> {
    match Victim(q, id, p)
    case None => q
    case Some(v) => RemoveAt(q, v)
  }

  /** Queueing one entry: it joins at the back and its item gives up at most one entry. */
  function Push(q: seq<Entry>, e: Entry, p: ItemParams): seq<Entry> {
    Trim(q + [e], e.source, p)
  }

  /** The queue without the entries of the listed items. */
  function Without(q: seq<Entry>, ids: seq<ItemId>): seq<Entry> {
    if q == [] then []
    else
      var n := |q| - 1;
      Without(q[..n], ids) + (if q[n].source in ids then [] else [q[n]])
  }

  function Payload(q: seq<Entry>): (d: seq<Data>)
    ensures |d| == |q|
    ensures forall i :: 0 <= i < |q| ==> d[i] == q[i].data
  {
    if q == [] then [] else Payload(q[..|q| - 1]) + [q[|q| - 1].data]
  }

  // ---------- the ledger ----------

  /** Why an entry left the queue undelivered, and the step of the run at which it did. */
  datatype Cause = OverLimit(step: nat) | ItemDeleted(step: nat)

  /** Everything ever queued, and as indices into it: what was delivered, what still waits, and
      what was dropped. */
  datatype Book = Book(
    queued: seq<Entry>, done: seq<int>, waiting: seq<int>, dropped: map<int, Cause>)

  /** `flat` was delivered and `q` waits, both in the order queued, the delivered ones first; every
      other entry is dropped (the sizes leave no room for one that is neither). */
  ghost predicate Balanced(flat: seq<Data>, q: seq<Entry>, b: Book) {
    && |b.done| == |flat| && |b.waiting| == |q|
    && |b.done| + |b.waiting| + |b.dropped| == |b.queued|
    && Increasing(b.done) && Increasing(b.waiting)
    && (forall i, j :: 0 <= i < |b.done| && 0 <= j < |b.waiting| ==> b.done[i] < b.waiting[j])
    && (forall i :: 0 <= i < |flat| ==>
          0 <= b.done[i] < |b.queued| && b.done[i] !in b.dropped
          && flat[i] == b.queued[b.done[i]].data)
    && (forall i :: 0 <= i < |q| ==>
          0 <= b.waiting[i] < |b.queued| && b.waiting[i] !in b.dropped
          && q[i] == b.queued[b.waiting[i]])
    && (forall k :: k in b.dropped ==> 0 <= k < |b.queued|)
  }

  /** Every entry ever queued is delivered, waiting or dropped, and only one of the three. */
  lemma BalancedCovers(flat: seq<Data>, q: seq<Entry>, b: Book, k: nat)
    requires Balanced(flat, q, b) && k < |b.queued|
    ensures (k in b.done || k in b.waiting) <==> k !in b.dropped
    ensures !(k in b.done && k in b.waiting)
  {
    hide Balanced;
    BookRange(flat, q, b);
    Pigeonhole(Elements(b.done) + Elements(b.waiting) + b.dropped.Keys, |b.queued|);
    BookApart(flat, q, b, k);
    assert k in Elements(b.done) + Elements(b.waiting) + b.dropped.Keys;
  }

  lemma BookApart(flat: seq<Data>, q: seq<Entry>, b: Book, k: int)
    requires Balanced(flat, q, b)
    ensures k in b.done ==> k !in b.waiting && k !in b.dropped
    ensures k in b.waiting ==> k !in b.dropped
  {
    hide Increasing;
  }

  lemma BookRange(flat: seq<Data>, q: seq<Entry>, b: Book)
    requires Balanced(flat, q, b)
    ensures var ks := Elements(b.done) + Elements(b.waiting) + b.dropped.Keys;
            |ks| == |b.queued| && forall k :: k in ks ==> 0 <= k < |b.queued|
  {
    BookSize(b);
    hide Increasing;
    forall k | k in Elements(b.done)
      ensures 0 <= k < |b.queued|
    {
      var i :| 0 <= i < |b.done| && b.done[i] == k;
    }
    forall k | k in Elements(b.waiting)
      ensures 0 <= k < |b.queued|
    {
      var i :| 0 <= i < |b.waiting| && b.waiting[i] == k;
    }
  }

  /** A set of `n` naturals below `n` has them all. */
  lemma Pigeonhole(ks: set<int>, n: nat)
    requires |ks| == n && forall k :: k in ks ==> 0 <= k < n
    ensures ks == Below(n)
  {
    if k :| k in Below(n) && k !in ks {
      SubsetSize(ks, Below(n) - {k});
    }
  }

  lemma BookSize(b: Book)
    requires Increasing(b.done) && Increasing(b.waiting)
    requires forall i, j :: 0 <= i < |b.done| && 0 <= j < |b.waiting| ==> b.done[i] < b.waiting[j]
    requires forall i :: 0 <= i < |b.done| ==> b.done[i] !in b.dropped
    requires forall i :: 0 <= i < |b.waiting| ==> b.waiting[i] !in b.dropped
    ensures |Elements(b.done) + Elements(b.waiting) + b.dropped.Keys|
         == |b.done| + |b.waiting| + |b.dropped|
  {
    DistinctSize(b.done);
    DistinctSize(b.waiting);
    assert Elements(b.done) !! Elements(b.waiting);
    assert Elements(b.done) + Elements(b.waiting) !! b.dropped.Keys;
  }

  ghost function BookAppend(b: Book, e: Entry): Book {
    Book(b.queued + [e], b.done, b.waiting + [|b.queued|], b.dropped)
  }

  ghost function BookPush(b: Book, q: seq<Entry>, e: Entry, p: ItemParams, step: nat): Book
    requires |q| == |b.waiting|
  {
    var b1 := BookAppend(b, e);
    match Victim(q + [e], e.source, p)
    case None => b1
    case Some(v) =>
      Book(b1.queued, b1.done, RemoveAt(b1.waiting, v), b1.dropped[b1.waiting[v] := OverLimit(step)])
  }

  lemma BalancedAppend(flat: seq<Data>, q: seq<Entry>, b: Book, e: Entry)
    requires Balanced(flat, q, b)
    ensures Balanced(flat, q + [e], BookAppend(b, e))
  {
  }

  lemma BalancedRemove(flat: seq<Data>, q: seq<Entry>, b: Book, v: nat, c: Cause)
    requires Balanced(flat, q, b) && v < |q|
    ensures Balanced(flat, RemoveAt(q, v),
              Book(b.queued, b.done, RemoveAt(b.waiting, v), b.dropped[b.waiting[v] := c]))
  {
    var dropped := b.dropped[b.waiting[v] := c];
    assert dropped.Keys == b.dropped.Keys + {b.waiting[v]};
  }

  lemma PushBalanced(flat: seq<Data>, q: seq<Entry>, b: Book, e: Entry, p: ItemParams, step: nat)
    requires Balanced(flat, q, b)
    ensures Balanced(flat, Push(q, e, p), BookPush(b, q, e, p, step))
  {
    hide Positions, Count;
    var q1 := q + [e];
    BalancedAppend(flat, q, b, e);
    var v := Victim(q1, e.source, p);
    if v.Some? {
      BalancedRemove(flat, q1, BookAppend(b, e), v.value, OverLimit(step));
    }
  }

  /** Queueing `e` puts its item over its limit, and of the item's entries then in the queue, `k` is
      the oldest, or the newest when the item keeps the oldest. */
  ghost predicate GivesUp(q: seq<Entry>, b: Book, e: Entry, p: ItemParams, k: int) {
    var b1 := BookAppend(b, e);
    && Count(q + [e], e.source) > Limit(p)
    && k in b1.waiting && Belongs(b1, k, e.source)
    && forall j :: j in b1.waiting && Belongs(b1, j, e.source) ==> if p.discardOldest then k <= j else j <= k
  }

  ghost predicate Belongs(b: Book, k: int, id: ItemId) {
    0 <= k < |b.queued| && b.queued[k].source == id
  }

  /** What queueing drops is what the item has to give up; nothing else about the ledger's past
      changes. */
  lemma PushDrops(flat: seq<Data>, q: seq<Entry>, b: Book, e: Entry, p: ItemParams, step: nat, k: int)
    requires Balanced(flat, q, b) && k in BookPush(b, q, e, p, step).dropped
    ensures var b' := BookPush(b, q, e, p, step);
            if k in b.dropped then b'.dropped[k] == b.dropped[k]
            else b'.dropped[k] == OverLimit(step) && GivesUp(q, b, e, p, k) && Belongs(b', k, e.source)
  {
    hide Positions, Count;
    BalancedAppend(flat, q, b, e);
    var q1, b1 := q + [e], BookAppend(b, e);
    var v := Victim(q1, e.source, p);
    if v.Some? {
      BookMatches(flat, q1, b1);
      hide Balanced, Increasing;
      forall j | j in b1.waiting && Belongs(b1, j, e.source)
        ensures if p.discardOldest then b1.waiting[v.value] <= j else j <= b1.waiting[v.value]
      {
        var x :| 0 <= x < |b1.waiting| && b1.waiting[x] == j;
        assert q1[x].source == e.source;
      }
    }
  }

  lemma BookMatches(flat: seq<Data>, q: seq<Entry>, b: Book)
    requires Balanced(flat, q, b)
    ensures |b.waiting| == |q|
    ensures forall x :: 0 <= x < |q| ==>
              0 <= b.waiting[x] < |b.queued| && b.waiting[x] !in b.dropped && q[x] == b.queued[b.waiting[x]]
    ensures forall x, y :: 0 <= x <= y < |b.waiting| ==> b.waiting[x] <= b.waiting[y]
  {
  }

  /** Of the indices `ks`, those whose entries do not belong to the listed items ... */
  ghost function Survivors(queued: seq<Entry>, ks: seq<int>, ids: seq<ItemId>): seq<int>
    requires forall i :: 0 <= i < |ks| ==> 0 <= ks[i] < |queued|
  {
    if ks == [] then []
    else
      var n := |ks| - 1;
      Survivors(queued, ks[..n], ids) + (if queued[ks[n]].source in ids then [] else [ks[n]])
  }

  /** ... and the others. */
  ghost function Removed(queued: seq<Entry>, ks: seq<int>, ids: seq<ItemId>): set<int>
    requires forall i :: 0 <= i < |ks| ==> 0 <= ks[i] < |queued|
  {
    if ks == [] then {}
    else
      var n := |ks| - 1;
      Removed(queued, ks[..n], ids) + (if queued[ks[n]].source in ids then {ks[n]} else {})
  }

  ghost function BookDelete(b: Book, ids: seq<ItemId>, step: nat): Book
    requires forall i :: 0 <= i < |b.waiting| ==> 0 <= b.waiting[i] < |b.queued|
  {
    Book(b.queued, b.done, Survivors(b.queued, b.waiting, ids),
      b.dropped + map k | k in Removed(b.queued, b.waiting, ids) :: ItemDeleted(step))
  }

  /** Filtering the queue and filtering its indices stay in step. */
  lemma {:induction false} SurvivorsMatch(
      queued: seq<Entry>, q: seq<Entry>, ks: seq<int>, ids: seq<ItemId>, gone: set<int>)
    requires |q| == |ks| && Increasing(ks)
    requires forall i :: 0 <= i < |ks| ==>
               0 <= ks[i] < |queued| && q[i] == queued[ks[i]] && ks[i] !in gone
    ensures var r := Survivors(queued, ks, ids);
            && |r| == |Without(q, ids)| && Increasing(r)
            && (forall i :: 0 <= i < |r| ==> ks[0] <= r[i] <= ks[|ks| - 1] && r[i] !in gone)
            && (forall i :: 0 <= i < |r| ==> 0 <= r[i] < |queued| && Without(q, ids)[i] == queued[r[i]])
            && (forall i :: 0 <= i < |r| ==> Without(q, ids)[i].source !in ids)
  {
    if ks != [] {
      var n := |ks| - 1;
      SurvivorsMatch(queued, q[..n], ks[..n], ids, gone);
    }
  }

  lemma {:induction false} RemovedBounds(queued: seq<Entry>, ks: seq<int>, ids: seq<ItemId>)
    requires Increasing(ks) && forall i :: 0 <= i < |ks| ==> 0 <= ks[i] < |queued|
    ensures forall k :: k in Removed(queued, ks, ids) ==>
              ks != [] && ks[0] <= k <= ks[|ks| - 1] && 0 <= k < |queued| && queued[k].source in ids
  {
    if ks != [] {
      RemovedBounds(queued, ks[..|ks| - 1], ids);
    }
  }

  lemma {:induction false} RemovedSize(
      queued: seq<Entry>, ks: seq<int>, ids: seq<ItemId>, gone: set<int>)
    requires Increasing(ks)
    requires forall i :: 0 <= i < |ks| ==> 0 <= ks[i] < |queued| && ks[i] !in gone
    ensures |gone + Removed(queued, ks, ids)| + |Survivors(queued, ks, ids)| == |gone| + |ks|
  {
    if ks == [] {
      assert gone + {} == gone;
    } else {
      var n := |ks| - 1;
      RemovedSize(queued, ks[..n], ids, gone);
      RemovedBounds(queued, ks[..n], ids);
      var out0, out := Removed(queued, ks[..n], ids), Removed(queued, ks, ids);
      assert ks[n] !in out0;
      if queued[ks[n]].source in ids {
        assert gone + out == gone + out0 + {ks[n]};
      } else {
        assert out == out0;
      }
    }
  }

  lemma DeleteBalanced(flat: seq<Data>, q: seq<Entry>, b: Book, ids: seq<ItemId>, step: nat)
    requires Balanced(flat, q, b)
    ensures Balanced(flat, Without(q, ids), BookDelete(b, ids, step))
  {
    hide Survivors, Removed, Without, Increasing;
    SurvivorsMatch(b.queued, q, b.waiting, ids, b.dropped.Keys);
    RemovedSize(b.queued, b.waiting, ids, b.dropped.Keys);
    RemovedBounds(b.queued, b.waiting, ids);
    var out := Removed(b.queued, b.waiting, ids);
    assert BookDelete(b, ids, step).dropped.Keys == b.dropped.Keys + out;
    assert forall i :: 0 <= i < |b.done| ==> b.done[i] !in out;
  }

  lemma {:induction false} RemovedMembers(queued: seq<Entry>, ks: seq<int>, ids: seq<ItemId>)
    requires forall i :: 0 <= i < |ks| ==> 0 <= ks[i] < |queued|
    ensures forall k :: k in Removed(queued, ks, ids) ==> k in ks && 0 <= k < |queued| && queued[k].source in ids
  {
    if ks != [] {
      RemovedMembers(queued, ks[..|ks| - 1], ids);
    }
  }

  /** What deleting drops was waiting for one of the items deleted. */
  lemma DeleteDrops(flat: seq<Data>, q: seq<Entry>, b: Book, ids: seq<ItemId>, step: nat, k: int)
    requires Balanced(flat, q, b)
    requires forall i :: 0 <= i < |b.waiting| ==> 0 <= b.waiting[i] < |b.queued|
    requires k in BookDelete(b, ids, step).dropped
    ensures var b' := BookDelete(b, ids, step);
            if k in b.dropped then b'.dropped[k] == b.dropped[k]
            else b'.dropped[k] == ItemDeleted(step) && k in b.waiting && 0 <= k < |b.queued|
                 && b.queued[k].source in ids
  {
    RemovedMembers(b.queued, b.waiting, ids);
    BookMatches(flat, q, b);
    hide Balanced, Removed, Survivors;
  }

  /** The book after the first `m` waiting entries have been delivered. */
  ghost function BookDrain(b: Book, m: nat): Book
    requires m <= |b.waiting|
  {
    b.(done := b.done + b.waiting[..m], waiting := b.waiting[m..])
  }

  lemma DrainBalanced(flat: seq<Data>, q: seq<Entry>, b: Book, m: nat)
    requires Balanced(flat, q, b) && m <= |q|
    ensures Balanced(flat + Payload(q[..m]), q[m..], BookDrain(b, m))
  {
    hide Payload;
    assert Increasing(b.done + b.waiting[..m]);
  }

  // ---------- why entries are dropped ----------

  /** Only live items have entries waiting, and the item of an entry given up with its item is gone
      for good. */
  ghost predicate Justified(live: set<ItemId>, next: nat, q: seq<Entry>, b: Book) {
    && (forall i :: 0 <= i < |q| ==> q[i].source in live)
    && (forall id :: id in live ==> id < next)
    && (forall k :: 0 <= k < |b.queued| ==> b.queued[k].source < next)
    && (forall k :: k in b.dropped && 0 <= k < |b.queued| ==>
          b.dropped[k].ItemDeleted? ==> b.queued[k].source !in live)
  }

  lemma PushJustified(live: set<ItemId>, next: nat, q: seq<Entry>, b: Book, e: Entry, p: ItemParams, step: nat)
    requires Justified(live, next, q, b) && e.source in live
    requires |q| == |b.waiting| && forall k :: k in b.dropped ==> 0 <= k < |b.queued|
    ensures Justified(live, next, Push(q, e, p), BookPush(b, q, e, p, step))
  {
    var q1, b' := q + [e], BookPush(b, q, e, p, step);
    assert forall i :: 0 <= i < |q1| ==> q1[i].source in live;
    assert forall k :: 0 <= k < |b.queued| ==> b'.queued[k] == b.queued[k];
  }

  lemma {:induction false} WithoutMembers(q: seq<Entry>, ids: seq<ItemId>)
    ensures forall i :: 0 <= i < |Without(q, ids)| ==>
              Without(q, ids)[i] in q && Without(q, ids)[i].source !in ids
  {
    if q != [] {
      WithoutMembers(q[..|q| - 1], ids);
    }
  }

  lemma DeleteJustified(live: set<ItemId>, next: nat, q: seq<Entry>, b: Book, ids: seq<ItemId>, step: nat)
    requires Justified(live, next, q, b)
    requires Increasing(b.waiting)
    requires forall i :: 0 <= i < |b.waiting| ==> 0 <= b.waiting[i] < |b.queued|
    ensures Justified(live - Elements(ids), next, Without(q, ids), BookDelete(b, ids, step))
  {
    WithoutMembers(q, ids);
    RemovedBounds(b.queued, b.waiting, ids);
  }

  // ---------- how many entries an item may have waiting ----------

  lemma {:induction false} CountAppend(q: seq<Entry>, e: Entry, id: ItemId)
    ensures Count(q + [e], id) == Count(q, id) + (if e.source == id then 1 else 0)
  {
    assert (q + [e])[..|q|] == q;
  }

  lemma {:induction false} CountSplit(a: seq<Entry>, b: seq<Entry>, id: ItemId)
    ensures Count(a + b, id) == Count(a, id) + Count(b, id)
  {
    if b == [] {
      assert a + b == a;
    } else {
      var n := |b| - 1;
      CountSplit(a, b[..n], id);
      CountAppend(a + b[..n], b[n], id);
      assert a + b == a + b[..n] + [b[n]];
    }
  }

  lemma CountRemove(q: seq<Entry>, at: nat, id: ItemId)
    requires at < |q|
    ensures Count(RemoveAt(q, at), id) == Count(q, id) - (if q[at].source == id then 1 else 0)
  {
    var a, b := q[..at], q[at + 1..];
    CountSplit(a, b, id);
    CountAppend(a, q[at], id);
    CountSplit(a + [q[at]], b, id);
    assert a + [q[at]] + b == q;
  }

  /** Queueing grows an item's share by one up to its limit. An item already over its limit,
      because a modify shrank it, keeps the share it has: a trim removes a single entry. */
  lemma PushCount(q: seq<Entry>, e: Entry, p: ItemParams, id: ItemId)
    ensures Count(Push(q, e, p), id) ==
            if id == e.source && Count(q, id) < Limit(p) then Count(q, id) + 1 else Count(q, id)
  {
    CountAppend(q, e, id);
    CountAppend(q, e, e.source);
    var v := Victim(q + [e], e.source, p);
    if v.Some? {
      CountRemove(q + [e], v.value, id);
    }
  }

  lemma {:induction false} CountWithout(q: seq<Entry>, ids: seq<ItemId>, id: ItemId)
    ensures Count(Without(q, ids), id) <= Count(q, id)
  {
    if q != [] {
      var n := |q| - 1;
      CountWithout(q[..n], ids, id);
      CountAppend(Without(q[..n], ids), q[n], id);
      assert Without(q[..n], ids) + [] == Without(q[..n], ids);
    }
  }

  lemma {:induction false} CountAbsent(q: seq<Entry>, id: ItemId)
    requires forall i :: 0 <= i < |q| ==> q[i].source != id
    ensures Count(q, id) == 0
  {
    if q != [] {
      CountAbsent(q[..|q| - 1], id);
    }
  }
}
