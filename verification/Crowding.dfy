/** The queue as the items of a subscription share it: how much the others may come to have waiting
    beside one item, and how reports can crowd that item out of the front. */
module Crowding {
  import opened Common
  import opened PendingQueue
  import opened Bindings
  import opened Subscription

  predicate NoneOf(q: seq<Entry>, i: ItemId) {
    forall x :: 0 <= x < |q| ==> q[x].source != i
  }

  // ---------- how much the other items may have waiting ----------

  /** How many entries item `j` may come to have waiting by reporting. */
  function Room(items: map<ItemId, Item>, j: ItemId): nat {
    if j in items && items[j].mode == Reporting then Limit(items[j].params) else 0
  }

  /** How many the items other than `i` may, together. */
  function OthersRoom(items: map<ItemId, Item>, i: ItemId, below: nat): nat {
    if below == 0 then 0
    else OthersRoom(items, i, below - 1) + (if below - 1 == i then 0 else Room(items, below - 1))
  }

  function OthersWaiting(q: seq<Entry>, i: ItemId, below: nat): nat {
    if below == 0 then 0
    else OthersWaiting(q, i, below - 1) + (if below - 1 == i then 0 else Count(q, below - 1))
  }

  /** What item `j` has waiting beyond its room: left from before its mode or size was changed. */
  function Beyond(q: seq<Entry>, items: map<ItemId, Item>, j: ItemId): nat {
    if Count(q, j) > Room(items, j) then Count(q, j) - Room(items, j) else 0
  }

  function OthersBeyond(q: seq<Entry>, items: map<ItemId, Item>, i: ItemId, below: nat): nat {
    if below == 0 then 0
    else OthersBeyond(q, items, i, below - 1) + (if below - 1 == i then 0 else Beyond(q, items, below - 1))
  }

  lemma {:induction false} WaitingEmpty(i: ItemId, below: nat)
    ensures OthersWaiting([], i, below) == 0
  {
    if below > 0 {
      WaitingEmpty(i, below - 1);
    }
  }

  lemma {:induction false} WaitingAppend(q: seq<Entry>, e: Entry, i: ItemId, below: nat)
    ensures OthersWaiting(q + [e], i, below)
            == OthersWaiting(q, i, below) + (if e.source != i && e.source < below then 1 else 0)
  {
    if below > 0 {
      hide Count;
      WaitingAppend(q, e, i, below - 1);
      CountAppend(q, e, below - 1);
    }
  }

  /** Every entry belongs to one item. */
  lemma {:induction false} WaitingTotal(q: seq<Entry>, i: ItemId, below: nat)
    ensures OthersWaiting(q, i, below) <= |q|
    ensures NoneOf(q, i) && (forall x :: 0 <= x < |q| ==> q[x].source < below) ==>
              OthersWaiting(q, i, below) == |q|
  {
    hide OthersWaiting;
    if q == [] {
      WaitingEmpty(i, below);
    } else {
      var n := |q| - 1;
      WaitingTotal(q[..n], i, below);
      WaitingAppend(q[..n], q[n], i, below);
      assert q == q[..n] + [q[n]];
    }
  }

  lemma {:induction false} WaitingAtLeast(q: seq<Entry>, items: map<ItemId, Item>, i: ItemId, below: nat)
    requires forall j :: 0 <= j < below && j != i ==> Count(q, j) >= Room(items, j)
    ensures OthersWaiting(q, i, below) >= OthersRoom(items, i, below)
  {
    hide Count, Room;
    if below > 0 {
      WaitingAtLeast(q, items, i, below - 1);
    }
  }

  lemma {:induction false} BeyondFalls(q: seq<Entry>, items: map<ItemId, Item>, q': seq<Entry>,
      items': map<ItemId, Item>, i: ItemId, below: nat)
    requires forall j :: 0 <= j < below && j != i ==> Beyond(q', items', j) <= Beyond(q, items, j)
    ensures OthersBeyond(q', items', i, below) <= OthersBeyond(q, items, i, below)
  {
    hide Beyond;
    if below > 0 {
      BeyondFalls(q, items, q', items', i, below - 1);
    }
  }

  /** What is taken from the front, less the room of the items, comes off what they have beyond it. */
  lemma {:induction false} BeyondDrains(front: seq<Entry>, rest: seq<Entry>, items: map<ItemId, Item>,
      i: ItemId, below: nat)
    ensures OthersBeyond(rest, items, i, below) + OthersWaiting(front, i, below)
            <= OthersBeyond(front + rest, items, i, below) + OthersRoom(items, i, below)
  {
    if below > 0 {
      hide Count, Room;
      BeyondDrains(front, rest, items, i, below - 1);
      CountSplit(front, rest, below - 1);
    }
  }

  lemma {:induction false} CountNone(q: seq<Entry>, i: ItemId)
    ensures Count(q, i) == 0 <==> NoneOf(q, i)
  {
    if q != [] {
      CountNone(q[..|q| - 1], i);
      assert q == q[..|q| - 1] + [q[|q| - 1]];
    }
  }

  lemma PushSources(q: seq<Entry>, e: Entry, p: ItemParams, below: nat)
    requires e.source < below && forall x :: 0 <= x < |q| ==> q[x].source < below
    ensures forall x :: 0 <= x < |Push(q, e, p)| ==> Push(q, e, p)[x].source < below
  {
    hide Positions, Count;
  }

  // ---------- items report ----------

  /** What an item reports, and the operation that brings the report. */
  function ReportOf(item: Item): Report {
    if item.attribute == EventNotifier then Event(0) else Change(0)
  }

  function EntryFor(items: map<ItemId, Item>, j: ItemId): Entry
    requires j in items
  {
    var item := items[j];
    Entry(j, if item.attribute == EventNotifier then EventFields(item.params.clientHandle, 0)
             else DataChange(item.params.clientHandle, 0))
  }

  predicate AllReport(items: map<ItemId, Item>, js: seq<ItemId>) {
    forall x :: 0 <= x < |js| ==> js[x] in items && items[js[x]].mode == Reporting
  }

  /** The queue after the items `js` have reported, one after the other. */
  function PushAll(q: seq<Entry>, items: map<ItemId, Item>, js: seq<ItemId>): seq<Entry>
    requires AllReport(items, js)
  {
    if js == [] then q
    else
      var n := |js| - 1;
      Push(PushAll(q, items, js[..n]), EntryFor(items, js[n]), items[js[n]].params)
  }

  lemma {:induction false} PushAllConcat(q: seq<Entry>, items: map<ItemId, Item>, a: seq<ItemId>, b: seq<ItemId>)
    requires AllReport(items, a) && AllReport(items, b)
    ensures AllReport(items, a + b)
    ensures PushAll(q, items, a + b) == PushAll(PushAll(q, items, a), items, b)
  {
    hide Push, EntryFor;
    if b == [] {
      assert a + b == a;
    } else {
      var n := |b| - 1;
      PushAllConcat(q, items, a, b[..n]);
      assert (a + b)[..|a + b| - 1] == a + b[..n];
    }
  }

  function Repeat(j: ItemId, r: nat): (js: seq<ItemId>)
    ensures |js| == r && forall x :: 0 <= x < r ==> js[x] == j
  {
    if r == 0 then [] else Repeat(j, r - 1) + [j]
  }

  /** Reporting `r` times fills an item up to its size and takes nothing from the others. */
  lemma {:induction false} RepeatFills(q: seq<Entry>, items: map<ItemId, Item>, j: ItemId, r: nat, l: ItemId)
    requires j in items && items[j].mode == Reporting
    ensures var q' := PushAll(q, items, Repeat(j, r));
            && Count(q', l) >= Count(q, l)
            && (l == j ==> Count(q', l) >= Min(r, Limit(items[j].params)))
  {
    hide Count, Push, Limit;
    if r > 0 {
      RepeatFills(q, items, j, r - 1, l);
      RepeatNext(q, items, j, r);
      PushCount(PushAll(q, items, Repeat(j, r - 1)), EntryFor(items, j), items[j].params, l);
      hide PushAll, Repeat, EntryFor;
    }
  }

  lemma RepeatNext(q: seq<Entry>, items: map<ItemId, Item>, j: ItemId, r: nat)
    requires j in items && items[j].mode == Reporting && r > 0
    ensures PushAll(q, items, Repeat(j, r))
            == Push(PushAll(q, items, Repeat(j, r - 1)), EntryFor(items, j), items[j].params)
    ensures EntryFor(items, j).source == j
  {
    hide Push;
    var js := Repeat(j, r);
    assert js[..r - 1] == Repeat(j, r - 1);
  }

  /** The other items report until each has as much waiting as it may. */
  lemma {:induction false} Fill(q: seq<Entry>, items: map<ItemId, Item>, i: ItemId, below: nat)
    returns (js: seq<ItemId>)
    ensures AllReport(items, js)
    ensures forall j: ItemId :: Count(PushAll(q, items, js), j) >= Count(q, j)
    ensures forall j :: 0 <= j < below && j != i ==> Count(PushAll(q, items, js), j) >= Room(items, j)
  {
    hide Count, Push;
    if below == 0 {
      js := [];
    } else {
      var j := below - 1;
      var before := Fill(q, items, i, j);
      if j == i || Room(items, j) == 0 {
        js := before;
      } else {
        var more := Repeat(j, Limit(items[j].params));
        js := before + more;
        PushAllConcat(q, items, before, more);
        var q1 := PushAll(q, items, before);
        hide PushAll, Repeat;
        forall l: ItemId
          ensures Count(PushAll(q1, items, more), l) >= Count(q1, l)
          ensures l == j ==> Count(PushAll(q1, items, more), l) >= Room(items, j)
        {
          RepeatFills(q1, items, j, Limit(items[j].params), l);
        }
      }
    }
  }

  // ---------- an item moves to the back ----------

  predicate AllOf(q: seq<Entry>, i: ItemId) {
    forall x :: 0 <= x < |q| ==> q[x].source == i
  }

  lemma {:induction false} WithoutNone(q: seq<Entry>, i: ItemId)
    requires NoneOf(q, i)
    ensures Without(q, [i]) == q
  {
    if q != [] {
      WithoutNone(q[..|q| - 1], i);
      assert q == q[..|q| - 1] + [q[|q| - 1]];
    }
  }

  lemma {:induction false} WithoutConcat(a: seq<Entry>, b: seq<Entry>, ids: seq<ItemId>)
    ensures Without(a + b, ids) == Without(a, ids) + Without(b, ids)
  {
    if b == [] {
      assert a + b == a && Without(a, ids) + [] == Without(a, ids);
    } else {
      var n := |b| - 1;
      WithoutConcat(a, b[..n], ids);
      assert (a + b)[..|a + b| - 1] == a + b[..n];
    }
  }

  lemma WithoutRemoved(q: seq<Entry>, v: nat, i: ItemId)
    requires v < |q| && q[v].source == i
    ensures Without(RemoveAt(q, v), [i]) == Without(q, [i])
  {
    var a, e, b := q[..v], [q[v]], q[v + 1..];
    assert q == a + e + b;
    WithoutConcat(a, b, [i]);
    WithoutConcat(a + e, b, [i]);
    WithoutConcat(a, e, [i]);
    assert e[..0] == [];
    assert Without(e, [i]) == [];
    assert Without(a, [i]) + [] == Without(a, [i]);
  }

  /** One report of an item that keeps its newest entries, some of which, `news`, stand at the back. */
  lemma RefreshOnce(p: seq<Entry>, news: seq<Entry>, e: Entry, params: ItemParams) returns (left: seq<Entry>)
    requires AllOf(news, e.source) && params.discardOldest && Count(p, e.source) > 0
    ensures Push(p + news, e, params) == left + (news + [e])
    ensures Without(left, [e.source]) == Without(p, [e.source])
    ensures if Count(p + news, e.source) < Limit(params) then left == p
            else Count(left, e.source) == Count(p, e.source) - 1
  {
    hide Count, Without, Positions;
    var i, q := e.source, p + news;
    CountAppend(q, e, i);
    assert q + [e] == p + (news + [e]);
    var victim := Victim(q + [e], i, params);
    if victim.None? {
      left := p;
    } else {
      var v := victim.value;
      OldestInFront(p, news + [e], v, i);
      left := RemoveAt(p, v);
      CountRemove(p, v, i);
      WithoutRemoved(p, v, i);
      RemoveInFront(p, news + [e], v);
    }
  }

  lemma OldestInFront(p: seq<Entry>, tail: seq<Entry>, v: nat, i: ItemId)
    requires v < |p + tail| && (p + tail)[v].source == i && Count(p, i) > 0
    requires forall j :: 0 <= j < |p + tail| && (p + tail)[j].source == i ==> v <= j
    ensures v < |p| && p[v].source == i
  {
    CountNone(p, i);
    hide Count;
    var x :| 0 <= x < |p| && p[x].source == i;
    assert (p + tail)[x].source == i;
  }

  lemma RemoveInFront(p: seq<Entry>, tail: seq<Entry>, v: nat)
    requires v < |p|
    ensures RemoveAt(p + tail, v) == RemoveAt(p, v) + tail
  {
  }

  /** Reporting often enough moves all of an item's entries to the back. */
  lemma {:induction false} Refresh(p: seq<Entry>, news: seq<Entry>, items: map<ItemId, Item>, i: ItemId)
    returns (k: nat, back: seq<Entry>)
    requires i in items && items[i].mode == Reporting && items[i].params.discardOldest && AllOf(news, i)
    ensures PushAll(p + news, items, Repeat(i, k)) == Without(p, [i]) + back
    ensures back != [] && AllOf(back, i)
    decreases Count(p, i), Limit(items[i].params) - Count(p + news, i)
  {
    hide Count, Push, Without;
    CountNone(p, i);
    var e, params := EntryFor(items, i), items[i].params;
    if Count(p, i) == 0 {
      WithoutNone(p, i);
      if news != [] {
        k, back := 0, news;
      } else {
        k, back := 1, [e];
        PushFirst(p, e, params);
        assert p + news == p;
        PushOne(p, items, i);
      }
    } else {
      var p' := RefreshOnce(p, news, e, params);
      if Count(p + news, i) < Limit(params) {
        CountAppend(p + news, e, i);
        assert p + news + [e] == p + (news + [e]);
      }
      var k0;
      k0, back := Refresh(p', news + [e], items, i);
      k := k0 + 1;
      RepeatFront(p + news, items, i, k0);
    }
  }

  lemma PushFirst(q: seq<Entry>, e: Entry, p: ItemParams)
    requires NoneOf(q, e.source)
    ensures Push(q, e, p) == q + [e]
  {
    CountNone(q, e.source);
    CountAppend(q, e, e.source);
  }

  lemma PushOne(q: seq<Entry>, items: map<ItemId, Item>, i: ItemId)
    requires i in items && items[i].mode == Reporting
    ensures PushAll(q, items, Repeat(i, 1)) == Push(q, EntryFor(items, i), items[i].params)
  {
    hide Push, EntryFor;
    var js := Repeat(i, 1);
    assert js[..0] == [];
  }

  lemma RepeatFront(q: seq<Entry>, items: map<ItemId, Item>, i: ItemId, k: nat)
    requires i in items && items[i].mode == Reporting
    ensures PushAll(q, items, Repeat(i, k + 1))
            == PushAll(Push(q, EntryFor(items, i), items[i].params), items, Repeat(i, k))
  {
    hide Push, EntryFor;
    assert Repeat(i, k + 1) == Repeat(i, 1) + Repeat(i, k);
    PushAllConcat(q, items, Repeat(i, 1), Repeat(i, k));
    PushOne(q, items, i);
  }

  lemma {:induction false} CountOthers(q: seq<Entry>, i: ItemId, j: ItemId)
    requires i != j
    ensures Count(Without(q, [i]), j) == Count(q, j)
  {
    if q != [] {
      var n := |q| - 1;
      CountOthers(q[..n], i, j);
      CountAppend(Without(q[..n], [i]), q[n], j);
      assert Without(q[..n], [i]) + [] == Without(q[..n], [i]);
    }
  }

  lemma {:induction false} WithoutNoneOf(q: seq<Entry>, i: ItemId)
    ensures NoneOf(Without(q, [i]), i)
  {
    if q != [] {
      WithoutNoneOf(q[..|q| - 1], i);
    }
  }

  lemma EntrySource(items: map<ItemId, Item>, j: ItemId)
    requires j in items
    ensures EntryFor(items, j).source == j
  {
  }

  lemma RoomOfOne(items: map<ItemId, Item>)
    requires items.Keys == {1, 2} && items[1].mode == Reporting && Limit(items[1].params) == 2
    ensures OthersRoom(items, 2, 3) == 2
  {
    assert OthersRoom(items, 2, 0) == 0 && OthersRoom(items, 2, 1) == 0;
    assert OthersRoom(items, 2, 2) == 2;
  }
}
