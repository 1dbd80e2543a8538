/** A server session as a value: its subscriptions, the publish rotation over them and the
    acknowledgements a publish request carries. */
module Session {
  import opened Common
  import opened Retransmission
  import opened Subscription
  import opened SubscriptionTheorems
  import opened Rotation

  type SubId = nat

  datatype Session = Session(subs: map<SubId, Sub>, rota: Rota)

  const NO_SUBSCRIPTIONS: Session := Session(map[], NO_TURNS)

  ghost predicate Valid(s: Session) {
    WellFormed(s.rota) && Elements(s.rota.order) == s.subs.Keys
  }

  // ---------- subscriptions come and go ----------

  function Add(s: Session, id: SubId, sub: Sub): Session {
    Session(s.subs[id := sub], Append(s.rota, id))
  }

  function Drop(s: Session, id: SubId): Session {
    Session(s.subs - {id}, Erase(s.rota, id))
  }

  lemma AddValid(s: Session, id: SubId, sub: Sub)
    requires Valid(s) && id !in s.subs
    ensures Valid(Add(s, id, sub))
  {
    assert id !in Elements(s.rota.order);
    AppendKeeps(s.rota, id);
  }

  lemma DropValid(s: Session, id: SubId)
    requires Valid(s)
    ensures Valid(Drop(s, id))
  {
    EraseKeeps(s.rota, id);
  }

  function DropAll(s: Session, ids: seq<SubId>): (Session, seq<Status>) {
    if ids == [] then (s, [])
    else
      var n := |ids| - 1;
      var (s1, out) := DropAll(s, ids[..n]);
      if ids[n] !in s1.subs then (s1, out + [BadSubscriptionIdInvalid])
      else (Drop(s1, ids[n]), out + [Good])
  }

  lemma {:induction false} DropAllValid(s: Session, ids: seq<SubId>)
    requires Valid(s)
    ensures Valid(DropAll(s, ids).0)
  {
    if ids != [] {
      DropAllValid(s, ids[..|ids| - 1]);
      DropValid(DropAll(s, ids[..|ids| - 1]).0, ids[|ids| - 1]);
    }
  }

  /** Deleting takes away exactly the subscriptions named, and of several requests for one only the first
      succeeds. */
  lemma {:induction false} DropAllExact(s: Session, ids: seq<SubId>)
    ensures var (s', out) := DropAll(s, ids);
            && s'.subs == s.subs - Elements(ids) && |out| == |ids|
            && forall k :: 0 <= k < |ids| ==>
                 out[k] == if ids[k] in s.subs && ids[k] !in ids[..k] then Good else BadSubscriptionIdInvalid
  {
    if ids != [] {
      var n := |ids| - 1;
      DropAllExact(s, ids[..n]);
      DropNext(s, ids);
      hide DropAll;
      var out1, out := DropAll(s, ids[..n]).1, DropAll(s, ids).1;
      assert Elements(ids) == Elements(ids[..n]) + {ids[n]};
      forall k | 0 <= k < |ids|
        ensures out[k] == if ids[k] in s.subs && ids[k] !in ids[..k] then Good else BadSubscriptionIdInvalid
      {
        if k < n {
          assert ids[..n][..k] == ids[..k] && out[k] == out1[k];
        }
      }
    }
  }

  lemma DropNext(s: Session, ids: seq<SubId>)
    requires ids != []
    ensures var n := |ids| - 1;
            var (s1, out1) := DropAll(s, ids[..n]);
            var (s', out) := DropAll(s, ids);
            && s'.subs == s1.subs - {ids[n]}
            && out == out1 + [if ids[n] in s1.subs then Good else BadSubscriptionIdInvalid]
  {
    hide Erase;
  }

  /** Moving subscriptions from `source` to `target`: one the target has already, or the source has
      not, stays where it is. */
  function MoveAll(target: Session, source: Session, ids: seq<SubId>): (Session, Session, seq<Status>) {
    if ids == [] then (target, source, [])
    else
      var n := |ids| - 1;
      var (t, s, out) := MoveAll(target, source, ids[..n]);
      if ids[n] in t.subs then (t, s, out + [Bad])
      else if ids[n] !in s.subs then (t, s, out + [BadSubscriptionIdInvalid])
      else (Add(t, ids[n], s.subs[ids[n]]), Drop(s, ids[n]), out + [Good])
  }

  lemma PrimeTwice(s: Sub, now: Time)
    ensures Prime(Prime(s, now), now) == Prime(s, now)
  {
  }

  // ---------- polling for a publish ----------

  /** The subscriptions a publish could be answered from. */
  function ReadySet(subs: map<SubId, Sub>, now: Time, pendingOnly: bool): set<SubId> {
    set id | id in subs && (pendingOnly ==> subs[id].pending != []) && IsPublishReady(subs[id], now)
  }

  /** Subscriptions with data go first; keep-alives only when there is no data to send. */
  function Choose(s: Session, now: Time): (i: Option<nat>)
    requires s.rota.order == [] || s.rota.cursor < |s.rota.order|
    ensures i.Some? ==> i.value < |s.rota.order| && s.rota.order[i.value] in s.subs
  {
    var i := Next(s.rota, ReadySet(s.subs, now, true));
    if i.Some? then i else Next(s.rota, ReadySet(s.subs, now, false))
  }

  function PrimeAll(subs: map<SubId, Sub>, now: Time): map<SubId, Sub> {
    map id | id in subs :: Prime(subs[id], now)
  }

  datatype Pause = Pause(deadline: Time, interval: int)

  /** The earliest deadline among the subscriptions and the shortest publishing interval. */
  function Soonest(subs: map<SubId, Sub>, order: seq<SubId>): Option<Pause> {
    if order == [] then None
    else
      var n := |order| - 1;
      var before := Soonest(subs, order[..n]);
      if order[n] !in subs then before
      else match NextPublishDeadline(subs[order[n]])
           case None => before
           case Some(d) =>
             var interval := PublishingInterval(subs[order[n]].params);
             match before
             case None => Some(Pause(d, interval))
             case Some(p) => Some(Pause(Min(d, p.deadline), Min(interval, p.interval)))
  }

  datatype PollResult =
    | Served(subscription: SubId, response: Response)
    | NoSubscription
    | Empty
    | WaitFor(ms: int)

  function Poll(s: Session, now: Time): (Session, PollResult)
    requires s.rota.order == [] || s.rota.cursor < |s.rota.order|
  {
    match Choose(s, now)
    case None =>
      if s.subs == map[] then (s, NoSubscription)
      else
        var subs := PrimeAll(s.subs, now);
        (s.(subs := subs),
         match Soonest(subs, s.rota.order)
         case None => Empty
         case Some(p) => WaitFor(Min(Max(0, p.deadline - now), p.interval)))
    case Some(i) =>
      var id := s.rota.order[i];
      var (sub, response) := TryPublish(s.subs[id], now);
      match response
      case None => (s.(subs := s.subs[id := sub]), Empty)
      case Some(r) => (Session(s.subs[id := sub], Advance(s.rota, i)), Served(id, r))
  }

  /** Every subscription's clock runs, as it does from its creation on. */
  ghost predicate Clocked(s: Session) {
    forall id :: id in s.subs ==> s.subs[id].lastPublish.Some?
  }

  lemma ChooseExact(s: Session, now: Time)
    requires Valid(s)
    ensures var ready := ReadySet(s.subs, now, false);
            if ready == {} then Choose(s, now).None?
            else Choose(s, now).Some? && s.rota.order[Choose(s, now).value] in ready
  {
    var ready := ReadySet(s.subs, now, false);
    assert ReadySet(s.subs, now, true) <= ready;
    if ready != {} {
      var id :| id in ready;
      assert id in Elements(s.rota.order);
      var i := IndexOf(s.rota.order, id).value;
      NextIsNearest(s.rota, ready, 0, i);
    }
  }

  ghost predicate Coming(subs: map<SubId, Sub>, id: SubId, now: Time) {
    id in subs && NextPublishDeadline(subs[id]).Some? && now < NextPublishDeadline(subs[id]).value
  }

  predicate HasDeadline(subs: map<SubId, Sub>, id: SubId, d: Time) {
    id in subs && NextPublishDeadline(subs[id]) == Some(d)
  }

  predicate HasInterval(subs: map<SubId, Sub>, id: SubId, ms: int) {
    id in subs && Max(1, subs[id].params.intervalMs) == ms
  }

  /** A wait of `ms` passes neither the deadline nor the publishing interval of the subscription. */
  predicate Within(subs: map<SubId, Sub>, id: SubId, now: Time, ms: int)
    requires id in subs
  {
    var d := NextPublishDeadline(subs[id]);
    d.Some? && now + ms <= d.value && ms <= Max(1, subs[id].params.intervalMs)
  }

  /** A positive wait, exactly until the earliest deadline, or for the shortest publishing interval if that
      is over sooner. */
  ghost predicate Pauses(subs: map<SubId, Sub>, now: Time, ms: int) {
    && ms > 0
    && (forall id :: id in subs ==> Within(subs, id, now, ms))
    && (exists id :: EndsWith(subs, id, now, ms))
  }

  /** The wait ends at the deadline of the subscription, or is its publishing interval. */
  predicate EndsWith(subs: map<SubId, Sub>, id: SubId, now: Time, ms: int) {
    HasDeadline(subs, id, now + ms) || HasInterval(subs, id, ms)
  }

  lemma {:induction false} SoonestExact(subs: map<SubId, Sub>, order: seq<SubId>, now: Time)
    requires forall i :: 0 <= i < |order| ==> Coming(subs, order[i], now)
    ensures var p := Soonest(subs, order);
            && (order == [] <==> p.None?)
            && (p.Some? ==> p.value.interval >= 1 && p.value.deadline > now)
            && (p.Some? ==> forall i :: 0 <= i < |order| ==>
                  && Coming(subs, order[i], p.value.deadline - 1)
                  && p.value.interval <= Max(1, subs[order[i]].params.intervalMs))
            && (p.Some? ==> exists i :: 0 <= i < |order| && HasDeadline(subs, order[i], p.value.deadline))
            && (p.Some? ==> exists i :: 0 <= i < |order| && HasInterval(subs, order[i], p.value.interval))
  {
    hide NextPublishDeadline;
    if order != [] {
      SoonestExact(subs, order[..|order| - 1], now);
    }
  }

  /** A poll answers from a ready subscription whenever there is one; otherwise it waits a strictly
      positive time, and exactly until the earliest deadline, or for the shortest publishing interval if
      that is over sooner. */
  lemma PollServesOrWaits(s: Session, now: Time)
    requires Valid(s) && Clocked(s)
    ensures var (s', r) := Poll(s, now);
            && Valid(s') && Clocked(s')
            && (r.Served? <==> ReadySet(s.subs, now, false) != {})
            && (r.Served? ==>
                  && r.subscription in ReadySet(s.subs, now, false)
                  && s'.subs == s.subs[r.subscription := TryPublish(s.subs[r.subscription], now).0]
                  && TryPublish(s.subs[r.subscription], now).1 == Some(r.response))
            && (r.NoSubscription? <==> s.subs == map[])
            && !r.Empty?
            && (!r.Served? ==> s' == s)
            && (r.WaitFor? ==> Pauses(s.subs, now, r.ms))
  {
    hide Pauses;
    ChooseExact(s, now);
    var i := Choose(s, now);
    if i.Some? {
      PollServes(s, now, i.value);
    } else {
      assert PrimeAll(s.subs, now) == s.subs;
      if s.subs != map[] {
        PollWaits(s, now);
      }
    }
  }

  lemma PollServes(s: Session, now: Time, i: nat)
    requires Valid(s) && Clocked(s) && Choose(s, now) == Some(i)
    requires IsPublishReady(s.subs[s.rota.order[i]], now)
    ensures var id := s.rota.order[i];
            var (sub, response) := TryPublish(s.subs[id], now);
            && response.Some? && sub.lastPublish == Some(now)
            && Poll(s, now) == (Session(s.subs[id := sub], Advance(s.rota, i)), Served(id, response.value))
            && Valid(Poll(s, now).0) && Clocked(Poll(s, now).0)
  {
    var id := s.rota.order[i];
    ReadyExactlyAtDeadline(s.subs[id], now);
    TryPublishStamps(s.subs[id], now);
    hide TryPublish, IsPublishReady;
    AdvanceKeeps(s.rota, i);
    assert id in Elements(s.rota.order);
    assert s.subs[id := TryPublish(s.subs[id], now).0].Keys == s.subs.Keys;
  }

  lemma TryPublishStamps(s: Sub, now: Time)
    ensures TryPublish(s, now).1.Some? ==> TryPublish(s, now).0.lastPublish == Some(now)
    ensures TryPublish(s, now).0.params == s.params && TryPublish(s, now).0.id == s.id
  {
  }

  lemma PollWaits(s: Session, now: Time)
    requires Valid(s) && Clocked(s) && ReadySet(s.subs, now, false) == {} && s.subs != map[]
    ensures var p := Soonest(s.subs, s.rota.order);
            && p.Some?
            && Pauses(s.subs, now, Min(Max(0, p.value.deadline - now), p.value.interval))
  {
    forall id | id in s.subs
      ensures Coming(s.subs, id, now)
    {
      ReadyExactlyAtDeadline(s.subs[id], now);
      assert id !in ReadySet(s.subs, now, false);
    }
    hide NextPublishDeadline, IsPublishReady, Coming, Pauses;
    var order := s.rota.order;
    assert forall i :: 0 <= i < |order| ==> order[i] in Elements(order);
    var some :| some in s.subs;
    assert some in Elements(order);
    SoonestPauses(s.subs, order, now);
  }

  lemma SoonestPauses(subs: map<SubId, Sub>, order: seq<SubId>, now: Time)
    requires Elements(order) == subs.Keys && order != []
    requires forall i :: 0 <= i < |order| ==> Coming(subs, order[i], now)
    ensures Soonest(subs, order).Some?
    ensures var p := Soonest(subs, order).value;
            Pauses(subs, now, Min(Max(0, p.deadline - now), p.interval))
  {
    hide NextPublishDeadline, Soonest;
    SoonestExact(subs, order, now);
    var p := Soonest(subs, order).value;
    var w := Min(p.deadline - now, p.interval);
    forall id | id in subs
      ensures Within(subs, id, now, w)
    {
      assert id in Elements(order);
      var i :| 0 <= i < |order| && order[i] == id;
      assert Coming(subs, order[i], p.deadline - 1);
    }
    var i :| 0 <= i < |order| && HasDeadline(subs, order[i], p.deadline);
    var j :| 0 <= j < |order| && HasInterval(subs, order[j], p.interval);
    assert w == Min(Max(0, p.deadline - now), p.interval) && w > 0;
    if p.deadline - now <= p.interval {
      assert EndsWith(subs, order[i], now, w);
    } else {
      assert EndsWith(subs, order[j], now, w);
    }
  }

  // ---------- a frozen clock ----------

  /** Polls `n` times at one instant; the subscriptions served, in order. */
  function PollTimes(s: Session, now: Time, n: nat): (Session, seq<PollResult>)
    requires s.rota.order == [] || s.rota.cursor < |s.rota.order|
  {
    if n == 0 then (s, [])
    else
      var (s1, out) := PollTimes(s, now, n - 1);
      if s1.rota.order == [] || s1.rota.cursor < |s1.rota.order| then
        (Poll(s1, now).0, out + [Poll(s1, now).1])
      else (s1, out)
  }

  function ServedIds(out: seq<PollResult>): seq<SubId> {
    if out == [] then []
    else ServedIds(out[..|out| - 1])
         + (if out[|out| - 1].Served? then [out[|out| - 1].subscription] else [])
  }

  lemma PollRemovesReady(s: Session, now: Time)
    requires Valid(s) && Clocked(s) && ReadySet(s.subs, now, false) != {}
    ensures var (s', r) := Poll(s, now);
            r.Served? && ReadySet(s'.subs, now, false) == ReadySet(s.subs, now, false) - {r.subscription}
  {
    PollServesOrWaits(s, now);
    var r := Poll(s, now).1;
    ReadyExactlyAtDeadline(s.subs[r.subscription], now);
    hide Poll, TryPublish, IsPublishReady;
  }

  /** The polls so far have served distinct subscriptions out of `ready`; the others still wait. */
  ghost predicate ServedSoFar(ready: set<SubId>, now: Time, s: Session, out: seq<PollResult>) {
    var ids := ServedIds(out);
    && Valid(s) && Clocked(s) && |out| == |ids|
    && Lists(ids, Elements(ids)) && Elements(ids) <= ready
    && ReadySet(s.subs, now, false) == ready - Elements(ids)
  }

  lemma ServedOneMore(ready: set<SubId>, now: Time, s: Session, out: seq<PollResult>)
    requires ServedSoFar(ready, now, s, out) && |out| < |ready|
    ensures ServedSoFar(ready, now, Poll(s, now).0, out + [Poll(s, now).1])
  {
    var ids := ServedIds(out);
    DistinctSize(ids);
    assert ReadySet(s.subs, now, false) != {} by {
      if ready - Elements(ids) == {} {
        forall x | x in ready
          ensures x in Elements(ids)
        {
          assert x !in ready - Elements(ids);
        }
        SubsetSize(ready, Elements(ids));
      }
    }
    PollServesOrWaits(s, now);
    PollRemovesReady(s, now);
    var r := Poll(s, now).1;
    ListsAppend(ids, Elements(ids), r.subscription);
    hide Poll, ReadySet, Valid, Clocked, Lists;
    assert (out + [r])[..|out|] == out;
    assert Elements(ids + [r.subscription]) == Elements(ids) + {r.subscription};
  }

  /** At a frozen clock, successive polls serve each ready subscription exactly once, and then the
      next poll waits. */
  lemma {:induction false} FrozenClock(s: Session, now: Time, n: nat)
    requires Valid(s) && Clocked(s) && n <= |ReadySet(s.subs, now, false)|
    ensures var ready := ReadySet(s.subs, now, false);
            var (s', out) := PollTimes(s, now, n);
            && |out| == n && ServedSoFar(ready, now, s', out)
            && (n == |ready| ==> Elements(ServedIds(out)) == ready && !Poll(s', now).1.Served?)
  {
    hide Poll, Valid, Clocked, ReadySet, Lists, Elements, ServedSoFar, ServedIds;
    var ready := ReadySet(s.subs, now, false);
    ValidTurn(s);
    if n == 0 {
      NoneServed(s, now);
    } else {
      FrozenClock(s, now, n - 1);
      var (s1, out) := PollTimes(s, now, n - 1);
      SoFarValid(ready, now, s1, out);
      ServedOneMore(ready, now, s1, out);
    }
    var (s', out) := PollTimes(s, now, n);
    if n == |ready| {
      AllServed(ready, now, s', out);
    }
  }

  lemma ValidTurn(s: Session)
    requires Valid(s)
    ensures s.rota.order == [] || s.rota.cursor < |s.rota.order|
  {
  }

  lemma NoneServed(s: Session, now: Time)
    requires Valid(s) && Clocked(s)
    ensures ServedSoFar(ReadySet(s.subs, now, false), now, s, [])
  {
    hide Valid, Clocked, ReadySet;
  }

  lemma SoFarValid(ready: set<SubId>, now: Time, s: Session, out: seq<PollResult>)
    requires ServedSoFar(ready, now, s, out)
    ensures s.rota.order == [] || s.rota.cursor < |s.rota.order|
  {
    hide ReadySet;
  }

  lemma AllServed(ready: set<SubId>, now: Time, s: Session, out: seq<PollResult>)
    requires ServedSoFar(ready, now, s, out) && |out| == |ready|
    ensures Elements(ServedIds(out)) == ready && !Poll(s, now).1.Served?
  {
    var ids := Elements(ServedIds(out));
    DistinctSize(ServedIds(out));
    if x :| x in ready && x !in ids {
      SubsetSize(ids, ready - {x});
    }
    PollServesOrWaits(s, now);
  }
}
