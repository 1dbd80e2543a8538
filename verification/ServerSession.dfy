/** The server session as an object: its subscriptions, the publish order and cursor updated in
    place. Subscriptions are held by value; see ServerSubscription.dfy for the object they are. */
module ServerSession {
  import opened Common
  import opened Retransmission
  import opened Subscription
  import opened Rotation
  import opened Session
  import opened Acknowledgements

  class ServerSession {
    var subscriptions: map<nat, Sub>
    var publishOrder: seq<nat>
    var nextPublishIndex: nat

    function View(): Session
      reads this
    {
      Session(subscriptions, Rota(publishOrder, nextPublishIndex))
    }

    constructor ()
      ensures View() == NO_SUBSCRIPTIONS && Valid(View())
    {
      subscriptions, publishOrder, nextPublishIndex := map[], [], 0;
    }

    method CreateSubscriptionWithId(id: nat, requested: Params, now: Time) returns (revised: Params)
      requires Valid(View()) && id !in subscriptions
      modifies this
      ensures View() == Add(old(View()), id, Initial(id, requested, now)) && Valid(View())
      ensures revised == Revise(requested)
    {
      AddValid(View(), id, Initial(id, requested, now));
      var subscription := Initial(id, requested, now);
      subscriptions := subscriptions[id := subscription];
      publishOrder := publishOrder + [id];
      revised := subscription.params;
    }

    method EraseSubscription(id: nat)
      modifies this
      ensures View() == Drop(old(View()), id)
    {
      subscriptions := subscriptions - {id};
      var index := 0;
      while index < |publishOrder| && publishOrder[index] != id
        invariant index <= |publishOrder|
        invariant forall j :: 0 <= j < index ==> publishOrder[j] != id
        invariant subscriptions == old(subscriptions) - {id}
        invariant publishOrder == old(publishOrder) && nextPublishIndex == old(nextPublishIndex)
      {
        index := index + 1;
      }
      if index == |publishOrder| {
        return;
      }
      publishOrder := RemoveAt(publishOrder, index);
      if publishOrder == [] {
        nextPublishIndex := 0;
        return;
      }
      if index < nextPublishIndex {
        nextPublishIndex := nextPublishIndex - 1;
      }
      if nextPublishIndex >= |publishOrder| {
        nextPublishIndex := 0;
      }
    }

    method DeleteSubscriptions(ids: seq<nat>) returns (results: seq<Status>)
      modifies this
      ensures (View(), results) == DropAll(old(View()), ids)
      ensures Valid(old(View())) ==> Valid(View())
    {
      ghost var s0 := View();
      results := [];
      for i := 0 to |ids|
        invariant (View(), results) == DropAll(s0, ids[..i])
      {
        assert ids[..i + 1][..i] == ids[..i];
        hide Drop;
        if ids[i] !in subscriptions {
          results := results + [BadSubscriptionIdInvalid];
        } else {
          EraseSubscription(ids[i]);
          results := results + [Good];
        }
      }
      assert ids[..|ids|] == ids;
      if Valid(s0) {
        DropAllValid(s0, ids);
      }
    }

    /** Moves subscriptions here from another session of the server; from itself, none. */
    method TransferSubscriptionsFrom(source: ServerSession, ids: seq<nat>) returns (results: seq<Status>)
      modifies this, source
      ensures source != this ==>
                (View(), source.View(), results) == MoveAll(old(View()), old(source.View()), ids)
      ensures source == this ==>
                && View() == old(View()) && |results| == |ids|
                && forall i :: 0 <= i < |ids| ==>
                     results[i] == if ids[i] in subscriptions then Bad else BadSubscriptionIdInvalid
    {
      ghost var t0, s0 := View(), source.View();
      hide Drop;
      results := [];
      for i := 0 to |ids|
        invariant source != this ==> (View(), source.View(), results) == MoveAll(t0, s0, ids[..i])
        invariant source == this ==>
                    && View() == t0 && |results| == i
                    && forall j :: 0 <= j < i ==>
                         results[j] == if ids[j] in subscriptions then Bad else BadSubscriptionIdInvalid
      {
        assert ids[..i + 1][..i] == ids[..i];
        if ids[i] in subscriptions {
          results := results + [Bad];
        } else if ids[i] !in source.subscriptions {
          results := results + [BadSubscriptionIdInvalid];
        } else {
          subscriptions := subscriptions[ids[i] := source.subscriptions[ids[i]]];
          publishOrder := publishOrder + [ids[i]];
          source.EraseSubscription(ids[i]);
          results := results + [Good];
        }
      }
      assert ids[..|ids|] == ids;
    }

    // ---------- publishing ----------

    method FindNextReadySubscription(now: Time, requirePending: bool) returns (index: Option<nat>)
      requires Valid(View())
      ensures index == Next(View().rota, ReadySet(subscriptions, now, requirePending))
    {
      ghost var r, ready := View().rota, ReadySet(subscriptions, now, requirePending);
      for offset := 0 to |publishOrder|
        invariant Next(r, ready) == Next(r, ready, offset)
      {
        var at := (nextPublishIndex + offset) % |publishOrder|;
        assert at == At(r, offset);
        var id := publishOrder[at];
        if id !in subscriptions {
          continue;
        }
        if requirePending && subscriptions[id].pending == [] {
          continue;
        }
        if !IsPublishReady(subscriptions[id], now) {
          continue;
        }
        return Some(at);
      }
      index := None;
    }

    method PrimeEach(now: Time)
      requires Valid(View())
      modifies this`subscriptions
      ensures subscriptions == PrimeAll(old(subscriptions), now)
    {
      ghost var subs0 := subscriptions;
      hide Prime, WellFormed;
      for i := 0 to |publishOrder|
        invariant subscriptions.Keys == subs0.Keys
        invariant forall id :: id in subs0 ==>
                    subscriptions[id] == if id in publishOrder[..i] then Prime(subs0[id], now) else subs0[id]
      {
        var id := publishOrder[i];
        assert publishOrder[..i + 1] == publishOrder[..i] + [id];
        if id in subscriptions {
          PrimeTwice(subs0[id], now);
          subscriptions := subscriptions[id := Prime(subscriptions[id], now)];
        }
      }
      assert publishOrder[..|publishOrder|] == publishOrder;
      assert forall id :: id in subs0 ==> id in Elements(publishOrder);
    }

    method SoonestPause() returns (pause: Option<Pause>)
      ensures pause == Soonest(subscriptions, publishOrder)
    {
      pause := None;
      hide NextPublishDeadline, PublishingInterval;
      for i := 0 to |publishOrder|
        invariant pause == Soonest(subscriptions, publishOrder[..i])
      {
        assert publishOrder[..i + 1][..i] == publishOrder[..i];
        var id := publishOrder[i];
        if id in subscriptions {
          var deadline := NextPublishDeadline(subscriptions[id]);
          if deadline.Some? {
            var interval := PublishingInterval(subscriptions[id].params);
            match pause
            case None => pause := Some(Pause(deadline.value, interval));
            case Some(p) =>
              pause := Some(Pause(
                if deadline.value < p.deadline then deadline.value else p.deadline,
                if interval < p.interval then interval else p.interval));
          }
        }
      }
      assert publishOrder[..|publishOrder|] == publishOrder;
    }

    method PollPublish(now: Time) returns (result: PollResult)
      requires Valid(View())
      modifies this`subscriptions, this`nextPublishIndex
      ensures (View(), result) == Poll(old(View()), now)
    {
      hide ReadySet, TryPublish, PrimeAll, Soonest, Next;
      var index := FindNextReadySubscription(now, true);
      if index.None? {
        index := FindNextReadySubscription(now, false);
      }
      assert index == Choose(View(), now);
      if index.None? {
        if subscriptions == map[] {
          return NoSubscription;
        }
        PrimeEach(now);
        var pause := SoonestPause();
        match pause
        case None => return Empty;
        case Some(p) => return WaitFor(Min(Max(0, p.deadline - now), p.interval));
      }
      var id := publishOrder[index.value];
      var (subscription, response) := TryPublish(subscriptions[id], now);
      subscriptions := subscriptions[id := subscription];
      match response
      case None => return Empty;
      case Some(answer) =>
        nextPublishIndex := (index.value + 1) % |publishOrder|;
        return Served(id, answer);
    }

    // ---------- acknowledging ----------

    /** Groups the acknowledgements of known subscriptions; the others are refused. */
    method GroupAcknowledgements(acks: seq<Acknowledgement>)
      returns (results: seq<Status>, groups: Groups)
      ensures Grouped(subscriptions.Keys, acks, groups) && |results| == |acks|
      ensures forall i :: 0 <= i < |acks| && acks[i].subscription !in subscriptions ==>
                results[i] == BadSubscriptionIdInvalid
    {
      results := [];
      groups := map[];
      assert Grouped(subscriptions.Keys, acks[..0], groups);
      hide Grouped;
      for i := 0 to |acks|
        invariant |results| == i && Grouped(subscriptions.Keys, acks[..i], groups)
        invariant forall j :: 0 <= j < i && acks[j].subscription !in subscriptions ==>
                    results[j] == BadSubscriptionIdInvalid
      {
        GroupedNext(subscriptions.Keys, acks, i, groups);
        if acks[i].subscription !in subscriptions {
          results := results + [BadSubscriptionIdInvalid];
        } else {
          results := results + [Good];
          groups := GroupAdd(groups, i, acks[i]);
        }
      }
      assert acks[..|acks|] == acks;
    }

    /** The groups are taken in no particular order; state and answers are those of acknowledging
        one after the other in request order. */
    method AcknowledgePublishRequest(acks: seq<Acknowledgement>) returns (results: seq<Status>)
      modifies this`subscriptions
      ensures (subscriptions, results) == AckInOrder(old(subscriptions), acks)
    {
      ghost var subs0 := subscriptions;
      var groups;
      results, groups := GroupAcknowledgements(acks);
      AppliedFirst(subs0, acks, groups, results);
      hide Applied, Acknowledge, AcknowledgeAll, NumbersFor, Places;
      var rest := groups.Keys;
      while rest != {}
        invariant rest <= groups.Keys && Applied(subs0, acks, rest, subscriptions, results)
        decreases rest
      {
        var id :| id in rest;
        var (places, numbers) := GroupOf(groups, id);
        AppliedUntouched(subs0, acks, rest, subscriptions, results, id);
        var (ring, answers) := AcknowledgeAll(subscriptions[id].ring, numbers);
        var spread := Spread(subs0, acks, id, results, places, answers);
        AppliedNext(subs0, acks, rest, subscriptions, results, id, spread);
        subscriptions := subscriptions[id := subscriptions[id].(ring := ring)];
        results := spread;
        rest := rest - {id};
      }
      AppliedLast(subs0, acks, subscriptions, results);
    }

    /** Writes the answers of one group back to the places its acknowledgements came from. */
    static method Spread(ghost subs: map<nat, Sub>, acks: seq<Acknowledgement>, id: nat,
        before: seq<Status>, places: seq<nat>, answers: seq<Status>) returns (results: seq<Status>)
      requires id in subs && |before| == |acks| && places == Places(acks, id)
      requires answers == AcknowledgeAll(subs[id].ring, NumbersFor(acks, id)).1
      ensures |results| == |acks|
      ensures forall i :: 0 <= i < |acks| ==>
                results[i] == if acks[i].subscription == id then AnswerAt(subs, acks, i) else before[i]
    {
      AllLength(subs[id].ring, NumbersFor(acks, id));
      PlacesBelong(acks, id);
      hide AcknowledgeAll, Acknowledge, NumbersFor, Places, AnswerAt;
      results := before;
      for k := 0 to |places|
        invariant |results| == |acks|
        invariant forall i :: 0 <= i < |acks| && acks[i].subscription != id ==> results[i] == before[i]
        invariant forall i :: 0 <= i < |acks| && acks[i].subscription == id && |Places(acks[..i], id)| < k ==>
                    results[i] == AnswerAt(subs, acks, i)
      {
        ghost var was := results;
        results := results[places[k] := answers[k]];
        forall i | 0 <= i < |acks| && acks[i].subscription == id && |Places(acks[..i], id)| <= k
          ensures results[i] == AnswerAt(subs, acks, i)
        {
          GroupAnswer(subs, acks, i);
          if i == places[k] {
            PlacesDistinct(acks, i, k);
          }
        }
      }
      forall i | 0 <= i < |acks| && acks[i].subscription == id
        ensures |Places(acks[..i], id)| < |places|
      {
        PlaceOf(acks, i);
      }
    }
  }
}
