/** The acknowledgements of a publish request. The server groups them by subscription and hands
    each group to its subscription, in whatever order the groups come; the meaning is that of
    acknowledging one after the other in request order. */
module Acknowledgements {
  import opened Common
  import opened Retransmission
  import opened Subscription
  import opened PublishAnswers

  type SubId = nat

  datatype Acknowledgement = Acknowledgement(subscription: SubId, number: nat)

  // ---------- one after the other ----------

  function AckOne(subs: map<SubId, Sub>, a: Acknowledgement): (map<SubId, Sub>, Status) {
    if a.subscription !in subs then (subs, BadSubscriptionIdInvalid)
    else
      var sub := subs[a.subscription];
      var (ring, status) := Acknowledge(sub.ring, a.number);
      (subs[a.subscription := sub.(ring := ring)], status)
  }

  function AckInOrder(subs: map<SubId, Sub>, acks: seq<Acknowledgement>): (map<SubId, Sub>, seq<Status>)
  {
    if acks == [] then (subs, [])
    else
      var n := |acks| - 1;
      var (subs1, out) := AckInOrder(subs, acks[..n]);
      var (subs2, status) := AckOne(subs1, acks[n]);
      (subs2, out + [status])
  }

  // ---------- by groups ----------

  /** The acknowledgements for one subscription: their places in the request and their numbers. */
  function Places(acks: seq<Acknowledgement>, id: SubId): seq<nat> {
    if acks == [] then []
    else
      var n := |acks| - 1;
      Places(acks[..n], id) + (if acks[n].subscription == id then [n] else [])
  }

  function NumbersFor(acks: seq<Acknowledgement>, id: SubId): (ns: seq<nat>)
    ensures |ns| == |Places(acks, id)|
  {
    if acks == [] then []
    else
      var n := |acks| - 1;
      NumbersFor(acks[..n], id) + (if acks[n].subscription == id then [acks[n].number] else [])
  }

  /** What acknowledging in order answers at place `i`: only the earlier acknowledgements for the
      same subscription matter. */
  function AnswerAt(subs: map<SubId, Sub>, acks: seq<Acknowledgement>, i: nat): Status
    requires i < |acks|
  {
    var id := acks[i].subscription;
    if id !in subs then BadSubscriptionIdInvalid
    else Acknowledge(AcknowledgeAll(subs[id].ring, NumbersFor(acks[..i], id)).0, acks[i].number).1
  }

  /** A subscription after its own acknowledgements. */
  function Acked(sub: Sub, acks: seq<Acknowledgement>, id: SubId): Sub {
    sub.(ring := AcknowledgeAll(sub.ring, NumbersFor(acks, id)).0)
  }

  ghost predicate AllAcked(subs: map<SubId, Sub>, acks: seq<Acknowledgement>, subs': map<SubId, Sub>) {
    subs'.Keys == subs.Keys && forall id :: id in subs ==> subs'[id] == Acked(subs[id], acks, id)
  }

  /** Acknowledging in order, subscription by subscription. */
  lemma {:induction false} InOrderBySubscription(subs: map<SubId, Sub>, acks: seq<Acknowledgement>)
    ensures AllAcked(subs, acks, AckInOrder(subs, acks).0)
  {
    if acks != [] {
      var n := |acks| - 1;
      InOrderBySubscription(subs, acks[..n]);
      var subs1 := AckInOrder(subs, acks[..n]).0;
      assert AckInOrder(subs, acks).0 == AckOne(subs1, acks[n]).0;
      AckOneMore(subs, acks, n, subs1);
    }
  }

  lemma AckOneMore(subs: map<SubId, Sub>, acks: seq<Acknowledgement>, n: nat, subs1: map<SubId, Sub>)
    requires n == |acks| - 1 && AllAcked(subs, acks[..n], subs1)
    ensures AllAcked(subs, acks, AckOne(subs1, acks[n]).0)
  {
    hide AcknowledgeAll, Acknowledge, NumbersFor;
    forall id | id in subs
      ensures AckOne(subs1, acks[n]).0[id] == Acked(subs[id], acks, id)
    {
      NumbersNext(subs[id].ring, acks, n, id);
    }
  }

  lemma {:induction false} InOrderAnswers(subs: map<SubId, Sub>, acks: seq<Acknowledgement>)
    ensures |AckInOrder(subs, acks).1| == |acks|
    ensures forall i :: 0 <= i < |acks| ==> AckInOrder(subs, acks).1[i] == AnswerAt(subs, acks, i)
  {
    if acks != [] {
      var n := |acks| - 1;
      InOrderAnswers(subs, acks[..n]);
      InOrderBySubscription(subs, acks[..n]);
      hide AcknowledgeAll, Acknowledge, NumbersFor;
      forall i | 0 <= i < |acks|
        ensures AckInOrder(subs, acks).1[i] == AnswerAt(subs, acks, i)
      {
        if i < n {
          AnswerPrefix(subs, acks, n, i);
        }
      }
    }
  }

  lemma AnswerPrefix(subs: map<SubId, Sub>, acks: seq<Acknowledgement>, n: nat, i: nat)
    requires i < n <= |acks|
    ensures AnswerAt(subs, acks[..n], i) == AnswerAt(subs, acks, i)
  {
    assert acks[..n][..i] == acks[..i];
  }

  /** One more acknowledgement extends the run of its own subscription and no other. */
  lemma NumbersNext(ring: Ring, acks: seq<Acknowledgement>, n: nat, id: SubId)
    requires n == |acks| - 1
    ensures var before, after := NumbersFor(acks[..n], id), NumbersFor(acks, id);
            AcknowledgeAll(ring, after).0 ==
              if acks[n].subscription == id
              then Acknowledge(AcknowledgeAll(ring, before).0, acks[n].number).0
              else AcknowledgeAll(ring, before).0
  {
    var before, after := NumbersFor(acks[..n], id), NumbersFor(acks, id);
    if acks[n].subscription == id {
      assert after[..|before|] == before;
    } else {
      assert after == before;
    }
  }

  /** Every subscription holds its messages in number order, as in every run. */
  ghost predicate AllInOrder(subs: map<SubId, Sub>) {
    forall id :: id in subs ==> InNumberOrder(subs[id].ring.held)
  }

  /** How each acknowledgement of a request is answered: it succeeds if its subscription is there and can send
      the message again, and the request has not acknowledged it before. */
  lemma AnswersExactly(subs: map<SubId, Sub>, acks: seq<Acknowledgement>, i: nat)
    requires AllInOrder(subs) && i < |acks|
    ensures |AckInOrder(subs, acks).1| == |acks|
    ensures var a := acks[i];
            AckInOrder(subs, acks).1[i]
            == if a.subscription !in subs then BadSubscriptionIdInvalid
               else if Republish(subs[a.subscription].ring, a.number).Some? && a !in acks[..i] then Good
               else BadSequenceNumberUnknown
  {
    hide AckInOrder, AcknowledgeAll, Republish, InNumberOrder, NumbersFor;
    InOrderAnswers(subs, acks);
    var a := acks[i];
    if a.subscription in subs {
      var ns := NumbersFor(acks[..i], a.subscription);
      AcknowledgeAnswered(subs[a.subscription].ring, ns, a.number);
      AcknowledgeOne(AcknowledgeAll(subs[a.subscription].ring, ns).0, a.number, a.number);
      NumbersAre(acks[..i], a.subscription, a.number);
      assert Acknowledgement(a.subscription, a.number) == a;
    }
  }

  lemma {:induction false} NumbersAre(acks: seq<Acknowledgement>, id: SubId, number: nat)
    ensures number in NumbersFor(acks, id) <==> Acknowledgement(id, number) in acks
  {
    if acks != [] {
      var n := |acks| - 1;
      NumbersAre(acks[..n], id, number);
      assert acks == acks[..n] + [acks[n]];
    }
  }

  /** The k-th place of a group is the place of its k-th acknowledgement. */
  lemma {:induction false} PlaceOf(acks: seq<Acknowledgement>, i: nat)
    requires i < |acks|
    ensures var id := acks[i].subscription;
            var k := |Places(acks[..i], id)|;
            && k < |Places(acks, id)| && Places(acks, id)[k] == i
            && NumbersFor(acks[..i], id) == NumbersFor(acks, id)[..k]
            && NumbersFor(acks, id)[k] == acks[i].number
  {
    var n := |acks| - 1;
    var id := acks[i].subscription;
    if i < n {
      PlaceOf(acks[..n], i);
      assert acks[..n][..i] == acks[..i];
      var a, b := NumbersFor(acks[..n], id), NumbersFor(acks, id);
      assert b[..|a|] == a;
    } else {
      var a, b := NumbersFor(acks[..n], id), NumbersFor(acks, id);
      assert b[..|a|] == a;
    }
  }

  lemma {:induction false} PlacesBelong(acks: seq<Acknowledgement>, id: SubId)
    ensures forall k :: 0 <= k < |Places(acks, id)| ==>
              Places(acks, id)[k] < |acks| && acks[Places(acks, id)[k]].subscription == id
  {
    if acks != [] {
      PlacesBelong(acks[..|acks| - 1], id);
    }
  }

  lemma {:induction false} AllAnswers(ring: Ring, ns: seq<nat>, k: nat)
    requires k < |ns|
    ensures var out := AcknowledgeAll(ring, ns).1;
            |out| == |ns| && out[k] == Acknowledge(AcknowledgeAll(ring, ns[..k]).0, ns[k]).1
  {
    var n := |ns| - 1;
    AllLength(ring, ns);
    if k < n {
      AllAnswers(ring, ns[..n], k);
      assert ns[..n][..k] == ns[..k];
    } else {
      AllLength(ring, ns[..n]);
    }
  }

  lemma {:induction false} AllLength(ring: Ring, ns: seq<nat>)
    ensures |AcknowledgeAll(ring, ns).1| == |ns|
  {
    if ns != [] {
      AllLength(ring, ns[..|ns| - 1]);
    }
  }

  /** The answer a group gives for its acknowledgement at place `i` is the in-order answer. */
  lemma GroupAnswer(subs: map<SubId, Sub>, acks: seq<Acknowledgement>, i: nat)
    requires i < |acks| && acks[i].subscription in subs
    ensures var id := acks[i].subscription;
            var k := |Places(acks[..i], id)|;
            var out := AcknowledgeAll(subs[id].ring, NumbersFor(acks, id)).1;
            && k < |Places(acks, id)| == |out| && Places(acks, id)[k] == i
            && out[k] == AnswerAt(subs, acks, i)
  {
    var id := acks[i].subscription;
    PlaceOf(acks, i);
    AllAnswers(subs[id].ring, NumbersFor(acks, id), |Places(acks[..i], id)|);
  }

  /** A place stands for one acknowledgement only. */
  lemma PlacesDistinct(acks: seq<Acknowledgement>, i: nat, k: nat)
    requires i < |acks|
    requires var id := acks[i].subscription; k < |Places(acks, id)| && Places(acks, id)[k] == i
    ensures |Places(acks[..i], acks[i].subscription)| == k
  {
    PlaceOf(acks, i);
    PlacesIncreasing(acks, acks[i].subscription);
  }

  lemma {:induction false} PlacesIncreasing(acks: seq<Acknowledgement>, id: SubId)
    ensures Increasing(Places(acks, id))
    ensures forall k :: 0 <= k < |Places(acks, id)| ==> Places(acks, id)[k] < |acks|
  {
    if acks != [] {
      PlacesIncreasing(acks[..|acks| - 1], id);
    }
  }

  /** A subscription no acknowledgement names is left as it is. */
  lemma {:induction false} UnmentionedUntouched(sub: Sub, acks: seq<Acknowledgement>, id: SubId)
    requires forall i :: 0 <= i < |acks| ==> acks[i].subscription != id
    ensures NumbersFor(acks, id) == [] && Acked(sub, acks, id) == sub
  {
    if acks != [] {
      UnmentionedUntouched(sub, acks[..|acks| - 1], id);
    }
    assert NumbersFor(acks, id) == [];
  }

  // ---------- the groups ----------

  type Groups = map<SubId, (seq<nat>, seq<nat>)>

  function GroupOf(groups: Groups, id: SubId): (seq<nat>, seq<nat>) {
    if id in groups then groups[id] else ([], [])
  }

  /** Each known subscription's group lists its acknowledgements so far. */
  ghost predicate Grouped(known: set<SubId>, acks: seq<Acknowledgement>, groups: Groups) {
    && groups.Keys <= known
    && forall id :: id in known ==> GroupOf(groups, id) == (Places(acks, id), NumbersFor(acks, id))
  }

  function GroupAdd(groups: Groups, i: nat, a: Acknowledgement): Groups {
    var (places, numbers) := GroupOf(groups, a.subscription);
    groups[a.subscription := (places + [i], numbers + [a.number])]
  }

  lemma GroupedNext(known: set<SubId>, acks: seq<Acknowledgement>, i: nat, groups: Groups)
    requires i < |acks| && Grouped(known, acks[..i], groups)
    ensures Grouped(known, acks[..i + 1],
              if acks[i].subscription in known then GroupAdd(groups, i, acks[i]) else groups)
  {
    var more := acks[..i + 1];
    assert more[..i] == acks[..i] && more[i] == acks[i];
    var groups' := if acks[i].subscription in known then GroupAdd(groups, i, acks[i]) else groups;
    forall id | id in known
      ensures GroupOf(groups', id) == (Places(more, id), NumbersFor(more, id))
    {
      assert GroupOf(groups, id) == (Places(acks[..i], id), NumbersFor(acks[..i], id));
      if acks[i].subscription == id {
        assert Places(more, id) == Places(acks[..i], id) + [i];
      } else {
        assert Places(more, id) == Places(acks[..i], id);
        assert NumbersFor(more, id) == NumbersFor(acks[..i], id);
      }
    }
  }

  /** A subscription without a group has no acknowledgement in the request. */
  lemma GroupedCovers(known: set<SubId>, acks: seq<Acknowledgement>, groups: Groups, i: nat)
    requires Grouped(known, acks, groups) && i < |acks| && acks[i].subscription in known
    ensures acks[i].subscription in groups
  {
    PlaceOf(acks, i);
    var id := acks[i].subscription;
    assert GroupOf(groups, id) == (Places(acks, id), NumbersFor(acks, id));
  }

  /** Every subscription but those in `rest` has had its group applied and answered. */
  ghost predicate Applied(subs: map<SubId, Sub>, acks: seq<Acknowledgement>, rest: set<SubId>,
      subs': map<SubId, Sub>, results: seq<Status>)
  {
    && |results| == |acks| && subs'.Keys == subs.Keys && rest <= subs.Keys
    && (forall id :: id in subs ==>
          subs'[id] == if id in rest then subs[id] else Acked(subs[id], acks, id))
    && (forall i :: 0 <= i < |acks| && acks[i].subscription !in rest ==>
          results[i] == AnswerAt(subs, acks, i))
  }

  lemma AppliedFirst(subs: map<SubId, Sub>, acks: seq<Acknowledgement>, groups: Groups, results: seq<Status>)
    requires Grouped(subs.Keys, acks, groups) && |results| == |acks|
    requires forall i :: 0 <= i < |acks| && acks[i].subscription !in subs ==>
               results[i] == BadSubscriptionIdInvalid
    ensures Applied(subs, acks, groups.Keys, subs, results)
  {
    forall i | 0 <= i < |acks| && acks[i].subscription !in groups
      ensures results[i] == AnswerAt(subs, acks, i)
    {
      if acks[i].subscription in subs {
        GroupedCovers(subs.Keys, acks, groups, i);
      }
    }
    forall id | id in subs && id !in groups
      ensures Acked(subs[id], acks, id) == subs[id]
    {
      forall i | 0 <= i < |acks|
        ensures acks[i].subscription != id
      {
        if acks[i].subscription == id {
          GroupedCovers(subs.Keys, acks, groups, i);
        }
      }
      UnmentionedUntouched(subs[id], acks, id);
    }
  }

  lemma AppliedUntouched(subs: map<SubId, Sub>, acks: seq<Acknowledgement>, rest: set<SubId>,
      subs': map<SubId, Sub>, results: seq<Status>, id: SubId)
    requires Applied(subs, acks, rest, subs', results) && id in rest
    ensures id in subs && id in subs' && subs'[id] == subs[id] && |results| == |acks|
  {
  }

  lemma AppliedNext(subs: map<SubId, Sub>, acks: seq<Acknowledgement>, rest: set<SubId>,
      subs': map<SubId, Sub>, results: seq<Status>, id: SubId, results': seq<Status>)
    requires Applied(subs, acks, rest, subs', results) && id in rest && |results'| == |acks|
    requires forall i :: 0 <= i < |acks| ==>
               results'[i] == if acks[i].subscription == id then AnswerAt(subs, acks, i) else results[i]
    ensures Applied(subs, acks, rest - {id}, subs'[id := Acked(subs'[id], acks, id)], results')
  {
    hide Acked, AnswerAt;
  }

  lemma AppliedLast(subs: map<SubId, Sub>, acks: seq<Acknowledgement>,
      subs': map<SubId, Sub>, results: seq<Status>)
    requires Applied(subs, acks, {}, subs', results)
    ensures (subs', results) == AckInOrder(subs, acks)
  {
    InOrderBySubscription(subs, acks);
    InOrderAnswers(subs, acks);
    hide Acked, AnswerAt;
    assert subs' == AckInOrder(subs, acks).0;
    assert results == AckInOrder(subs, acks).1;
  }
}
