/** The publish rotation of a session: the order in which its subscriptions take turns and the
    cursor from which the next turn is sought. */
module Rotation {
  import opened Common

  datatype Rota = Rota(order: seq<nat>, cursor: nat)

  const NO_TURNS: Rota := Rota([], 0)

  ghost predicate WellFormed(r: Rota) {
    Distinct(r.order) && (if r.order == [] then r.cursor == 0 else r.cursor < |r.order|)
  }

  /** The place reached after `offset` steps from the cursor, going around. */
  function At(r: Rota, offset: nat): nat
    requires r.cursor < |r.order| && offset < |r.order|
  {
    (r.cursor + offset) % |r.order|
  }

  /** The first subscription with a turn to take, searched from the cursor once around. */
  function Next(r: Rota, ready: set<nat>, offset: nat := 0): (i: Option<nat>)
    requires r.order == [] || r.cursor < |r.order|
    requires offset <= |r.order|
    ensures i.Some? ==> i.value < |r.order| && r.order[i.value] in ready
    decreases |r.order| - offset
  {
    if offset == |r.order| then None
    else if r.order[At(r, offset)] in ready then Some(At(r, offset))
    else Next(r, ready, offset + 1)
  }

  function Advance(r: Rota, i: nat): Rota
    requires i < |r.order|
  {
    r.(cursor := (i + 1) % |r.order|)
  }

  function Append(r: Rota, id: nat): Rota {
    r.(order := r.order + [id])
  }

  function IndexOf(order: seq<nat>, id: nat): (i: Option<nat>)
    ensures i.Some? ==> i.value < |order| && order[i.value] == id
    ensures i.Some? ==> forall j :: 0 <= j < i.value ==> order[j] != id
    ensures i.None? ==> id !in order
  {
    if order == [] then None
    else if order[0] == id then Some(0)
    else match IndexOf(order[1..], id)
         case None => None
         case Some(i) => Some(i + 1)
  }

  /** Removing a subscription keeps the cursor on the turn it was on. */
  function Erase(r: Rota, id: nat): Rota {
    match IndexOf(r.order, id)
    case None => r
    case Some(i) =>
      var order := RemoveAt(r.order, i);
      var cursor := if i < r.cursor then r.cursor - 1 else r.cursor;
      Rota(order, if cursor >= |order| then 0 else cursor)
  }

  // ---------- well-formedness ----------

  lemma AdvanceKeeps(r: Rota, i: nat)
    requires WellFormed(r) && i < |r.order|
    ensures WellFormed(Advance(r, i))
  {
  }

  lemma AppendKeeps(r: Rota, id: nat)
    requires WellFormed(r) && id !in r.order
    ensures WellFormed(Append(r, id)) && Elements(Append(r, id).order) == Elements(r.order) + {id}
  {
    assert forall i :: 0 <= i < |r.order| ==> r.order[i] in r.order;
  }

  lemma EraseKeeps(r: Rota, id: nat)
    requires WellFormed(r)
    ensures WellFormed(Erase(r, id)) && Elements(Erase(r, id).order) == Elements(r.order) - {id}
  {
    var at := IndexOf(r.order, id);
    if at.Some? {
      RemovedElements(r.order, at.value);
    }
  }

  lemma RemovedElements(order: seq<nat>, at: nat)
    requires Distinct(order) && at < |order|
    ensures Distinct(RemoveAt(order, at))
    ensures Elements(RemoveAt(order, at)) == Elements(order) - {order[at]}
  {
    var o := RemoveAt(order, at);
    forall x | x in order && x != order[at]
      ensures x in o
    {
      var i :| 0 <= i < |order| && order[i] == x;
      assert if i < at then o[i] == x else o[i - 1] == x;
    }
  }

  // ---------- distance to the next turn ----------

  /** How many turns are ahead of place `i`. */
  function Distance(r: Rota, i: nat): (d: nat)
    requires r.cursor < |r.order| && i < |r.order|
    ensures d < |r.order|
  {
    if i >= r.cursor then i - r.cursor else i + |r.order| - r.cursor
  }

  /** How many turns are ahead of subscription `id`. */
  function Ahead(r: Rota, id: nat): nat
    requires id in r.order && r.cursor < |r.order|
  {
    Distance(r, IndexOf(r.order, id).value)
  }

  lemma Wraps(x: nat, n: nat)
    requires x < 2 * n
    ensures x % n == if x < n then x else x - n
  {
  }

  lemma AtDistance(r: Rota, offset: nat)
    requires r.cursor < |r.order| && offset < |r.order|
    ensures Distance(r, At(r, offset)) == offset
  {
    Wraps(r.cursor + offset, |r.order|);
  }

  lemma DistanceInjective(r: Rota, i: nat)
    requires r.cursor < |r.order| && i < |r.order|
    ensures At(r, Distance(r, i)) == i
  {
    Wraps(r.cursor + Distance(r, i), |r.order|);
  }

  /** The turn found is the nearest one; none is found only when nobody is ready. */
  lemma {:induction false} NextIsNearest(r: Rota, ready: set<nat>, offset: nat, i: nat)
    requires r.cursor < |r.order| && offset <= |r.order|
    requires i < |r.order| && r.order[i] in ready && Distance(r, i) >= offset
    ensures var n := Next(r, ready, offset);
            n.Some? && offset <= Distance(r, n.value) <= Distance(r, i)
    decreases |r.order| - offset
  {
    AtDistance(r, offset);
    if r.order[At(r, offset)] !in ready {
      DistanceInjective(r, i);
      NextIsNearest(r, ready, offset + 1, i);
    }
  }

  lemma IndexOfUnique(order: seq<nat>, i: nat)
    requires Distinct(order) && i < |order|
    ensures IndexOf(order, order[i]) == Some(i)
  {
  }

  lemma AdvanceDistance(r: Rota, n: nat, i: nat)
    requires r.cursor < |r.order| && n < |r.order| && i < |r.order|
    requires Distance(r, n) < Distance(r, i)
    ensures Distance(Advance(r, n), i) == Distance(r, i) - Distance(r, n) - 1
  {
    Wraps(n + 1, |r.order|);
  }

  /** A turn goes to `id`, or to another subscription that was closer, and then `id` has strictly
      fewer turns ahead of it. */
  lemma TurnApproaches(r: Rota, ready: set<nat>, id: nat)
    requires WellFormed(r) && id in r.order && id in ready
    ensures var n := Next(r, ready);
            && n.Some?
            && (r.order[n.value] != id ==>
                  Ahead(Advance(r, n.value), id) < Ahead(r, id))
  {
    var i := IndexOf(r.order, id).value;
    NextIsNearest(r, ready, 0, i);
    var n := Next(r, ready).value;
    if r.order[n] != id {
      DistanceInjective(r, i);
      DistanceInjective(r, n);
      AdvanceDistance(r, n, i);
    }
  }

  /** A new subscription joins at the end and puts at most one more turn ahead of `id`. */
  lemma AppendDelays(r: Rota, extra: nat, id: nat)
    requires WellFormed(r) && id in r.order && extra !in r.order
    ensures var r' := Append(r, extra);
            WellFormed(r') && id in r'.order && Ahead(r', id) <= Ahead(r, id) + 1
  {
    AppendKeeps(r, extra);
    var r', i := Append(r, extra), IndexOf(r.order, id).value;
    assert r'.order[i] == id;
    IndexOfUnique(r'.order, i);
  }

  /** Removing another subscription never puts more turns ahead of `id`. */
  lemma EraseApproaches(r: Rota, other: nat, id: nat)
    requires WellFormed(r) && id in r.order && id != other
    ensures var r' := Erase(r, other);
            WellFormed(r') && id in r'.order && Ahead(r', id) <= Ahead(r, id)
  {
    EraseKeeps(r, other);
    var r', i := Erase(r, other), IndexOf(r.order, id).value;
    assert id in Elements(r'.order);
    var at := IndexOf(r.order, other);
    if at.Some? {
      var i' := if at.value < i then i - 1 else i;
      assert r'.order[i'] == id;
      IndexOfUnique(r'.order, i');
    }
  }
}
