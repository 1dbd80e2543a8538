/** What the state of the client's subscription says about the run that led to it: whether it exists, is
    being created or has parked items to take, and where every item stands. */
module ClientHistory {
  import opened Common
  import opened ClientItems

  /** The state after the first `n` steps, and what has gone over the wire by then. */
  function At(ops: seq<ItemOp>, n: nat): State
    requires n <= |ops|
  {
    Run(ops[..n]).0
  }

  function WireAt(ops: seq<ItemOp>, n: nat): Wire
    requires n <= |ops|
  {
    Run(ops[..n]).1
  }

  lemma AtNext(ops: seq<ItemOp>, n: nat)
    requires n < |ops|
    ensures At(ops, n + 1) == Step(At(ops, n), ops[n])
    ensures WireAt(ops, n + 1) == Note(At(ops, n), WireAt(ops, n), ops[n])
    ensures Flags(At(ops, n)) && Known(At(ops, n), WireAt(ops, n)) && AllPlaced(At(ops, n), WireAt(ops, n))
  {
    hide Step, Note, AllPlaced, Known, Flags, Accounted;
    RunKeeps(ops[..n]);
    assert ops[..n + 1][..n] == ops[..n];
  }

  lemma AtFirst(ops: seq<ItemOp>)
    ensures At(ops, 0) == NEW && WireAt(ops, 0) == NOTHING
  {
  }

  // ---------- the creation handshake ----------

  /** The creation that is waited for fails. */
  predicate CreationFails(s: State, op: ItemOp) {
    op == Created(false) && s.awaiting
  }

  /** Step `i` made sure the subscription is created, and no creation has failed since. */
  ghost predicate EnsuredAt(ops: seq<ItemOp>, n: nat, i: int)
    requires n <= |ops|
  {
    0 <= i < n && ops[i] == Ensure && forall j :: i < j < n ==> !CreationFails(At(ops, j), ops[j])
  }

  /** Step `i` started a creation, and none has been answered since. */
  ghost predicate StartedAt(ops: seq<ItemOp>, n: nat, i: int)
    requires n <= |ops|
  {
    0 <= i < n && ops[i] == Ensure && !At(ops, i).impl && forall j :: i < j < n ==> !ops[j].Created?
  }

  /** Step `i` answered the creation that was waited for, and the parked items have not been taken since. */
  ghost predicate CreatedAt(ops: seq<ItemOp>, n: nat, i: int)
    requires n <= |ops|
  {
    0 <= i < n && ops[i] == Created(true) && At(ops, i).awaiting && forall j :: i < j < n ==> ops[j] != Flush
  }

  /** The protocol object exists exactly if someone asked for it and no creation has failed since; a
      creation is waited for exactly if one was started, when there was no object, and not answered yet;
      and the parked items are due to be taken exactly if one has succeeded and they have not been taken. */
  lemma {:induction false} HandshakeExactly(ops: seq<ItemOp>, n: nat)
    requires n <= |ops|
    ensures At(ops, n).impl <==> exists i :: EnsuredAt(ops, n, i)
    ensures At(ops, n).awaiting <==> exists i :: StartedAt(ops, n, i)
    ensures At(ops, n).flushDue <==> exists i :: CreatedAt(ops, n, i)
    ensures At(ops, n).creating <==> At(ops, n).awaiting
  {
    hide At, WireAt, Step, Note, AllPlaced, Known;
    if n == 0 {
      AtFirst(ops);
    } else {
      var k := n - 1;
      HandshakeExactly(ops, k);
      AtNext(ops, k);
      var s, s', op := At(ops, k), At(ops, n), ops[k];
      StepFlags(s, op);
      StepHandshakes(s, op);
      if i :| EnsuredAt(ops, k, i) {
        assert !CreationFails(s, op) ==> EnsuredAt(ops, n, i);
      }
      if i :| StartedAt(ops, k, i) {
        assert !op.Created? ==> StartedAt(ops, n, i);
      }
      if i :| CreatedAt(ops, k, i) {
        assert op != Flush ==> CreatedAt(ops, n, i);
      }
      assert op == Ensure ==> EnsuredAt(ops, n, k);
      assert op == Ensure && !s.impl ==> StartedAt(ops, n, k);
      assert op == Created(true) && s.awaiting ==> CreatedAt(ops, n, k);
      assert forall i :: EnsuredAt(ops, n, i) && i < k ==> EnsuredAt(ops, k, i);
      assert forall i :: StartedAt(ops, n, i) && i < k ==> StartedAt(ops, k, i);
      assert forall i :: CreatedAt(ops, n, i) && i < k ==> CreatedAt(ops, k, i);
    }
  }

  lemma StepHandshakes(s: State, op: ItemOp)
    requires Flags(s)
    ensures var s' := Step(s, op);
            && (s'.impl <==> (s.impl || op == Ensure) && !CreationFails(s, op))
            && (s'.awaiting <==> (s.awaiting && !op.Created?) || (op == Ensure && !s.impl))
            && (s'.flushDue <==> (s.flushDue && op != Flush) || (op == Created(true) && s.awaiting))
  {
  }

  // ---------- where an item stands ----------

  /** The step accepts item `l`. */
  predicate Accepts(s: State, op: ItemOp, l: LocalId) {
    op.Add? && l == s.nextLocal
  }

  /** No creation is under way and the object exists, so that items need not be parked. */
  predicate Ready(s: State) {
    s.impl && !s.awaiting
  }

  /** Step `i` accepted the item while the subscription was not ready, and since then it has not been
      removed, nor taken, nor given up with a failed creation. */
  ghost predicate ParkedAt(ops: seq<ItemOp>, n: nat, l: LocalId, i: int)
    requires n <= |ops|
  {
    && 0 <= i < n && Accepts(At(ops, i), ops[i], l) && !Ready(At(ops, i))
    && forall j :: i < j < n ==> !Unparks(At(ops, j), ops[j], l)
  }

  predicate Unparks(s: State, op: ItemOp, l: LocalId) {
    op == Remove(l) || (op == Flush && s.flushDue) || CreationFails(s, op)
  }

  /** Step `i` handed the item to the executor, when it was accepted or when what was parked was taken, and
      its coroutine has not started since. */
  ghost predicate DueAt(ops: seq<ItemOp>, n: nat, l: LocalId, i: int)
    requires n <= |ops|
  {
    && 0 <= i < n && Hands(At(ops, i), ops[i], l)
    && forall j :: i < j < n ==> ops[j] != BeginCreate(l)
  }

  predicate Hands(s: State, op: ItemOp, l: LocalId) {
    (Accepts(s, op, l) && Ready(s)) || (op == Flush && s.flushDue && l in s.parked)
  }

  /** Step `i` sent the request that creates the item, and it has not been answered since. */
  ghost predicate SentAt(ops: seq<ItemOp>, n: nat, l: LocalId, i: int)
    requires n <= |ops|
  {
    && 0 <= i < n && Requests(At(ops, i), ops[i], l)
    && forall j :: i < j < n ==> !(ops[j].EndCreate? && ops[j].local == l)
  }

  predicate Requests(s: State, op: ItemOp, l: LocalId) {
    op == BeginCreate(l) && l in s.due && s.impl
  }

  lemma {:induction false} WithoutHas(s: seq<LocalId>, x: LocalId, l: LocalId)
    ensures l in Without(s, x) <==> l in s && l != x
  {
    if s != [] {
      WithoutHas(s[..|s| - 1], x, l);
      assert s == s[..|s| - 1] + [s[|s| - 1]];
    }
  }

  lemma StepParked(s: State, op: ItemOp, l: LocalId)
    requires Flags(s)
    ensures l in Step(s, op).parked
            <==> (l in s.parked && !Unparks(s, op, l)) || (Accepts(s, op, l) && !Ready(s))
  {
    hide Without;
    if op.Remove? {
      WithoutHas(s.parked, op.local, l);
      hide Flags;
    } else if op.Add? {
      AddedParks(s, op.view, l);
      hide Added, Flags;
    } else {
      hide Removed, Added, CreateBegun, CreateEnded, DeleteBegun, OfView;
      OtherParks(s, op);
    }
  }

  lemma AddedParks(s: State, view: ViewId, l: LocalId)
    requires Flags(s)
    ensures l in Added(s, view).parked <==> l in s.parked || (l == s.nextLocal && !Ready(s))
  {
  }

  lemma OtherParks(s: State, op: ItemOp)
    ensures op.BeginCreate? || op.EndCreate? || op.BeginDelete? || op.Close? || op.Ensure? ==>
              Step(s, op).parked == s.parked
  {
    hide Without;
  }

  lemma StepDue(s: State, op: ItemOp, l: LocalId)
    requires Flags(s) && s.due[l] <= 1
    ensures l in Step(s, op).due <==> (l in s.due && op != BeginCreate(l)) || Hands(s, op, l)
  {
    hide Without;
    if op.Add? {
      AddedHands(s, op.view, l);
      hide Added, Flags;
    } else if op.BeginCreate? {
      BegunTakes(s, op.local, l);
      hide CreateBegun, Flags;
    } else if op.Flush? {
      FlushHands(s, l);
      hide Flushed, Flags;
    } else {
      OtherHands(s, op);
      hide Step, Flags;
    }
  }

  lemma AddedHands(s: State, view: ViewId, l: LocalId)
    requires Flags(s)
    ensures l in Added(s, view).due <==> l in s.due || (l == s.nextLocal && Ready(s))
  {
  }

  lemma FlushHands(s: State, l: LocalId)
    ensures l in Flushed(s).due <==> l in s.due || (s.flushDue && l in s.parked)
  {
  }

  lemma BegunTakes(s: State, local: LocalId, l: LocalId)
    requires s.due[l] <= 1
    ensures l in CreateBegun(s, local).due <==> l in s.due && l != local
  {
    TakenOut(s.due, local, l);
    assert CreateBegun(s, local).due == if local in s.due then s.due - multiset{local} else s.due;
    hide CreateBegun;
  }

  lemma OtherHands(s: State, op: ItemOp)
    ensures !op.Add? && !op.BeginCreate? && !op.Flush? ==> Step(s, op).due == s.due
  {
    hide Without;
  }

  lemma StepSent(s: State, op: ItemOp, l: LocalId)
    requires s.inFlight[l] <= 1
    ensures l in Step(s, op).inFlight
            <==> (l in s.inFlight && !(op.EndCreate? && op.local == l)) || Requests(s, op, l)
  {
    if op.BeginCreate? {
      BegunSends(s, op.local, l);
      hide CreateBegun;
    } else if op.EndCreate? {
      EndedAnswers(s, op.local, op.granted, l);
      hide CreateEnded;
    } else {
      OtherSends(s, op);
      hide Step;
    }
  }

  lemma BegunSends(s: State, local: LocalId, l: LocalId)
    ensures l in CreateBegun(s, local).inFlight <==> l in s.inFlight || (l == local && l in s.due && s.impl)
  {
  }

  lemma EndedAnswers(s: State, local: LocalId, granted: Option<ServerId>, l: LocalId)
    requires s.inFlight[l] <= 1
    ensures l in CreateEnded(s, local, granted).inFlight <==> l in s.inFlight && l != local
  {
    TakenOut(s.inFlight, local, l);
    assert CreateEnded(s, local, granted).inFlight
        == if local in s.inFlight then s.inFlight - multiset{local} else s.inFlight;
    hide CreateEnded;
  }

  lemma TakenOut(m: multiset<LocalId>, x: LocalId, l: LocalId)
    requires m[l] <= 1
    ensures l in m - multiset{x} <==> l in m && l != x
  {
  }

  lemma OtherSends(s: State, op: ItemOp)
    ensures !op.BeginCreate? && !op.EndCreate? ==> Step(s, op).inFlight == s.inFlight
  {
    hide Without;
  }

  /** An item is in one place at a time. */
  lemma OnePlace(ops: seq<ItemOp>, n: nat, l: LocalId)
    requires n <= |ops|
    ensures At(ops, n).due[l] <= 1 && At(ops, n).inFlight[l] <= 1
    ensures At(ops, n).due[l] + WireAt(ops, n).created[l] <= 1
  {
    RunKeeps(ops[..n]);
    hide Run, Handshake, Held;
    assert WireAt(ops, n).created[l] <= 1;
  }

  /** Where every item stands after a run. */
  lemma {:induction false} ItemStands(ops: seq<ItemOp>, n: nat, l: LocalId)
    requires n <= |ops|
    ensures l in At(ops, n).parked <==> exists i :: ParkedAt(ops, n, l, i)
    ensures l in At(ops, n).due <==> exists i :: DueAt(ops, n, l, i)
    ensures l in At(ops, n).inFlight <==> exists i :: SentAt(ops, n, l, i)
  {
    hide At, WireAt, Step, Note, Flags, AllPlaced, Known, Unparks, Hands, Requests, Accepts, Ready;
    if n == 0 {
      AtFirst(ops);
    } else {
      var k := n - 1;
      ItemStands(ops, k, l);
      AtNext(ops, k);
      OnePlace(ops, k, l);
      var s, op := At(ops, k), ops[k];
      StepParked(s, op, l);
      StepDue(s, op, l);
      StepSent(s, op, l);
      if i :| ParkedAt(ops, k, l, i) {
        assert !Unparks(s, op, l) ==> ParkedAt(ops, n, l, i);
      }
      if i :| DueAt(ops, k, l, i) {
        assert op != BeginCreate(l) ==> DueAt(ops, n, l, i);
      }
      if i :| SentAt(ops, k, l, i) {
        assert !(op.EndCreate? && op.local == l) ==> SentAt(ops, n, l, i);
      }
      assert Accepts(s, op, l) && !Ready(s) ==> ParkedAt(ops, n, l, k);
      assert Hands(s, op, l) ==> DueAt(ops, n, l, k);
      assert Requests(s, op, l) ==> SentAt(ops, n, l, k);
      assert forall i :: ParkedAt(ops, n, l, i) && i < k ==> ParkedAt(ops, k, l, i);
      assert forall i :: DueAt(ops, n, l, i) && i < k ==> DueAt(ops, k, l, i);
      assert forall i :: SentAt(ops, n, l, i) && i < k ==> SentAt(ops, k, l, i);
    }
  }

  // ---------- server ids ----------

  /** Some step has granted the item an id. */
  ghost predicate HasGrant(ops: seq<ItemOp>, n: nat, l: LocalId)
    requires n <= |ops|
  {
    exists i :: 0 <= i < n && Grants(At(ops, i), ops[i], l)
  }

  predicate Grants(s: State, op: ItemOp, l: LocalId) {
    op.EndCreate? && op.local == l && op.granted.Some? && l in s.inFlight
  }

  /** The record of a live item has the id the server granted it, which happens at most once, and none
      while it has granted none. */
  lemma {:induction false} ServerIdExactly(ops: seq<ItemOp>, n: nat, l: LocalId)
    requires n <= |ops|
    ensures l in At(ops, n).items ==>
              && (forall i :: 0 <= i < n && Grants(At(ops, i), ops[i], l) ==>
                    At(ops, n).items[l].server == ops[i].granted.value)
              && (!HasGrant(ops, n, l) ==> At(ops, n).items[l].server == 0)
    ensures HasGrant(ops, n, l) ==> l !in At(ops, n).inFlight && WireAt(ops, n).created[l] > 0
  {
    hide At, WireAt, Step, Note, Flags, AllPlaced, Known, Grants, Requests;
    if n == 0 {
      AtFirst(ops);
    } else {
      var k := n - 1;
      ServerIdExactly(ops, k, l);
      AtNext(ops, k);
      OnePlace(ops, k, l);
      var s, w, op := At(ops, k), WireAt(ops, k), ops[k];
      StepServer(s, op, l);
      StepSent(s, op, l);
      GrantsMeans(s, w, op, l);
      forall i | 0 <= i < k && Grants(At(ops, i), ops[i], l)
        ensures HasGrant(ops, k, l)
      {
      }
      assert HasGrant(ops, n, l) <==> HasGrant(ops, k, l) || Grants(s, op, l);
      AcceptsNew(s, w, op, l);
    }
  }

  lemma AcceptsNew(s: State, w: Wire, op: ItemOp, l: LocalId)
    requires AllPlaced(s, w)
    ensures Accepts(s, op, l) ==> w.created[l] == 0
  {
  }

  lemma StepServer(s: State, op: ItemOp, l: LocalId)
    ensures var s' := Step(s, op);
            l in s'.items ==>
              if l in s.items && !Accepts(s, op, l)
              then s'.items[l].server == (if Grants(s, op, l) then op.granted.value else s.items[l].server)
              else Accepts(s, op, l) && s'.items[l].server == 0
  {
    hide Without;
  }

  lemma GrantsMeans(s: State, w: Wire, op: ItemOp, l: LocalId)
    requires Known(s, w) && s.inFlight[l] <= 1
    ensures Grants(s, op, l) ==> l !in Step(s, op).inFlight && w.created[l] > 0
    ensures Requests(s, op, l) ==> l in s.due
    ensures w.created[l] <= Note(s, w, op).created[l]
    ensures Grants(s, op, l) ==> op.EndCreate? && op.granted.Some? && l in s.inFlight
  {
    hide Without, Answered;
  }

  // ---------- the ledger ----------

  /** How many of the first `n` steps granted the id `server`. */
  function GrantsOf(ops: seq<ItemOp>, n: nat, server: ServerId): nat
    requires n <= |ops|
  {
    if n == 0 then 0
    else
      var op := ops[n - 1];
      GrantsOf(ops, n - 1, server)
      + (if op.EndCreate? && op.granted == Some(server) && op.local in At(ops, n - 1).inFlight then 1 else 0)
  }

  /** How many asked the server to delete it: because it was handed on for deletion, or because the item it
      was granted to had been removed meanwhile. */
  function DeletionsOf(ops: seq<ItemOp>, n: nat, server: ServerId): nat
    requires n <= |ops|
  {
    if n == 0 then 0
    else
      var s, op := At(ops, n - 1), ops[n - 1];
      DeletionsOf(ops, n - 1, server)
      + (if op == BeginDelete(server) && server in s.deleteDue && s.impl then 1
         else if op.EndCreate? && op.granted == Some(server) && op.local in s.inFlight && op.local !in s.items
         then 1 else 0)
  }

  /** How many requested the creation of item `l`. */
  function RequestsOf(ops: seq<ItemOp>, n: nat, l: LocalId): nat
    requires n <= |ops|
  {
    if n == 0 then 0
    else RequestsOf(ops, n - 1, l) + (if Requests(At(ops, n - 1), ops[n - 1], l) then 1 else 0)
  }

  /** What the accounts of a run count are its steps: requests, grants and deletions. */
  lemma {:induction false} LedgerIsOfRun(ops: seq<ItemOp>, n: nat, l: LocalId, server: ServerId)
    requires n <= |ops|
    ensures var w := WireAt(ops, n);
            && w.created[l] == RequestsOf(ops, n, l)
            && w.granted[server] == GrantsOf(ops, n, server)
            && w.deleted[server] == DeletionsOf(ops, n, server)
  {
    hide At, WireAt, Step, Note, Flags, AllPlaced, Known;
    if n == 0 {
      AtFirst(ops);
    } else {
      LedgerIsOfRun(ops, n - 1, l, server);
      AtNext(ops, n - 1);
      Notes(At(ops, n - 1), WireAt(ops, n - 1), ops[n - 1], l, server);
    }
  }

  lemma Notes(s: State, w: Wire, op: ItemOp, l: LocalId, server: ServerId)
    ensures var w' := Note(s, w, op);
            && w'.created[l] == w.created[l] + (if Requests(s, op, l) then 1 else 0)
            && w'.granted[server] == w.granted[server]
                 + (if op.EndCreate? && op.granted == Some(server) && op.local in s.inFlight then 1 else 0)
            && w'.deleted[server] == w.deleted[server]
                 + (if op == BeginDelete(server) && server in s.deleteDue && s.impl then 1
                    else if op.EndCreate? && op.granted == Some(server) && op.local in s.inFlight
                            && op.local !in s.items then 1
                    else 0)
  {
    if !op.BeginCreate? && !op.EndCreate? && !op.BeginDelete? {
      assert Note(s, w, op) == w.(dropped := Note(s, w, op).dropped);
    }
  }

  /** So in every run an item is requested from the server at most once, and every id granted is held by one
      live record for each grant that has not been followed by a deletion, sent or under way. */
  lemma GrantsBalance(ops: seq<ItemOp>, l: LocalId, server: ServerId)
    requires server != 0
    ensures RequestsOf(ops, |ops|, l) <= 1
    ensures var s := Run(ops).0;
            GrantsOf(ops, |ops|, server)
            == Held(s.items, s.nextLocal)[server] + s.deleteDue[server] + DeletionsOf(ops, |ops|, server)
  {
    LedgerIsOfRun(ops, |ops|, l, server);
    OnePlace(ops, |ops|, l);
    GrantsAccounted(ops, server);
    assert ops[..|ops|] == ops;
    hide Run, RequestsOf, GrantsOf, DeletionsOf, Held;
  }
}
