/** Which subscriptions a server has after a run, and which session each belongs to. */
module Ownership {
  import opened Common
  import Subscription
  import S = Session
  import Sessions
  import SessionHistory
  import opened Runtime
  import opened RuntimeRuns

  // ---------- sessions that end ----------

  /** What the session manager is asked in a step, if it is asked something. */
  function Asked(s: Server, op: ServerOp): Option<Sessions.Op> {
    match op
    case CreateSession(now, accepted, timeout) => Some(Sessions.CreateSession(now, accepted, timeout))
    case BeginActivate(now, token, check) => Some(Sessions.BeginActivate(now, token, check))
    case FinishActivate(now, token, auth, failure, deleteExisting) =>
      if token in s.authenticating
      then Some(Sessions.FinishActivate(now, token, auth, failure, deleteExisting)) else None
    case CloseSession(token) => Some(Sessions.CloseSession(token))
    case _ => None
  }

  /** The session of `token` ends: it has expired, is closed, or gives way to another of its user. */
  predicate EndsSession(s: Server, op: ServerOp, token: Token) {
    Asked(s, op).Some? && SessionHistory.Ends(s.manager, Asked(s, op).value, token)
  }

  /** What a step reports removed are the sessions it ends. */
  lemma RemovedAreEnded(m: Sessions.Manager, op: Sessions.Op, t: Token)
    requires SessionHistory.Below(m)
    ensures t in Sessions.Step(m, op).1 <==> SessionHistory.Ends(m, op, t)
  {
    Sessions.StepShape(m, op);
    SessionHistory.StepLeaves(m, op, t);
    hide Sessions.Step;
  }

  // ---------- one step ----------

  /** Token `t` creates subscription `id`. */
  predicate Creates(s: Server, op: ServerOp, id: SubId, t: Token) {
    op.CreateSubscription? && op.token == t && t in s.sessions && id == s.nextSub
  }

  /** Subscription `id` is transferred to `t`. */
  predicate TransfersTo(s: Server, op: ServerOp, id: SubId, t: Token) {
    op.TransferSubscriptions? && op.token == t && t in s.sessions && id in op.ids && id in s.owners
  }

  /** Subscription `id` is deleted by its owner, or its owner's session ends. */
  predicate Loses(s: Server, op: ServerOp, id: SubId) {
    id in s.owners
    && ((op.DeleteSubscriptions? && op.token == s.owners[id] && id in op.ids) || EndsSession(s, op, s.owners[id]))
  }

  /** A transfer goes through the owners of the subscriptions it names, each once. */
  ghost predicate Proper(s: Server, op: ServerOp) {
    op.TransferSubscriptions? && op.token in s.sessions ==> Lists(op.order, Sources(s.owners, op.token, op.ids))
  }

  /** What a step makes of one entry of the index. */
  ghost predicate Follows(s: Server, s': Server, op: ServerOp, id: SubId) {
    && (id in s'.owners <==> (exists t :: Creates(s, op, id, t)) || (id in s.owners && !Loses(s, op, id)))
    && (forall t :: Creates(s, op, id, t) ==> id !in s.owners && s'.owners[id] == t)
    && (id in s.owners && id in s'.owners ==>
          s'.owners[id]
          == if op.TransferSubscriptions? && TransfersTo(s, op, id, op.token) then op.token else s.owners[id])
  }

  lemma ForgetFollows(s: Server, s1: Server, gone: set<Token>, id: SubId)
    requires s1.owners == Forget(s, gone).owners
    ensures id in s1.owners <==> id in s.owners && s.owners[id] !in gone
    ensures id in s1.owners ==> s1.owners[id] == s.owners[id]
  {
  }

  /** A step that asks the manager something forgets what the manager reports removed. */
  lemma AskedForgets(s: Server, op: ServerOp)
    requires Asked(s, op).Some?
    ensures Serve(s, op).owners == Forget(s, Sessions.Step(s.manager, Asked(s, op).value).1).owners
  {
    if op.BeginActivate? {
      BeginForgets(s, op.now, op.token, op.check);
      hide Begin, Sessions.Begin, Forget;
    } else if op.FinishActivate? {
      FinishForgets(s, op.now, op.token, op.auth, op.failure, op.deleteExisting);
      hide Finish, Sessions.Finish, Forget;
    } else {
      hide Sessions.Create, Sessions.Close;
    }
  }

  lemma BeginForgets(s: Server, now: Time, token: Token, check: Sessions.Check)
    ensures Begin(s, now, token, check).owners == Forget(s, Sessions.Begin(s.manager, now, token, check).2).owners
  {
    hide Sessions.Begin;
  }

  lemma FinishForgets(s: Server, now: Time, token: Token, auth: Option<Sessions.Auth>, failure: Sessions.Failure,
      deleteExisting: bool)
    requires token in s.authenticating
    ensures Finish(s, now, token, auth, failure, deleteExisting).owners
            == Forget(s, Sessions.Finish(s.manager, now, token, auth, failure, deleteExisting).removed).owners
  {
    hide Sessions.Finish;
  }

  lemma KeepsFollows(s: Server, s': Server, op: ServerOp, id: SubId)
    requires !op.CreateSubscription? && !op.TransferSubscriptions?
    requires id in s'.owners <==> id in s.owners && !Loses(s, op, id)
    requires id in s'.owners ==> s'.owners[id] == s.owners[id]
    ensures Follows(s, s', op, id)
  {
    hide Loses;
  }

  lemma AskedLoses(s: Server, op: ServerOp, id: SubId)
    requires Asked(s, op).Some?
    ensures !op.CreateSubscription? && !op.TransferSubscriptions?
    ensures Loses(s, op, id)
            <==> id in s.owners && SessionHistory.Ends(s.manager, Asked(s, op).value, s.owners[id])
  {
    hide SessionHistory.Ends;
  }

  lemma AskedFollows(s: Server, op: ServerOp, id: SubId)
    requires Inv(s) && Asked(s, op).Some?
    ensures Follows(s, Serve(s, op), op, id)
  {
    hide Inv, Serve, Forget, Sessions.Step, SessionHistory.Ends, SessionHistory.Below, Loses, Asked, Follows;
    AskedForgets(s, op);
    ManagerBelow(s);
    var m, asked := s.manager, Asked(s, op).value;
    if id in s.owners {
      RemovedAreEnded(m, asked, s.owners[id]);
    }
    ForgetFollows(s, Serve(s, op), Sessions.Step(m, asked).1, id);
    AskedLoses(s, op, id);
    KeepsFollows(s, Serve(s, op), op, id);
  }

  lemma ManagerBelow(s: Server)
    requires Inv(s)
    ensures SessionHistory.Below(s.manager)
  {
    hide IndexExact, SessionsValid;
  }

  lemma CreateFollows(s: Server, op: ServerOp, id: SubId)
    requires Inv(s) && op.CreateSubscription?
    ensures Follows(s, Serve(s, op), op, id)
  {
    FreshId(s);
    CreateOwners(s, op);
    hide Inv, Serve;
    assert op.token in s.sessions ==> Creates(s, op, s.nextSub, op.token);
  }

  lemma FreshId(s: Server)
    requires Inv(s)
    ensures s.nextSub !in s.owners
  {
    hide IndexExact, SessionsValid, InStep;
  }

  lemma CreateOwners(s: Server, op: ServerOp)
    requires op.CreateSubscription?
    ensures Serve(s, op).owners == if op.token in s.sessions then s.owners[s.nextSub := op.token] else s.owners
  {
    hide S.Add, Subscription.Initial;
  }

  lemma DeleteFollows(s: Server, op: ServerOp, id: SubId)
    requires Inv(s) && op.DeleteSubscriptions?
    ensures Follows(s, Serve(s, op), op, id)
  {
    hide Inv, Follows, S.DropAll, Succeeded, S.Valid;
    InvIndex(s, id);
    if op.token in s.sessions {
      SessionValid(s, op.token);
      DropAllKeys(s.sessions[op.token], op.ids);
      var good := Succeeded(op.ids, S.DropAll(s.sessions[op.token], op.ids).1);
      assert Serve(s, op).owners == s.owners - good;
      assert id in good <==> id in op.ids && id in s.sessions[op.token].subs;
    }
    hide Serve;
    KeepsFollows(s, Serve(s, op), op, id);
  }

  lemma InvIndex(s: Server, id: SubId)
    requires Inv(s)
    ensures id in s.owners ==> s.owners[id] in s.sessions
    ensures forall t :: t in s.sessions && id in s.sessions[t].subs <==> id in s.owners && s.owners[id] == t
  {
    hide SessionsValid, InStep;
  }

  lemma SessionValid(s: Server, t: Token)
    requires Inv(s) && t in s.sessions
    ensures S.Valid(s.sessions[t])
  {
    hide IndexExact, InStep, S.Valid;
  }

  lemma TransferFollows(s: Server, op: ServerOp, id: SubId)
    requires Inv(s) && op.TransferSubscriptions? && Proper(s, op)
    ensures Follows(s, Serve(s, op), op, id)
  {
    TransferOwners(s, op);
    hide Inv, Serve, Proper;
  }

  lemma TransferOwners(s: Server, op: ServerOp)
    requires Inv(s) && op.TransferSubscriptions? && Proper(s, op)
    ensures Serve(s, op).owners
            == if op.token in s.sessions then map x | x in s.owners :: if x in op.ids then op.token else s.owners[x]
               else s.owners
  {
    hide Inv, Transfer, Intact, Lists, Sources;
    if op.token in s.sessions {
      TransferExact(s, op.token, op.ids, op.order);
    } else {
      TransferRefused(s, op.token, op.ids, op.order);
    }
  }

  lemma TransferRefused(s: Server, token: Token, ids: seq<SubId>, order: seq<Token>)
    requires token !in s.sessions
    ensures Transfer(s, token, ids, order) == s
  {
  }

  lemma OtherFollows(s: Server, op: ServerOp, id: SubId)
    requires op.DetachSession? || op.PollPublish? || op.OnSubscription?
             || (op.FinishActivate? && op.token !in s.authenticating)
    ensures Follows(s, Serve(s, op), op, id)
  {
    hide Sessions.Finish, S.Poll, Touch;
  }

  lemma StepFollows(s: Server, op: ServerOp, id: SubId)
    requires Inv(s) && Proper(s, op)
    ensures Follows(s, Serve(s, op), op, id)
  {
    hide Inv, Serve, Follows, Proper;
    if Asked(s, op).Some? {
      AskedFollows(s, op, id);
    } else if op.CreateSubscription? {
      CreateFollows(s, op, id);
    } else if op.DeleteSubscriptions? {
      DeleteFollows(s, op, id);
    } else if op.TransferSubscriptions? {
      TransferFollows(s, op, id);
    } else {
      OtherFollows(s, op, id);
    }
  }

  // ---------- the manager in a run ----------

  /** What the session manager is asked in a run, detaching included. */
  ghost function AskedAll(ops: seq<ServerOp>): seq<Sessions.Op> {
    if ops == [] then []
    else
      var n := |ops| - 1;
      AskedAll(ops[..n])
      + (if ops[n].DetachSession? then [Sessions.DetachSession(ops[n].token)]
         else if Asked(Run(ops[..n]), ops[n]).Some? then [Asked(Run(ops[..n]), ops[n]).value] else [])
  }

  /** The manager of a server is in the state of a run of its own, so what holds of every such run holds of
      it. */
  lemma {:induction false} ManagerIsRun(ops: seq<ServerOp>)
    ensures Run(ops).manager == Sessions.Run(Sessions.EMPTY, AskedAll(ops)).0
  {
    hide Serve, Asked, Sessions.Step;
    if ops != [] {
      var n := |ops| - 1;
      ManagerIsRun(ops[..n]);
      ServeManager(Run(ops[..n]), ops[n]);
      var asked := AskedAll(ops);
      assert AskedAll(ops[..n]) + [] == AskedAll(ops[..n]);
      assert |asked| > |AskedAll(ops[..n])| ==> asked[..|asked| - 1] == AskedAll(ops[..n]);
    }
  }

  lemma ServeManager(s: Server, op: ServerOp)
    ensures Serve(s, op).manager
            == if op.DetachSession? then Sessions.Step(s.manager, Sessions.DetachSession(op.token)).0
               else if Asked(s, op).Some? then Sessions.Step(s.manager, Asked(s, op).value).0
               else s.manager
  {
    hide Sessions.Begin, Sessions.Finish, Sessions.Create, Sessions.Close, Sessions.Detach;
    if op.TransferSubscriptions? {
      TransferManager(s, op.token, op.ids, op.order);
    }
    hide Transfer;
  }

  lemma {:induction false} MoveManager(s: Server, owners: map<SubId, Token>, token: Token, ids: seq<SubId>,
      order: seq<Token>)
    ensures MoveGroups(s, owners, token, ids, order).manager == s.manager
  {
    if order != [] {
      MoveManager(s, owners, token, ids, order[..|order| - 1]);
      hide S.MoveAll, Reassign, Succeeded;
    }
  }

  lemma TransferManager(s: Server, token: Token, ids: seq<SubId>, order: seq<Token>)
    ensures Transfer(s, token, ids, order).manager == s.manager
  {
    MoveManager(s, s.owners, token, ids, order);
    hide MoveGroups;
  }

  // ---------- runs ----------

  ghost function At(ops: seq<ServerOp>, n: nat): Server
    requires n <= |ops|
  {
    Run(ops[..n])
  }

  ghost predicate AllProper(ops: seq<ServerOp>) {
    forall i :: 0 <= i < |ops| ==> Proper(At(ops, i), ops[i])
  }

  lemma AtNext(ops: seq<ServerOp>, n: nat)
    requires n < |ops| && NeverOverwrites(ops) && AllProper(ops)
    ensures Inv(At(ops, n)) && At(ops, n + 1) == Serve(At(ops, n), ops[n]) && Proper(At(ops, n), ops[n])
  {
    NeverOverwritesPrefix(ops, n);
    IndexExactExactly(ops[..n]);
    hide Inv, Serve, NeverOverwrites, Proper;
    assert ops[..n + 1][..n] == ops[..n];
  }

  lemma NeverOverwritesPrefix(ops: seq<ServerOp>, n: nat)
    requires n <= |ops| && NeverOverwrites(ops)
    ensures NeverOverwrites(ops[..n])
  {
    hide Run, Overwrites;
    forall i | 0 <= i < n
      ensures !Overwrites(Run(ops[..n][..i]), ops[..n][i])
    {
      assert ops[..n][..i] == ops[..i];
    }
  }

  lemma AtFirst(ops: seq<ServerOp>)
    ensures At(ops, 0) == EMPTY
  {
  }

  /** Step `i` created the subscription, and since then its owner has not deleted it and no session that
      owned it has ended. */
  ghost predicate CreatedAt(ops: seq<ServerOp>, n: nat, id: SubId, i: int)
    requires n <= |ops|
  {
    && 0 <= i < n && (exists t :: Creates(At(ops, i), ops[i], id, t))
    && forall j :: i < j < n ==> !Loses(At(ops, j), ops[j], id)
  }

  /** In every run that overwrites no session object, a subscription is there exactly while it has been
      created, its owner of the moment has not deleted it and no session has ended while owning it. */
  lemma {:induction false} SubscriptionLives(ops: seq<ServerOp>, n: nat, id: SubId)
    requires n <= |ops| && NeverOverwrites(ops) && AllProper(ops)
    ensures id in At(ops, n).owners <==> exists i :: CreatedAt(ops, n, id, i)
  {
    hide At, Serve, Inv, Proper, NeverOverwrites, AllProper, Creates, Loses, TransfersTo;
    if n == 0 {
      AtFirst(ops);
    } else {
      var k := n - 1;
      SubscriptionLives(ops, k, id);
      AtNext(ops, k);
      var s, op := At(ops, k), ops[k];
      StepFollows(s, op, id);
      if i :| CreatedAt(ops, k, id, i) {
        assert !Loses(s, op, id) ==> CreatedAt(ops, n, id, i);
      }
      if t :| Creates(s, op, id, t) {
        assert CreatedAt(ops, n, id, k);
      }
      assert forall i :: CreatedAt(ops, n, id, i) && i < k ==> CreatedAt(ops, k, id, i);
    }
  }

  /** Step `i` created the subscription for `t` or transferred it to `t`, and it has been transferred to
      nobody since. */
  ghost predicate GivenAt(ops: seq<ServerOp>, n: nat, id: SubId, t: Token, i: int)
    requires n <= |ops|
  {
    && 0 <= i < n && (Creates(At(ops, i), ops[i], id, t) || TransfersTo(At(ops, i), ops[i], id, t))
    && forall j, u :: i < j < n ==> !TransfersTo(At(ops, j), ops[j], id, u)
  }

  /** And it belongs to the session it was created for or last transferred to, which is the one that holds
      it. */
  lemma {:induction false} OwnerExactly(ops: seq<ServerOp>, n: nat, id: SubId) returns (i: int)
    requires n <= |ops| && NeverOverwrites(ops) && AllProper(ops)
    ensures id in At(ops, n).owners ==>
              var s := At(ops, n);
              && GivenAt(ops, n, id, s.owners[id], i)
              && (forall t :: t in s.sessions && id in s.sessions[t].subs <==> t == s.owners[id])
  {
    hide At, Serve, Inv, Proper, NeverOverwrites, AllProper, Creates, Loses, TransfersTo;
    i := 0;
    if n == 0 {
      AtFirst(ops);
    } else {
      var k := n - 1;
      i := OwnerExactly(ops, k, id);
      AtNext(ops, k);
      var s, op := At(ops, k), ops[k];
      StepFollows(s, op, id);
      TransferMeans(s, op, id);
      if (exists t :: Creates(s, op, id, t)) || (exists t :: TransfersTo(s, op, id, t)) {
        i := k;
      }
      IndexAt(ops, n, id);
    }
  }

  lemma TransferMeans(s: Server, op: ServerOp, id: SubId)
    ensures forall t :: TransfersTo(s, op, id, t) ==> op.TransferSubscriptions? && op.token == t && id in s.owners
    ensures forall t :: Creates(s, op, id, t) ==> op.CreateSubscription?
  {
  }

  lemma IndexAt(ops: seq<ServerOp>, n: nat, id: SubId)
    requires n <= |ops| && NeverOverwrites(ops)
    ensures forall t :: t in At(ops, n).sessions && id in At(ops, n).sessions[t].subs
                        <==> id in At(ops, n).owners && At(ops, n).owners[id] == t
  {
    NeverOverwritesPrefix(ops, n);
    IndexExactExactly(ops[..n]);
    hide Inv, NeverOverwrites;
    InvIndex(Run(ops[..n]), id);
  }
}
