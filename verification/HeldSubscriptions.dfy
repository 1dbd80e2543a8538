/** The subscriptions a server holds, however they were polled, acknowledged or transferred, are runs
    of a subscription from its creation; so what holds of every such run holds of them. */
module HeldSubscriptions {
  import opened Subscription
  import SubscriptionRuns
  import S = Session
  import Bindings
  import KeepAlives
  import PublishAnswers
  import Acknowledgements
  import Sessions
  import opened Runtime
  import RuntimeRuns

  /** What a subscription was created with, and when. */
  datatype Birth = Birth(requested: Params, now: Time)

  type Births = map<SubId, Birth>

  /** What is held under `id` is a run of the subscription that was created with that id. */
  ghost predicate Grown(bs: Births, id: SubId, sub: Sub) {
    id in bs && exists ops :: sub == Run(Initial(id, bs[id].requested, bs[id].now), ops)
  }

  ghost predicate AllGrown(bs: Births, subs: map<SubId, Sub>) {
    forall id :: id in subs ==> Grown(bs, id, subs[id])
  }

  ghost predicate ServerGrown(bs: Births, sessions: map<Token, S.Session>) {
    forall t :: t in sessions ==> AllGrown(bs, sessions[t].subs)
  }

  // ---------- one subscription ----------

  lemma InitialGrown(bs: Births, id: SubId, p: Params, now: Time)
    requires id in bs && bs[id] == Birth(p, now)
    ensures Grown(bs, id, Initial(id, p, now))
  {
    assert Run(Initial(id, p, now), []) == Initial(id, p, now);
  }

  lemma StepGrown(bs: Births, id: SubId, sub: Sub, op: Op)
    requires Grown(bs, id, sub)
    ensures Grown(bs, id, Step(sub, op))
  {
    var p, now := bs[id].requested, bs[id].now;
    var ops :| sub == Run(Initial(id, p, now), ops);
    assert (ops + [op])[..|ops|] == ops;
    hide Step;
    assert Step(sub, op) == Run(Initial(id, p, now), ops + [op]);
  }

  /** A held subscription keeps every ledger of its run, and its clock has started. */
  lemma GrownKeeps(bs: Births, id: SubId, sub: Sub) returns (t: SubscriptionRuns.Trace)
    requires Grown(bs, id, sub)
    ensures SubscriptionRuns.Inv(sub, t) && sub.lastPublish.Some?
  {
    var p, now := bs[id].requested, bs[id].now;
    var ops :| sub == Run(Initial(id, p, now), ops);
    hide Run, Initial;
    t := SubscriptionRuns.History(id, p, now, ops);
    GrownClock(sub, t);
  }

  lemma GrownClock(sub: Sub, t: SubscriptionRuns.Trace)
    requires SubscriptionRuns.Inv(sub, t)
    ensures sub.lastPublish.Some?
  {
  }

  // ---------- one session ----------

  lemma {:induction false} DropAllGrown(bs: Births, s: S.Session, ids: seq<SubId>)
    requires AllGrown(bs, s.subs)
    ensures AllGrown(bs, S.DropAll(s, ids).0.subs)
  {
    if ids != [] {
      hide Grown;
      DropAllGrown(bs, s, ids[..|ids| - 1]);
    }
  }

  lemma {:induction false} MoveAllGrown(bs: Births, t: S.Session, s: S.Session, ids: seq<SubId>)
    requires AllGrown(bs, t.subs) && AllGrown(bs, s.subs)
    ensures var (t', s', _) := S.MoveAll(t, s, ids); AllGrown(bs, t'.subs) && AllGrown(bs, s'.subs)
  {
    if ids != [] {
      hide Grown;
      MoveAllGrown(bs, t, s, ids[..|ids| - 1]);
    }
  }

  lemma PollGrown(bs: Births, s: S.Session, now: Time)
    requires AllGrown(bs, s.subs) && Sound(s)
    ensures AllGrown(bs, S.Poll(s, now).0.subs)
  {
    forall id | id in s.subs
      ensures Grown(bs, id, TryPublish(s.subs[id], now).0) && Prime(s.subs[id], now) == s.subs[id]
    {
      StepGrown(bs, id, s.subs[id], Publish(now));
      var t := GrownKeeps(bs, id, s.subs[id]);
    }
    hide Grown, TryPublish, Prime;
  }

  // ---------- the server ----------

  lemma SetGrown(bs: Births, sessions: map<Token, S.Session>, t: Token, session: S.Session)
    requires ServerGrown(bs, sessions) && AllGrown(bs, session.subs)
    ensures ServerGrown(bs, sessions[t := session])
  {
    hide AllGrown;
  }

  lemma DropGrown(bs: Births, sessions: map<Token, S.Session>, tokens: set<Token>)
    requires ServerGrown(bs, sessions)
    ensures ServerGrown(bs, sessions - tokens)
  {
    hide AllGrown;
  }

  lemma ForgetInstallGrown(bs: Births, s: Server, s1: Server, tokens: set<Token>, token: Token)
    requires ServerGrown(bs, s.sessions) && s1.sessions == s.sessions
    ensures ServerGrown(bs, Forget(s1, tokens).sessions) && ServerGrown(bs, Install(Forget(s1, tokens), token).sessions)
  {
    DropGrown(bs, s.sessions, tokens);
    assert AllGrown(bs, S.NO_SUBSCRIPTIONS.subs);
    SetGrown(bs, s.sessions - tokens, token, S.NO_SUBSCRIPTIONS);
  }

  lemma ActivateGrown(bs: Births, s: Server, op: ServerOp)
    requires ServerGrown(bs, s.sessions)
    requires op.BeginActivate? || op.FinishActivate? || op.CreateSession? || op.CloseSession? || op.DetachSession?
    ensures ServerGrown(bs, Serve(s, op).sessions)
  {
    hide ServerGrown, Sessions.Begin, Sessions.Finish, Sessions.Create, Sessions.Close, Forget, Install;
    if op.BeginActivate? {
      var (m, begun, gone) := Sessions.Begin(s.manager, op.now, op.token, op.check);
      ForgetInstallGrown(bs, s, s.(manager := m), gone, op.token);
    } else if op.FinishActivate? {
      var o := Sessions.Finish(s.manager, op.now, op.token, op.auth, op.failure, op.deleteExisting);
      ForgetInstallGrown(bs, s, s.(manager := o.manager, authenticating := s.authenticating - multiset{op.token}),
        o.removed, op.token);
    } else if op.CreateSession? {
      var o := Sessions.Create(s.manager, op.now, op.accepted, op.timeout);
      ForgetInstallGrown(bs, s, s.(manager := o.manager), o.removed, 0);
    } else if op.CloseSession? {
      var o := Sessions.Close(s.manager, op.token);
      ForgetInstallGrown(bs, s, s.(manager := o.manager), o.removed, 0);
    }
  }

  lemma MoveGroupGrown(bs: Births, s: Server, token: Token, source: Token, ids: seq<SubId>)
    requires ServerGrown(bs, s.sessions)
    ensures ServerGrown(bs, MoveGroup(s, token, source, ids).sessions)
  {
    hide AllGrown, S.MoveAll, Succeeded, Reassign;
    if token in s.sessions && source in s.sessions && source != token {
      MoveAllGrown(bs, s.sessions[token], s.sessions[source], ids);
    }
  }

  lemma {:induction false} MoveGroupsGrown(bs: Births, s: Server, owners: map<SubId, Token>, token: Token,
      ids: seq<SubId>, order: seq<Token>)
    requires ServerGrown(bs, s.sessions)
    ensures ServerGrown(bs, MoveGroups(s, owners, token, ids, order).sessions)
  {
    hide ServerGrown, MoveGroup, GroupOf;
    if order != [] {
      var n := |order| - 1;
      MoveGroupsGrown(bs, s, owners, token, ids, order[..n]);
      MoveGroupGrown(bs, MoveGroups(s, owners, token, ids, order[..n]), token, order[n],
        GroupOf(owners, ids, order[n]));
    }
  }

  lemma AddGrown(bs: Births, session: S.Session, id: SubId, sub: Sub)
    requires AllGrown(bs, session.subs) && Grown(bs, id, sub)
    ensures AllGrown(bs, S.Add(session, id, sub).subs)
  {
    hide Grown;
  }

  lemma TouchGrown(bs: Births, session: S.Session, id: SubId, step: Op)
    requires AllGrown(bs, session.subs) && id in session.subs
    ensures AllGrown(bs, Touch(session, id, step).subs)
  {
    StepGrown(bs, id, session.subs[id], step);
    hide Grown, Step;
  }

  lemma SubscriptionsGrown(bs: Births, s: Server, op: ServerOp)
    requires ServerGrown(bs, s.sessions)
    requires op.CreateSubscription? || op.DeleteSubscriptions? || op.TransferSubscriptions?
             || op.PollPublish? || op.OnSubscription?
    requires op.CreateSubscription? ==> s.nextSub in bs && bs[s.nextSub] == Birth(op.requested, op.now)
    ensures ServerGrown(bs, Serve(s, op).sessions)
  {
    if op.token in s.sessions {
      assert AllGrown(bs, s.sessions[op.token].subs);
      hide ServerGrown, AllGrown, Grown, Initial, S.Add, S.DropAll, S.Poll, Touch, MoveGroups, Succeeded;
      var session := s.sessions[op.token];
      if op.CreateSubscription? {
        InitialGrown(bs, s.nextSub, op.requested, op.now);
        AddGrown(bs, session, s.nextSub, Initial(s.nextSub, op.requested, op.now));
        SetGrown(bs, s.sessions, op.token, S.Add(session, s.nextSub, Initial(s.nextSub, op.requested, op.now)));
      } else if op.DeleteSubscriptions? {
        DropAllGrown(bs, session, op.ids);
        SetGrown(bs, s.sessions, op.token, S.DropAll(session, op.ids).0);
      } else if op.TransferSubscriptions? {
        MoveGroupsGrown(bs, s, s.owners, op.token, op.ids, op.order);
      } else if op.PollPublish? {
        if Sound(session) {
          PollGrown(bs, session, op.now);
          SetGrown(bs, s.sessions, op.token, S.Poll(session, op.now).0);
        }
      } else if op.id in session.subs {
        TouchGrown(bs, session, op.id, op.step);
        SetGrown(bs, s.sessions, op.token, Touch(session, op.id, op.step));
      }
    }
  }

  /** The subscriptions created in a run. */
  ghost function BirthsOf(ops: seq<ServerOp>): Births {
    if ops == [] then map[]
    else
      var n := |ops| - 1;
      var s, op := RuntimeRuns.Run(ops[..n]), ops[n];
      if op.CreateSubscription? && op.token in s.sessions
      then BirthsOf(ops[..n])[s.nextSub := Birth(op.requested, op.now)] else BirthsOf(ops[..n])
  }

  /** Step `i` creates subscription `id`. */
  ghost predicate BornAt(ops: seq<ServerOp>, id: SubId, i: int) {
    && 0 <= i < |ops| && ops[i].CreateSubscription?
    && var s := RuntimeRuns.Run(ops[..i]);
       ops[i].token in s.sessions && s.nextSub == id
  }

  /** Ids are given out once. */
  lemma {:induction false} BirthsExactly(ops: seq<ServerOp>, id: SubId)
    ensures id in BirthsOf(ops) ==> id < RuntimeRuns.Run(ops).nextSub
    ensures id in BirthsOf(ops) <==> exists i :: BornAt(ops, id, i)
    ensures forall i :: BornAt(ops, id, i) && id in BirthsOf(ops) ==>
              BirthsOf(ops)[id] == Birth(ops[i].requested, ops[i].now)
    ensures forall i, j :: BornAt(ops, id, i) && BornAt(ops, id, j) ==> i == j
  {
    hide Serve;
    if ops != [] {
      var n := |ops| - 1;
      BirthsExactly(ops[..n], id);
      NextGrows(RuntimeRuns.Run(ops[..n]), ops[n]);
      forall i: int
        ensures BornAt(ops, id, i)
                <==> BornAt(ops[..n], id, i)
                     || (i == n && ops[n].CreateSubscription? && ops[n].token in RuntimeRuns.Run(ops[..n]).sessions
                         && RuntimeRuns.Run(ops[..n]).nextSub == id)
      {
        if 0 <= i < n {
          assert ops[..n][..i] == ops[..i];
        }
      }
      hide BornAt, RuntimeRuns.Run;
      if exists i :: BornAt(ops[..n], id, i) {
        var i :| BornAt(ops[..n], id, i);
        assert BornAt(ops, id, i);
      }
      if ops[n].CreateSubscription? && ops[n].token in RuntimeRuns.Run(ops[..n]).sessions
         && RuntimeRuns.Run(ops[..n]).nextSub == id {
        assert BornAt(ops, id, n);
      }
    }
  }

  lemma NextGrows(s: Server, op: ServerOp)
    ensures Serve(s, op).nextSub
            == s.nextSub + (if op.CreateSubscription? && op.token in s.sessions then 1 else 0)
  {
    hide Sessions.Begin, Sessions.Finish, Sessions.Create, Sessions.Close, Initial, S.Add;
    if op.TransferSubscriptions? {
      MovesNone(s, s.owners, op.token, op.ids, op.order);
      hide MoveGroups;
    } else {
      hide Transfer;
    }
  }

  lemma {:induction false} MovesNone(s: Server, owners: map<SubId, Token>, token: Token, ids: seq<SubId>,
      order: seq<Token>)
    ensures MoveGroups(s, owners, token, ids, order).nextSub == s.nextSub
  {
    if order != [] {
      MovesNone(s, owners, token, ids, order[..|order| - 1]);
      hide S.MoveAll, Reassign, Succeeded;
    }
  }

  lemma MoreBirths(bs: Births, bs': Births, sessions: map<Token, S.Session>)
    requires ServerGrown(bs, sessions) && forall id :: id in bs ==> id in bs' && bs'[id] == bs[id]
    ensures ServerGrown(bs', sessions)
  {
    forall t | t in sessions
      ensures AllGrown(bs', sessions[t].subs)
    {
      assert AllGrown(bs, sessions[t].subs);
      forall id | id in sessions[t].subs
        ensures Grown(bs', id, sessions[t].subs[id])
      {
        assert Grown(bs, id, sessions[t].subs[id]);
      }
    }
  }

  /** In every run of a server, overlapping activations included, each subscription a session holds is
      a run of the one created under its id, with what was asked for then. */
  lemma {:induction false} HeldAreRuns(ops: seq<ServerOp>)
    ensures ServerGrown(BirthsOf(ops), RuntimeRuns.Run(ops).sessions)
  {
    hide ServerGrown, Serve;
    if ops == [] {
      NothingHeld();
    } else {
      var n := |ops| - 1;
      HeldAreRuns(ops[..n]);
      var s, op := RuntimeRuns.Run(ops[..n]), ops[n];
      BirthsExactly(ops[..n], s.nextSub);
      var bs := BirthsOf(ops);
      MoreBirths(BirthsOf(ops[..n]), bs, s.sessions);
      if op.CreateSubscription? && op.token !in s.sessions {
        CreateRefused(s, op);
      } else if op.CreateSubscription? || op.DeleteSubscriptions? || op.TransferSubscriptions?
                || op.PollPublish? || op.OnSubscription? {
        SubscriptionsGrown(bs, s, op);
      } else {
        ActivateGrown(bs, s, op);
      }
    }
  }

  lemma CreateRefused(s: Server, op: ServerOp)
    requires op.CreateSubscription? && op.token !in s.sessions
    ensures Serve(s, op) == s
  {
  }

  lemma NothingHeld()
    ensures ServerGrown(map[], EMPTY.sessions)
  {
  }

  /** So each of them has ledgers that account for every notification, message and grant, and its clock
      has started. */
  lemma HeldKeepsLedgers(ops: seq<ServerOp>, token: Token, id: SubId) returns (t: SubscriptionRuns.Trace)
    requires token in RuntimeRuns.Run(ops).sessions && id in RuntimeRuns.Run(ops).sessions[token].subs
    ensures SubscriptionRuns.Inv(RuntimeRuns.Run(ops).sessions[token].subs[id], t)
  {
    HeldAreRuns(ops);
    var bs := BirthsOf(ops);
    hide RuntimeRuns.Run, SubscriptionRuns.Inv;
    var subs := RuntimeRuns.Run(ops).sessions[token].subs;
    assert AllGrown(bs, subs);
    assert Grown(bs, id, subs[id]);
    hide Grown;
    t := GrownKeeps(bs, id, subs[id]);
  }

  /** And a session in a run that overwrites no session object is in the state that polling relies on:
      it answers from a ready subscription or waits, exactly as long as it should. */
  lemma HeldSessionsPoll(ops: seq<ServerOp>, token: Token, now: Time)
    requires RuntimeRuns.NeverOverwrites(ops)
    ensures var s := RuntimeRuns.Run(ops);
            token in s.sessions ==>
              var session := s.sessions[token];
              && KeepAlives.Steady(session)
              && var r := S.Poll(session, now).1;
                 && (r.Served? <==> S.ReadySet(session.subs, now, false) != {})
                 && (r.NoSubscription? <==> session.subs == map[])
                 && !r.Empty?
                 && (r.WaitFor? ==> S.Pauses(session.subs, now, r.ms))
  {
    RuntimeRuns.IndexExactExactly(ops);
    HeldAreRuns(ops);
    var bs := BirthsOf(ops);
    hide RuntimeRuns.Run, RuntimeRuns.NeverOverwrites, RuntimeRuns.AlwaysExact, IndexExact, InStep;
    var s := RuntimeRuns.Run(ops);
    if token in s.sessions {
      var session := s.sessions[token];
      assert S.Valid(session) && AllGrown(bs, session.subs);
      hide S.Valid, SessionsValid, ServerGrown;
      GrownSteady(bs, session);
      S.PollServesOrWaits(session, now);
    }
  }

  /** The subscriptions of a session hold their messages in number order, as acknowledging relies on. */
  lemma HeldInOrder(ops: seq<ServerOp>, token: Token)
    requires token in RuntimeRuns.Run(ops).sessions
    ensures Acknowledgements.AllInOrder(RuntimeRuns.Run(ops).sessions[token].subs)
  {
    HeldAreRuns(ops);
    var bs := BirthsOf(ops);
    hide RuntimeRuns.Run, PublishAnswers.InNumberOrder;
    var subs := RuntimeRuns.Run(ops).sessions[token].subs;
    assert AllGrown(bs, subs);
    forall id | id in subs
      ensures PublishAnswers.InNumberOrder(subs[id].ring.held)
    {
      GrownInOrder(bs, id, subs[id]);
    }
  }

  lemma GrownInOrder(bs: Births, id: SubId, sub: Sub)
    requires Grown(bs, id, sub)
    ensures PublishAnswers.InNumberOrder(sub.ring.held)
  {
    var p, now := bs[id].requested, bs[id].now;
    var ops :| sub == Run(Initial(id, p, now), ops);
    hide Run, Initial;
    PublishAnswers.HeldInOrder(id, p, now, ops);
  }

  lemma GrownSteady(bs: Births, session: S.Session)
    requires AllGrown(bs, session.subs)
    ensures S.Clocked(session) && forall id :: id in session.subs ==> Bindings.Handles(session.subs[id].table)
  {
    forall id | id in session.subs
      ensures session.subs[id].lastPublish.Some? && Bindings.Handles(session.subs[id].table)
    {
      var t := GrownKeeps(bs, id, session.subs[id]);
      InvHandles(session.subs[id], t);
    }
    hide Grown;
  }

  lemma InvHandles(sub: Sub, t: SubscriptionRuns.Trace)
    requires SubscriptionRuns.Inv(sub, t)
    ensures Bindings.Handles(sub.table)
  {
  }
}
