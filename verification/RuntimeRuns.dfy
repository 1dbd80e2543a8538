/** The runtime's index and session objects agree with the session manager after every run. */
module RuntimeRuns {
  import opened Common
  import opened Subscription
  import Rotation
  import S = Session
  import SessionRuns
  import Sessions
  import opened Runtime

  // ---------- what the manager does to the activated sessions ----------

  lemma CreateActivated(m: Sessions.Manager, now: Time, accepted: bool, timeout: int)
    requires forall t :: t in m.sessions ==> t < m.next
    ensures var o := Sessions.Create(m, now, accepted, timeout);
            && ActivatedTokens(o.manager) == ActivatedTokens(m) - o.removed
            && m.next <= o.manager.next && (forall t :: t in o.manager.sessions ==> t < o.manager.next)
            && (forall t :: t in o.manager.sessions && t < m.next ==>
                  t in m.sessions && o.manager.sessions[t] == m.sessions[t])
            && (Sessions.UsersActive(m) ==> Sessions.UsersActive(o.manager))
  {
  }

  lemma BeginActivated(m: Sessions.Manager, now: Time, token: Token, check: Sessions.Check)
    ensures var (m', begun, gone) := Sessions.Begin(m, now, token, check);
            && ActivatedTokens(m')
               == ActivatedTokens(m) - gone + (if begun.Activated? then {token} else {})
            && m'.next == m.next && m'.sessions.Keys == m.sessions.Keys - gone
            && (begun.Activated? || begun.Authenticating? ==>
                  token in m'.sessions && token !in ActivatedTokens(m))
            && (forall t :: t in m'.sessions && t != token ==> m'.sessions[t] == m.sessions[t])
            && (begun.Authenticating? ==> !m'.sessions[token].activated)
            && (Sessions.UsersActive(m) ==> Sessions.UsersActive(m'))
  {
  }

  lemma FinishActivated(m: Sessions.Manager, now: Time, token: Token, auth: Option<Sessions.Auth>,
      failure: Sessions.Failure, deleteExisting: bool)
    ensures var o := Sessions.Finish(m, now, token, auth, failure, deleteExisting);
            && ActivatedTokens(o.manager)
               == ActivatedTokens(m) - o.removed + (if o.status == Good then {token} else {})
            && o.manager.next == m.next && o.manager.sessions.Keys == m.sessions.Keys - o.removed
            && (o.status == Good ==> token !in o.removed && token in m.sessions)
            && (forall t :: t in o.manager.sessions && t != token ==> o.manager.sessions[t] == m.sessions[t])
            && (Sessions.UsersActive(m) ==> Sessions.UsersActive(o.manager))
  {
  }

  lemma CloseActivated(m: Sessions.Manager, token: Token)
    ensures var o := Sessions.Close(m, token);
            && ActivatedTokens(o.manager) == ActivatedTokens(m) - o.removed
            && o.manager.next == m.next && o.manager.sessions.Keys == m.sessions.Keys - o.removed
            && (forall t :: t in o.manager.sessions ==> o.manager.sessions[t] == m.sessions[t])
            && (Sessions.UsersActive(m) ==> Sessions.UsersActive(o.manager))
  {
  }

  // ---------- what happens to the index ----------

  lemma ForgetIndex(s: Server, tokens: set<Token>)
    requires IndexExact(s.sessions, s.owners)
    ensures IndexExact(Forget(s, tokens).sessions, Forget(s, tokens).owners)
  {
  }

  /** Installing a fresh session object keeps the index exact if and only if the object it replaces,
      if there is one, holds no subscription. */
  lemma InstallExactly(s: Server, token: Token)
    requires IndexExact(s.sessions, s.owners)
    ensures IndexExact(Install(s, token).sessions, Install(s, token).owners)
            <==> (token in s.sessions ==> s.sessions[token].subs == map[])
  {
    var s' := Install(s, token);
    if token in s.sessions && s.sessions[token].subs != map[] {
      var id :| id in s.sessions[token].subs;
      assert id in s'.owners && s'.owners[id] == token;
    }
  }

  lemma {:induction false} DropAllKeys(s: S.Session, ids: seq<SubId>)
    requires S.Valid(s)
    ensures var (s', out) := S.DropAll(s, ids);
            && S.Valid(s') && |out| == |ids|
            && s'.subs.Keys == s.subs.Keys - Elements(ids)
            && Succeeded(ids, out) == Elements(ids) * s.subs.Keys
  {
    if ids != [] {
      var n := |ids| - 1;
      DropAllKeys(s, ids[..n]);
      var (s1, out1) := S.DropAll(s, ids[..n]);
      var (s', out) := S.DropAll(s, ids);
      S.DropValid(s1, ids[n]);
      hide S.Valid, Rotation.Erase, Succeeded;
      assert Elements(ids) == Elements(ids[..n]) + {ids[n]};
      GoodIds(ids, out1, out);
    }
  }

  lemma GoodIds(ids: seq<SubId>, out1: seq<Status>, out: seq<Status>)
    requires ids != [] && |out| == |ids| && out1 == out[..|ids| - 1]
    ensures Succeeded(ids, out) == Succeeded(ids[..|ids| - 1], out1)
                                   + (if out[|ids| - 1] == Good then {ids[|ids| - 1]} else {})
  {
    var n := |ids| - 1;
    forall x | x in Succeeded(ids[..n], out1)
      ensures x in Succeeded(ids, out)
    {
      var i :| 0 <= i < n && out1[i] == Good && ids[..n][i] == x;
      assert out[i] == Good && ids[i] == x;
    }
    forall x | x in Succeeded(ids, out)
      ensures x in Succeeded(ids[..n], out1) || (out[n] == Good && x == ids[n])
    {
      var i :| 0 <= i < |ids| && out[i] == Good && ids[i] == x;
      if i < n {
        assert out1[i] == Good && ids[..n][i] == x;
      }
    }
  }

  /** Moving takes exactly the requested subscriptions the source has, unchanged. */
  ghost predicate Moves(t: S.Session, s: S.Session, t': S.Session, s': S.Session, moved: set<SubId>) {
    && S.Valid(t') && S.Valid(s')
    && moved <= s.subs.Keys
    && t'.subs.Keys == t.subs.Keys + moved && s'.subs.Keys == s.subs.Keys - moved
    && (forall id :: id in t'.subs ==> t'.subs[id] == if id in moved then s.subs[id] else t.subs[id])
    && (forall id :: id in s'.subs ==> s'.subs[id] == s.subs[id])
  }

  lemma MovesOneMore(t: S.Session, s: S.Session, t1: S.Session, s1: S.Session, moved: set<SubId>, id: SubId)
    requires t.subs.Keys !! s.subs.Keys
    requires Moves(t, s, t1, s1, moved) && id !in t1.subs && id in s1.subs
    ensures Moves(t, s, S.Add(t1, id, s1.subs[id]), S.Drop(s1, id), moved + {id})
  {
    S.AddValid(t1, id, s1.subs[id]);
    S.DropValid(s1, id);
    hide S.Valid, Rotation.Erase, Rotation.Append;
  }

  lemma {:induction false} MoveAllExact(t: S.Session, s: S.Session, ids: seq<SubId>)
    requires S.Valid(t) && S.Valid(s) && t.subs.Keys !! s.subs.Keys
    ensures var (t', s', out) := S.MoveAll(t, s, ids);
            && |out| == |ids| && Succeeded(ids, out) == Elements(ids) * s.subs.Keys
            && Moves(t, s, t', s', Elements(ids) * s.subs.Keys)
  {
    hide S.Valid, Succeeded, S.Add, S.Drop, Moves;
    if ids == [] {
      MovesNone(t, s);
      NoneSucceeded();
      assert Elements(ids) * s.subs.Keys == {};
    } else {
      var n := |ids| - 1;
      MoveAllExact(t, s, ids[..n]);
      var (t1, s1, out1) := S.MoveAll(t, s, ids[..n]);
      var moved := Elements(ids[..n]) * s.subs.Keys;
      GoodIds(ids, out1, S.MoveAll(t, s, ids).2);
      MovesHave(t, s, t1, s1, moved, ids[n]);
      assert Elements(ids) == Elements(ids[..n]) + {ids[n]};
      if ids[n] !in t1.subs && ids[n] in s1.subs {
        MovesOneMore(t, s, t1, s1, moved, ids[n]);
        assert Elements(ids) * s.subs.Keys == moved + {ids[n]};
      } else {
        assert Elements(ids) * s.subs.Keys == moved;
      }
    }
  }

  lemma NoneSucceeded()
    ensures Succeeded([], []) == {}
  {
  }

  lemma MovesNone(t: S.Session, s: S.Session)
    requires S.Valid(t) && S.Valid(s)
    ensures Moves(t, s, t, s, {})
  {
    assert t.subs.Keys + {} == t.subs.Keys && s.subs.Keys - {} == s.subs.Keys;
  }

  lemma MovesHave(t: S.Session, s: S.Session, t1: S.Session, s1: S.Session, moved: set<SubId>, id: SubId)
    requires t.subs.Keys !! s.subs.Keys && Moves(t, s, t1, s1, moved)
    ensures id in t1.subs || id !in s1.subs ==> id in s.subs ==> id in moved
    ensures id in s1.subs ==> id in s.subs
  {
  }

  // ---------- steps ----------

  lemma MoveGroupIndex(s: Server, token: Token, source: Token, ids: seq<SubId>)
    requires IndexExact(s.sessions, s.owners) && SessionsValid(s.sessions)
    ensures var s' := MoveGroup(s, token, source, ids);
            && IndexExact(s'.sessions, s'.owners) && SessionsValid(s'.sessions)
            && s'.sessions.Keys == s.sessions.Keys && s'.owners.Keys == s.owners.Keys
  {
    if token in s.sessions && source in s.sessions && source != token {
      var t0, s0 := s.sessions[token], s.sessions[source];
      Apart(s.sessions, s.owners, token, source);
      hide S.Valid, Succeeded, S.MoveAll, Moves, IndexExact, SessionsValid, Reassign;
      MoveAllExact(t0, s0, ids);
      var (t', s', out) := S.MoveAll(t0, s0, ids);
      var moved := Elements(ids) * s0.subs.Keys;
      MovedIndex(s.sessions, s.owners, token, source, t', s', moved);
    }
  }

  lemma Apart(sessions: map<Token, S.Session>, owners: map<SubId, Token>, token: Token, source: Token)
    requires IndexExact(sessions, owners) && SessionsValid(sessions)
    requires token in sessions && source in sessions && token != source
    ensures S.Valid(sessions[token]) && S.Valid(sessions[source])
    ensures sessions[token].subs.Keys !! sessions[source].subs.Keys
  {
    hide S.Valid;
    forall id | id in sessions[token].subs.Keys
      ensures id !in sessions[source].subs.Keys
    {
      assert owners[id] == token;
    }
  }

  lemma MovedIndex(sessions: map<Token, S.Session>, owners: map<SubId, Token>, token: Token,
      source: Token, t': S.Session, s': S.Session, moved: set<SubId>)
    requires IndexExact(sessions, owners) && SessionsValid(sessions)
    requires token in sessions && source in sessions && token != source
    requires Moves(sessions[token], sessions[source], t', s', moved)
    ensures var sessions' := sessions[token := t'][source := s'];
            && IndexExact(sessions', Reassign(owners, moved, token)) && SessionsValid(sessions')
            && Reassign(owners, moved, token).Keys == owners.Keys
  {
    hide S.Valid, Moves, SessionsValid, Reassign, IndexExact, Indexed;
    var sessions', owners' := sessions[token := t'][source := s'], Reassign(owners, moved, token);
    MovedValid(sessions, token, source, t', s', moved);
    forall u, id
      ensures Indexed(sessions', owners', u, id)
    {
      MovedOne(sessions, owners, token, source, t', s', moved, u, id);
    }
    IndexedAll(sessions', owners');
    forall id
      ensures id in owners' <==> id in owners
    {
      MovedOne(sessions, owners, token, source, t', s', moved, token, id);
    }
  }

  /** The index has `id` exactly right as far as token `u` goes. */
  ghost predicate Indexed(sessions: map<Token, S.Session>, owners: map<SubId, Token>, u: Token, id: SubId) {
    && (id in owners ==> owners[id] in sessions && id in sessions[owners[id]].subs)
    && (u in sessions && id in sessions[u].subs ==> id in owners && owners[id] == u)
  }

  lemma IndexedAll(sessions: map<Token, S.Session>, owners: map<SubId, Token>)
    ensures IndexExact(sessions, owners) <==> forall u, id :: Indexed(sessions, owners, u, id)
  {
    if IndexExact(sessions, owners) {
      assert forall u, id :: Indexed(sessions, owners, u, id);
    }
    if forall u, id :: Indexed(sessions, owners, u, id) {
      assert forall id :: id in owners ==> Indexed(sessions, owners, owners[id], id);
      assert forall u, id :: u in sessions && id in sessions[u].subs ==> Indexed(sessions, owners, u, id);
    }
  }

  lemma MovedValid(sessions: map<Token, S.Session>, token: Token, source: Token, t': S.Session, s': S.Session,
      moved: set<SubId>)
    requires SessionsValid(sessions) && token in sessions && source in sessions
    requires Moves(sessions[token], sessions[source], t', s', moved)
    ensures SessionsValid(sessions[token := t'][source := s'])
  {
    hide S.Valid;
  }

  lemma MovedOne(sessions: map<Token, S.Session>, owners: map<SubId, Token>, token: Token,
      source: Token, t': S.Session, s': S.Session, moved: set<SubId>, u: Token, id: SubId)
    requires IndexExact(sessions, owners) && token in sessions && source in sessions && token != source
    requires Moves(sessions[token], sessions[source], t', s', moved)
    ensures var owners' := Reassign(owners, moved, token);
            Indexed(sessions[token := t'][source := s'], owners', u, id) && (id in owners' <==> id in owners)
  {
    hide IndexExact, S.Valid;
    IndexedAll(sessions, owners);
    assert Indexed(sessions, owners, u, id) && Indexed(sessions, owners, source, id);
    hide Indexed;
    OneMoved(sessions, owners, token, source, t', s', moved, u, id);
  }

  lemma OneMoved(sessions: map<Token, S.Session>, owners: map<SubId, Token>, token: Token,
      source: Token, t': S.Session, s': S.Session, moved: set<SubId>, u: Token, id: SubId)
    requires Indexed(sessions, owners, u, id) && Indexed(sessions, owners, source, id)
    requires token in sessions && source in sessions && token != source
    requires Moves(sessions[token], sessions[source], t', s', moved)
    ensures var owners' := Reassign(owners, moved, token);
            Indexed(sessions[token := t'][source := s'], owners', u, id) && (id in owners' <==> id in owners)
  {
    hide S.Valid;
    assert id in moved ==> id in sessions[source].subs;
  }

  lemma {:induction false} MoveGroupsIndex(s: Server, owners: map<SubId, Token>, token: Token,
      ids: seq<SubId>, order: seq<Token>)
    requires IndexExact(s.sessions, s.owners) && SessionsValid(s.sessions)
    ensures var s' := MoveGroups(s, owners, token, ids, order);
            && IndexExact(s'.sessions, s'.owners) && SessionsValid(s'.sessions)
            && s'.sessions.Keys == s.sessions.Keys && s'.owners.Keys == s.owners.Keys
            && s'.manager == s.manager && s'.nextSub == s.nextSub && s'.authenticating == s.authenticating
  {
    if order != [] {
      var n := |order| - 1;
      MoveGroupsIndex(s, owners, token, ids, order[..n]);
      hide S.Valid, IndexExact, SessionsValid, GroupOf, Reassign, Succeeded, S.MoveAll;
      MoveGroupIndex(MoveGroups(s, owners, token, ids, order[..n]), token, order[n],
        GroupOf(owners, ids, order[n]));
    }
  }

  lemma SubsIndex(sessions: map<Token, S.Session>, owners: map<SubId, Token>, token: Token,
      session: S.Session, owners': map<SubId, Token>)
    requires IndexExact(sessions, owners) && SessionsValid(sessions) && token in sessions
    requires S.Valid(session)
    requires forall id :: id in owners' && owners'[id] == token <==> id in session.subs
    requires forall id :: id in owners' && owners'[id] != token ==> id in owners && owners'[id] == owners[id]
    requires forall id :: id in owners && owners[id] != token ==> id in owners' && owners'[id] == owners[id]
    ensures IndexExact(sessions[token := session], owners') && SessionsValid(sessions[token := session])
    ensures sessions[token := session].Keys == sessions.Keys
  {
    hide S.Valid;
  }

  lemma CreateSubKeeps(s: Server, token: Token, requested: Params, now: Time)
    requires Inv(s)
    ensures Inv(CreateSub(s, token, requested, now))
  {
    if token in s.sessions {
      var id, session := s.nextSub, s.sessions[token];
      assert id !in s.owners && id !in session.subs;
      S.AddValid(session, id, Initial(id, requested, now));
      hide S.Valid, Initial, Rotation.Append, SessionsValid, InStep;
      SubsIndex(s.sessions, s.owners, token, S.Add(session, id, Initial(id, requested, now)),
        s.owners[id := token]);
    }
  }

  lemma DeleteSubsKeeps(s: Server, token: Token, ids: seq<SubId>)
    requires Inv(s)
    ensures Inv(DeleteSubs(s, token, ids))
  {
    if token in s.sessions {
      DropAllKeys(s.sessions[token], ids);
      hide S.Valid, S.DropAll, Succeeded, InStep;
      var (session, results) := S.DropAll(s.sessions[token], ids);
      SubsIndex(s.sessions, s.owners, token, session, s.owners - Succeeded(ids, results));
    }
  }

  lemma PollKeeps(s: Server, token: Token, now: Time)
    requires Inv(s) && token in s.sessions
    ensures Sound(s.sessions[token]) && Inv(s.(sessions := s.sessions[token := S.Poll(s.sessions[token], now).0]))
  {
    assert S.Valid(s.sessions[token]);
    SessionRuns.PollValid(s.sessions[token], now);
    PollSameSubs(s.sessions[token], now);
    hide S.Valid, S.Poll, InStep;
    SubsIndex(s.sessions, s.owners, token, S.Poll(s.sessions[token], now).0, s.owners);
  }

  lemma TouchKeeps(s: Server, token: Token, id: SubId, step: Op)
    requires Inv(s) && token in s.sessions && id in s.sessions[token].subs
    ensures Inv(s.(sessions := s.sessions[token := Touch(s.sessions[token], id, step)]))
  {
    hide Step, InStep;
    var session := Touch(s.sessions[token], id, step);
    assert session.subs.Keys == s.sessions[token].subs.Keys;
    SubsIndex(s.sessions, s.owners, token, session, s.owners);
  }

  lemma PollSameSubs(s: S.Session, now: Time)
    requires S.Valid(s)
    ensures S.Poll(s, now).0.subs.Keys == s.subs.Keys
  {
    hide TryPublish;
  }

  lemma EmptyValid()
    ensures S.Valid(S.NO_SUBSCRIPTIONS)
  {
  }

  /** Forgetting what the manager dropped, and installing what it activated afresh. */
  lemma ForgetKeeps(s: Server, m: Sessions.Manager, gone: set<Token>, waiting: multiset<Token>)
    requires Inv(s) && InStep(s.sessions.Keys - gone, m)
    ensures Inv(Forget(s.(manager := m, authenticating := waiting), gone))
  {
    ForgetIndex(s, gone);
    hide S.Valid, InStep;
  }

  lemma InstallKeeps(s: Server, m: Sessions.Manager, gone: set<Token>, waiting: multiset<Token>, token: Token)
    requires Inv(s) && (token in s.sessions ==> s.sessions[token].subs == map[])
    requires InStep(s.sessions.Keys - gone + {token}, m)
    ensures Inv(Install(Forget(s.(manager := m, authenticating := waiting), gone), token))
  {
    ForgetIndex(s, gone);
    InstallExactly(Forget(s, gone), token);
    EmptyValid();
    hide S.Valid, InStep, IndexExact;
  }

  lemma BeginKeeps(s: Server, now: Time, token: Token, check: Sessions.Check)
    requires Inv(s)
    ensures Inv(Begin(s, now, token, check))
  {
    BeginActivated(s.manager, now, token, check);
    var (m, begun, gone) := Sessions.Begin(s.manager, now, token, check);
    hide Sessions.Begin, S.Valid, IndexExact;
    match begun
    case Activated => InstallKeeps(s, m, gone, s.authenticating, token);
    case Authenticating => ForgetKeeps(s, m, gone, s.authenticating + multiset{token});
    case _ => ForgetKeeps(s, m, gone, s.authenticating);
  }

  lemma FinishKeeps(s: Server, now: Time, token: Token, auth: Option<Sessions.Auth>, failure: Sessions.Failure,
      deleteExisting: bool)
    requires Inv(s) && !Overwrites(s, FinishActivate(now, token, auth, failure, deleteExisting))
    ensures Inv(Finish(s, now, token, auth, failure, deleteExisting))
  {
    if token in s.authenticating {
      FinishActivated(s.manager, now, token, auth, failure, deleteExisting);
      Sessions.FinishGoodExactly(s.manager, now, token, auth, failure, deleteExisting);
      var o := Sessions.Finish(s.manager, now, token, auth, failure, deleteExisting);
      var waiting := s.authenticating - multiset{token};
      hide Sessions.Finish, Sessions.Admits, S.Valid, IndexExact;
      if o.status == Good {
        InstallKeeps(s, o.manager, o.removed, waiting, token);
      } else {
        ForgetKeeps(s, o.manager, o.removed, waiting);
      }
    }
  }

  lemma CreateSessionKeeps(s: Server, now: Time, accepted: bool, timeout: int)
    requires Inv(s)
    ensures var o := Sessions.Create(s.manager, now, accepted, timeout);
            Inv(Forget(s.(manager := o.manager), o.removed))
  {
    CreateActivated(s.manager, now, accepted, timeout);
    var o := Sessions.Create(s.manager, now, accepted, timeout);
    hide Sessions.Create, S.Valid, IndexExact;
    ForgetKeeps(s, o.manager, o.removed, s.authenticating);
  }

  lemma CloseKeeps(s: Server, token: Token)
    requires Inv(s)
    ensures var o := Sessions.Close(s.manager, token);
            Inv(Forget(s.(manager := o.manager), o.removed))
  {
    CloseActivated(s.manager, token);
    var o := Sessions.Close(s.manager, token);
    hide Sessions.Close, S.Valid, IndexExact;
    ForgetKeeps(s, o.manager, o.removed, s.authenticating);
  }

  lemma DetachKeeps(s: Server, token: Token)
    requires Inv(s)
    ensures Inv(s.(manager := Sessions.Detach(s.manager, token)))
  {
    assert ActivatedTokens(Sessions.Detach(s.manager, token)) == ActivatedTokens(s.manager);
  }

  lemma StepKeeps(s: Server, op: ServerOp)
    requires Inv(s) && !Overwrites(s, op)
    ensures Inv(Serve(s, op))
  {
    hide Inv, Overwrites;
    match op {
      case CreateSession(now, accepted, timeout) => CreateSessionKeeps(s, now, accepted, timeout);
      case BeginActivate(now, token, check) => BeginKeeps(s, now, token, check);
      case FinishActivate(now, token, auth, failure, deleteExisting) =>
        FinishKeeps(s, now, token, auth, failure, deleteExisting);
      case CloseSession(token) => CloseKeeps(s, token);
      case DetachSession(token) => DetachKeeps(s, token);
      case CreateSubscription(token, requested, now) => CreateSubKeeps(s, token, requested, now);
      case DeleteSubscriptions(token, ids) => DeleteSubsKeeps(s, token, ids);
      case TransferSubscriptions(token, ids, order) => TransferKeeps(s, token, ids, order);
      case PollPublish(token, now) =>
        if token in s.sessions {
          PollKeeps(s, token, now);
        }
      case OnSubscription(token, id, step) =>
        if token in s.sessions && id in s.sessions[token].subs {
          TouchKeeps(s, token, id, step);
        }
    }
  }

  lemma TransferKeeps(s: Server, token: Token, ids: seq<SubId>, order: seq<Token>)
    requires Inv(s)
    ensures Inv(Transfer(s, token, ids, order))
  {
    if token in s.sessions {
      MoveGroupsIndex(s, s.owners, token, ids, order);
    }
  }

  /** A resumed session always has its object. */
  lemma ResumedHasSession(s: Server, now: Time, token: Token, check: Sessions.Check)
    ensures Inv(s) && Sessions.Begin(s.manager, now, token, check).1.Resumed? ==>
              token in Begin(s, now, token, check).sessions
  {
    hide IndexExact, SessionsValid;
    if Inv(s) && Sessions.Begin(s.manager, now, token, check).1.Resumed? {
      assert token in ActivatedTokens(s.manager);
    }
  }

  /** A step keeps the index exact if and only if it overwrites no session object with subscriptions. */
  lemma StepExactly(s: Server, op: ServerOp)
    requires Inv(s)
    ensures IndexExact(Serve(s, op).sessions, Serve(s, op).owners) <==> !Overwrites(s, op)
  {
    if Overwrites(s, op) {
      FinishExactly(s, op.now, op.token, op.auth, op.failure, op.deleteExisting);
      Sessions.FinishGoodExactly(s.manager, op.now, op.token, op.auth, op.failure, op.deleteExisting);
      hide IndexExact, SessionsValid, InStep, Finish, Sessions.Finish;
      assert Serve(s, op) == Finish(s, op.now, op.token, op.auth, op.failure, op.deleteExisting);
    } else {
      StepKeeps(s, op);
      hide IndexExact, SessionsValid, InStep, Serve;
    }
  }

  // ---------- whole runs ----------

  ghost function Run(ops: seq<ServerOp>): Server {
    if ops == [] then EMPTY else Serve(Run(ops[..|ops| - 1]), ops[|ops| - 1])
  }

  ghost predicate ExactAt(s: Server) {
    IndexExact(s.sessions, s.owners)
  }

  ghost predicate ExactAfter(ops: seq<ServerOp>, i: nat)
    requires i <= |ops|
  {
    ExactAt(Run(ops[..i]))
  }

  /** The index is exact at every point of the run. */
  ghost predicate AlwaysExact(ops: seq<ServerOp>) {
    forall i :: 0 <= i <= |ops| ==> ExactAfter(ops, i)
  }

  ghost predicate NeverOverwrites(ops: seq<ServerOp>) {
    forall i :: 0 <= i < |ops| ==> !Overwrites(Run(ops[..i]), ops[i])
  }

  lemma AlwaysExactNext(ops: seq<ServerOp>)
    requires ops != []
    ensures AlwaysExact(ops) <==> AlwaysExact(ops[..|ops| - 1]) && ExactAt(Run(ops))
  {
    hide ExactAfter, ExactAt, Run;
    var n := |ops| - 1;
    ExactAfterEnd(ops);
    forall i | 0 <= i <= n
      ensures ExactAfter(ops[..n], i) <==> ExactAfter(ops, i)
    {
      ExactAfterShorter(ops, n, i);
    }
  }

  lemma ExactAfterEnd(ops: seq<ServerOp>)
    ensures ExactAfter(ops, |ops|) <==> ExactAt(Run(ops))
  {
    assert ops[..|ops|] == ops;
  }

  lemma ExactAfterShorter(ops: seq<ServerOp>, n: nat, i: nat)
    requires i <= n <= |ops|
    ensures ExactAfter(ops[..n], i) <==> ExactAfter(ops, i)
  {
    assert ops[..n][..i] == ops[..i];
  }

  lemma NeverOverwritesNext(ops: seq<ServerOp>)
    requires ops != []
    ensures var n := |ops| - 1;
            NeverOverwrites(ops) <==> NeverOverwrites(ops[..n]) && !Overwrites(Run(ops[..n]), ops[n])
  {
    hide Run, Overwrites;
    assert forall i :: 0 <= i < |ops| - 1 ==> ops[..|ops| - 1][..i] == ops[..i];
  }

  lemma EmptyInv()
    ensures Inv(EMPTY)
  {
  }

  /** Whatever happens, in whatever order: throughout a run of a fresh server the index is exact, if
      and only if no activation that has waited overwrites a session object with subscriptions. Then
      the whole invariant holds in the state reached. */
  lemma {:induction false} IndexExactExactly(ops: seq<ServerOp>)
    ensures AlwaysExact(ops) <==> NeverOverwrites(ops)
    ensures NeverOverwrites(ops) ==> Inv(Run(ops))
  {
    if ops == [] {
      EmptyInv();
    } else {
      hide Inv, Overwrites, ExactAt, Serve, AlwaysExact, NeverOverwrites;
      var n := |ops| - 1;
      IndexExactExactly(ops[..n]);
      AlwaysExactNext(ops);
      NeverOverwritesNext(ops);
      if NeverOverwrites(ops[..n]) {
        ServeExactly(Run(ops[..n]), ops[n]);
      }
    }
  }

  lemma ServeExactly(s: Server, op: ServerOp)
    requires Inv(s)
    ensures ExactAt(Serve(s, op)) <==> !Overwrites(s, op)
    ensures !Overwrites(s, op) ==> Inv(Serve(s, op))
  {
    StepExactly(s, op);
    if !Overwrites(s, op) {
      StepKeeps(s, op);
    }
    hide Serve, IndexExact, Inv, Overwrites;
  }

  // ---------- runs without overlapping activations ----------

  ghost predicate Orderly(ops: seq<ServerOp>) {
    forall i :: 0 <= i < |ops| ==> NoOverlap(Run(ops[..i]), ops[i])
  }

  lemma OrderlyNext(ops: seq<ServerOp>)
    requires Orderly(ops) && ops != []
    ensures Orderly(ops[..|ops| - 1]) && NoOverlap(Run(ops[..|ops| - 1]), ops[|ops| - 1])
  {
    hide Run, NoOverlap;
    assert forall i :: 0 <= i < |ops| - 1 ==> ops[..|ops| - 1][..i] == ops[..i];
  }

  ghost predicate Waiting(s: Server) {
    WaitsOnce(s.sessions.Keys, s.manager.next, s.authenticating)
  }

  lemma WaitingNeverOverwrites(s: Server, op: ServerOp)
    requires Waiting(s)
    ensures !Overwrites(s, op)
  {
  }

  lemma StepWaits(s: Server, op: ServerOp)
    requires Inv(s) && Waiting(s) && NoOverlap(s, op)
    ensures Waiting(Serve(s, op))
  {
    hide IndexExact, SessionsValid;
    if op.CreateSession? {
      CreateActivated(s.manager, op.now, op.accepted, op.timeout);
    } else if op.BeginActivate? {
      BeginWaitsOnce(s, op.now, op.token, op.check);
    } else if op.FinishActivate? {
      FinishWaitsOnce(s, op.now, op.token, op.auth, op.failure, op.deleteExisting);
    } else if op.CloseSession? {
      CloseActivated(s.manager, op.token);
    } else if op.TransferSubscriptions? {
      TransferSame(s, op.token, op.ids, op.order);
    } else {
      hide Sessions.Create, Sessions.Begin, Sessions.Finish, Sessions.Close, S.Poll, S.DropAll;
    }
  }

  lemma BeginWaitsOnce(s: Server, now: Time, token: Token, check: Sessions.Check)
    requires InStep(s.sessions.Keys, s.manager) && Waiting(s) && token !in s.authenticating
    ensures Waiting(Begin(s, now, token, check))
  {
    BeginActivated(s.manager, now, token, check);
    var (m, begun, gone) := Sessions.Begin(s.manager, now, token, check);
    hide Sessions.Begin;
    var s' := Begin(s, now, token, check);
    assert s'.manager == m && s'.sessions.Keys == s.sessions.Keys - gone + (if begun.Activated? then {token} else {});
    if begun.Authenticating? {
      assert s'.authenticating == s.authenticating + multiset{token};
      assert token < m.next && token !in s'.sessions.Keys;
    } else {
      assert s'.authenticating == s.authenticating;
    }
  }

  lemma FinishWaitsOnce(s: Server, now: Time, token: Token, auth: Option<Sessions.Auth>,
      failure: Sessions.Failure, deleteExisting: bool)
    requires InStep(s.sessions.Keys, s.manager) && Waiting(s)
    ensures Waiting(Finish(s, now, token, auth, failure, deleteExisting))
  {
    FinishActivated(s.manager, now, token, auth, failure, deleteExisting);
    hide Sessions.Finish;
  }

  lemma TransferSame(s: Server, token: Token, ids: seq<SubId>, order: seq<Token>)
    requires Inv(s)
    ensures var s' := Transfer(s, token, ids, order);
            s'.sessions.Keys == s.sessions.Keys && s'.manager == s.manager && s'.authenticating == s.authenticating
  {
    if token in s.sessions {
      MoveGroupsIndex(s, s.owners, token, ids, order);
    }
  }

  lemma {:induction false} OrderlyKeeps(ops: seq<ServerOp>)
    requires Orderly(ops)
    ensures NeverOverwrites(ops) && Inv(Run(ops)) && Waiting(Run(ops))
  {
    if ops == [] {
      EmptyInv();
    } else {
      hide Inv, Overwrites, Serve, Orderly, NeverOverwrites, NoOverlap, Waiting;
      var n := |ops| - 1;
      OrderlyNext(ops);
      OrderlyKeeps(ops[..n]);
      WaitingNeverOverwrites(Run(ops[..n]), ops[n]);
      NeverOverwritesNext(ops);
      ServeExactly(Run(ops[..n]), ops[n]);
      StepWaits(Run(ops[..n]), ops[n]);
    }
  }

  /** After every run without overlapping first activations, the index maps an id to a token exactly
      when that token's session holds the subscription, so a subscription is in one session only, and
      the runtime keeps an object for exactly the activated sessions. */
  lemma IndexAfterRun(ops: seq<ServerOp>)
    requires Orderly(ops)
    ensures var s := Run(ops);
            && (forall id, t :: id in s.owners && s.owners[id] == t
                  <==> t in s.sessions && id in s.sessions[t].subs)
            && (forall t :: t in s.sessions
                  <==> t in s.manager.sessions && s.manager.sessions[t].activated)
  {
    hide Run, Orderly, Inv, NeverOverwrites, Waiting;
    OrderlyKeeps(ops);
    InvMeans(Run(ops));
  }

  lemma InvMeans(s: Server)
    requires Inv(s)
    ensures forall id, t :: id in s.owners && s.owners[id] == t <==> t in s.sessions && id in s.sessions[t].subs
    ensures forall t :: t in s.sessions <==> t in s.manager.sessions && s.manager.sessions[t].activated
  {
    hide S.Valid;
    forall t
      ensures t in s.sessions <==> t in s.manager.sessions && s.manager.sessions[t].activated
    {
      assert t in s.sessions.Keys <==> t in ActivatedTokens(s.manager);
    }
  }

  // ---------- overlapping activations ----------

  /** Finishing an activation keeps the index exact if and only if the runtime has no object for the
      token yet, or one without subscriptions. An overlapping first activation that finished earlier
      has put one there. */
  lemma FinishExactly(s: Server, now: Time, token: Token, auth: Option<Sessions.Auth>,
      failure: Sessions.Failure, deleteExisting: bool)
    requires IndexExact(s.sessions, s.owners) && token in s.authenticating
    ensures var s' := Finish(s, now, token, auth, failure, deleteExisting);
            var o := Sessions.Finish(s.manager, now, token, auth, failure, deleteExisting);
            IndexExact(s'.sessions, s'.owners)
            <==> (o.status == Good && token in s.sessions ==> s.sessions[token].subs == map[])
  {
    FinishActivated(s.manager, now, token, auth, failure, deleteExisting);
    var o := Sessions.Finish(s.manager, now, token, auth, failure, deleteExisting);
    ForgetIndex(s, o.removed);
    var s1 := Forget(s.(manager := o.manager, authenticating := s.authenticating - multiset{token}), o.removed);
    hide Sessions.Finish;
    if o.status == Good {
      InstallExactly(s1, token);
    }
  }

  /** A client creates a session and activates it twice; both activations wait. */
  const TWO_WAIT: seq<ServerOp> := [
    CreateSession(0, true, 0), BeginActivate(1, 1, Sessions.Credentials), BeginActivate(2, 1, Sessions.Credentials)]

  const CREATED: Sessions.Manager :=
    Sessions.Manager(map[1 := Sessions.Entry(None, false, false, 600_000, 600_000)], 2)

  lemma RunTwoWait()
    ensures Run(TWO_WAIT) == EMPTY.(manager := CREATED, authenticating := multiset{1, 1})
  {
    var s := EMPTY.(manager := CREATED);
    assert Sessions.Create(EMPTY.manager, 0, true, 0).manager == CREATED;
    ForgetNone(s);
    BeginWaits(s, 1, 1);
    BeginWaits(s.(authenticating := multiset{1}), 2, 1);
    hide Begin, Forget, Sessions.Create;
    assert TWO_WAIT[..2][..1] == TWO_WAIT[..1] && TWO_WAIT[..1][..0] == [];
    assert Run(TWO_WAIT[..1]) == s && Run(TWO_WAIT[..2]) == s.(authenticating := multiset{1});
  }

  lemma RunNext(ops: seq<ServerOp>, op: ServerOp)
    ensures Run(ops + [op]) == Serve(Run(ops), op)
  {
    assert (ops + [op])[..|ops|] == ops;
  }

  /** One of them finishes and its client creates a subscription; then the other finishes. The
      subscription is gone, but the index still has it. */
  lemma OverlapLosesSubscription(p: Params)
    ensures var finish := FinishActivate(3, 1, Some(Sessions.Auth(7, true)), Bad, false);
            var before := Run(TWO_WAIT + [finish] + [CreateSubscription(1, p, 4)]);
            var after := Run(TWO_WAIT + [finish] + [CreateSubscription(1, p, 4)] + [finish]);
            && IndexExact(before.sessions, before.owners)
            && 1 in after.owners && after.owners[1] == 1 && 1 in after.sessions && 1 !in after.sessions[1].subs
  {
    hide Run, Serve, Finish, IndexExact, CreateSub;
    var finish := FinishActivate(3, 1, Some(Sessions.Auth(7, true)), Bad, false);
    var create := CreateSubscription(1, p, 4);
    RunTwoWait();
    RunNext(TWO_WAIT, finish);
    RunNext(TWO_WAIT + [finish], create);
    RunNext(TWO_WAIT + [finish] + [create], finish);
    var s := Run(TWO_WAIT);
    FinishInstalls(s, 3, 1, finish.auth.value, false);
    var s1 := Serve(s, finish);
    OneSubscription(s1, p);
    FinishInstalls(Serve(s1, create), 3, 1, finish.auth.value, false);
  }

  /** The same for a user limited to one session, where the second activation may delete existing
      sessions: it deletes the very session it activates. */
  lemma OverlapEvictsItself()
    ensures var user := Some(Sessions.Auth(7, false));
            var first, second := FinishActivate(3, 1, user, Bad, false), FinishActivate(5, 1, user, Bad, true);
            var s, s' := Run(TWO_WAIT + [first]), Run(TWO_WAIT + [first] + [second]);
            var o := Sessions.Finish(s.manager, 5, 1, user, Bad, true);
            && 1 in s.manager.sessions && 1 in s.authenticating
            && o.status == BadSessionIdInvalid && o.removed == {1}
            && 1 !in s'.manager.sessions && 1 !in s'.sessions
  {
    hide Run, Serve, Finish;
    var user := Sessions.Auth(7, false);
    var first, second := FinishActivate(3, 1, Some(user), Bad, false), FinishActivate(5, 1, Some(user), Bad, true);
    RunTwoWait();
    RunNext(TWO_WAIT, first);
    RunNext(TWO_WAIT + [first], second);
    var s := Run(TWO_WAIT);
    assert Sessions.OfUser(s.manager, 7) == {};
    FinishInstalls(s, 3, 1, user, false);
    assert Serve(s, first).manager.sessions
        == map[1 := Sessions.Entry(Some(user), true, true, 600_000, 600_003)];
    FinishEvicts(Serve(s, first), 5, 1, user);
  }

  lemma FinishEvicts(s: Server, now: Time, token: Token, a: Sessions.Auth)
    requires token in s.authenticating && !a.multi && Sessions.OfUser(s.manager, a.user) == {token}
    ensures var op := FinishActivate(now, token, Some(a), Bad, true);
            var o, s' := Sessions.Finish(s.manager, now, token, Some(a), Bad, true), Serve(s, op);
            && o.status == BadSessionIdInvalid && o.removed == {token}
            && token !in s'.manager.sessions && token !in s'.sessions
  {
    Sessions.DetachedNeverBlocks(s.manager, now, token, a, Bad, true);
  }

  /** Without overlaps this cannot happen: a session whose activation waits is nobody's, so finishing
      the activation never evicts it. */
  lemma WaitingIsNobodys(ops: seq<ServerOp>, token: Token, user: Sessions.User)
    requires Orderly(ops)
    ensures var s := Run(ops);
            token in s.authenticating ==>
              && token !in Sessions.OfUser(s.manager, user)
              && forall now, auth, failure, deleteExisting ::
                   token !in Sessions.Finish(s.manager, now, token, auth, failure, deleteExisting).removed
  {
    hide Run, Orderly, NeverOverwrites;
    OrderlyKeeps(ops);
    var s := Run(ops);
    hide IndexExact, SessionsValid;
    if token in s.authenticating {
      assert token !in s.sessions.Keys && token !in ActivatedTokens(s.manager);
      assert forall u :: token !in Sessions.OfUser(s.manager, u);
      forall now, auth, failure, deleteExisting
        ensures token !in Sessions.Finish(s.manager, now, token, auth, failure, deleteExisting).removed
      {
      }
    }
  }

  lemma OneSubscription(s: Server, p: Params)
    requires s.sessions == map[1 := S.NO_SUBSCRIPTIONS] && s.owners == map[] && s.nextSub == 1
    ensures var s' := Serve(s, CreateSubscription(1, p, 4));
            && IndexExact(s'.sessions, s'.owners) && s'.owners == map[1 := 1]
            && s'.manager == s.manager && s'.authenticating == s.authenticating
  {
    hide Initial, Rotation.Append;
    assert CreateSub(s, 1, p, 4).sessions.Keys == {1};
  }

  lemma BeginWaits(s: Server, now: Time, token: Token)
    requires token in s.manager.sessions && !s.manager.sessions[token].activated
    requires Sessions.Expired(s.manager, now) == {}
    ensures Begin(s, now, token, Sessions.Credentials)
            == s.(authenticating := s.authenticating + multiset{token})
  {
    ForgetNone(s);
    assert s.manager.sessions - {} == s.manager.sessions;
  }

  lemma FinishInstalls(s: Server, now: Time, token: Token, a: Sessions.Auth, deleteExisting: bool)
    requires token in s.authenticating && token in s.manager.sessions
    requires a.multi || Sessions.OfUser(s.manager, a.user) == {}
    ensures var s' := Serve(s, FinishActivate(now, token, Some(a), Bad, deleteExisting));
            && s'.sessions == s.sessions[token := S.NO_SUBSCRIPTIONS] && s'.owners == s.owners
            && s'.nextSub == s.nextSub && s'.authenticating == s.authenticating - multiset{token}
            && s'.manager == Sessions.Complete(s.manager, now, token, Some(a))
  {
    assert s.manager.sessions - {} == s.manager.sessions;
    assert a.multi || !Sessions.HasAttached(s.manager, a.user);
    var m := Sessions.Complete(s.manager, now, token, Some(a));
    ForgetNone(s.(manager := m, authenticating := s.authenticating - multiset{token}));
  }

  lemma ForgetNone(s: Server)
    ensures Forget(s, {}) == s
  {
    assert Forget(s, {}).sessions == s.sessions && Forget(s, {}).owners == s.owners;
  }

  // ---------- transferring ----------

  /** Nothing but its owner changes about a subscription. */
  ghost predicate Intact(sessions: map<Token, S.Session>, owners: map<SubId, Token>,
      sessions': map<Token, S.Session>, owners': map<SubId, Token>)
  {
    forall id :: id in owners && owners[id] in sessions && id in sessions[owners[id]].subs ==>
      && id in owners' && owners'[id] in sessions' && id in sessions'[owners'[id]].subs
      && sessions'[owners'[id]].subs[id] == sessions[owners[id]].subs[id]
  }

  lemma MovedIntact(sessions: map<Token, S.Session>, owners: map<SubId, Token>, token: Token,
      source: Token, t': S.Session, s': S.Session, moved: set<SubId>)
    requires IndexExact(sessions, owners)
    requires token in sessions && source in sessions && token != source
    requires Moves(sessions[token], sessions[source], t', s', moved)
    ensures Intact(sessions, owners, sessions[token := t'][source := s'], Reassign(owners, moved, token))
  {
    hide S.Valid;
    assert forall id :: id in moved ==> id in owners && owners[id] == source;
  }

  lemma MoveGroupExact(s: Server, token: Token, source: Token, ids: seq<SubId>)
    requires IndexExact(s.sessions, s.owners) && SessionsValid(s.sessions)
    requires token in s.sessions && source in s.sessions && token != source
    requires forall id :: id in ids ==> id in s.owners && s.owners[id] == source
    ensures var s' := MoveGroup(s, token, source, ids);
            && Intact(s.sessions, s.owners, s'.sessions, s'.owners)
            && s'.owners == Reassign(s.owners, Elements(ids), token)
  {
    var t0, s0 := s.sessions[token], s.sessions[source];
    Apart(s.sessions, s.owners, token, source);
    MoveAllExact(t0, s0, ids);
    assert Elements(ids) * s0.subs.Keys == Elements(ids);
    var (t', s', out) := S.MoveAll(t0, s0, ids);
    hide S.Valid, Succeeded, S.MoveAll, SessionsValid, Moves, IndexExact, Intact, Reassign;
    MovedIntact(s.sessions, s.owners, token, source, t', s', Elements(ids));
  }

  lemma {:induction false} GroupMembers(owners: map<SubId, Token>, ids: seq<SubId>, source: Token)
    ensures forall id :: id in GroupOf(owners, ids, source) <==>
              id in ids && id in owners && owners[id] == source
  {
    if ids != [] {
      var n := |ids| - 1;
      GroupMembers(owners, ids[..n], source);
      assert ids == ids[..n] + [ids[n]];
    }
  }

  /** The owners after the groups of the tokens in `done` have been moved to `token`. */
  function OwnersAfter(owners: map<SubId, Token>, ids: seq<SubId>, token: Token, done: set<Token>): map<SubId, Token> {
    map id | id in owners :: if id in ids && owners[id] in done then token else owners[id]
  }

  lemma OwnersAfterOneMore(owners: map<SubId, Token>, ids: seq<SubId>, token: Token, done: set<Token>,
      source: Token)
    requires source !in done
    ensures Reassign(OwnersAfter(owners, ids, token, done), Elements(GroupOf(owners, ids, source)), token)
            == OwnersAfter(owners, ids, token, done + {source})
  {
    GroupMembers(owners, ids, source);
    hide GroupOf;
  }

  lemma {:induction false} TransferSteps(s: Server, token: Token, ids: seq<SubId>, order: seq<Token>)
    requires IndexExact(s.sessions, s.owners) && SessionsValid(s.sessions) && token in s.sessions
    requires Distinct(order) && forall i :: 0 <= i < |order| ==> order[i] in s.sessions && order[i] != token
    ensures var s' := MoveGroups(s, s.owners, token, ids, order);
            && Intact(s.sessions, s.owners, s'.sessions, s'.owners)
            && s'.owners == OwnersAfter(s.owners, ids, token, Elements(order))
  {
    if order == [] {
      assert s.owners == OwnersAfter(s.owners, ids, token, Elements(order));
    } else {
      var n := |order| - 1;
      TransferSteps(s, token, ids, order[..n]);
      MoveGroupsIndex(s, s.owners, token, ids, order[..n]);
      var s1 := MoveGroups(s, s.owners, token, ids, order[..n]);
      var s2 := MoveGroups(s, s.owners, token, ids, order);
      var group := GroupOf(s.owners, ids, order[n]);
      assert s2 == MoveGroup(s1, token, order[n], group);
      assert order[n] !in Elements(order[..n]);
      assert Elements(order) == Elements(order[..n]) + {order[n]};
      GroupStillOwned(s.owners, ids, token, Elements(order[..n]), order[n]);
      OwnersAfterOneMore(s.owners, ids, token, Elements(order[..n]), order[n]);
      hide MoveGroups, SessionsValid, S.Valid, MoveGroup, GroupOf, IndexExact, OwnersAfter, Reassign, Elements;
      MoveGroupExact(s1, token, order[n], group);
      IntactTwice(s.sessions, s.owners, s1.sessions, s1.owners, s2.sessions, s2.owners);
    }
  }

  lemma GroupStillOwned(owners: map<SubId, Token>, ids: seq<SubId>, token: Token, done: set<Token>, source: Token)
    requires source !in done
    ensures var owners' := OwnersAfter(owners, ids, token, done);
            forall id :: id in GroupOf(owners, ids, source) ==> id in owners' && owners'[id] == source
  {
    GroupMembers(owners, ids, source);
    hide GroupOf;
  }

  lemma IntactTwice(sessions: map<Token, S.Session>, owners: map<SubId, Token>,
      sessions1: map<Token, S.Session>, owners1: map<SubId, Token>,
      sessions2: map<Token, S.Session>, owners2: map<SubId, Token>)
    requires Intact(sessions, owners, sessions1, owners1) && Intact(sessions1, owners1, sessions2, owners2)
    ensures Intact(sessions, owners, sessions2, owners2)
  {
  }

  /** The sessions, other than the target, that own a requested subscription. */
  function Sources(owners: map<SubId, Token>, token: Token, ids: seq<SubId>): set<Token> {
    set i | 0 <= i < |ids| && ids[i] in owners && owners[ids[i]] != token :: owners[ids[i]]
  }

  /** Whatever order the groups come in, a transfer gives the target every requested subscription
      that exists, changes no other owner and leaves every subscription as it was. */
  lemma TransferExact(s: Server, token: Token, ids: seq<SubId>, order: seq<Token>)
    requires Inv(s) && token in s.sessions && Lists(order, Sources(s.owners, token, ids))
    ensures var s' := Transfer(s, token, ids, order);
            && Intact(s.sessions, s.owners, s'.sessions, s'.owners)
            && s'.owners == map id | id in s.owners :: if id in ids then token else s.owners[id]
  {
    forall i | 0 <= i < |order|
      ensures order[i] in s.sessions && order[i] != token
    {
      assert order[i] in Elements(order);
    }
    TransferSteps(s, token, ids, order);
    hide MoveGroups, Intact, IndexExact, SessionsValid, InStep;
    AllSourcesDone(s.owners, token, ids);
  }

  lemma AllSourcesDone(owners: map<SubId, Token>, token: Token, ids: seq<SubId>)
    ensures OwnersAfter(owners, ids, token, Sources(owners, token, ids))
            == map id | id in owners :: if id in ids then token else owners[id]
  {
    forall id | id in owners && id in ids && owners[id] != token
      ensures owners[id] in Sources(owners, token, ids)
    {
      var i :| 0 <= i < |ids| && ids[i] == id;
    }
  }
}
