/** The server runtime as a value: the session objects it keeps per token and the index from
    subscription to owning session, next to the session manager that decides which sessions live. */
module Runtime {
  import opened Common
  import opened Subscription
  import S = Session
  import Sessions

  type Token = Sessions.Token
  type SubId = S.SubId
  type Time = int

  datatype Server = Server(
    manager: Sessions.Manager,
    sessions: map<Token, S.Session>,
    owners: map<SubId, Token>,
    nextSub: SubId,
    authenticating: multiset<Token>)   // activations waiting for the authenticator

  const EMPTY: Server := Server(Sessions.EMPTY, map[], map[], 1, multiset{})

  // ---------- sessions ----------

  /** The sink the manager calls for every session it drops. */
  function Forget(s: Server, tokens: set<Token>): Server {
    s.(sessions := s.sessions - tokens,
       owners := map id | id in s.owners && s.owners[id] !in tokens :: s.owners[id])
  }

  /** A first activation has succeeded: the session gets a fresh object. */
  function Install(s: Server, token: Token): Server {
    s.(sessions := s.sessions[token := S.NO_SUBSCRIPTIONS])
  }

  function Begin(s: Server, now: Time, token: Token, check: Sessions.Check): Server {
    var (m, begun, gone) := Sessions.Begin(s.manager, now, token, check);
    var s1 := Forget(s.(manager := m), gone);
    match begun
    case Activated => Install(s1, token)
    case Authenticating => s1.(authenticating := s1.authenticating + multiset{token})
    case _ => s1
  }

  function Finish(s: Server, now: Time, token: Token, auth: Option<Sessions.Auth>, failure: Sessions.Failure,
      deleteExisting: bool): Server
  {
    if token !in s.authenticating then s
    else
      var o := Sessions.Finish(s.manager, now, token, auth, failure, deleteExisting);
      var s1 := Forget(s.(manager := o.manager, authenticating := s.authenticating - multiset{token}),
                  o.removed);
      if o.status == Good then Install(s1, token) else s1
  }

  // ---------- subscriptions ----------

  function CreateSub(s: Server, token: Token, requested: Params, now: Time): Server {
    if token !in s.sessions then s
    else
      s.(sessions := s.sessions[token := S.Add(s.sessions[token], s.nextSub, Initial(s.nextSub, requested, now))],
         owners := s.owners[s.nextSub := token],
         nextSub := s.nextSub + 1)
  }

  /** The ids whose part of a request succeeded. */
  function Succeeded(ids: seq<SubId>, results: seq<Status>): set<SubId> {
    set i | 0 <= i < |ids| && i < |results| && results[i] == Good :: ids[i]
  }

  function DeleteSubs(s: Server, token: Token, ids: seq<SubId>): Server {
    if token !in s.sessions then s
    else
      var (session, results) := S.DropAll(s.sessions[token], ids);
      s.(sessions := s.sessions[token := session],
         owners := s.owners - Succeeded(ids, results))
  }

  /** The requested subscriptions that `source` owns. */
  function GroupOf(owners: map<SubId, Token>, ids: seq<SubId>, source: Token): seq<SubId> {
    if ids == [] then []
    else
      var n := |ids| - 1;
      GroupOf(owners, ids[..n], source)
      + (if ids[n] in owners && owners[ids[n]] == source then [ids[n]] else [])
  }

  function Reassign(owners: map<SubId, Token>, moved: set<SubId>, token: Token): map<SubId, Token> {
    map id | id in owners.Keys + moved :: if id in moved then token else owners[id]
  }

  function MoveGroup(s: Server, token: Token, source: Token, ids: seq<SubId>): Server {
    if token !in s.sessions || source !in s.sessions || source == token then s
    else
      var (t', s', results) := S.MoveAll(s.sessions[token], s.sessions[source], ids);
      var moved := Succeeded(ids, results);
      s.(sessions := s.sessions[token := t'][source := s'],
         owners := Reassign(s.owners, moved, token))
  }

  /** The groups, formed by the owners before the request, are moved in the order given. */
  function MoveGroups(s: Server, owners: map<SubId, Token>, token: Token, ids: seq<SubId>,
      order: seq<Token>): Server
  {
    if order == [] then s
    else
      var n := |order| - 1;
      MoveGroup(MoveGroups(s, owners, token, ids, order[..n]), token, order[n],
        GroupOf(owners, ids, order[n]))
  }

  function Transfer(s: Server, token: Token, ids: seq<SubId>, order: seq<Token>): Server {
    if token !in s.sessions then s else MoveGroups(s, s.owners, token, ids, order)
  }

  // ---------- steps and runs ----------

  datatype ServerOp =
    | CreateSession(now: Time, accepted: bool, timeout: int)
    | BeginActivate(now: Time, token: Token, check: Sessions.Check)
    | FinishActivate(
        now: Time, token: Token, auth: Option<Sessions.Auth>, failure: Sessions.Failure, deleteExisting: bool)
    | CloseSession(token: Token)
    | DetachSession(token: Token)
    | CreateSubscription(token: Token, requested: Params, now: Time)
    | DeleteSubscriptions(token: Token, ids: seq<SubId>)
    | TransferSubscriptions(token: Token, ids: seq<SubId>, order: seq<Token>)
    | PollPublish(token: Token, now: Time)
    | OnSubscription(token: Token, id: SubId, step: Op)   // anything else a subscription does or is asked

  ghost function Serve(s: Server, op: ServerOp): Server {
    match op
    case CreateSession(now, accepted, timeout) =>
      var o := Sessions.Create(s.manager, now, accepted, timeout);
      Forget(s.(manager := o.manager), o.removed)
    case BeginActivate(now, token, check) => Begin(s, now, token, check)
    case FinishActivate(now, token, auth, failure, deleteExisting) =>
      Finish(s, now, token, auth, failure, deleteExisting)
    case CloseSession(token) =>
      var o := Sessions.Close(s.manager, token);
      Forget(s.(manager := o.manager), o.removed)
    case DetachSession(token) => s.(manager := Sessions.Detach(s.manager, token))
    case CreateSubscription(token, requested, now) => CreateSub(s, token, requested, now)
    case DeleteSubscriptions(token, ids) => DeleteSubs(s, token, ids)
    case TransferSubscriptions(token, ids, order) => Transfer(s, token, ids, order)
    case PollPublish(token, now) =>
      if token !in s.sessions || !Sound(s.sessions[token]) then s
      else s.(sessions := s.sessions[token := S.Poll(s.sessions[token], now).0])
    case OnSubscription(token, id, step) =>
      if token !in s.sessions || id !in s.sessions[token].subs then s
      else s.(sessions := s.sessions[token := Touch(s.sessions[token], id, step)])
  }

  ghost function Touch(session: S.Session, id: SubId, step: Op): S.Session
    requires id in session.subs
  {
    session.(subs := session.subs[id := Step(session.subs[id], step)])
  }

  // ---------- invariants ----------

  predicate Sound(s: S.Session) {
    s.rota.order == [] || s.rota.cursor < |s.rota.order|
  }

  function ActivatedTokens(m: Sessions.Manager): set<Token> {
    set t | t in m.sessions && m.sessions[t].activated
  }

  /** The index maps an id to a token exactly when that token's session holds the subscription. */
  ghost predicate IndexExact(sessions: map<Token, S.Session>, owners: map<SubId, Token>) {
    && (forall id :: id in owners ==> owners[id] in sessions && id in sessions[owners[id]].subs)
    && (forall t, id :: t in sessions && id in sessions[t].subs ==> id in owners && owners[id] == t)
  }

  ghost predicate SessionsValid(sessions: map<Token, S.Session>) {
    forall t :: t in sessions ==> S.Valid(sessions[t])
  }

  /** The runtime has an object for exactly the activated sessions. */
  ghost predicate InStep(tokens: set<Token>, m: Sessions.Manager) {
    && tokens == ActivatedTokens(m)
    && (forall t :: t in m.sessions ==> t < m.next)
    && Sessions.UsersActive(m)
  }

  ghost predicate Inv(s: Server) {
    && IndexExact(s.sessions, s.owners)
    && SessionsValid(s.sessions)
    && (forall id :: id in s.owners ==> id < s.nextSub)
    && InStep(s.sessions.Keys, s.manager)
  }

  // ---------- overlapping activations ----------

  /** An activation that has waited succeeds, for a token whose session object holds subscriptions:
      an overlapping activation of the token has put it there. */
  ghost predicate Overwrites(s: Server, op: ServerOp) {
    && op.FinishActivate? && op.token in s.authenticating
    && op.token in s.sessions && s.sessions[op.token].subs != map[]
    && Sessions.Admits(s.manager, op.token, op.auth, op.deleteExisting)
  }

  /** No first activation of a token starts while another one of it waits for the authenticator. */
  ghost predicate NoOverlap(s: Server, op: ServerOp) {
    op.BeginActivate? ==> op.token !in s.authenticating
  }

  /** A token whose first activation waits for the authenticator waits once and is not activated. */
  ghost predicate WaitsOnce(tokens: set<Token>, next: Token, waiting: multiset<Token>) {
    forall t :: t in waiting ==> waiting[t] == 1 && t < next && t !in tokens
  }
}
