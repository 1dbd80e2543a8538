/** The session manager as a value: the sessions clients have created, who activated them and when
    they expire. Activation with credentials is in two steps, because the authenticator is awaited
    in between and anything may happen meanwhile. */
module Sessions {
  import opened Common

  type Token = nat
  type User = nat
  type Time = int

  const DEFAULT_TIMEOUT: int := 600_000
  const MIN_TIMEOUT: int := 30_000
  const MAX_TIMEOUT: int := 3_600_000

  /** A refusal always carries a bad status. */
  type Failure = s: Status | s != Good witness Bad

  datatype Auth = Auth(user: User, multi: bool)

  datatype Entry = Entry(
    auth: Option<Auth>, activated: bool, attached: bool, timeout: int, expires: Time)

  datatype Manager = Manager(sessions: map<Token, Entry>, next: Token)

  const EMPTY: Manager := Manager(map[], 1)

  function ReviseTimeout(requested: int): int {
    if requested == 0 then DEFAULT_TIMEOUT
    else if requested < MIN_TIMEOUT then MIN_TIMEOUT
    else if requested > MAX_TIMEOUT then MAX_TIMEOUT
    else requested
  }

  // ---------- dropping sessions ----------

  function Expired(m: Manager, now: Time): set<Token> {
    set t | t in m.sessions && m.sessions[t].expires <= now
  }

  function OfUser(m: Manager, user: User): set<Token> {
    set t | t in m.sessions && m.sessions[t].auth.Some? && m.sessions[t].auth.value.user == user
  }

  predicate HasAttached(m: Manager, user: User) {
    exists t :: t in OfUser(m, user) && m.sessions[t].attached
  }

  function Drop(m: Manager, tokens: set<Token>): Manager {
    m.(sessions := m.sessions - tokens)
  }

  // ---------- services ----------

  /** Every step answers with a status and reports the tokens of the sessions it dropped. */
  datatype Outcome = Outcome(manager: Manager, status: Status, removed: set<Token>)

  function Create(m: Manager, now: Time, accepted: bool, requested: int): Outcome {
    var gone := Expired(m, now);
    var m1 := Drop(m, gone);
    if !accepted then Outcome(m1, BadApplicationSignatureInvalid, gone)
    else
      var timeout := ReviseTimeout(requested);
      Outcome(Manager(m1.sessions[m.next := Entry(None, false, false, timeout, now + timeout)], m.next + 1),
        Good, gone)
  }

  /** What the checks before authentication came to. */
  datatype Check = SignatureInvalid | Anonymous | Rejected(status: Failure) | Credentials

  datatype Begun = Refused(status: Status) | Resumed | Activated | Authenticating

  function Complete(m: Manager, now: Time, token: Token, auth: Option<Auth>): Manager
    requires token in m.sessions
  {
    var e := m.sessions[token];
    m.(sessions := m.sessions[token :=
      Entry(if auth.Some? then auth else e.auth, true, true, e.timeout, now + e.timeout)])
  }

  /** Activation up to the authenticator. */
  function Begin(m: Manager, now: Time, token: Token, check: Check): (Manager, Begun, set<Token>) {
    var gone := Expired(m, now);
    var m1 := Drop(m, gone);
    if token !in m1.sessions then (m1, Refused(BadSessionIdInvalid), gone)
    else if check == SignatureInvalid then (m1, Refused(BadApplicationSignatureInvalid), gone)
    else
      var e := m1.sessions[token];
      if e.activated then
        (m1.(sessions := m1.sessions[token := e.(attached := true, expires := now + e.timeout)]),
         Resumed, gone)
      else match check
           case Anonymous => (Complete(m1, now, token, None), Activated, gone)
           case Rejected(status) => (m1, Refused(status), gone)
           case _ => (m1, Authenticating, gone)
  }

  /** Activation after the authenticator has answered `auth`, or failed. */
  function Finish(m: Manager, now: Time, token: Token, auth: Option<Auth>, failure: Failure,
      deleteExisting: bool): Outcome
  {
    match auth
    case None => Outcome(m, failure, {})
    case Some(a) =>
      if !a.multi && HasAttached(m, a.user) && !deleteExisting
      then Outcome(m, BadUserIsAlreadyLoggedOn, {})
      else
        var gone := if a.multi then {} else OfUser(m, a.user);
        var m1 := Drop(m, gone);
        if token !in m1.sessions then Outcome(m1, BadSessionIdInvalid, gone)
        else Outcome(Complete(m1, now, token, auth), Good, gone)
  }

  /** Who is let in: an authenticated user, for a session that is still there. A user limited to one
      session is not let in while another one is attached, unless that may be deleted; nor for a
      session that is the user's already, because that goes with the others. */
  predicate Admits(m: Manager, token: Token, auth: Option<Auth>, deleteExisting: bool) {
    && auth.Some? && token in m.sessions
    && (auth.value.multi
        || (token !in OfUser(m, auth.value.user)
            && (deleteExisting || forall t :: t in OfUser(m, auth.value.user) ==> !m.sessions[t].attached)))
  }

  lemma FinishGoodExactly(m: Manager, now: Time, token: Token, auth: Option<Auth>, failure: Failure,
      deleteExisting: bool)
    ensures Finish(m, now, token, auth, failure, deleteExisting).status == Good
            <==> Admits(m, token, auth, deleteExisting)
  {
    if auth.Some? && !auth.value.multi {
      DetachedNeverBlocks(m, now, token, auth.value, failure, deleteExisting);
      hide Finish;
    }
  }

  function Close(m: Manager, token: Token): Outcome {
    if token !in m.sessions then Outcome(m, BadSessionIdInvalid, {})
    else Outcome(Drop(m, {token}), Good, {token})
  }

  function Detach(m: Manager, token: Token): Manager {
    if token !in m.sessions then m
    else m.(sessions := m.sessions[token := m.sessions[token].(attached := false)])
  }

  // ---------- runs ----------

  datatype Op =
    | CreateSession(now: Time, accepted: bool, requested: int)
    | BeginActivate(now: Time, token: Token, check: Check)
    | FinishActivate(now: Time, token: Token, auth: Option<Auth>, failure: Failure, deleteExisting: bool)
    | CloseSession(token: Token)
    | DetachSession(token: Token)
    | Prune(now: Time)

  function Step(m: Manager, op: Op): (Manager, set<Token>) {
    match op
    case CreateSession(now, accepted, requested) =>
      var o := Create(m, now, accepted, requested); (o.manager, o.removed)
    case BeginActivate(now, token, check) =>
      var (m1, _, gone) := Begin(m, now, token, check); (m1, gone)
    case FinishActivate(now, token, auth, failure, deleteExisting) =>
      var o := Finish(m, now, token, auth, failure, deleteExisting); (o.manager, o.removed)
    case CloseSession(token) => var o := Close(m, token); (o.manager, o.removed)
    case DetachSession(token) => (Detach(m, token), {})
    case Prune(now) => (Drop(m, Expired(m, now)), Expired(m, now))
  }

  /** The manager a run reaches, and everything it reported removed on the way. */
  ghost function Run(m: Manager, ops: seq<Op>): (Manager, multiset<Token>) {
    if ops == [] then (m, multiset{})
    else
      var (m1, reported) := Run(m, ops[..|ops| - 1]);
      var (m2, gone) := Step(m1, ops[|ops| - 1]);
      (m2, reported + multiset(gone))
  }

  // ---------- a single-session user has one session ----------

  ghost predicate AtMostOne(m: Manager, user: User) {
    forall s, t :: s in OfUser(m, user) && t in OfUser(m, user) ==> s == t
  }

  /** The authenticator never lets `user` have several sessions. */
  ghost predicate SingleSession(op: Op, user: User) {
    op.FinishActivate? && op.auth.Some? && op.auth.value.user == user ==> !op.auth.value.multi
  }

  lemma StepAtMostOne(m: Manager, op: Op, user: User)
    requires AtMostOne(m, user) && SingleSession(op, user)
    ensures AtMostOne(Step(m, op).0, user)
  {
    var m' := Step(m, op).0;
    forall s, t | s in OfUser(m', user) && t in OfUser(m', user)
      ensures s == t
    {
      assert s in OfUser(m, user) || (op.FinishActivate? && s == op.token);
      assert t in OfUser(m, user) || (op.FinishActivate? && t == op.token);
    }
  }

  /** However authentications overlap, a user always authenticated as single-session has at most one
      session in every reachable state. */
  lemma {:induction false} SingleSessionHolds(ops: seq<Op>, user: User)
    requires forall op :: op in ops ==> SingleSession(op, user)
    ensures AtMostOne(Run(EMPTY, ops).0, user)
  {
    if ops != [] {
      var n := |ops| - 1;
      SingleSessionHolds(ops[..n], user);
      assert ops[n] in ops;
      StepAtMostOne(Run(EMPTY, ops[..n]).0, ops[n], user);
      hide Step;
    }
  }

  /** A detached session never blocks a logon: a single-session user is refused for being logged on
      exactly when a session of that user is attached and may not be deleted. Otherwise every session
      of that user goes, which is the session being activated itself if an overlapping activation
      has already authenticated it. */
  lemma DetachedNeverBlocks(m: Manager, now: Time, token: Token, a: Auth, failure: Failure, deleteExisting: bool)
    requires !a.multi
    ensures var o := Finish(m, now, token, Some(a), failure, deleteExisting);
            var blocked := exists t :: t in OfUser(m, a.user) && m.sessions[t].attached;
            if blocked && !deleteExisting then o == Outcome(m, BadUserIsAlreadyLoggedOn, {})
            else
              && o.removed == OfUser(m, a.user)
              && (if token in m.sessions && token !in OfUser(m, a.user)
                  then o.status == Good && OfUser(o.manager, a.user) == {token}
                  else o.status == BadSessionIdInvalid && OfUser(o.manager, a.user) == {})
  {
  }

  /** Only activated sessions have a user. */
  ghost predicate UsersActive(m: Manager) {
    forall t :: t in m.sessions && m.sessions[t].auth.Some? ==> m.sessions[t].activated
  }

  // ---------- what is reported removed ----------

  /** Reported removed, each once, are exactly the tokens given out whose sessions are gone. */
  ghost predicate ReportsExact(m: Manager, reported: multiset<Token>) {
    && (forall t :: t in m.sessions ==> 0 < t < m.next)
    && (forall t :: reported[t] == if 0 < t < m.next && t !in m.sessions then 1 else 0)
  }

  lemma DropExact(m: Manager, gone: set<Token>, reported: multiset<Token>)
    requires ReportsExact(m, reported) && gone <= m.sessions.Keys
    ensures ReportsExact(Drop(m, gone), reported + multiset(gone))
  {
  }

  lemma StepReports(m: Manager, op: Op, reported: multiset<Token>)
    requires ReportsExact(m, reported) && m.next > 0
    ensures ReportsExact(Step(m, op).0, reported + multiset(Step(m, op).1)) && Step(m, op).0.next > 0
  {
    var gone := Step(m, op).1;
    assert gone <= m.sessions.Keys;
    DropExact(m, gone, reported);
    StepShape(m, op);
    hide Step;
  }

  /** A step drops what it reports; beside that it adds at most the next token. */
  lemma StepShape(m: Manager, op: Op)
    ensures var (m', gone) := Step(m, op);
            && m.next <= m'.next <= m.next + 1
            && gone <= m.sessions.Keys
            && m'.sessions.Keys == m.sessions.Keys - gone
                 + (if m'.next == m.next then {} else {m.next})
  {
    var (m', gone) := Step(m, op);
    assert m'.sessions.Keys ==
      m.sessions.Keys - gone + (if m'.next == m.next then {} else {m.next});
  }

  lemma {:induction false} RemovalsReported(ops: seq<Op>)
    ensures ReportsExact(Run(EMPTY, ops).0, Run(EMPTY, ops).1) && Run(EMPTY, ops).0.next > 0
  {
    if ops != [] {
      var n := |ops| - 1;
      RemovalsReported(ops[..n]);
      var (m, reported) := Run(EMPTY, ops[..n]);
      StepReports(m, ops[n], reported);
      hide Step;
    }
  }
}
