/** What the state of a session says about the run that led to it: who may activate it, who is its
    user, whether a connection serves it, when it expires and why it is gone. */
module SessionHistory {
  import opened Common
  import opened Sessions

  // ---------- what one service call does ----------

  /** The session is there and has not expired. */
  predicate There(m: Manager, now: Time, token: Token) {
    token in m.sessions && now < m.sessions[token].expires
  }

  /** How the first half of an activation is answered, in every state. */
  lemma BeginExactly(m: Manager, now: Time, token: Token, check: Check, status: Status)
    ensures var begun := Begin(m, now, token, check).1;
            var there := There(m, now, token);
            && (begun == Resumed <==> there && m.sessions[token].activated && check != SignatureInvalid)
            && (begun == Activated <==> there && !m.sessions[token].activated && check == Anonymous)
            && (begun == Authenticating <==> there && !m.sessions[token].activated && check == Credentials)
            && (begun == Refused(status) <==>
                  || (!there && status == BadSessionIdInvalid)
                  || (there && check == SignatureInvalid && status == BadApplicationSignatureInvalid)
                  || (there && !m.sessions[token].activated && check.Rejected? && check.status == status))
  {
  }

  /** How the second half is answered, in every state. */
  lemma FinishExactly(m: Manager, now: Time, token: Token, auth: Option<Auth>, failure: Failure,
      deleteExisting: bool, status: Status)
    ensures var o := Finish(m, now, token, auth, failure, deleteExisting);
            var single := auth.Some? && !auth.value.multi;
            var served := single && exists t :: t in OfUser(m, auth.value.user) && m.sessions[t].attached;
            && (o.status == status <==>
                  || (auth.None? && status == failure)
                  || (served && !deleteExisting && status == BadUserIsAlreadyLoggedOn)
                  || (auth.Some? && !(served && !deleteExisting) && status == BadSessionIdInvalid
                      && (token !in m.sessions || (single && token in OfUser(m, auth.value.user))))
                  || (Admits(m, token, auth, deleteExisting) && status == Good))
            && o.removed == if single && (deleteExisting || !served) then OfUser(m, auth.value.user) else {}
  {
    if auth.Some? && !auth.value.multi {
      DetachedNeverBlocks(m, now, token, auth.value, failure, deleteExisting);
      hide Finish;
    }
  }

  /** How creating and closing a session are answered, in every state: a certificate that is not the channel's
      refuses the one, a token without a session the other. */
  lemma CreateCloseExactly(m: Manager, now: Time, accepted: bool, requested: int, token: Token, status: Status)
    ensures Create(m, now, accepted, requested).status == status
            <==> (accepted && status == Good) || (!accepted && status == BadApplicationSignatureInvalid)
    ensures Close(m, token).status == status
            <==> (token in m.sessions && status == Good) || (token !in m.sessions && status == BadSessionIdInvalid)
    ensures forall t :: t in Create(m, now, accepted, requested).removed <==> t in m.sessions && !There(m, now, t)
    ensures Close(m, token).removed == {token} * m.sessions.Keys
  {
  }

  // ---------- what a step does to one session ----------

  /** The step gives out token `t`. */
  predicate Opens(m: Manager, op: Op, t: Token) {
    op.CreateSession? && op.accepted && t == m.next
  }

  /** The step takes session `t` away: it has expired when someone looks, it is closed, or its user, who
      may have only one session, logs on with another and is not refused. */
  predicate Ends(m: Manager, op: Op, t: Token) {
    && t in m.sessions
    && match op
       case CreateSession(now, _, _) => m.sessions[t].expires <= now
       case BeginActivate(now, _, _) => m.sessions[t].expires <= now
       case Prune(now) => m.sessions[t].expires <= now
       case CloseSession(token) => token == t
       case DetachSession(_) => false
       case FinishActivate(_, _, auth, _, deleteExisting) =>
         && auth.Some? && !auth.value.multi && t in OfUser(m, auth.value.user)
         && (deleteExisting || forall u :: u in OfUser(m, auth.value.user) ==> !m.sessions[u].attached)
  }

  /** An activation of session `t` succeeds that is its first, unless another has come in between. */
  predicate Activates(m: Manager, op: Op, t: Token) {
    || (op.BeginActivate? && op.token == t && op.check == Anonymous && There(m, op.now, t))
    || (op.FinishActivate? && op.token == t && Admits(m, t, op.auth, op.deleteExisting))
  }

  /** An activation of session `t` succeeds, be it the first or a resumption. */
  predicate Serves(m: Manager, op: Op, t: Token) {
    || Activates(m, op, t)
    || (op.BeginActivate? && op.token == t && op.check != SignatureInvalid && There(m, op.now, t)
        && m.sessions[t].activated)
  }

  /** Tokens are given out in order. */
  ghost predicate Below(m: Manager) {
    forall t :: t in m.sessions ==> t < m.next
  }

  /** The session as it is given out. */
  ghost predicate Opened(e: Entry, op: Op)
    requires op.CreateSession?
  {
    && e.auth == None && !e.activated && !e.attached
    && e.timeout == (if op.requested == 0 then 600_000
                     else if op.requested < 30_000 then 30_000
                     else if op.requested > 3_600_000 then 3_600_000 else op.requested)
    && e.expires == op.now + e.timeout
  }

  /** What a step makes of a session that it leaves. */
  ghost predicate Follows(e: Entry, e': Entry, m: Manager, op: Op, t: Token) {
    && e'.timeout == e.timeout
    && (e'.activated <==> e.activated || Activates(m, op, t))
    && e'.attached == (if Serves(m, op, t) then true else if op == DetachSession(t) then false else e.attached)
    && e'.expires == (if Serves(m, op, t) then op.now + e.timeout else e.expires)
    && e'.auth == (if op.FinishActivate? && Activates(m, op, t) then op.auth else e.auth)
  }

  lemma StepBelow(m: Manager, op: Op)
    requires Below(m)
    ensures Below(Step(m, op).0)
  {
  }

  lemma StepLeaves(m: Manager, op: Op, t: Token)
    ensures t in Step(m, op).0.sessions <==> Opens(m, op, t) || (t in m.sessions && !Ends(m, op, t))
  {
  }

  lemma StepOpens(m: Manager, op: Op, t: Token)
    requires Opens(m, op, t)
    ensures t in Step(m, op).0.sessions && Opened(Step(m, op).0.sessions[t], op)
  {
  }

  lemma StepFollows(m: Manager, op: Op, t: Token)
    requires t in m.sessions && t in Step(m, op).0.sessions && !Opens(m, op, t)
    ensures Follows(m.sessions[t], Step(m, op).0.sessions[t], m, op, t)
  {
  }

  // ---------- runs ----------

  /** The state after the first `n` steps. */
  ghost function At(ops: seq<Op>, n: nat): Manager
    requires n <= |ops|
  {
    Run(EMPTY, ops[..n]).0
  }

  lemma AtNext(ops: seq<Op>, n: nat)
    requires n < |ops|
    ensures At(ops, n + 1) == Step(At(ops, n), ops[n]).0
    ensures At(ops, 0) == EMPTY && At(ops, |ops|) == Run(EMPTY, ops).0
  {
    hide Step;
    assert ops[..n + 1][..n] == ops[..n] && ops[..|ops|] == ops;
  }

  lemma {:induction false} AlwaysBelow(ops: seq<Op>, n: nat)
    requires n <= |ops|
    ensures Below(At(ops, n))
  {
    hide Step, Below;
    if n == 0 {
      EmptyBelow();
    } else {
      AlwaysBelow(ops, n - 1);
      AtNext(ops, n - 1);
      StepBelow(At(ops, n - 1), ops[n - 1]);
    }
  }

  lemma EmptyBelow()
    ensures Below(EMPTY)
  {
  }

  /** Step `i` gave out token `t`, and no step since took the session away. */
  ghost predicate OpenedAt(ops: seq<Op>, n: nat, t: Token, i: int)
    requires n <= |ops|
  {
    0 <= i < n && Opens(At(ops, i), ops[i], t) && forall j :: i < j < n ==> !Ends(At(ops, j), ops[j], t)
  }

  /** A session is there exactly while it has been given out and nothing has ended it since; and then it
      has the timeout asked for, within the bounds. */
  lemma {:induction false} LivesExactly(ops: seq<Op>, n: nat, t: Token)
    requires n <= |ops|
    ensures t in At(ops, n).sessions <==> exists i :: OpenedAt(ops, n, t, i)
    ensures forall i :: OpenedAt(ops, n, t, i) && t in At(ops, n).sessions ==>
              var asked := ops[i].requested;
              At(ops, n).sessions[t].timeout
              == (if asked == 0 then 600_000 else if asked < 30_000 then 30_000
                  else if asked > 3_600_000 then 3_600_000 else asked)
  {
    hide Step, At, Ends, Opens, Follows, Below, Serves, Activates;
    if n == 0 {
      NothingAtFirst(ops);
    } else {
      LivesExactly(ops, n - 1, t);
      AtNext(ops, n - 1);
      AlwaysBelow(ops, n - 1);
      var m, m', op := At(ops, n - 1), At(ops, n), ops[n - 1];
      StepLeaves(m, op, t);
      OpensNew(m, op, t);
      if Opens(m, op, t) {
        StepOpens(m, op, t);
        assert OpenedAt(ops, n, t, n - 1);
      } else if t in m'.sessions {
        var i :| OpenedAt(ops, n - 1, t, i);
        assert OpenedAt(ops, n, t, i);
        StepFollows(m, op, t);
        SameTimeout(m.sessions[t], m'.sessions[t], m, op, t);
      }
      assert forall i :: OpenedAt(ops, n, t, i) && i < n - 1 ==> OpenedAt(ops, n - 1, t, i);
    }
  }

  lemma NothingAtFirst(ops: seq<Op>)
    ensures At(ops, 0).sessions == map[]
  {
  }

  lemma OpensNew(m: Manager, op: Op, t: Token)
    requires Below(m)
    ensures Opens(m, op, t) ==> t !in m.sessions && op.CreateSession?
  {
  }

  lemma SameTimeout(e: Entry, e': Entry, m: Manager, op: Op, t: Token)
    requires Follows(e, e', m, op, t)
    ensures e'.timeout == e.timeout
  {
  }

  /** A live session is activated if and only if some step of the run was an anonymous activation of it
      while it was there, or the end of an activation that let its user in. */
  lemma {:induction false} ActivatedExactly(ops: seq<Op>, n: nat, t: Token)
    requires n <= |ops|
    ensures t in At(ops, n).sessions ==>
              (At(ops, n).sessions[t].activated
               <==> exists i :: 0 <= i < n && Activates(At(ops, i), ops[i], t))
    ensures t >= At(ops, n).next ==> forall i :: 0 <= i < n ==> !Activates(At(ops, i), ops[i], t)
  {
    hide Step, At, Ends, Opens, Below, Serves, Activates, There;
    if n == 0 {
      NothingAtFirst(ops);
    } else {
      ActivatedExactly(ops, n - 1, t);
      AtNext(ops, n - 1);
      AlwaysBelow(ops, n - 1);
      var m, m', op := At(ops, n - 1), At(ops, n), ops[n - 1];
      StepLeaves(m, op, t);
      OpensNew(m, op, t);
      OnlyLive(m, op, t);
      if Opens(m, op, t) {
        StepOpens(m, op, t);
        OpensNext(m, op, t);
      } else if t in m'.sessions {
        StepFollows(m, op, t);
      }
    }
  }

  lemma OnlyLive(m: Manager, op: Op, t: Token)
    requires Below(m)
    ensures Serves(m, op, t) ==> t in m.sessions && t < m.next && !op.CreateSession?
    ensures Activates(m, op, t) ==> t in m.sessions && t < m.next && !op.CreateSession?
    ensures m.next <= Step(m, op).0.next
  {
  }

  lemma OpensNext(m: Manager, op: Op, t: Token)
    requires Opens(m, op, t)
    ensures t == m.next
  {
  }

  /** A connection serves a live session if and only if it has been activated or resumed, and no
      connection has detached from it since. */
  lemma {:induction false} AttachedExactly(ops: seq<Op>, n: nat, t: Token)
    requires n <= |ops|
    ensures t in At(ops, n).sessions ==>
              (At(ops, n).sessions[t].attached <==> exists i :: AttachedAt(ops, n, t, i))
    ensures t >= At(ops, n).next ==> forall i :: 0 <= i < n ==> !Serves(At(ops, i), ops[i], t)
  {
    hide Step, At, Ends, Opens, Below, Serves, Activates, There;
    if n == 0 {
      NothingAtFirst(ops);
    } else {
      AttachedExactly(ops, n - 1, t);
      AtNext(ops, n - 1);
      AlwaysBelow(ops, n - 1);
      var m, m', op := At(ops, n - 1), At(ops, n), ops[n - 1];
      StepLeaves(m, op, t);
      OpensNew(m, op, t);
      OnlyLive(m, op, t);
      if Opens(m, op, t) {
        StepOpens(m, op, t);
        OpensNext(m, op, t);
      } else if t in m'.sessions {
        StepFollows(m, op, t);
        var k := n - 1;
        if i :| AttachedAt(ops, k, t, i) {
          assert op != DetachSession(t) ==> AttachedAt(ops, n, t, i);
        }
        if Serves(m, op, t) {
          assert AttachedAt(ops, n, t, n - 1);
        }
        assert forall i :: AttachedAt(ops, n, t, i) && i < n - 1 ==> AttachedAt(ops, n - 1, t, i);
      }
    }
  }

  /** Step `i` activated or resumed session `t`, and no later one detached it. */
  ghost predicate AttachedAt(ops: seq<Op>, n: nat, t: Token, i: int)
    requires n <= |ops|
  {
    0 <= i < n && Serves(At(ops, i), ops[i], t) && forall j :: i < j < n ==> ops[j] != DetachSession(t)
  }

  /** Step `i` gave out session `t`, or activated or resumed it, and none did since. */
  ghost predicate TouchedAt(ops: seq<Op>, n: nat, t: Token, i: int)
    requires n <= |ops|
  {
    && 0 <= i < n && (Opens(At(ops, i), ops[i], t) || Serves(At(ops, i), ops[i], t))
    && forall j :: i < j < n ==> !Serves(At(ops, j), ops[j], t)
  }

  function TimeOf(op: Op): Time {
    match op
    case CreateSession(now, _, _) => now
    case BeginActivate(now, _, _) => now
    case FinishActivate(now, _, _, _, _) => now
    case Prune(now) => now
    case _ => 0
  }

  /** A live session expires one timeout after it was last given out, activated or resumed. */
  lemma {:induction false} ExpiresExactly(ops: seq<Op>, n: nat, t: Token) returns (i: int)
    requires n <= |ops|
    ensures t in At(ops, n).sessions ==>
              && TouchedAt(ops, n, t, i)
              && At(ops, n).sessions[t].expires == TimeOf(ops[i]) + At(ops, n).sessions[t].timeout
  {
    hide Step, At, Ends, Opens, Below, Serves, Activates, There;
    i := 0;
    if n == 0 {
      NothingAtFirst(ops);
    } else {
      i := ExpiresExactly(ops, n - 1, t);
      AtNext(ops, n - 1);
      AlwaysBelow(ops, n - 1);
      var m, m', op := At(ops, n - 1), At(ops, n), ops[n - 1];
      StepLeaves(m, op, t);
      OpensNew(m, op, t);
      OnlyLive(m, op, t);
      ServesTimed(m, op, t);
      if Opens(m, op, t) {
        StepOpens(m, op, t);
        i := n - 1;
      } else if t in m'.sessions {
        StepFollows(m, op, t);
        if Serves(m, op, t) {
          i := n - 1;
        }
      }
    }
  }

  lemma ServesTimed(m: Manager, op: Op, t: Token)
    ensures Serves(m, op, t) ==> op.BeginActivate? || op.FinishActivate?
  {
  }

  /** Step `i` let user `a` in for session `t`, and none did so since. */
  ghost predicate LetInAt(ops: seq<Op>, n: nat, t: Token, a: Auth, i: int)
    requires n <= |ops|
  {
    && 0 <= i < n && LetsIn(At(ops, i), ops[i], t) && ops[i].auth == Some(a)
    && forall j :: i < j < n ==> !LetsIn(At(ops, j), ops[j], t)
  }

  predicate LetsIn(m: Manager, op: Op, t: Token) {
    op.FinishActivate? && Activates(m, op, t)
  }

  /** The user of a live session is the one the last of its activations to end well let in. */
  lemma {:induction false} UserExactly(ops: seq<Op>, n: nat, t: Token, a: Auth)
    requires n <= |ops|
    ensures t in At(ops, n).sessions ==>
              (At(ops, n).sessions[t].auth == Some(a) <==> exists i :: LetInAt(ops, n, t, a, i))
    ensures t >= At(ops, n).next ==> forall i :: 0 <= i < n ==> !LetsIn(At(ops, i), ops[i], t)
  {
    hide Step, At, Ends, Opens, Below, Serves, Activates, There;
    if n == 0 {
      NothingAtFirst(ops);
    } else {
      UserExactly(ops, n - 1, t, a);
      AtNext(ops, n - 1);
      AlwaysBelow(ops, n - 1);
      var m, m', op := At(ops, n - 1), At(ops, n), ops[n - 1];
      StepLeaves(m, op, t);
      OpensNew(m, op, t);
      OnlyLive(m, op, t);
      if Opens(m, op, t) {
        StepOpens(m, op, t);
        OpensNext(m, op, t);
      } else if t in m'.sessions {
        StepFollows(m, op, t);
        if LetsIn(m, op, t) {
          assert ops[n - 1].auth == Some(a) ==> LetInAt(ops, n, t, a, n - 1);
        } else {
          var k := n - 1;
          if i :| LetInAt(ops, k, t, a, i) {
            assert LetInAt(ops, n, t, a, i);
          }
          assert forall i :: LetInAt(ops, n, t, a, i) && i < n - 1 ==> LetInAt(ops, n - 1, t, a, i);
        }
      }
    }
  }
}
