/** The session manager as an object: its table of sessions and the token counter updated in place.
    Every method answers with the tokens of the sessions it dropped, each once, in the order the
    removal sink is told about them. */
module ServerSessionManager {
  import opened Common
  import opened Sessions

  class ServerSessionManager {
    var sessions: map<Token, Entry>
    var nextToken: Token

    function View(): Manager
      reads this
    {
      Manager(sessions, nextToken)
    }

    constructor ()
      ensures View() == EMPTY
    {
      sessions, nextToken := map[], 1;
    }

    method PruneExpiredSessions(now: Time) returns (removed: seq<Token>)
      modifies this`sessions
      ensures View() == Drop(old(View()), Expired(old(View()), now))
      ensures Lists(removed, Expired(old(View()), now))
    {
      ghost var m := View();
      removed := [];
      var rest := sessions.Keys;
      while rest != {}
        invariant rest <= sessions.Keys && sessions.Keys <= m.sessions.Keys
        invariant sessions == m.sessions - Elements(removed)
        invariant Lists(removed, Expired(m, now) - rest)
        decreases rest
      {
        var token :| token in rest;
        rest := rest - {token};
        if sessions[token].expires <= now {
          ListsAppend(removed, Elements(removed), token);
          removed := removed + [token];
          sessions := sessions - {token};
          assert Elements(removed) == Expired(m, now) - rest;
        } else {
          assert Expired(m, now) - rest == Expired(m, now) - (rest + {token});
        }
      }
      assert Expired(m, now) - {} == Expired(m, now);
    }

    method RemoveSessionsByUser(user: User) returns (removed: seq<Token>)
      modifies this`sessions
      ensures View() == Drop(old(View()), OfUser(old(View()), user))
      ensures Lists(removed, OfUser(old(View()), user))
    {
      ghost var m := View();
      removed := [];
      var rest := sessions.Keys;
      while rest != {}
        invariant rest <= sessions.Keys && sessions.Keys <= m.sessions.Keys
        invariant sessions == m.sessions - Elements(removed)
        invariant Lists(removed, OfUser(m, user) - rest)
        decreases rest
      {
        var token :| token in rest;
        rest := rest - {token};
        if sessions[token].auth.Some? && sessions[token].auth.value.user == user {
          ListsAppend(removed, Elements(removed), token);
          removed := removed + [token];
          sessions := sessions - {token};
          assert Elements(removed) == OfUser(m, user) - rest;
        } else {
          assert OfUser(m, user) - rest == OfUser(m, user) - (rest + {token});
        }
      }
      assert OfUser(m, user) - {} == OfUser(m, user);
    }

    method HasAttachedSessionForUser(user: User) returns (found: bool)
      ensures found == HasAttached(View(), user)
    {
      var rest := sessions.Keys;
      while rest != {}
        invariant rest <= sessions.Keys
        invariant forall t :: t in OfUser(View(), user) && sessions[t].attached ==> t in rest
        decreases rest
      {
        var token :| token in rest;
        rest := rest - {token};
        var session := sessions[token];
        if session.attached && session.auth.Some? && session.auth.value.user == user {
          assert token in OfUser(View(), user);
          return true;
        }
      }
      found := false;
    }

    method CreateSession(now: Time, accepted: bool, requested: int)
      returns (status: Status, token: Token, removed: seq<Token>)
      modifies this
      ensures Outcome(View(), status, Elements(removed)) == Create(old(View()), now, accepted, requested)
      ensures Distinct(removed)
      ensures status == Good ==> token == old(nextToken)
    {
      removed := PruneExpiredSessions(now);
      token := 0;
      if !accepted {
        return BadApplicationSignatureInvalid, token, removed;
      }
      var timeout := ReviseTimeout(requested);
      token := nextToken;
      nextToken := nextToken + 1;
      sessions := sessions[token := Entry(None, false, false, timeout, now + timeout)];
      status := Good;
    }

    /** The last part of an activation, with or without credentials. */
    method CompleteActivation(now: Time, token: Token, auth: Option<Auth>)
      requires token in sessions
      modifies this`sessions
      ensures View() == Complete(old(View()), now, token, auth)
    {
      var session := sessions[token];
      if auth.Some? {
        session := session.(auth := auth);
      }
      session := session.(activated := true, attached := true);
      session := session.(expires := now + session.timeout);
      sessions := sessions[token := session];
    }

    method BeginActivation(now: Time, token: Token, check: Check) returns (begun: Begun, removed: seq<Token>)
      modifies this`sessions
      ensures (View(), begun, Elements(removed)) == Begin(old(View()), now, token, check)
      ensures Distinct(removed)
    {
      removed := PruneExpiredSessions(now);
      if token !in sessions {
        return Refused(BadSessionIdInvalid), removed;
      }
      if check == SignatureInvalid {
        return Refused(BadApplicationSignatureInvalid), removed;
      }
      var session := sessions[token];
      if session.activated {
        sessions := sessions[token := session.(attached := true, expires := now + session.timeout)];
        return Resumed, removed;
      }
      if check == Anonymous {
        CompleteActivation(now, token, None);
        return Activated, removed;
      }
      if check.Rejected? {
        return Refused(check.status), removed;
      }
      begun := Authenticating;
    }

    method FinishActivation(now: Time, token: Token, auth: Option<Auth>, failure: Failure, deleteExisting: bool)
      returns (status: Status, removed: seq<Token>)
      modifies this`sessions
      ensures Outcome(View(), status, Elements(removed))
              == Finish(old(View()), now, token, auth, failure, deleteExisting)
      ensures Distinct(removed)
    {
      removed := [];
      if auth.None? {
        return failure, removed;
      }
      if !auth.value.multi {
        var attached := HasAttachedSessionForUser(auth.value.user);
        if attached && !deleteExisting {
          return BadUserIsAlreadyLoggedOn, removed;
        }
        removed := RemoveSessionsByUser(auth.value.user);
      } else {
        assert sessions - {} == sessions;
      }
      if token !in sessions {
        return BadSessionIdInvalid, removed;
      }
      CompleteActivation(now, token, auth);
      status := Good;
    }

    method CloseSession(token: Token) returns (status: Status, removed: seq<Token>)
      modifies this`sessions
      ensures Outcome(View(), status, Elements(removed)) == Close(old(View()), token)
      ensures Distinct(removed)
    {
      if token !in sessions {
        return BadSessionIdInvalid, [];
      }
      sessions := sessions - {token};
      assert Elements([token]) == {token};
      return Good, [token];
    }

    method DetachSession(token: Token)
      modifies this`sessions
      ensures View() == Detach(old(View()), token)
    {
      if token in sessions {
        sessions := sessions[token := sessions[token].(attached := false)];
      }
    }
  }
}
