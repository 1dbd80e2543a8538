/** The server runtime as an object: the session objects, the subscription index and the id counter
    updated in place, beside the session manager it owns. Sessions are held by value; see
    ServerSession.dfy for the object they are. */
module ServerRuntime {
  import opened Common
  import Subscription
  import S = Session
  import M = ServerSessionManager
  import Sessions
  import opened Runtime
  import opened RuntimeRuns
  import opened Transfers

  class ServerRuntime {
    const manager: M.ServerSessionManager
    var sessions: map<Token, S.Session>
    var owners: map<SubId, Token>
    var nextSubscriptionId: SubId
    ghost var authenticating: multiset<Token>

    ghost function View(): Server
      reads this, manager
    {
      Server(manager.View(), sessions, owners, nextSubscriptionId, authenticating)
    }

    constructor ()
      ensures View() == EMPTY && fresh(manager)
    {
      manager := new M.ServerSessionManager();
      sessions, owners, nextSubscriptionId := map[], map[], 1;
      authenticating := multiset{};
    }

    // ---------- sessions ----------

    method RemoveSessionSubscriptions(token: Token)
      modifies this`owners
      ensures owners == map id | id in old(owners) && old(owners)[id] != token :: old(owners)[id]
    {
      ghost var owners0 := owners;
      var rest := owners.Keys;
      while rest != {}
        invariant rest <= owners.Keys && owners.Keys <= owners0.Keys
        invariant forall id :: id in owners0 ==> (id in owners <==> id in rest || owners0[id] != token)
        invariant forall id :: id in owners ==> owners[id] == owners0[id]
        decreases rest
      {
        var id :| id in rest;
        rest := rest - {id};
        if owners[id] == token {
          owners := owners - {id};
        }
      }
    }

    method ForgetSession(token: Token)
      modifies this`sessions, this`owners
      ensures View() == Forget(old(View()), {token})
    {
      RemoveSessionSubscriptions(token);
      sessions := sessions - {token};
    }

    /** The removal sink, told about one dropped session after the other. */
    method ForgetEach(removed: seq<Token>)
      modifies this`sessions, this`owners
      ensures View() == Forget(old(View()), Elements(removed))
    {
      ghost var s := View();
      ForgetNone(s);
      assert Elements(removed[..0]) == {};
      for i := 0 to |removed|
        invariant View() == Forget(s, Elements(removed[..i]))
      {
        ForgetSession(removed[i]);
        assert Elements(removed[..i + 1]) == Elements(removed[..i]) + {removed[i]};
        ForgetMore(s, Elements(removed[..i]), removed[i]);
      }
      assert removed[..|removed|] == removed;
    }

    method CreateSession(now: Time, accepted: bool, timeout: int) returns (status: Status, token: Token)
      modifies this`sessions, this`owners, manager
      ensures View() == Serve(old(View()), ServerOp.CreateSession(now, accepted, timeout))
      ensures status == Good ==> token == old(manager.nextToken)
    {
      var removed;
      hide Forget, Sessions.Create;
      status, token, removed := manager.CreateSession(now, accepted, timeout);
      ForgetEach(removed);
    }

    method CloseSession(token: Token) returns (status: Status)
      modifies this`sessions, this`owners, manager
      ensures View() == Serve(old(View()), ServerOp.CloseSession(token))
      ensures status == if token in old(manager.sessions) then Good else BadSessionIdInvalid
    {
      var removed;
      hide Forget;
      status, removed := manager.CloseSession(token);
      ForgetEach(removed);
    }

    /** An activation, up to the authenticator if it needs one. Nothing is answered yet then. */
    method BeginActivateSession(now: Time, token: Token, check: Sessions.Check) returns (answer: Option<Status>)
      modifies this`sessions, this`owners, this`authenticating, manager
      ensures View() == Begin(old(View()), now, token, check)
      ensures answer.None? <==> Sessions.Begin(old(manager.View()), now, token, check).1.Authenticating?
      ensures Sessions.Begin(old(manager.View()), now, token, check).1.Activated? ==> answer == Some(Good)
      ensures Sessions.Begin(old(manager.View()), now, token, check).1.Refused? ==>
                answer == Some(Sessions.Begin(old(manager.View()), now, token, check).1.status)
      ensures Inv(old(View())) && Sessions.Begin(old(manager.View()), now, token, check).1.Resumed? ==>
                answer == Some(Good)
    {
      var begun, removed;
      ghost var s0 := View();
      begun, removed := manager.BeginActivation(now, token, check);
      hide Forget, Sessions.Begin;
      ForgetEach(removed);
      match begun
      case Refused(status) => return Some(status);
      case Authenticating =>
        authenticating := authenticating + multiset{token};
        return None;
      case Resumed =>
        ResumedHasSession(s0, now, token, check);
        return Some(if token in sessions then Good else BadSessionIdInvalid);
      case Activated =>
        sessions := sessions[token := S.NO_SUBSCRIPTIONS];
        return Some(Good);
    }

    /** The rest of an activation that has waited for the authenticator. */
    method FinishActivateSession(now: Time, token: Token, auth: Option<Sessions.Auth>,
        failure: Sessions.Failure, deleteExisting: bool) returns (status: Status)
      requires token in authenticating
      modifies this`sessions, this`owners, this`authenticating, manager
      ensures View() == Finish(old(View()), now, token, auth, failure, deleteExisting)
      ensures status == Sessions.Finish(old(manager.View()), now, token, auth, failure, deleteExisting).status
    {
      var removed;
      status, removed := manager.FinishActivation(now, token, auth, failure, deleteExisting);
      hide Forget, Sessions.Finish;
      authenticating := authenticating - multiset{token};
      ForgetEach(removed);
      if status == Good {
        sessions := sessions[token := S.NO_SUBSCRIPTIONS];
      }
    }

    // ---------- subscriptions ----------

    method CreateSubscription(token: Token, requested: Subscription.Params, now: Time)
      returns (status: Status, id: SubId)
      modifies this`sessions, this`owners, this`nextSubscriptionId
      ensures View() == Serve(old(View()), ServerOp.CreateSubscription(token, requested, now))
      ensures (status == Good <==> token in old(sessions)) && (status == Good ==> id == old(nextSubscriptionId))
    {
      if token !in sessions {
        return BadSessionIdInvalid, 0;
      }
      id := nextSubscriptionId;
      nextSubscriptionId := nextSubscriptionId + 1;
      sessions := sessions[token := S.Add(sessions[token], id, Subscription.Initial(id, requested, now))];
      owners := owners[id := token];
      status := Good;
    }

    method DeleteSubscriptions(token: Token, ids: seq<SubId>) returns (status: Status, results: seq<Status>)
      modifies this`sessions, this`owners
      ensures View() == DeleteSubs(old(View()), token, ids)
      ensures status == if token in old(sessions) then Good else BadSessionIdInvalid
      ensures status == Good ==> results == S.DropAll(old(sessions)[token], ids).1
    {
      if token !in sessions {
        return BadSessionIdInvalid, [];
      }
      DropAnswersLength(sessions[token], ids);
      hide S.DropAll, Succeeded;
      var (session, answers) := S.DropAll(sessions[token], ids);
      sessions := sessions[token := session];
      DropOwners(ids, answers);
      return Good, answers;
    }

    method DropOwners(ids: seq<SubId>, answers: seq<Status>)
      requires |answers| == |ids|
      modifies this`owners
      ensures owners == old(owners) - Succeeded(ids, answers)
    {
      ghost var owners0 := owners;
      assert Succeeded(ids[..0], answers[..0]) == {};
      hide Succeeded;
      for i := 0 to |ids|
        invariant owners == owners0 - Succeeded(ids[..i], answers[..i])
      {
        GoodIds(ids[..i + 1], answers[..i], answers[..i + 1]);
        assert ids[..i + 1][..i] == ids[..i];
        if answers[i] == Good {
          owners := owners - {ids[i]};
        }
      }
      assert ids[..|ids|] == ids && answers[..|ids|] == answers;
    }

    // ---------- transferring ----------

    /** Groups the places of a transfer request by owner and answers those that need no transfer. */
    method GroupByOwner(token: Token, ids: seq<SubId>) returns (results: seq<Status>, groups: Groups)
      ensures Grouped(owners, token, ids, groups)
      ensures results == FirstAnswers(owners, token, ids)
    {
      results, groups := [], map[];
      assert Grouped(owners, token, ids[..0], groups);
      hide Grouped;
      for i := 0 to |ids|
        invariant Grouped(owners, token, ids[..i], groups) && results == FirstAnswers(owners, token, ids[..i])
      {
        GroupedNext(owners, token, ids, i, groups);
        assert ids[..i + 1][..i] == ids[..i];
        if ids[i] !in owners {
          results := results + [BadSubscriptionIdInvalid];
        } else if owners[ids[i]] == token {
          results := results + [Good];
        } else {
          results := results + [BadSubscriptionIdInvalid];
          groups := Extend(groups, owners[ids[i]], i);
        }
      }
      assert ids[..|ids|] == ids;
    }

    /** Moves one group here; a source without a session object moves nothing. */
    method TransferGroup(token: Token, source: Token, group: seq<SubId>) returns (answers: seq<Status>)
      requires token in sessions && source != token
      modifies this`sessions, this`owners
      ensures View() == MoveGroup(old(View()), token, source, group)
      ensures answers == GroupAnswers(old(View()), token, source, group)
    {
      if source !in sessions {
        return Refused(|group|);
      }
      MoveAnswersLength(sessions[token], sessions[source], group);
      hide S.MoveAll, Succeeded, Reassign;
      var (here, there, out) := S.MoveAll(sessions[token], sessions[source], group);
      sessions := sessions[token := here][source := there];
      TakeOver(token, group, out);
      answers := out;
    }

    method TakeOver(token: Token, ids: seq<SubId>, answers: seq<Status>)
      requires |answers| == |ids|
      modifies this`owners
      ensures owners == Reassign(old(owners), Succeeded(ids, answers), token)
    {
      ghost var owners0 := owners;
      assert Succeeded(ids[..0], answers[..0]) == {};
      hide Succeeded;
      for i := 0 to |ids|
        invariant owners == Reassign(owners0, Succeeded(ids[..i], answers[..i]), token)
      {
        GoodIds(ids[..i + 1], answers[..i], answers[..i + 1]);
        assert ids[..i + 1][..i] == ids[..i];
        if answers[i] == Good {
          owners := owners[ids[i] := token];
        }
      }
      assert ids[..|ids|] == ids && answers[..|ids|] == answers;
    }

    /** Writes the answers of a group back to the places its members came from. */
    static method Spread(before: seq<Status>, places: seq<int>, answers: seq<Status>)
      returns (results: seq<Status>)
      requires |places| == |answers| && forall k :: 0 <= k < |places| ==> 0 <= places[k] < |before|
      ensures results == Scatter(before, places, answers)
    {
      results := before;
      for k := 0 to |places|
        invariant results == Scatter(before, places[..k], answers[..k])
      {
        assert places[..k + 1][..k] == places[..k] && answers[..k + 1][..k] == answers[..k];
        results := results[places[k] := answers[k]];
      }
      assert places[..|places|] == places && answers[..|places|] == answers;
    }

    /** The groups are taken in no particular order; `order` names the one taken. */
    method TransferSubscriptions(token: Token, ids: seq<SubId>)
      returns (status: Status, results: seq<Status>, ghost order: seq<Token>)
      modifies this`sessions, this`owners
      ensures status == if token in old(sessions) then Good else BadSessionIdInvalid
      ensures View() == Transfer(old(View()), token, ids, order)
      ensures status == Good ==>
                && Lists(order, Sources(old(owners), token, ids))
                && results == Answers(old(View()), token, ids, order)
      ensures status == Good && Inv(old(View())) ==>
                forall i :: 0 <= i < |ids| ==> results[i] == Answer(old(owners), token, ids, i)
    {
      order := [];
      if token !in sessions {
        return BadSessionIdInvalid, [], [];
      }
      ghost var s0 := View();
      hide Inv, MoveGroups, Grouped, Sources, Places, Lists, Elements, Answers, Answer;
      var groups;
      results, groups := GroupByOwner(token, ids);
      var rest := groups.Keys;
      NothingMoved(s0, token, ids, groups);
      while rest != {}
        invariant rest <= groups.Keys && manager.View() == s0.manager && token in sessions
        invariant View() == MoveGroups(s0, s0.owners, token, ids, order)
        invariant Lists(order, Sources(s0.owners, token, ids) - rest)
        invariant results == Answers(s0, token, ids, order)
        decreases rest
      {
        var source :| source in rest;
        results, order := TransferNext(s0, token, ids, source, groups[source], results, order, rest);
        rest := rest - {source};
      }
      status := Good;
      assert Sources(s0.owners, token, ids) - {} == Sources(s0.owners, token, ids);
      if Inv(s0) {
        AnswersExact(s0, token, ids, order);
      }
    }

    /** One group of a transfer: moved, and its answers written back. */
    method TransferNext(ghost s0: Server, token: Token, ids: seq<SubId>, source: Token, places: seq<int>,
        before: seq<Status>, ghost done: seq<Token>, ghost rest: set<Token>)
      returns (results: seq<Status>, ghost order: seq<Token>)
      requires token in sessions
      requires source in rest && source in Sources(s0.owners, token, ids)
      requires places == Places(s0.owners, ids, source)
      requires View() == MoveGroups(s0, s0.owners, token, ids, done)
      requires Lists(done, Sources(s0.owners, token, ids) - rest)
      requires before == Answers(s0, token, ids, done)
      modifies this`sessions, this`owners
      ensures token in sessions && order == done + [source]
      ensures View() == MoveGroups(s0, s0.owners, token, ids, order)
      ensures Lists(order, Sources(s0.owners, token, ids) - (rest - {source}))
      ensures results == Answers(s0, token, ids, order)
    {
      hide MoveGroups, MoveGroup, Places, GroupOf, Sources, Lists, Elements, Owns, Answers, GroupAnswers, Scatter;
      SourceOther(s0.owners, token, ids, source);
      SourceDone(Sources(s0.owners, token, ids), done, rest, source);
      PlacesInRange(s0.owners, ids, source);
      var group := MembersOf(s0.owners, ids, source, places);
      MoveGroupKeys(View(), token, source, group);
      var answers := TransferGroup(token, source, group);
      results := Spread(before, places, answers);
      order := done + [source];
      MoveGroupsNext(s0, token, ids, done, source);
      AnswersNext(s0, token, ids, done, source);
    }

    static method MembersOf(ghost owners: map<SubId, Token>, ids: seq<SubId>, ghost source: Token,
        places: seq<int>) returns (group: seq<SubId>)
      requires places == Places(owners, ids, source)
      ensures group == GroupOf(owners, ids, source) && |group| == |places|
    {
      PlacesExact(owners, ids, source);
      group := [];
      for k := 0 to |places|
        invariant group == GroupOf(owners, ids, source)[..k]
      {
        group := group + [ids[places[k]]];
      }
    }
  }

  // ---------- helper lemmas ----------

  lemma ForgetMore(s: Server, tokens: set<Token>, token: Token)
    ensures Forget(Forget(s, tokens), {token}) == Forget(s, tokens + {token})
  {
    var a, b := Forget(Forget(s, tokens), {token}), Forget(s, tokens + {token});
    assert a.sessions == b.sessions && a.owners == b.owners;
  }

  lemma {:induction false} DropAnswersLength(s: S.Session, ids: seq<SubId>)
    ensures |S.DropAll(s, ids).1| == |ids|
  {
    if ids != [] {
      DropAnswersLength(s, ids[..|ids| - 1]);
    }
  }

  lemma NothingMoved(s: Server, token: Token, ids: seq<SubId>, groups: Groups)
    requires Grouped(s.owners, token, ids, groups)
    ensures groups.Keys == Sources(s.owners, token, ids)
    ensures forall t :: t in groups ==> groups[t] == Places(s.owners, ids, t)
    ensures MoveGroups(s, s.owners, token, ids, []) == s
    ensures Answers(s, token, ids, []) == FirstAnswers(s.owners, token, ids)
    ensures Lists([], Sources(s.owners, token, ids) - groups.Keys)
  {
  }

  lemma PlacesInRange(owners: map<SubId, Token>, ids: seq<SubId>, source: Token)
    ensures var places := Places(owners, ids, source);
            |places| == |GroupOf(owners, ids, source)|
            && forall k :: 0 <= k < |places| ==> 0 <= places[k] < |ids|
  {
    PlacesExact(owners, ids, source);
  }

  lemma SourceOther(owners: map<SubId, Token>, token: Token, ids: seq<SubId>, source: Token)
    requires source in Sources(owners, token, ids)
    ensures source != token
  {
  }

  lemma AnswersNext(s: Server, token: Token, ids: seq<SubId>, done: seq<Token>, source: Token)
    ensures var places, group := Places(s.owners, ids, source), GroupOf(s.owners, ids, source);
            && |places| == |group| && (forall k :: 0 <= k < |places| ==> 0 <= places[k] < |ids|)
            && Answers(s, token, ids, done + [source])
               == Scatter(Answers(s, token, ids, done), places,
                    GroupAnswers(MoveGroups(s, s.owners, token, ids, done), token, source, group))
  {
    PlacesExact(s.owners, ids, source);
    assert (done + [source])[..|done|] == done;
  }

  lemma MoveGroupKeys(s: Server, token: Token, source: Token, ids: seq<SubId>)
    ensures MoveGroup(s, token, source, ids).sessions.Keys == s.sessions.Keys
  {
  }

  lemma MoveGroupsNext(s: Server, token: Token, ids: seq<SubId>, done: seq<Token>, source: Token)
    ensures MoveGroups(s, s.owners, token, ids, done + [source])
            == MoveGroup(MoveGroups(s, s.owners, token, ids, done), token, source,
                 GroupOf(s.owners, ids, source))
  {
    assert (done + [source])[..|done|] == done;
  }
}
