/** Transferring subscriptions by groups: where the members of a group stand in the request, and
    what each place of the request is answered. */
module Transfers {
  import opened Common
  import opened Runtime
  import opened RuntimeRuns
  import S = Session

  /** The places of the request that name a subscription `source` owns. */
  function Places(owners: map<SubId, Token>, ids: seq<SubId>, source: Token): seq<int> {
    if ids == [] then []
    else
      var n := |ids| - 1;
      Places(owners, ids[..n], source) + (if Owns(owners, source, ids[n]) then [n] else [])
  }

  predicate Owns(owners: map<SubId, Token>, source: Token, id: SubId) {
    id in owners && owners[id] == source
  }

  lemma {:induction false} PlacesExact(owners: map<SubId, Token>, ids: seq<SubId>, source: Token)
    ensures var places, group := Places(owners, ids, source), GroupOf(owners, ids, source);
            && |places| == |group| && Increasing(places)
            && (forall k :: 0 <= k < |places| ==> 0 <= places[k] < |ids| && ids[places[k]] == group[k])
            && (forall k :: 0 <= k < |group| ==> Owns(owners, source, group[k]))
            && (forall i :: 0 <= i < |ids| && Owns(owners, source, ids[i]) ==> i in places)
  {
    if ids != [] {
      PlacesExact(owners, ids[..|ids| - 1], source);
    }
  }

  // ---------- forming the groups ----------

  type Groups = map<Token, seq<int>>

  ghost predicate Grouped(owners: map<SubId, Token>, token: Token, ids: seq<SubId>, groups: Groups) {
    && (forall t :: t in groups <==> t in Sources(owners, token, ids))
    && (forall t :: t in groups ==> groups[t] == Places(owners, ids, t))
  }

  function Extend(groups: Groups, source: Token, place: int): Groups {
    groups[source := (if source in groups then groups[source] else []) + [place]]
  }

  lemma SourcesNext(owners: map<SubId, Token>, token: Token, ids: seq<SubId>, i: nat)
    requires i < |ids|
    ensures Sources(owners, token, ids[..i + 1])
            == Sources(owners, token, ids[..i])
               + (if ids[i] in owners && owners[ids[i]] != token then {owners[ids[i]]} else {})
  {
    var a, b := ids[..i + 1], ids[..i];
    forall t | t in Sources(owners, token, b)
      ensures t in Sources(owners, token, a)
    {
      var j :| 0 <= j < i && b[j] in owners && owners[b[j]] != token && owners[b[j]] == t;
      assert a[j] == b[j];
    }
    forall t | t in Sources(owners, token, a)
      ensures t in Sources(owners, token, b) || (ids[i] in owners && t == owners[ids[i]])
    {
      var j :| 0 <= j <= i && a[j] in owners && owners[a[j]] != token && owners[a[j]] == t;
      if j < i {
        assert a[j] == b[j];
      }
    }
    assert a[i] == ids[i];
  }

  lemma PlacesHaveSource(owners: map<SubId, Token>, token: Token, ids: seq<SubId>, source: Token)
    requires source != token
    ensures Places(owners, ids, source) == [] || source in Sources(owners, token, ids)
  {
    PlacesExact(owners, ids, source);
    var places := Places(owners, ids, source);
    if places != [] {
      assert Owns(owners, source, ids[places[0]]);
    }
  }

  lemma GroupedNext(owners: map<SubId, Token>, token: Token, ids: seq<SubId>, i: nat, groups: Groups)
    requires i < |ids| && Grouped(owners, token, ids[..i], groups)
    ensures var next := if ids[i] in owners && owners[ids[i]] != token
                        then Extend(groups, owners[ids[i]], i) else groups;
            Grouped(owners, token, ids[..i + 1], next)
  {
    assert forall t :: t in Sources(owners, token, ids[..i]) ==> t != token;
    hide Sources;
    SourcesNext(owners, token, ids, i);
    assert ids[..i + 1][..i] == ids[..i] && ids[..i + 1][i] == ids[i];
    var next := if ids[i] in owners && owners[ids[i]] != token then Extend(groups, owners[ids[i]], i) else groups;
    forall t | t in next
      ensures next[t] == Places(owners, ids[..i + 1], t)
    {
      if t !in groups {
        PlacesHaveSource(owners, token, ids[..i], t);
      }
    }
  }

  // ---------- the answers ----------

  /** An unknown subscription is refused, one the target has is fine, and of several requests to
      transfer one subscription only the first succeeds. */
  function Answer(owners: map<SubId, Token>, token: Token, ids: seq<SubId>, i: nat): Status
    requires i < |ids|
  {
    if ids[i] !in owners then BadSubscriptionIdInvalid
    else if owners[ids[i]] == token then Good
    else if ids[i] in ids[..i] then Bad
    else Good
  }

  lemma {:induction false} MoveAnswers(t: S.Session, s: S.Session, ids: seq<SubId>)
    requires S.Valid(t) && S.Valid(s) && t.subs.Keys !! s.subs.Keys
    requires forall k :: 0 <= k < |ids| ==> ids[k] in s.subs
    ensures var out := S.MoveAll(t, s, ids).2;
            && |out| == |ids|
            && forall k :: 0 <= k < |ids| ==> out[k] == if ids[k] in ids[..k] then Bad else Good
  {
    if ids != [] {
      var n := |ids| - 1;
      MoveAnswers(t, s, ids[..n]);
      MovedBefore(t, s, ids[..n], ids[n]);
      hide S.Valid, S.Add, S.Drop;
      var out := S.MoveAll(t, s, ids).2;
      forall k | 0 <= k < |ids|
        ensures out[k] == if ids[k] in ids[..k] then Bad else Good
      {
        assert k < n ==> ids[..n][..k] == ids[..k];
      }
    }
  }

  lemma MovedBefore(t: S.Session, s: S.Session, ids: seq<SubId>, id: SubId)
    requires S.Valid(t) && S.Valid(s) && t.subs.Keys !! s.subs.Keys && id in s.subs
    ensures var (t1, s1, _) := S.MoveAll(t, s, ids);
            (id in t1.subs <==> id in ids) && (id in s1.subs <==> id !in ids)
  {
    MoveAllExact(t, s, ids);
    var (t1, s1, out) := S.MoveAll(t, s, ids);
    hide S.Valid, S.MoveAll, Succeeded;
    assert id in Elements(ids) * s.subs.Keys <==> id in ids;
  }

  /** A subscription came up earlier in its group exactly when it did earlier in the request. */
  lemma EarlierInGroup(owners: map<SubId, Token>, ids: seq<SubId>, source: Token, k: nat)
    requires k < |Places(owners, ids, source)| == |GroupOf(owners, ids, source)|
    ensures var places, group := Places(owners, ids, source), GroupOf(owners, ids, source);
            && 0 <= places[k] < |ids|
            && (group[k] in group[..k] <==> ids[places[k]] in ids[..places[k]])
  {
    PlacesExact(owners, ids, source);
    var places, group := Places(owners, ids, source), GroupOf(owners, ids, source);
    hide Places, GroupOf;
    var i := places[k];
    if group[k] in group[..k] {
      var j :| 0 <= j < k && group[..k][j] == group[k];
      assert places[j] < i && ids[..i][places[j]] == ids[i];
    }
    if ids[i] in ids[..i] {
      var p :| 0 <= p < i && ids[..i][p] == ids[i];
      assert Owns(owners, source, ids[p]);
      var j :| 0 <= j < |places| && places[j] == p;
      assert j < k;
      assert group[..k][j] == group[k];
    }
  }

  lemma GroupAnswer(owners: map<SubId, Token>, token: Token, ids: seq<SubId>, source: Token, k: nat)
    requires source != token && k < |Places(owners, ids, source)| == |GroupOf(owners, ids, source)|
    ensures var places, group := Places(owners, ids, source), GroupOf(owners, ids, source);
            && 0 <= places[k] < |ids|
            && Answer(owners, token, ids, places[k]) == if group[k] in group[..k] then Bad else Good
  {
    PlacesExact(owners, ids, source);
    EarlierInGroup(owners, ids, source, k);
  }

  /** Answered so far: every place but those of the groups in `rest`. */
  ghost predicate Answered(owners: map<SubId, Token>, token: Token, ids: seq<SubId>, rest: set<Token>,
      results: seq<Status>)
  {
    && |results| == |ids|
    && forall i :: 0 <= i < |ids| && !(ids[i] in owners && owners[ids[i]] in rest) ==>
         results[i] == Answer(owners, token, ids, i)
  }

  lemma AnsweredNext(owners: map<SubId, Token>, token: Token, ids: seq<SubId>, rest: set<Token>,
      before: seq<Status>, source: Token, answers: seq<Status>, results: seq<Status>)
    requires Answered(owners, token, ids, rest, before) && source in rest && source != token
    requires |results| == |ids|
    requires forall i :: 0 <= i < |ids| && i !in Places(owners, ids, source) ==> results[i] == before[i]
    requires var group := GroupOf(owners, ids, source);
             && |answers| == |group| == |Places(owners, ids, source)|
             && forall k :: 0 <= k < |group| ==> answers[k] == if group[k] in group[..k] then Bad else Good
    requires forall k :: 0 <= k < |answers| && 0 <= Places(owners, ids, source)[k] < |ids| ==>
               results[Places(owners, ids, source)[k]] == answers[k]
    ensures Answered(owners, token, ids, rest - {source}, results)
  {
    PlacesExact(owners, ids, source);
    var places := Places(owners, ids, source);
    forall i | 0 <= i < |ids| && !(ids[i] in owners && owners[ids[i]] in rest - {source})
      ensures results[i] == Answer(owners, token, ids, i)
    {
      if i in places {
        var k :| 0 <= k < |places| && places[k] == i;
        GroupAnswer(owners, token, ids, source, k);
      } else {
        assert !Owns(owners, source, ids[i]);
      }
    }
  }

  /** When its turn comes, the members of a group are still with their owner. */
  lemma GroupReady(s: Server, token: Token, ids: seq<SubId>, order: seq<Token>, source: Token)
    requires Inv(s) && token in s.sessions && source != token && source in s.sessions
    requires Distinct(order) && forall i :: 0 <= i < |order| ==> order[i] in s.sessions && order[i] != token
    requires source !in order
    ensures var s1 := MoveGroups(s, s.owners, token, ids, order);
            var group := GroupOf(s.owners, ids, source);
            && token in s1.sessions && source in s1.sessions
            && var out := S.MoveAll(s1.sessions[token], s1.sessions[source], group).2;
               && |out| == |group|
               && forall k :: 0 <= k < |group| ==> out[k] == if group[k] in group[..k] then Bad else Good
  {
    MoveGroupsIndex(s, s.owners, token, ids, order);
    TransferSteps(s, token, ids, order);
    GroupStillOwned(s.owners, ids, token, Elements(order), source);
    var s1 := MoveGroups(s, s.owners, token, ids, order);
    var group := GroupOf(s.owners, ids, source);
    hide MoveGroups, GroupOf, InStep, OwnersAfter, S.MoveAll, S.Valid, Intact;
    Apart(s1.sessions, s1.owners, token, source);
    assert forall k :: 0 <= k < |group| ==> group[k] in group;
    MoveAnswers(s1.sessions[token], s1.sessions[source], group);
  }

  // ---------- the answers of a whole request ----------

  function Refused(n: nat): seq<Status> {
    seq(n, _ => BadSessionIdInvalid)
  }

  /** What the members of a group are answered, in the state in which its turn comes. */
  function GroupAnswers(s: Server, token: Token, source: Token, group: seq<SubId>): (answers: seq<Status>)
    ensures |answers| == |group|
  {
    if token !in s.sessions || source !in s.sessions then Refused(|group|)
    else
      MoveAnswersLength(s.sessions[token], s.sessions[source], group);
      S.MoveAll(s.sessions[token], s.sessions[source], group).2
  }

  lemma {:induction false} MoveAnswersLength(t: S.Session, s: S.Session, ids: seq<SubId>)
    ensures |S.MoveAll(t, s, ids).2| == |ids|
  {
    if ids != [] {
      MoveAnswersLength(t, s, ids[..|ids| - 1]);
    }
  }

  /** The answers of a group written to the places its members came from. */
  function Scatter(before: seq<Status>, places: seq<int>, answers: seq<Status>): (results: seq<Status>)
    requires |places| == |answers| && forall k :: 0 <= k < |places| ==> 0 <= places[k] < |before|
    ensures |results| == |before|
  {
    if places == [] then before
    else
      var n := |places| - 1;
      Scatter(before, places[..n], answers[..n])[places[n] := answers[n]]
  }

  lemma {:induction false} ScatterExact(before: seq<Status>, places: seq<int>, answers: seq<Status>)
    requires |places| == |answers| && forall k :: 0 <= k < |places| ==> 0 <= places[k] < |before|
    requires Increasing(places)
    ensures var results := Scatter(before, places, answers);
            && (forall i :: 0 <= i < |before| && i !in places ==> results[i] == before[i])
            && (forall k :: 0 <= k < |places| ==> results[places[k]] == answers[k])
  {
    if places != [] {
      var n := |places| - 1;
      ScatterExact(before, places[..n], answers[..n]);
      assert places == places[..n] + [places[n]];
    }
  }

  /** Before any group is moved. */
  function FirstAnswers(owners: map<SubId, Token>, token: Token, ids: seq<SubId>): (results: seq<Status>)
    ensures |results| == |ids|
    ensures forall i :: 0 <= i < |ids| ==>
              results[i] == if ids[i] in owners && owners[ids[i]] == token then Good else BadSubscriptionIdInvalid
  {
    if ids == [] then []
    else
      var n := |ids| - 1;
      FirstAnswers(owners, token, ids[..n])
      + [if ids[n] in owners && owners[ids[n]] == token then Good else BadSubscriptionIdInvalid]
  }

  /** After the groups of `order`, whatever state the server is in. */
  function Answers(s: Server, token: Token, ids: seq<SubId>, order: seq<Token>): (results: seq<Status>)
    ensures |results| == |ids|
  {
    if order == [] then FirstAnswers(s.owners, token, ids)
    else
      var n := |order| - 1;
      var source := order[n];
      PlacesExact(s.owners, ids, source);
      Scatter(Answers(s, token, ids, order[..n]), Places(s.owners, ids, source),
        GroupAnswers(MoveGroups(s, s.owners, token, ids, order[..n]), token, source,
          GroupOf(s.owners, ids, source)))
  }

  lemma NoGroupAnswered(s: Server, token: Token, ids: seq<SubId>)
    ensures Answered(s.owners, token, ids, Sources(s.owners, token, ids), Answers(s, token, ids, []))
  {
    forall i | 0 <= i < |ids| && !(ids[i] in s.owners && s.owners[ids[i]] in Sources(s.owners, token, ids))
      ensures Answers(s, token, ids, [])[i] == Answer(s.owners, token, ids, i)
    {
    }
  }

  lemma SourceDone(sources: set<Token>, done: seq<Token>, rest: set<Token>, source: Token)
    requires Lists(done, sources - rest) && source in rest && source in sources
    ensures Lists(done + [source], sources - (rest - {source}))
    ensures Distinct(done) && source !in done
  {
    ListsAppend(done, sources - rest, source);
    assert sources - rest + {source} == sources - (rest - {source});
    assert source !in Elements(done);
  }

  lemma SourceElsewhere(s: Server, token: Token, ids: seq<SubId>, source: Token)
    requires Inv(s) && source in Sources(s.owners, token, ids)
    ensures source in s.sessions && source != token
  {
  }

  /** While the index is exact, the groups of `order` are answered as the request deserves. */
  lemma {:induction false} AnswersDeserved(s: Server, token: Token, ids: seq<SubId>, order: seq<Token>)
    requires Inv(s) && token in s.sessions && Distinct(order)
    requires forall i :: 0 <= i < |order| ==> order[i] in Sources(s.owners, token, ids)
    ensures var rest := Sources(s.owners, token, ids) - Elements(order);
            Answered(s.owners, token, ids, rest, Answers(s, token, ids, order))
  {
    hide Inv, MoveGroups, GroupOf, Places, Sources, S.MoveAll, Answered, Answer;
    var sources := Sources(s.owners, token, ids);
    if order == [] {
      NoGroupAnswered(s, token, ids);
      assert sources - Elements(order) == sources;
    } else {
      var n := |order| - 1;
      var source, done := order[n], order[..n];
      AnswersDeserved(s, token, ids, done);
      forall i | 0 <= i < n
        ensures done[i] in s.sessions && done[i] != token
      {
        SourceElsewhere(s, token, ids, done[i]);
      }
      SourceElsewhere(s, token, ids, source);
      assert source !in done;
      GroupReady(s, token, ids, done, source);
      PlacesExact(s.owners, ids, source);
      var places, group := Places(s.owners, ids, source), GroupOf(s.owners, ids, source);
      var before := Answers(s, token, ids, done);
      var answers := GroupAnswers(MoveGroups(s, s.owners, token, ids, done), token, source, group);
      ScatterExact(before, places, answers);
      hide Scatter, Refused;
      AnsweredNext(s.owners, token, ids, sources - Elements(done), before, source, answers,
        Answers(s, token, ids, order));
      assert Elements(order) == Elements(done) + {source};
      assert sources - Elements(order) == sources - Elements(done) - {source};
    }
  }

  /** While the index is exact, an unknown subscription is refused, one the target has is fine, and of
      several requests for one subscription only the first succeeds. */
  lemma AnswersExact(s: Server, token: Token, ids: seq<SubId>, order: seq<Token>)
    requires Inv(s) && token in s.sessions && Lists(order, Sources(s.owners, token, ids))
    ensures forall i :: 0 <= i < |ids| ==> Answers(s, token, ids, order)[i] == Answer(s.owners, token, ids, i)
  {
    hide Inv, Answers, Answer;
    forall i | 0 <= i < |order|
      ensures order[i] in Sources(s.owners, token, ids)
    {
      assert order[i] in Elements(order);
    }
    AnswersDeserved(s, token, ids, order);
    assert Sources(s.owners, token, ids) - Elements(order) == {};
  }
}
