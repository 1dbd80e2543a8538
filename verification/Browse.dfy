/** Browse paging of a session: a result longer than asked for is cut, and the rest waits behind a
    continuation point that can be used once. */
module Browse {
  import opened Common

  type Reference = nat
  type Point = int

  const MAX_POINTS: nat := 100

  datatype BrowseResult = BrowseResult(status: Status, references: seq<Reference>, point: Option<Point>)

  datatype Pages = Pages(held: map<Point, seq<Reference>>, next: Point)

  const NO_PAGES: Pages := Pages(map[], 1)

  /** The first page of a result. */
  function Page(p: Pages, status: Status, all: seq<Reference>, max: nat): (Pages, BrowseResult) {
    if max == 0 || |all| <= max then (p, BrowseResult(status, all, None))
    else if |p.held| >= MAX_POINTS then (p, BrowseResult(BadNoContinuationPoints, [], None))
    else (Pages(p.held[p.next := all[max..]], p.next + 1), BrowseResult(status, all[..max], Some(p.next)))
  }

  /** Using a continuation point, either for the rest or to give it up. */
  function Use(p: Pages, point: Point, release: bool): (Pages, BrowseResult) {
    if point !in p.held then (p, BrowseResult(BadContinuationPointInvalid, [], None))
    else
      (p.(held := p.held - {point}),
       BrowseResult(Good, if release then [] else p.held[point], None))
  }

  // ---------- runs ----------

  datatype Op = First(status: Status, all: seq<Reference>, max: nat) | Next(point: Point, release: bool)

  datatype Event = Event(op: Op, result: BrowseResult)

  function Step(p: Pages, op: Op): (Pages, BrowseResult) {
    match op
    case First(status, all, max) => Page(p, status, all, max)
    case Next(point, release) => Use(p, point, release)
  }

  /** The pages held after a run, and what each step was answered. */
  function Run(p: Pages, ops: seq<Op>): (Pages, seq<Event>) {
    if ops == [] then (p, [])
    else
      var n := |ops| - 1;
      var (p1, log) := Run(p, ops[..n]);
      var (p2, result) := Step(p1, ops[n]);
      (p2, log + [Event(ops[n], result)])
  }

  function FirstAll(p: Pages, results: seq<(Status, seq<Reference>)>, max: nat): (Pages, seq<BrowseResult>) {
    if results == [] then (p, [])
    else
      var n := |results| - 1;
      var (p1, out) := FirstAll(p, results[..n], max);
      var (p2, r) := Page(p1, results[n].0, results[n].1, max);
      (p2, out + [r])
  }

  function NextAll(p: Pages, points: seq<Point>, release: bool): (Pages, seq<BrowseResult>) {
    if points == [] then (p, [])
    else
      var n := |points| - 1;
      var (p1, out) := NextAll(p, points[..n], release);
      var (p2, r) := Use(p1, points[n], release);
      (p2, out + [r])
  }

  function Results(log: seq<Event>): seq<BrowseResult> {
    if log == [] then [] else Results(log[..|log| - 1]) + [log[|log| - 1].result]
  }

  function FirstOps(results: seq<(Status, seq<Reference>)>, max: nat): seq<Op> {
    if results == [] then []
    else
      var n := |results| - 1;
      FirstOps(results[..n], max) + [First(results[n].0, results[n].1, max)]
  }

  function NextOps(points: seq<Point>, release: bool): seq<Op> {
    if points == [] then [] else NextOps(points[..|points| - 1], release) + [Next(points[|points| - 1], release)]
  }

  /** A request is a run of its parts. */
  lemma {:induction false} FirstAllRuns(p: Pages, results: seq<(Status, seq<Reference>)>, max: nat)
    ensures var (p', log) := Run(p, FirstOps(results, max));
            FirstAll(p, results, max) == (p', Results(log))
  {
    if results != [] {
      FirstAllRuns(p, results[..|results| - 1], max);
      var ops := FirstOps(results, max);
      assert ops[..|ops| - 1] == FirstOps(results[..|results| - 1], max);
      var log := Run(p, ops).1;
      assert log[..|log| - 1] == Run(p, ops[..|ops| - 1]).1;
    }
  }

  lemma {:induction false} NextAllRuns(p: Pages, points: seq<Point>, release: bool)
    ensures var (p', log) := Run(p, NextOps(points, release));
            NextAll(p, points, release) == (p', Results(log))
  {
    if points != [] {
      NextAllRuns(p, points[..|points| - 1], release);
      var ops := NextOps(points, release);
      assert ops[..|ops| - 1] == NextOps(points[..|points| - 1], release);
      var log := Run(p, ops).1;
      assert log[..|log| - 1] == Run(p, ops[..|ops| - 1]).1;
    }
  }

  // ---------- what a run has given out ----------

  /** Step `i` gave out `point`. */
  predicate Issues(log: seq<Event>, i: int, point: Point) {
    0 <= i < |log| && log[i].op.First? && log[i].result.point == Some(point)
  }

  /** Step `j` used `point`, successfully. */
  predicate Uses(log: seq<Event>, j: int, point: Point) {
    0 <= j < |log| && log[j].op.Next? && log[j].op.point == point && log[j].result.status == Good
  }

  /** Points are given out in increasing order. */
  ghost predicate Fresh(p: Pages, log: seq<Event>) {
    && (forall i, pt :: Issues(log, i, pt) ==> pt < p.next)
    && (forall i, j, a, b :: i < j && Issues(log, i, a) && Issues(log, j, b) ==> a < b)
    && (forall pt :: pt in p.held ==> pt < p.next)
  }

  /** A point is held exactly while it has been given out and not used. */
  ghost predicate Kept(p: Pages, log: seq<Event>) {
    && (forall pt :: pt in p.held ==> exists i :: Issues(log, i, pt))
    && (forall i, pt :: Issues(log, i, pt) && pt !in p.held ==> exists j :: i < j && Uses(log, j, pt))
  }

  /** A point is used at most once and only after it was given out. */
  ghost predicate Once(p: Pages, log: seq<Event>) {
    && (forall j, pt :: Uses(log, j, pt) ==> pt !in p.held && exists i :: i < j && Issues(log, i, pt))
    && (forall j, k, pt :: Uses(log, j, pt) && Uses(log, k, pt) ==> j == k)
  }

  /** First page and rest make up the original list. */
  ghost predicate Whole(p: Pages, log: seq<Event>) {
    && (forall i, pt :: Issues(log, i, pt) && pt in p.held ==>
          log[i].result.references + p.held[pt] == log[i].op.all)
    && (forall i, j, pt :: Issues(log, i, pt) && Uses(log, j, pt) && !log[j].op.release ==>
          log[i].result.references + log[j].result.references == log[i].op.all)
  }

  lemma StepFresh(p: Pages, log: seq<Event>, op: Op)
    requires Fresh(p, log)
    ensures Fresh(Step(p, op).0, log + [Event(op, Step(p, op).1)])
  {
    var log' := log + [Event(op, Step(p, op).1)];
    assert forall i :: 0 <= i < |log| ==> log'[i] == log[i];
    assert forall i, pt :: i < |log| && Issues(log', i, pt) ==> Issues(log, i, pt);
  }

  lemma Extends(log: seq<Event>, e: Event)
    ensures forall i, pt :: i < |log| ==> (Issues(log + [e], i, pt) <==> Issues(log, i, pt))
    ensures forall j, pt :: j < |log| ==> (Uses(log + [e], j, pt) <==> Uses(log, j, pt))
    ensures (log + [e])[|log|] == e && forall i :: 0 <= i < |log| ==> (log + [e])[i] == log[i]
  {
  }

  lemma StepKept(p: Pages, log: seq<Event>, op: Op)
    requires Kept(p, log)
    ensures Kept(Step(p, op).0, log + [Event(op, Step(p, op).1)])
  {
    var (p', r) := Step(p, op);
    var log' := log + [Event(op, r)];
    Extends(log, Event(op, r));
    StepHeld(p, op);
    forall pt | pt in p'.held
      ensures exists i :: Issues(log', i, pt)
    {
      if pt in p.held {
        var i :| Issues(log, i, pt);
        assert Issues(log', i, pt);
      } else {
        assert Issues(log', |log|, pt);
      }
    }
    forall i, pt | Issues(log', i, pt) && pt !in p'.held
      ensures exists j :: i < j && Uses(log', j, pt)
    {
      if pt in p.held {
        assert Uses(log', |log|, pt);
      } else {
        assert Issues(log, i, pt);
        var j :| i < j && Uses(log, j, pt);
        assert Uses(log', j, pt);
      }
    }
  }

  /** What a step adds is what it gives out; what it takes away is what it uses. */
  lemma StepHeld(p: Pages, op: Op)
    ensures var (p', r) := Step(p, op);
            && (forall pt :: pt in p'.held && pt !in p.held ==> op.First? && r.point == Some(pt))
            && (forall pt :: pt in p.held && pt !in p'.held ==>
                  op.Next? && op.point == pt && r.status == Good)
            && (op.First? && r.point.Some? ==> r.point.value in p'.held && r.point.value == p.next)
            && (op.Next? && r.status == Good ==> op.point in p.held && op.point !in p'.held)
  {
  }

  lemma StepOnce(p: Pages, log: seq<Event>, op: Op)
    requires Once(p, log) && Kept(p, log) && Fresh(p, log)
    ensures Once(Step(p, op).0, log + [Event(op, Step(p, op).1)])
  {
    var (p', r) := Step(p, op);
    var log' := log + [Event(op, r)];
    Extends(log, Event(op, r));
    StepHeld(p, op);
    hide Step;
    forall j, pt | Uses(log', j, pt)
      ensures pt !in p'.held && exists i :: i < j && Issues(log', i, pt)
    {
      if j < |log| {
        assert Uses(log, j, pt);
        var i :| i < j && Issues(log, i, pt);
        assert Issues(log', i, pt);
      } else {
        var i :| Issues(log, i, pt);
        assert Issues(log', i, pt);
      }
    }
  }

  lemma StepWhole(p: Pages, log: seq<Event>, op: Op)
    requires Whole(p, log) && Fresh(p, log) && Once(p, log)
    ensures Whole(Step(p, op).0, log + [Event(op, Step(p, op).1)])
  {
    var (p', r) := Step(p, op);
    var log' := log + [Event(op, r)];
    Extends(log, Event(op, r));
    forall i, j, pt | Issues(log', i, pt) && Uses(log', j, pt) && !log'[j].op.release
      ensures log'[i].result.references + log'[j].result.references == log'[i].op.all
    {
      if i < |log| && j == |log| {
        assert Issues(log, i, pt) && pt in p.held;
      }
    }
  }

  /** After every run a point has been given out at most once and used at most once, first page and
      rest make up the original list, and at most 100 points are held. */
  lemma {:induction false} PagingConserves(ops: seq<Op>)
    ensures var (p, log) := Run(NO_PAGES, ops);
            Fresh(p, log) && Kept(p, log) && Once(p, log) && Whole(p, log) && |p.held| <= MAX_POINTS
  {
    if ops != [] {
      var n := |ops| - 1;
      hide Fresh, Kept, Once, Whole, Step;
      PagingConserves(ops[..n]);
      var (p, log) := Run(NO_PAGES, ops[..n]);
      StepFresh(p, log, ops[n]);
      StepWhole(p, log, ops[n]);
      StepBound(p, ops[n]);
      StepKept(p, log, ops[n]);
      StepOnce(p, log, ops[n]);
    }
  }

  lemma StepBound(p: Pages, op: Op)
    requires |p.held| <= MAX_POINTS
    ensures |Step(p, op).0.held| <= MAX_POINTS
  {
    if op.Next? {
      SubsetSize(Step(p, op).0.held.Keys, p.held.Keys);
    }
  }

  /** A point is good exactly when an earlier step gave it out and none has used it. */
  lemma PointGoodExactly(ops: seq<Op>, point: Point, release: bool)
    ensures var (p, log) := Run(NO_PAGES, ops);
            Use(p, point, release).1.status == Good
            <==> (exists i :: Issues(log, i, point)) && !exists j :: Uses(log, j, point)
  {
    PagingConserves(ops);
    hide Run;
  }

  /** How a first page is answered after any run: the whole list if it is short enough, the first `max`
      references and a point that was never given out if it is not, or a refusal when 100 points are held. */
  lemma FirstPageExactly(ops: seq<Op>, status: Status, all: seq<Reference>, max: nat)
    ensures var (p, log) := Run(NO_PAGES, ops);
            var r := Page(p, status, all, max).1;
            var fits := max == 0 || |all| <= max;
            && (r.point.Some? <==> !fits && |p.held| < 100)
            && (fits ==> r.status == status && r.references == all)
            && (!fits && r.point.None? ==> r.status == BadNoContinuationPoints && r.references == [])
            && (r.point.Some? ==>
                  && r.status == status && |r.references| == max && r.references <= all
                  && forall i :: !Issues(log, i, r.point.value))
  {
    PagingConserves(ops);
    hide Run;
  }

  /** How a point is answered after any run: with all that the page it came with left out, or nothing if it
      is only released; and never with another point. */
  lemma NextPageExactly(ops: seq<Op>, point: Point, release: bool, i: int)
    ensures var (p, log) := Run(NO_PAGES, ops);
            var r := Use(p, point, release).1;
            && r.point.None?
            && (r.status != Good ==> r.status == BadContinuationPointInvalid && r.references == [])
            && (r.status == Good && release ==> r.references == [])
            && (r.status == Good && !release && Issues(log, i, point) ==>
                  log[i].result.references + r.references == log[i].op.all)
  {
    PagingConserves(ops);
    hide Run;
  }

  // ---------- the object ----------

  class BrowseContinuations {
    var held: map<Point, seq<Reference>>
    var nextPoint: Point

    function View(): Pages
      reads this
    {
      Pages(held, nextPoint)
    }

    constructor ()
      ensures View() == NO_PAGES
    {
      held, nextPoint := map[], 1;
    }

    method PageBrowseResult(status: Status, all: seq<Reference>, max: nat) returns (result: BrowseResult)
      modifies this
      ensures (View(), result) == Page(old(View()), status, all, max)
    {
      if max == 0 || |all| <= max {
        return BrowseResult(status, all, None);
      }
      if |held| >= MAX_POINTS {
        return BrowseResult(BadNoContinuationPoints, [], None);
      }
      var point := nextPoint;
      nextPoint := nextPoint + 1;
      held := held[point := all[max..]];
      result := BrowseResult(status, all[..max], Some(point));
    }

    method StoreBrowseResults(results: seq<(Status, seq<Reference>)>, max: nat) returns (out: seq<BrowseResult>)
      modifies this
      ensures (View(), out) == FirstAll(old(View()), results, max)
    {
      ghost var p := View();
      out := [];
      for i := 0 to |results|
        invariant (View(), out) == FirstAll(p, results[..i], max)
      {
        assert results[..i + 1][..i] == results[..i];
        hide Page;
        var result := PageBrowseResult(results[i].0, results[i].1, max);
        out := out + [result];
      }
      assert results[..|results|] == results;
    }

    method BrowseNext(points: seq<Point>, release: bool) returns (out: seq<BrowseResult>)
      modifies this`held
      ensures (View(), out) == NextAll(old(View()), points, release)
    {
      ghost var p := View();
      out := [];
      for i := 0 to |points|
        invariant (View(), out) == NextAll(p, points[..i], release)
      {
        assert points[..i + 1][..i] == points[..i];
        var point := points[i];
        if point !in held {
          out := out + [BrowseResult(BadContinuationPointInvalid, [], None)];
        } else if release {
          held := held - {point};
          out := out + [BrowseResult(Good, [], None)];
        } else {
          var rest := held[point];
          held := held - {point};
          out := out + [BrowseResult(Good, rest, None)];
        }
      }
      assert points[..|points|] == points;
    }
  }
}
