/** The client's shared subscription as a value: created lazily, with the items added meanwhile parked,
    and each item created on the server by a request of its own. The steps are the regions run under
    the lock and the points where a spawned coroutine starts or goes on. */
module ClientItems {
  import opened Common

  type LocalId = nat
  type ServerId = nat     // 0 stands for none
  type ViewId = nat

  datatype Record = Record(view: ViewId, server: ServerId)

  datatype State = State(
    impl: bool,                    // the protocol object exists
    creating: bool,
    awaiting: bool,                // the creation waits for the server
    flushDue: bool,                // it has succeeded, the parked items are not taken yet
    nextLocal: LocalId,
    items: map<LocalId, Record>,
    parked: seq<LocalId>,
    due: multiset<LocalId>,        // to be created, the request not sent yet
    inFlight: multiset<LocalId>,   // the request sent, not answered yet
    deleteDue: multiset<ServerId>, // to be deleted, the request not sent yet
    closed: set<ViewId>,
    doomed: set<LocalId>)          // collected by the close of their view, not removed yet

  const NEW: State :=
    State(false, false, false, false, 1, map[], [], multiset{}, multiset{}, multiset{}, {}, {})

  /** What has gone over the wire, and which accepted items were given up before that. */
  datatype Wire = Wire(
    created: multiset<LocalId>,
    granted: multiset<ServerId>,
    deleted: multiset<ServerId>,
    dropped: multiset<LocalId>)

  const NOTHING: Wire := Wire(multiset{}, multiset{}, multiset{}, multiset{})

  datatype ItemOp =
    | Ensure
    | Created(ok: bool)
    | Flush
    | Add(view: ViewId)
    | BeginCreate(local: LocalId)
    | EndCreate(local: LocalId, granted: Option<ServerId>)
    | Remove(local: LocalId)
    | BeginDelete(server: ServerId)
    | Close(view: ViewId)

  function Without(s: seq<LocalId>, x: LocalId): seq<LocalId> {
    if s == [] then []
    else Without(s[..|s| - 1], x) + (if s[|s| - 1] == x then [] else [s[|s| - 1]])
  }

  // ---------- the steps; one that is not due changes nothing ----------

  function Ensured(s: State): State {
    if s.impl || s.creating then s else s.(creating := true, impl := true, awaiting := true)
  }

  function CreationAnswered(s: State, ok: bool): State {
    if !s.awaiting then s
    else if ok then s.(creating := false, awaiting := false, flushDue := true)
    else s.(creating := false, awaiting := false, impl := false, parked := [])
  }

  function Flushed(s: State): State {
    if !s.flushDue then s
    else s.(flushDue := false, due := s.due + multiset(s.parked), parked := [])
  }

  function Added(s: State, view: ViewId): State {
    var s1 := s.(nextLocal := s.nextLocal + 1, items := s.items[s.nextLocal := Record(view, 0)]);
    if s.creating || !s.impl then s1.(parked := s.parked + [s.nextLocal])
    else s1.(due := s.due + multiset{s.nextLocal})
  }

  function CreateBegun(s: State, local: LocalId): State {
    if local !in s.due then s
    else if !s.impl then s.(due := s.due - multiset{local})
    else s.(due := s.due - multiset{local}, inFlight := s.inFlight + multiset{local})
  }

  function CreateEnded(s: State, local: LocalId, granted: Option<ServerId>): State {
    if local !in s.inFlight then s
    else
      var s1 := s.(inFlight := s.inFlight - multiset{local});
      if granted.None? || local !in s.items then s1
      else s1.(items := s.items[local := s.items[local].(server := granted.value)])
  }

  function Removed(s: State, local: LocalId): State {
    var s1 := s.(parked := Without(s.parked, local), doomed := s.doomed - {local});
    if local !in s.items then s1
    else
      s1.(items := s.items - {local},
          deleteDue := if s.items[local].server == 0 then s.deleteDue
                       else s.deleteDue + multiset{s.items[local].server})
  }

  function DeleteBegun(s: State, server: ServerId): State {
    if server !in s.deleteDue then s else s.(deleteDue := s.deleteDue - multiset{server})
  }

  /** The first close of a view collects its items; their removals follow one by one. */
  function Closed(s: State, view: ViewId): State {
    if view in s.closed then s
    else s.(closed := s.closed + {view}, doomed := s.doomed + OfView(s.items, view))
  }

  function OfView(items: map<LocalId, Record>, view: ViewId): set<LocalId> {
    set l | l in items && items[l].view == view
  }

  function Step(s: State, op: ItemOp): State {
    match op
    case Ensure => Ensured(s)
    case Created(ok) => CreationAnswered(s, ok)
    case Flush => Flushed(s)
    case Add(view) => Added(s, view)
    case BeginCreate(local) => CreateBegun(s, local)
    case EndCreate(local, granted) => CreateEnded(s, local, granted)
    case Remove(local) => Removed(s, local)
    case BeginDelete(server) => DeleteBegun(s, server)
    case Close(view) => Closed(s, view)
  }

  /** What a step sends, is granted or gives up. */
  function Note(s: State, w: Wire, op: ItemOp): Wire {
    match op
    case Created(ok) =>
      if s.awaiting && !ok then w.(dropped := w.dropped + multiset(s.parked)) else w
    case BeginCreate(local) =>
      if local !in s.due then w
      else if s.impl then w.(created := w.created + multiset{local})
      else w.(dropped := w.dropped + multiset{local})
    case EndCreate(local, granted) =>
      if local !in s.inFlight || granted.None? then w
      else
        var w1 := w.(granted := w.granted + multiset{granted.value});
        if local in s.items then w1 else w1.(deleted := w.deleted + multiset{granted.value})
    case Remove(local) =>
      w.(dropped := w.dropped + (if local in s.parked then multiset{local} else multiset{}))
    case BeginDelete(server) =>
      if server in s.deleteDue && s.impl then w.(deleted := w.deleted + multiset{server}) else w
    case _ => w
  }

  function Run(ops: seq<ItemOp>): (State, Wire) {
    if ops == [] then (NEW, NOTHING)
    else
      var n := |ops| - 1;
      var (s, w) := Run(ops[..n]);
      (Step(s, ops[n]), Note(s, w, ops[n]))
  }

  // ---------- the creation handshake ----------

  /** Parking is possible only until a successful creation has taken the parked items. */
  ghost predicate Flags(s: State) {
    && (s.creating <==> s.awaiting)
    && (s.awaiting || s.flushDue ==> s.impl)
    && !(s.awaiting && s.flushDue)
    && (s.impl && !s.creating && !s.flushDue ==> s.parked == [])
  }

  /** No item has been sent to the server, or answered by it. */
  ghost predicate Unsent(items: map<LocalId, Record>, due: multiset<LocalId>, inFlight: multiset<LocalId>,
      deleteDue: multiset<ServerId>)
  {
    && |due| == 0 && |inFlight| == 0 && |deleteDue| == 0
    && forall l :: l in items ==> items[l].server == 0
  }

  /** Nothing goes to the server before the creation has succeeded. */
  ghost predicate Handshake(s: State) {
    Flags(s) && (!s.impl || s.creating ==> Unsent(s.items, s.due, s.inFlight, s.deleteDue))
  }

  lemma StepFlags(s: State, op: ItemOp)
    requires Flags(s)
    ensures Flags(Step(s, op))
  {
  }

  /** While the creation has not succeeded, a step sends nothing. */
  lemma StepUnsent(s: State, op: ItemOp)
    requires Unsent(s.items, s.due, s.inFlight, s.deleteDue) && (!s.impl || s.creating)
    requires !op.Flush?
    ensures var s' := Step(s, op); Unsent(s'.items, s'.due, s'.inFlight, s'.deleteDue)
  {
    hide Without;
  }

  /** Up to a step, a creation that has not succeeded had not before. */
  lemma StepBackwards(s: State, op: ItemOp)
    requires Flags(s) && (!Step(s, op).impl || Step(s, op).creating)
    ensures (!s.impl || s.creating) && (op.Flush? ==> Step(s, op) == s)
  {
  }

  lemma StepHandshake(s: State, op: ItemOp)
    requires Handshake(s)
    ensures Handshake(Step(s, op))
  {
    hide Flags, Unsent, Step;
    StepFlags(s, op);
    if !Step(s, op).impl || Step(s, op).creating {
      StepBackwards(s, op);
      if !op.Flush? {
        StepUnsent(s, op);
      }
    }
  }

  /** The subscription exists and has taken what was parked. */
  predicate Up(s: State) {
    s.impl && !s.creating && !s.flushDue
  }

  lemma StepUp(s: State, op: ItemOp)
    requires Handshake(s) && Up(s)
    ensures Up(Step(s, op)) && Step(s, op).parked == []
  {
  }

  // ---------- every accepted item has one place ----------

  /** Every accepted item is, exactly once, parked, due, sent to the server or given up. */
  ghost predicate Placed(parked: multiset<LocalId>, due: multiset<LocalId>, created: multiset<LocalId>,
      dropped: multiset<LocalId>, next: LocalId)
  {
    forall l: LocalId :: parked[l] + due[l] + created[l] + dropped[l] == if 0 < l < next then 1 else 0
  }

  ghost predicate AllPlaced(s: State, w: Wire) {
    Placed(multiset(s.parked), s.due, w.created, w.dropped, s.nextLocal)
  }

  lemma AddPlaced(s: State, w: Wire, op: ItemOp)
    requires AllPlaced(s, w) && s.nextLocal > 0 && op.Add?
    ensures AllPlaced(Step(s, op), Note(s, w, op))
  {
  }

  lemma TakePlaced(s: State, w: Wire, op: ItemOp)
    requires AllPlaced(s, w) && (op.Created? || op.Flush?)
    ensures AllPlaced(Step(s, op), Note(s, w, op))
  {
  }

  lemma BeginPlaced(s: State, w: Wire, op: ItemOp)
    requires AllPlaced(s, w) && op.BeginCreate?
    ensures AllPlaced(Step(s, op), Note(s, w, op))
  {
  }

  lemma RemovePlaced(s: State, w: Wire, op: ItemOp)
    requires AllPlaced(s, w) && op.Remove?
    ensures AllPlaced(Step(s, op), Note(s, w, op))
  {
    hide Without;
    var parked, parked' := multiset(s.parked), multiset(Without(s.parked, op.local));
    WithoutCounts(s.parked, op.local);
    assert parked[op.local] <= 1;
    RemovedOne(parked, s.due, w.created, w.dropped, s.nextLocal, op.local);
  }

  lemma RemovedOne(parked: multiset<LocalId>, due: multiset<LocalId>, created: multiset<LocalId>,
      dropped: multiset<LocalId>, next: LocalId, l: LocalId)
    requires Placed(parked, due, created, dropped, next)
    ensures Placed(parked[l := 0], due, created,
              dropped + (if l in parked then multiset{l} else multiset{}), next)
  {
  }

  lemma StepPlaced(s: State, w: Wire, op: ItemOp)
    requires AllPlaced(s, w) && s.nextLocal > 0
    ensures AllPlaced(Step(s, op), Note(s, w, op)) && Step(s, op).nextLocal > 0
  {
    hide Placed, Without;
    if op.Add? {
      AddPlaced(s, w, op);
    } else if op.Created? || op.Flush? {
      TakePlaced(s, w, op);
    } else if op.BeginCreate? {
      BeginPlaced(s, w, op);
    } else if op.Remove? {
      RemovePlaced(s, w, op);
    }
  }

  lemma {:induction false} WithoutCounts(s: seq<LocalId>, x: LocalId)
    ensures multiset(Without(s, x)) == multiset(s)[x := 0]
  {
    if s != [] {
      WithoutCounts(s[..|s| - 1], x);
      assert s == s[..|s| - 1] + [s[|s| - 1]];
    }
  }

  // ---------- every granted server id is accounted for ----------

  /** How many records hold a server id. */
  ghost function Held(items: map<LocalId, Record>, below: LocalId): multiset<ServerId> {
    if below == 0 then multiset{}
    else
      var l := below - 1;
      Held(items, l) + (if l in items && items[l].server != 0 then multiset{items[l].server} else multiset{})
  }

  /** Every granted id is held by a live record, or its deletion is under way or issued, exactly once. */
  ghost predicate Balanced(granted: multiset<ServerId>, held: multiset<ServerId>,
      deleteDue: multiset<ServerId>, deleted: multiset<ServerId>)
  {
    forall id :: id != 0 ==> granted[id] == held[id] + deleteDue[id] + deleted[id]
  }

  ghost predicate Accounted(s: State, w: Wire) {
    Balanced(w.granted, Held(s.items, s.nextLocal), s.deleteDue, w.deleted)
  }

  function Answered(items: map<LocalId, Record>, l: LocalId): nat {
    if l in items && items[l].server != 0 then 1 else 0
  }

  /** A creation is in flight or answered at most as often as it was requested. */
  ghost predicate Known(s: State, w: Wire) {
    && (forall l :: l in s.items ==> l < s.nextLocal)
    && (forall l: LocalId :: s.inFlight[l] + Answered(s.items, l) <= w.created[l] <= 1)
  }

  ghost predicate CreatedOnce(w: Wire) {
    forall l: LocalId :: w.created[l] <= 1
  }

  lemma PlacedOnce(s: State, w: Wire)
    requires AllPlaced(s, w)
    ensures CreatedOnce(w)
  {
  }

  lemma AddKnown(s: State, w: Wire, op: ItemOp)
    requires Known(s, w) && op.Add?
    ensures Known(Step(s, op), w)
  {
  }

  lemma BeginKnown(s: State, w: Wire, op: ItemOp)
    requires Known(s, w) && op.BeginCreate? && CreatedOnce(Note(s, w, op))
    ensures Known(Step(s, op), Note(s, w, op))
  {
    hide Answered;
  }

  lemma EndKnown(s: State, w: Wire, op: ItemOp)
    requires Known(s, w) && op.EndCreate?
    ensures Known(Step(s, op), w)
  {
    var s' := Step(s, op);
    assert forall l :: l != op.local ==> Answered(s'.items, l) == Answered(s.items, l);
    assert Answered(s'.items, op.local) <= 1;
    hide Answered;
  }

  lemma RemoveKnown(s: State, w: Wire, op: ItemOp)
    requires Known(s, w) && op.Remove?
    ensures Known(Step(s, op), w)
  {
    hide Without;
    assert forall l :: Answered(Step(s, op).items, l) <= Answered(s.items, l);
    hide Answered;
  }

  lemma StepKnown(s: State, w: Wire, op: ItemOp)
    requires Known(s, w) && CreatedOnce(Note(s, w, op))
    ensures Known(Step(s, op), Note(s, w, op))
  {
    hide Without, Answered;
    if op.Add? {
      AddKnown(s, w, op);
    } else if op.BeginCreate? {
      BeginKnown(s, w, op);
    } else if op.EndCreate? {
      EndKnown(s, w, op);
    } else if op.Remove? {
      RemoveKnown(s, w, op);
    }
  }

  lemma HeldNext(items: map<LocalId, Record>, below: LocalId)
    requires below > 0
    ensures Held(items, below) == Held(items, below - 1) +
              (if below - 1 in items && items[below - 1].server != 0
               then multiset{items[below - 1].server} else multiset{})
  {
  }

  lemma {:induction false} HeldUpdate(items: map<LocalId, Record>, below: LocalId, l: LocalId, r: Record)
    requires l < below && (l in items ==> items[l].server == 0) && r.server != 0
    ensures Held(items[l := r], below) == Held(items, below) + multiset{r.server}
  {
    hide Held;
    HeldNext(items, below);
    HeldNext(items[l := r], below);
    if l < below - 1 {
      HeldUpdate(items, below - 1, l, r);
    } else {
      HeldSame(items, items[l := r], below - 1);
    }
  }

  lemma {:induction false} HeldRemove(items: map<LocalId, Record>, below: LocalId, l: LocalId)
    requires l < below && l in items
    ensures Held(items, below) ==
              Held(items - {l}, below) + (if items[l].server == 0 then multiset{} else multiset{items[l].server})
  {
    hide Held;
    HeldNext(items, below);
    HeldNext(items - {l}, below);
    if l < below - 1 {
      HeldRemove(items, below - 1, l);
    } else {
      HeldSame(items, items - {l}, below - 1);
    }
  }

  lemma {:induction false} HeldSame(items: map<LocalId, Record>, items': map<LocalId, Record>, below: LocalId)
    requires forall l :: 0 <= l < below ==>
               (l in items && items[l].server != 0 <==> l in items' && items'[l].server != 0)
    requires forall l :: 0 <= l < below && l in items && l in items' ==> items[l].server == items'[l].server
    ensures Held(items, below) == Held(items', below)
  {
    if below > 0 {
      HeldSame(items, items', below - 1);
    }
  }

  lemma EndAccounted(s: State, w: Wire, op: ItemOp)
    requires Accounted(s, w) && Known(s, w) && op.EndCreate?
    ensures Accounted(Step(s, op), Note(s, w, op))
  {
    hide Held;
    var l := op.local;
    if l in s.inFlight && op.granted.Some? && l in s.items {
      var r := s.items[l].(server := op.granted.value);
      if r.server != 0 {
        HeldUpdate(s.items, s.nextLocal, l, r);
      } else {
        assert s.items[l := r] == s.items;
      }
    }
  }

  lemma RemoveAccounted(s: State, w: Wire, op: ItemOp)
    requires Accounted(s, w) && Known(s, w) && op.Remove?
    ensures Accounted(Step(s, op), Note(s, w, op))
  {
    hide Held;
    if op.local in s.items {
      HeldRemove(s.items, s.nextLocal, op.local);
    }
  }

  lemma AddAccounted(s: State, w: Wire, op: ItemOp)
    requires Accounted(s, w) && op.Add?
    ensures Accounted(Step(s, op), Note(s, w, op))
  {
    hide Held;
    var items := s.items[s.nextLocal := Record(op.view, 0)];
    HeldSame(s.items, items, s.nextLocal);
    HeldNext(items, s.nextLocal + 1);
  }

  lemma DeleteAccounted(s: State, w: Wire, op: ItemOp)
    requires Accounted(s, w) && Handshake(s) && op.BeginDelete?
    ensures Accounted(Step(s, op), Note(s, w, op))
  {
    hide Held, Flags;
    assert op.server in s.deleteDue ==> s.impl;
  }

  lemma StepAccounted(s: State, w: Wire, op: ItemOp)
    requires Accounted(s, w) && Known(s, w) && Handshake(s)
    ensures Accounted(Step(s, op), Note(s, w, op))
  {
    hide Held, Balanced, Known, Handshake;
    if op.EndCreate? {
      EndAccounted(s, w, op);
    } else if op.Remove? {
      RemoveAccounted(s, w, op);
    } else if op.Add? {
      AddAccounted(s, w, op);
    } else if op.BeginDelete? {
      DeleteAccounted(s, w, op);
    }
  }

  // ---------- whole runs ----------

  ghost predicate Inv(s: State, w: Wire) {
    && Handshake(s)
    && AllPlaced(s, w) && s.nextLocal > 0
    && Known(s, w)
    && Accounted(s, w)
  }

  lemma StepKeeps(s: State, w: Wire, op: ItemOp)
    requires Inv(s, w)
    ensures Inv(Step(s, op), Note(s, w, op))
  {
    hide Handshake, AllPlaced, Known, Accounted, Step, Note, CreatedOnce;
    StepHandshake(s, op);
    StepPlaced(s, w, op);
    PlacedOnce(Step(s, op), Note(s, w, op));
    StepKnown(s, w, op);
    StepAccounted(s, w, op);
  }

  lemma {:induction false} RunKeeps(ops: seq<ItemOp>)
    ensures Inv(Run(ops).0, Run(ops).1)
  {
    if ops != [] {
      hide Inv, Step, Note;
      var n := |ops| - 1;
      RunKeeps(ops[..n]);
      StepKeeps(Run(ops[..n]).0, Run(ops[..n]).1, ops[n]);
    }
  }

  /** The step removes item `l` while it is parked, or answers that the creation it waits for has
      failed. */
  ghost predicate GivesUp(s: State, op: ItemOp, l: LocalId) {
    l in s.parked && (op == Remove(l) || (op == Created(false) && s.awaiting))
  }

  lemma StepGivesUp(s: State, w: Wire, op: ItemOp, l: LocalId)
    requires Handshake(s)
    ensures Note(s, w, op).dropped[l] > 0 <==> w.dropped[l] > 0 || GivesUp(s, op, l)
  {
    if op.BeginCreate? && op.local in s.due {
      assert s.impl by {
        DueNeedsImpl(s, op.local);
      }
    }
    hide Flags, Unsent;
  }

  lemma DueNeedsImpl(s: State, l: LocalId)
    requires Handshake(s) && l in s.due
    ensures s.impl
  {
    assert |s.due| > 0;
  }

  ghost predicate GivenUp(ops: seq<ItemOp>, l: LocalId) {
    exists i :: 0 <= i < |ops| && GivesUp(Run(ops[..i]).0, ops[i], l)
  }

  lemma GivenUpNext(ops: seq<ItemOp>, l: LocalId)
    requires ops != []
    ensures var n := |ops| - 1;
            GivenUp(ops, l) <==> GivenUp(ops[..n], l) || GivesUp(Run(ops[..n]).0, ops[n], l)
  {
    hide Run, GivesUp;
    var n := |ops| - 1;
    if GivenUp(ops[..n], l) {
      var i :| 0 <= i < n && GivesUp(Run(ops[..n][..i]).0, ops[..n][i], l);
      assert ops[..n][..i] == ops[..i];
      assert GivesUp(Run(ops[..i]).0, ops[i], l);
    }
    if GivenUp(ops, l) {
      var i :| 0 <= i < |ops| && GivesUp(Run(ops[..i]).0, ops[i], l);
      if i < n {
        assert ops[..n][..i] == ops[..i];
        assert GivesUp(Run(ops[..n][..i]).0, ops[..n][i], l);
      }
    }
  }

  lemma {:induction false} DroppedIsGivenUp(ops: seq<ItemOp>, l: LocalId)
    ensures Run(ops).1.dropped[l] > 0 <==> GivenUp(ops, l)
  {
    hide GivesUp, GivenUp, Step, Note, Inv, Handshake;
    if ops == [] {
      NothingGivenUp(l);
    } else {
      var n := |ops| - 1;
      DroppedIsGivenUp(ops[..n], l);
      GivenUpNext(ops, l);
      RunKeeps(ops[..n]);
      InvHandshake(Run(ops[..n]).0, Run(ops[..n]).1);
      StepGivesUp(Run(ops[..n]).0, Run(ops[..n]).1, ops[n], l);
    }
  }

  lemma NothingGivenUp(l: LocalId)
    ensures !GivenUp([], l)
  {
  }

  /** In every run every accepted item is, exactly once, parked, due, requested from the server, or
      given up: it is created at most once and never lost. It is given up if and only if a step of the
      run removed it while it was parked, or failed the creation it was parked for. */
  lemma ItemsCreatedOnce(ops: seq<ItemOp>, l: LocalId)
    ensures var (s, w) := Run(ops);
            && w.created[l] <= 1
            && multiset(s.parked)[l] + s.due[l] + w.created[l] + w.dropped[l]
               == (if 0 < l < s.nextLocal then 1 else 0)
            && (w.dropped[l] > 0 <==> GivenUp(ops, l))
  {
    hide Run, GivenUp, Handshake;
    RunKeeps(ops);
    DroppedIsGivenUp(ops, l);
  }

  /** In every run every server id granted is held by a live record, or one deletion of it is under
      way or issued. Deletions under way are never dropped for want of the protocol object. */
  lemma GrantsAccounted(ops: seq<ItemOp>, id: ServerId)
    requires id != 0
    ensures var (s, w) := Run(ops);
            && w.granted[id] == Held(s.items, s.nextLocal)[id] + s.deleteDue[id] + w.deleted[id]
            && (id in s.deleteDue ==> s.impl)
  {
    RunKeeps(ops);
    hide Run, Held;
  }

  /** Once a successful creation has taken the parked items, nothing is ever parked again. */
  lemma {:induction false} NothingParkedOnceCreated(before: seq<ItemOp>, after: seq<ItemOp>)
    ensures var s := Run(before + [Flush] + after).0;
            Run(before).0.flushDue ==> Handshake(s) && Up(s) && s.parked == []
  {
    hide Handshake, Step, Up, Inv;
    var ops := before + [Flush] + after;
    if after == [] {
      RunKeeps(before);
      InvHandshake(Run(before).0, Run(before).1);
      assert ops[..|ops| - 1] == before;
      if Run(before).0.flushDue {
        FlushTakesAll(Run(before).0);
      }
    } else {
      var n := |after| - 1;
      NothingParkedOnceCreated(before, after[..n]);
      assert ops[..|ops| - 1] == before + [Flush] + after[..n];
      var s1 := Run(ops[..|ops| - 1]).0;
      if Run(before).0.flushDue {
        StepHandshake(s1, after[n]);
        StepUp(s1, after[n]);
      }
    }
  }

  lemma InvHandshake(s: State, w: Wire)
    requires Inv(s, w)
    ensures Handshake(s)
  {
  }

  /** A successful creation leaves nothing parked, whatever ran between its answer and its flush. */
  lemma FlushTakesAll(s: State)
    requires Handshake(s) && s.flushDue
    ensures var s' := Step(s, Flush);
            Handshake(s') && Up(s') && s'.parked == [] && s'.due == s.due + multiset(s.parked)
  {
  }

  // ---------- requests ----------

  function AddAll(s: State, view: ViewId, count: nat): State {
    if count == 0 then s else Added(AddAll(s, view, count - 1), view)
  }

  function RemoveAll(s: State, ids: seq<LocalId>): State {
    if ids == [] then s else Removed(RemoveAll(s, ids[..|ids| - 1]), ids[|ids| - 1])
  }

  /** Going through `ids`, a view's items named so far are gone, so one is left exactly when it is
      the view's and comes up for the first time. */
  lemma StillOwned(items: map<LocalId, Record>, view: ViewId, ids: seq<LocalId>, i: nat)
    requires i < |ids|
    ensures var left := items - (OfView(items, view) * Elements(ids[..i]));
            && (ids[i] in left && left[ids[i]].view == view
                <==> ids[i] in OfView(items, view) && ids[i] !in ids[..i])
            && (if ids[i] in left && left[ids[i]].view == view then left - {ids[i]} else left)
               == items - (OfView(items, view) * Elements(ids[..i + 1]))
  {
    assert Elements(ids[..i + 1]) == Elements(ids[..i]) + {ids[i]};
    assert ids[i] in Elements(ids[..i]) <==> ids[i] in ids[..i];
  }

  /** The view's items named so far, and the one named next if it is the view's and new. */
  lemma NextOwned(owned: set<LocalId>, ids: seq<LocalId>, i: nat, removed: seq<LocalId>)
    requires i < |ids| && Lists(removed, owned * Elements(ids[..i]))
    ensures if ids[i] in owned && ids[i] !in ids[..i]
            then Lists(removed + [ids[i]], owned * Elements(ids[..i + 1]))
            else Lists(removed, owned * Elements(ids[..i + 1]))
  {
    var before := owned * Elements(ids[..i]);
    assert Elements(ids[..i + 1]) == Elements(ids[..i]) + {ids[i]};
    if ids[i] in owned && ids[i] !in ids[..i] {
      ListsAppend(removed, before, ids[i]);
      assert owned * Elements(ids[..i + 1]) == before + {ids[i]};
    } else {
      assert owned * Elements(ids[..i + 1]) == before;
    }
  }

  lemma RemovedItems(s: State, local: LocalId)
    ensures Removed(s, local).items == s.items - {local}
  {
    hide Without;
  }

  /** A removal touches nothing but the items named. */
  lemma {:induction false} RemoveAllItems(s: State, ids: seq<LocalId>)
    ensures RemoveAll(s, ids).items == s.items - Elements(ids)
  {
    if ids != [] {
      var n := |ids| - 1;
      RemoveAllItems(s, ids[..n]);
      RemovedItems(RemoveAll(s, ids[..n]), ids[n]);
      hide Removed;
      assert Elements(ids) == Elements(ids[..n]) + {ids[n]};
    }
  }

  // ---------- closed views ----------

  function After(s: State, ops: seq<ItemOp>): State {
    if ops == [] then s else Step(After(s, ops[..|ops| - 1]), ops[|ops| - 1])
  }

  lemma {:induction false} RunAfter(before: seq<ItemOp>, after: seq<ItemOp>)
    ensures Run(before + after).0 == After(Run(before).0, after)
  {
    hide Step, Note;
    if after == [] {
      assert before + after == before;
    } else {
      var n := |after| - 1;
      RunAfter(before, after[..n]);
      assert (before + after)[..|before + after| - 1] == before + after[..n];
    }
  }

  /** Item `l` is live, and of view `v`. */
  predicate LiveOf(s: State, v: ViewId, l: LocalId) {
    l in s.items && s.items[l].view == v
  }

  /** Item `l` is added for view `v` at some step, and not removed after that. */
  ghost predicate AddedSince(s: State, ops: seq<ItemOp>, v: ViewId, l: LocalId) {
    exists j :: 0 <= j < |ops| && AddsAt(s, ops, v, l, j) && NotRemoved(ops[j + 1..], l)
  }

  ghost predicate AddsAt(s: State, ops: seq<ItemOp>, v: ViewId, l: LocalId, j: int) {
    0 <= j < |ops| && ops[j] == Add(v) && After(s, ops[..j]).nextLocal == l
  }

  predicate NotRemoved(ops: seq<ItemOp>, l: LocalId) {
    forall k :: 0 <= k < |ops| ==> ops[k] != Remove(l)
  }

  lemma NotRemovedNext(ops: seq<ItemOp>, op: ItemOp, l: LocalId)
    ensures NotRemoved(ops + [op], l) <==> NotRemoved(ops, l) && op != Remove(l)
  {
    assert (ops + [op])[|ops|] == op;
    assert forall k :: 0 <= k < |ops| ==> (ops + [op])[k] == ops[k];
  }

  lemma AddedSinceNext(s: State, ops: seq<ItemOp>, v: ViewId, l: LocalId)
    requires ops != []
    ensures var n := |ops| - 1;
            AddedSince(s, ops, v, l)
            <==> (AddedSince(s, ops[..n], v, l) && ops[n] != Remove(l))
                 || (ops[n] == Add(v) && After(s, ops[..n]).nextLocal == l)
  {
    hide After, NotRemoved;
    var n := |ops| - 1;
    if ops[n] == Add(v) {
      assert NotRemoved(ops[n + 1..], l) by {
        NothingRemoved(ops[n + 1..], l);
      }
    }
    if AddedSince(s, ops[..n], v, l) && ops[n] != Remove(l) {
      var j :| 0 <= j < n && AddsAt(s, ops[..n], v, l, j) && NotRemoved(ops[..n][j + 1..], l);
      assert ops[..n][..j] == ops[..j] && ops[j + 1..] == ops[..n][j + 1..] + [ops[n]];
      NotRemovedNext(ops[..n][j + 1..], ops[n], l);
      assert AddsAt(s, ops, v, l, j) && NotRemoved(ops[j + 1..], l);
    }
    if ops[n] == Add(v) && After(s, ops[..n]).nextLocal == l {
      assert AddsAt(s, ops, v, l, n) && NotRemoved(ops[n + 1..], l);
    }
    if AddedSince(s, ops, v, l) {
      var j :| 0 <= j < |ops| && AddsAt(s, ops, v, l, j) && NotRemoved(ops[j + 1..], l);
      if j < n {
        assert ops[..n][..j] == ops[..j] && ops[j + 1..] == ops[..n][j + 1..] + [ops[n]];
        NotRemovedNext(ops[..n][j + 1..], ops[n], l);
        assert AddsAt(s, ops[..n], v, l, j) && NotRemoved(ops[..n][j + 1..], l);
      }
    }
  }

  lemma StepLive(s: State, op: ItemOp, v: ViewId, l: LocalId)
    requires l in s.items ==> l < s.nextLocal
    ensures var s' := Step(s, op);
            && (LiveOf(s', v, l) <==> (LiveOf(s, v, l) && op != Remove(l)) || (op == Add(v) && s.nextLocal == l))
            && (l in s'.items ==> l < s'.nextLocal)
            && s.nextLocal <= s'.nextLocal
  {
    hide Without, OfView;
  }

  /** A view's live items are those it had and those added since, less those removed. */
  lemma {:induction false} LiveExactly(s: State, ops: seq<ItemOp>, v: ViewId, l: LocalId)
    requires l in s.items ==> l < s.nextLocal
    ensures var s' := After(s, ops);
            && (LiveOf(s', v, l) <==> (LiveOf(s, v, l) && NotRemoved(ops, l)) || AddedSince(s, ops, v, l))
            && (l in s'.items ==> l < s'.nextLocal) && s.nextLocal <= s'.nextLocal
  {
    hide Step, LiveOf, AddedSince;
    if ops == [] {
      NothingAdded(s, v, l);
    } else {
      var n := |ops| - 1;
      LiveExactly(s, ops[..n], v, l);
      AddedSinceNext(s, ops, v, l);
      StepLive(After(s, ops[..n]), ops[n], v, l);
      assert ops == ops[..n] + [ops[n]];
      NotRemovedNext(ops[..n], ops[n], l);
    }
  }

  lemma NothingRemoved(ops: seq<ItemOp>, l: LocalId)
    requires ops == []
    ensures NotRemoved(ops, l)
  {
  }

  lemma NothingAdded(s: State, v: ViewId, l: LocalId)
    ensures !AddedSince(s, [], v, l)
  {
  }

  lemma CloseDooms(s: State, view: ViewId, v: ViewId, l: LocalId)
    requires v in s.closed && (l in s.items ==> s.items[l].view == v)
    ensures var s' := Closed(s, view);
            && v in s'.closed && s'.items == s.items && s'.nextLocal == s.nextLocal
            && (l in s'.doomed <==> l in s.doomed)
  {
    assert view !in s.closed ==> l !in OfView(s.items, view);
    hide OfView;
  }

  lemma StepDoomed(s: State, op: ItemOp, v: ViewId, l: LocalId)
    requires v in s.closed && l < s.nextLocal && (l in s.items ==> s.items[l].view == v)
    ensures var s' := Step(s, op);
            && v in s'.closed && l < s'.nextLocal && (l in s'.items ==> s'.items[l].view == v)
            && (l in s'.doomed <==> l in s.doomed && op != Remove(l))
  {
    hide Without, Closed;
    if op.Close? {
      CloseDooms(s, op.view, v, l);
    }
  }

  /** What a close collected stays doomed until it is removed. */
  lemma {:induction false} DoomedExactly(s: State, ops: seq<ItemOp>, v: ViewId, l: LocalId)
    requires v in s.closed && l < s.nextLocal && (l in s.items ==> s.items[l].view == v)
    ensures var s' := After(s, ops);
            && v in s'.closed && l < s'.nextLocal && (l in s'.items ==> s'.items[l].view == v)
            && (l in s'.doomed <==> l in s.doomed && NotRemoved(ops, l))
  {
    hide Step;
    if ops != [] {
      var n := |ops| - 1;
      DoomedExactly(s, ops[..n], v, l);
      StepDoomed(After(s, ops[..n]), ops[n], v, l);
      assert ops == ops[..n] + [ops[n]];
      NotRemovedNext(ops[..n], ops[n], l);
    }
  }

  /** An item of a closed view is live if and only if the close collected it and has not come to
      removing it, or it was added after the close and not removed since. */
  lemma ClosedViewExactly(before: seq<ItemOp>, after: seq<ItemOp>, v: ViewId, l: LocalId)
    requires v !in Run(before).0.closed
    ensures var s0, s := Run(before).0, Run(before + [Close(v)] + after).0;
            LiveOf(s, v, l)
            <==> (l in OfView(s0.items, v) && l in s.doomed)
                 || AddedSince(Run(before + [Close(v)]).0, after, v, l)
  {
    hide Run, Inv, AddedSince, After;
    var s0 := Run(before).0;
    RunKeeps(before);
    ItemsBelow(s0, Run(before).1);
    RunClose(before, v);
    var s1 := Run(before + [Close(v)]).0;
    RunAfter(before + [Close(v)], after);
    LiveExactly(s1, after, v, l);
    if l in OfView(s0.items, v) {
      DoomedExactly(s1, after, v, l);
    }
  }

  lemma ItemsBelow(s: State, w: Wire)
    requires Inv(s, w)
    ensures forall l :: l in s.items ==> l < s.nextLocal
  {
    hide Handshake, Accounted;
  }

  lemma RunClose(before: seq<ItemOp>, v: ViewId)
    ensures Run(before + [Close(v)]).0 == Closed(Run(before).0, v)
  {
    RunNext(before, Close(v), Run(before).0, Run(before).1);
  }

  /** Every item added for view `v` has been removed. */
  ghost predicate AllRemovedSince(s: State, ops: seq<ItemOp>, v: ViewId) {
    forall l: LocalId :: !AddedSince(s, ops, v, l)
  }

  /** So once the close has run its removals, the view keeps no item, if and only if every item added
      for it after the close has been removed. */
  lemma ClosedViewKeepsNothing(before: seq<ItemOp>, after: seq<ItemOp>, v: ViewId)
    requires v !in Run(before).0.closed
    ensures var s := Run(before + [Close(v)] + after).0;
            OfView(s.items, v) * s.doomed == {} ==>
              (OfView(s.items, v) == {} <==> AllRemovedSince(Run(before + [Close(v)]).0, after, v))
  {
    hide Run, AddedSince;
    var s1, s := Run(before + [Close(v)]).0, Run(before + [Close(v)] + after).0;
    forall l: LocalId
      ensures LiveOf(s, v, l) && l !in s.doomed ==> AddedSince(s1, after, v, l)
      ensures AddedSince(s1, after, v, l) ==> LiveOf(s, v, l)
    {
      ClosedViewExactly(before, after, v, l);
    }
    if OfView(s.items, v) == {} {
      forall l: LocalId
        ensures !AddedSince(s1, after, v, l)
      {
        assert LiveOf(s, v, l) ==> l in OfView(s.items, v);
      }
      assert AllRemovedSince(s1, after, v);
    } else {
      var l :| l in OfView(s.items, v);
      assert l in s.doomed ==> l in OfView(s.items, v) * s.doomed;
      assert LiveOf(s, v, l);
    }
  }

  /** An item added to a closed view is created on the server and stays there: closing the view again
      does not remove it. */
  lemma ClosedViewLeaks()
    ensures var (s, w) := Run([Ensure, Created(true), Flush, Close(1), Add(1), BeginCreate(1),
                               EndCreate(1, Some(5)), Close(1)]);
            && s.closed == {1} && s.doomed == {} && s.items == map[1 := Record(1, 5)]
            && w.granted == multiset{5} && w.deleted == multiset{} && s.deleteDue == multiset{}
  {
    hide Step, Note, Run;
    var up, added := NEW.(impl := true), NEW.(impl := true, closed := {1}, nextLocal := 2,
      items := map[1 := Record(1, 0)]);
    var sent := NOTHING.(created := multiset{1});
    LeakSteps(up, added, sent);
    NothingRun();
    var ops := [Ensure, Created(true), Flush, Close(1), Add(1), BeginCreate(1), EndCreate(1, Some(5)), Close(1)];
    assert ops[..1] == [] + [ops[0]] && ops[..2] == ops[..1] + [ops[1]] && ops[..3] == ops[..2] + [ops[2]];
    assert ops[..4] == ops[..3] + [ops[3]] && ops[..5] == ops[..4] + [ops[4]] && ops[..6] == ops[..5] + [ops[5]];
    assert ops[..7] == ops[..6] + [ops[6]] && ops == ops[..7] + [ops[7]];
    RunNext([], ops[0], NEW, NOTHING);
    RunNext(ops[..1], ops[1], NEW.(impl := true, creating := true, awaiting := true), NOTHING);
    RunNext(ops[..2], ops[2], up.(flushDue := true), NOTHING);
    RunNext(ops[..3], ops[3], up, NOTHING);
    RunNext(ops[..4], ops[4], up.(closed := {1}), NOTHING);
    RunNext(ops[..5], ops[5], added.(due := multiset{1}), NOTHING);
    RunNext(ops[..6], ops[6], added.(inFlight := multiset{1}), sent);
    RunNext(ops[..7], ops[7], added.(items := map[1 := Record(1, 5)]), sent.(granted := multiset{5}));
  }

  lemma NothingRun()
    ensures Run([]) == (NEW, NOTHING)
  {
  }

  lemma LeakSteps(up: State, added: State, sent: Wire)
    requires up == NEW.(impl := true) && sent == NOTHING.(created := multiset{1})
    requires added == up.(closed := {1}, nextLocal := 2, items := map[1 := Record(1, 0)])
    ensures Step(NEW, Ensure) == NEW.(impl := true, creating := true, awaiting := true)
    ensures Step(NEW.(impl := true, creating := true, awaiting := true), Created(true)) == up.(flushDue := true)
    ensures Step(up.(flushDue := true), Flush) == up && Step(up, Close(1)) == up.(closed := {1})
    ensures Step(up.(closed := {1}), Add(1)) == added.(due := multiset{1})
    ensures Step(added.(due := multiset{1}), BeginCreate(1)) == added.(inFlight := multiset{1})
    ensures Step(added.(inFlight := multiset{1}), EndCreate(1, Some(5))) == added.(items := map[1 := Record(1, 5)])
    ensures Step(added.(items := map[1 := Record(1, 5)]), Close(1)) == added.(items := map[1 := Record(1, 5)])
    ensures forall s: State, op: ItemOp ::
              op.Ensure? || op.Flush? || op.Close? || op.Add? || op == Created(true) ==>
              Note(s, NOTHING, op) == NOTHING
    ensures Note(added.(due := multiset{1}), NOTHING, BeginCreate(1)) == sent
    ensures Note(added.(inFlight := multiset{1}), sent, EndCreate(1, Some(5))) == sent.(granted := multiset{5})
    ensures Note(added.(items := map[1 := Record(1, 5)]), sent.(granted := multiset{5}), Close(1))
            == sent.(granted := multiset{5})
  {
  }

  lemma RunNext(ops: seq<ItemOp>, op: ItemOp, s: State, w: Wire)
    requires Run(ops) == (s, w)
    ensures Run(ops + [op]) == (Step(s, op), Note(s, w, op))
  {
    assert (ops + [op])[..|ops|] == ops;
  }
}
