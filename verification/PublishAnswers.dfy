/** What a publish is answered, and when: everything a response says, in every reachable state, and how long
    the next one takes. */
module PublishAnswers {
  import opened Common
  import opened PendingQueue
  import opened Retransmission
  import opened Bindings
  import opened Subscription
  import opened SubscriptionRuns
  import opened SubscriptionTheorems

  // ---------- parameters over a run ----------

  /** The parameters the subscription was last given, by a modify or when it was created. */
  ghost function Requested(p: Params, ops: seq<Op>): Params {
    if ops == [] then p
    else
      var op := ops[|ops| - 1];
      if op.ModifySub? then op.params
      else if op.SetEnabled? then Requested(p, ops[..|ops| - 1]).(enabled := op.enabled)
      else Requested(p, ops[..|ops| - 1])
  }

  /** In every run the subscription has its id and the parameters it was last given, with three keep-alives
      where none are asked for; the lifetime is no shorter than asked for, nor than the product. */
  lemma {:induction false} ParamsExactly(id: nat, p: Params, now: Time, ops: seq<Op>)
    ensures var s, q := Run(Initial(id, p, now), ops), Requested(p, ops);
            && s.id == id
            && s.params.intervalMs == q.intervalMs && s.params.maxPerPublish == q.maxPerPublish
            && s.params.enabled == q.enabled
            && s.params.keepAlive == (if q.keepAlive == 0 then 3 else q.keepAlive)
            && s.params.lifetime == Max(q.lifetime, 3 * s.params.keepAlive % 0x1_0000_0000)
  {
    if ops != [] {
      hide Run, Initial;
      var n := |ops| - 1;
      ParamsExactly(id, p, now, ops[..n]);
      RunNext(Initial(id, p, now), ops);
      StepParams(Run(Initial(id, p, now), ops[..n]), ops[n]);
      hide Step;
    }
  }

  lemma RunNext(s: Sub, ops: seq<Op>)
    requires ops != []
    ensures Run(s, ops) == Step(Run(s, ops[..|ops| - 1]), ops[|ops| - 1])
  {
    hide Step;
  }

  lemma StepParams(s: Sub, op: Op)
    ensures var s' := Step(s, op);
            && s'.id == s.id
            && s'.params == (if op.ModifySub? then Revise(op.params)
                             else if op.SetEnabled? then s.params.(enabled := op.enabled) else s.params)
  {
    hide Revise;
  }

  // ---------- the clock over a run ----------

  /** Step `i` is a publish that was answered. */
  ghost predicate AnsweredAt(s: Sub, ops: seq<Op>, i: int) {
    && 0 <= i < |ops| && ops[i].Publish?
    && TryPublish(Run(s, ops[..i]), ops[i].now).1.Some?
  }

  /** The time of the last answer of a run, if there was one. */
  ghost function LastAnswer(s: Sub, ops: seq<Op>): Option<Time> {
    if ops == [] then None
    else if AnsweredAt(s, ops, |ops| - 1) then Some(ops[|ops| - 1].now)
    else LastAnswer(s, ops[..|ops| - 1])
  }

  /** The clock of a subscription runs from its last answer, and before the first from its creation. */
  lemma {:induction false} ClockExactly(id: nat, p: Params, now: Time, ops: seq<Op>)
    ensures var s0 := Initial(id, p, now);
            var s, last := Run(s0, ops), LastAnswer(s0, ops);
            && s.lastPublish == Some(if last.Some? then last.value else now)
            && (s.initialSent <==> last.Some?)
  {
    if ops != [] {
      hide Run, Initial;
      var n := |ops| - 1;
      var s0 := Initial(id, p, now);
      ClockExactly(id, p, now, ops[..n]);
      RunNext(s0, ops);
      StepClock(Run(s0, ops[..n]), ops[n]);
      hide Step, TryPublish;
    }
  }

  lemma StepClock(s: Sub, op: Op)
    requires s.lastPublish.Some?
    ensures var s' := Step(s, op);
            if op.Publish? && TryPublish(s, op.now).1.Some? then s'.lastPublish == Some(op.now) && s'.initialSent
            else s'.lastPublish == s.lastPublish && s'.initialSent == s.initialSent
  {
    hide Retain, Numbers, Queues, Without, StepTable;
  }

  /** When the next answer comes after a run: one publishing interval after the last one (or the creation)
      if there is data that may be sent, or nothing has been answered yet; otherwise as many intervals after
      it as the keep-alive count says. An interval is at least a millisecond. */
  ghost function Due(id: nat, p: Params, now: Time, ops: seq<Op>): Time {
    var s0 := Initial(id, p, now);
    var s, q, last := Run(s0, ops), Requested(p, ops), LastAnswer(s0, ops);
    var interval := if q.intervalMs < 1 then 1 else q.intervalMs;
    if last.None? then now + interval
    else if q.enabled && s.pending != [] then last.value + interval
    else last.value + interval * (if q.keepAlive == 0 then 3 else q.keepAlive)
  }

  /** A publish is answered if and only if that time has come, and that is the deadline the subscription
      reports. */
  lemma AnsweredExactly(id: nat, p: Params, now: Time, ops: seq<Op>, t: Time)
    ensures var s := Run(Initial(id, p, now), ops);
            && (TryPublish(s, t).1.Some? <==> t >= Due(id, p, now, ops))
            && NextPublishDeadline(s) == Some(Due(id, p, now, ops))
  {
    ClockExactly(id, p, now, ops);
    ParamsExactly(id, p, now, ops);
    DueOf(Run(Initial(id, p, now), ops), t, Due(id, p, now, ops));
    hide Run, LastAnswer, Requested, TryPublish, NextPublishDeadline;
  }

  /** The same of one state. */
  lemma DueOf(s: Sub, t: Time, due: Time)
    requires s.lastPublish.Some? && s.params.keepAlive > 0
    requires var interval := if s.params.intervalMs < 1 then 1 else s.params.intervalMs;
             due == s.lastPublish.value
                    + (if !s.initialSent || (s.params.enabled && s.pending != []) then interval
                       else interval * s.params.keepAlive)
    ensures (TryPublish(s, t).1.Some? <==> t >= due) && NextPublishDeadline(s) == Some(due)
  {
    hide Retain, Numbers;
  }

  // ---------- what an answer says ----------

  /** How many entries a message may carry: what was asked for, up to 1000. */
  function Asked(p: Params): nat {
    if p.maxPerPublish == 0 || p.maxPerPublish > 1000 then 1000 else p.maxPerPublish
  }

  /** Everything the answer `r` says that is given in state `s` at time `t` and leaves `s'`. It carries the
      front of the queue, as much as it may, if publishing is enabled, and nothing otherwise; it says there
      is more exactly if entries are left that may be sent; it lists exactly the messages that can be had
      again, among them the one it carries. */
  ghost predicate SaysAll(s: Sub, s': Sub, r: Response, t: Time) {
    var m := if s.params.enabled then Min(Asked(s.params), |s.pending|) else 0;
    && r.subscription == s.id
    && r.message.time == t && r.message.number == s.ring.next
    && |r.message.data| == m && (forall i :: 0 <= i < m ==> r.message.data[i] == s.pending[i].data)
    && s'.pending == s.pending[m..]
    && (r.more <==> s'.params.enabled && s'.pending != [])
    && Increasing(r.available)
    && (forall n: nat :: n in r.available <==> Republish(s'.ring, n).Some?)
    && (m > 0 ==> Republish(s'.ring, r.message.number) == Some(r.message))
    && (m == 0 ==> s'.ring == s.ring)
  }

  /** Whatever a publish is answered in a reachable state is all of that, for the subscription that was
      created; and the message has the number the next message with data will have, or has if it is one. */
  lemma AnswerExactly(id: nat, p: Params, now: Time, ops: seq<Op>, t: Time)
    ensures var s0 := Initial(id, p, now);
            var s := Run(s0, ops);
            var (s', answer) := TryPublish(s, t);
            && s.id == id && s.ring.next == |Sends(s0, ops)| + 1
            && (answer.Some? ==> SaysAll(s, s', answer.value, t))
  {
    hide TryPublish, SaysAll, Run, History, Inv, Sends, Requested, LastAnswer, Step, Initial, Faithful;
    var s0 := Initial(id, p, now);
    var s := Run(s0, ops);
    var after := ops + [Publish(t)];
    ParamsExactly(id, p, now, ops);
    ClockExactly(id, p, now, ops);
    HistorySent(id, p, now, ops);
    RunNext(s0, after);
    assert after[..|ops|] == ops;
    InvFaithful(s, History(id, p, now, ops));
    InvFaithful(Run(s0, after), History(id, p, now, after));
    PublishStep(s, t);
    FaithfulMeans(s.ring, History(id, p, now, ops).mail);
    FaithfulMeans(Run(s0, after).ring, History(id, p, now, after).mail);
    AnswerOf(s, t);
  }

  lemma AnswerOf(s: Sub, t: Time)
    requires s.lastPublish.Some? && s.ring.retained == Size(s.ring.held)
    requires var held := TryPublish(s, t).0.ring.held;
             forall i, j :: 0 <= i < j < |held| ==> held[i].number < held[j].number
    ensures TryPublish(s, t).1.Some? ==> SaysAll(s, TryPublish(s, t).0, TryPublish(s, t).1.value, t)
  {
    AnswerShape(s, t);
    AnswerKept(s, t);
    var held := TryPublish(s, t).0.ring.held;
    hide TryPublish, Size;
    forall n: nat
      ensures Increasing(Numbers(held)) && (n in Numbers(held) <==> Find(held, n).Some?)
    {
      NumbersFound(held, n);
    }
    hide Find, Retain;
    if held != [] {
      LastFound(held);
    }
  }

  lemma LastFound(held: seq<Message>)
    requires held != [] && forall i, j :: 0 <= i < j < |held| ==> held[i].number < held[j].number
    ensures Find(held, held[|held| - 1].number) == Some(|held| - 1)
  {
    var f := Find(held, held[|held| - 1].number);
    assert f.Some?;
  }

  lemma PublishStep(s: Sub, t: Time)
    ensures Step(s, Publish(t)) == TryPublish(s, t).0
  {
    hide TryPublish;
  }

  lemma FaithfulMeans(r: Ring, m: Mail)
    requires Faithful(r, m)
    ensures r.next == |m.sent| + 1 && r.retained == Size(r.held)
    ensures forall i, j :: 0 <= i < j < |r.held| ==> r.held[i].number < r.held[j].number
  {
    hide Size, Accounted, Numbered;
  }

  lemma NumbersFound(held: seq<Message>, n: nat)
    requires forall i, j :: 0 <= i < j < |held| ==> held[i].number < held[j].number
    ensures Increasing(Numbers(held))
    ensures n in Numbers(held) <==> Find(held, n).Some?
  {
  }

  lemma AnswerShape(s: Sub, t: Time)
    requires s.lastPublish.Some?
    ensures var (s', answer) := TryPublish(s, t);
            answer.Some? ==>
              var r := answer.value;
              var m := if s.params.enabled then Min(Asked(s.params), |s.pending|) else 0;
              && r.subscription == s.id
              && r.message.time == t && r.message.number == s.ring.next
              && |r.message.data| == m && (forall i :: 0 <= i < m ==> r.message.data[i] == s.pending[i].data)
              && s'.pending == s.pending[m..] && s'.params == s.params
              && (r.more <==> s'.params.enabled && s'.pending != [])
              && r.available == Numbers(s'.ring.held)
              && (m == 0 ==> s'.ring == s.ring)
              && (m > 0 ==> s'.ring == Retain(s.ring, r.message))
  {
    hide Retain, Numbers, IsPublishReady;
  }

  /** A message just sent is kept: it fits by itself. */
  lemma AnswerKept(s: Sub, t: Time)
    requires s.lastPublish.Some? && s.ring.retained == Size(s.ring.held)
    ensures var (s', answer) := TryPublish(s, t);
            answer.Some? && answer.value.message.data != [] ==>
              var h := s'.ring.held; h != [] && h[|h| - 1] == answer.value.message
  {
    AnswerShape(s, t);
    var (s', answer) := TryPublish(s, t);
    hide TryPublish;
    if answer.Some? && answer.value.message.data != [] {
      var message := answer.value.message;
      SizeAppend(s.ring.held, message);
      hide Size;
      var k := EvictSuffix(s.ring.held + [message], s.ring.retained + |message.data|);
    }
  }

  // ---------- acknowledgements ----------

  ghost predicate InNumberOrder(held: seq<Message>) {
    forall i, j :: 0 <= i < j < |held| ==> held[i].number < held[j].number
  }

  lemma AcknowledgeOne(r: Ring, a: nat, n: nat)
    requires InNumberOrder(r.held)
    ensures var (r', status) := Acknowledge(r, a);
            && InNumberOrder(r'.held)
            && status == (if Republish(r, a).Some? then Good else BadSequenceNumberUnknown)
            && Republish(r', n) == (if n == a then None else Republish(r, n))
  {
    var i := Find(r.held, a);
    if i.Some? {
      var held := RemoveAt(r.held, i.value);
      RemovedFinds(r.held, i.value, held, n);
    }
  }

  lemma RemovedFinds(held: seq<Message>, i: nat, held': seq<Message>, n: nat)
    requires InNumberOrder(held) && i < |held| && held' == RemoveAt(held, i)
    ensures InNumberOrder(held')
    ensures Find(held', n).Some? <==> n != held[i].number && Find(held, n).Some?
    ensures Find(held', n).Some? ==> held'[Find(held', n).value] == held[Find(held, n).value]
  {
    hide Find, InNumberOrder;
    FindHolds(held, n);
    FindHolds(held', n);
    RemovedOrder(held, i, held');
    var f, f' := Find(held, n), Find(held', n);
    if f.Some? && n != held[i].number {
      assert f.value != i;
      var j := if f.value < i then f.value else f.value - 1;
      assert held'[j] == held[f.value];
      OneNumber(held', f'.value, j);
    } else {
      RemovedGone(held, i, held', n);
    }
  }

  lemma RemovedGone(held: seq<Message>, i: nat, held': seq<Message>, n: nat)
    requires InNumberOrder(held) && i < |held| && held' == RemoveAt(held, i)
    requires n == held[i].number || forall j :: 0 <= j < |held| ==> held[j].number != n
    ensures forall j :: 0 <= j < |held'| ==> held'[j].number != n
  {
    forall j | 0 <= j < |held'|
      ensures held'[j].number != n
    {
      assert held'[j] == held[if j < i then j else j + 1];
    }
  }

  lemma RemovedOrder(held: seq<Message>, i: nat, held': seq<Message>)
    requires InNumberOrder(held) && i < |held| && held' == RemoveAt(held, i)
    ensures InNumberOrder(held')
  {
    assert forall j :: 0 <= j < |held'| ==> held'[j] == held[if j < i then j else j + 1];
  }

  lemma OneNumber(held: seq<Message>, i: nat, j: nat)
    requires InNumberOrder(held) && i < |held| && j < |held| && held[i].number == held[j].number
    ensures i == j
  {
  }

  lemma FindHolds(held: seq<Message>, n: nat)
    ensures var f := Find(held, n);
            if f.Some? then f.value < |held| && held[f.value].number == n
            else forall j :: 0 <= j < |held| ==> held[j].number != n
  {
  }

  /** Acknowledging a message that can be had again succeeds, once; any other fails. Afterwards exactly the
      acknowledged messages cannot be had again any more. */
  lemma {:induction false} AcknowledgeAnswered(r: Ring, ns: seq<nat>, n: nat)
    requires InNumberOrder(r.held)
    ensures var (r', out) := AcknowledgeAll(r, ns);
            && InNumberOrder(r'.held) && |out| == |ns|
            && (forall k :: 0 <= k < |ns| ==>
                  out[k] == if Republish(r, ns[k]).Some? && ns[k] !in ns[..k] then Good
                            else BadSequenceNumberUnknown)
            && Republish(r', n) == if n in ns then None else Republish(r, n)
  {
    hide Acknowledge, Republish, InNumberOrder;
    if ns != [] {
      var m := |ns| - 1;
      AcknowledgeAnswered(r, ns[..m], n);
      AcknowledgeAnswered(r, ns[..m], ns[m]);
      var (r1, out) := AcknowledgeAll(r, ns[..m]);
      AcknowledgeOne(r1, ns[m], n);
      assert ns == ns[..m] + [ns[m]];
      assert forall k :: 0 <= k < m ==> ns[..m][..k] == ns[..k];
    }
  }

  /** The messages held in a reachable state are in number order. */
  lemma HeldInOrder(id: nat, p: Params, now: Time, ops: seq<Op>)
    ensures InNumberOrder(Run(Initial(id, p, now), ops).ring.held)
  {
    var s, t := Run(Initial(id, p, now), ops), History(id, p, now, ops);
    InvFaithful(s, t);
    hide Run, History, Inv, Initial;
    FaithfulMeans(s.ring, t.mail);
  }
}
