/** The retransmission queue of a subscription: messages kept for Republish until they are
    acknowledged, bounded by the notifications they carry. */
module Retransmission {
  import opened Common
  import opened PendingQueue

  const MAX_PER_RESPONSE: nat := 1000
  const MAX_RETAINED: nat := 1024

  type Time = int

  datatype Message = Message(number: nat, time: Time, data: seq<Data>)

  /** `retained` caches the number of notifications the held messages carry. */
  datatype Ring = Ring(held: seq<Message>, retained: int, next: nat)

  /** The place of a message in the queue, by number. */
  function Find(held: seq<Message>, number: nat): (i: Option<nat>)
    ensures i.Some? ==> i.value < |held| && held[i.value].number == number
    ensures i.Some? ==> forall j :: 0 <= j < i.value ==> held[j].number != number
    ensures i.None? ==> forall j :: 0 <= j < |held| ==> held[j].number != number
  {
    if held == [] then None
    else if held[0].number == number then Some(0)
    else match Find(held[1..], number)
         case None => None
         case Some(i) => Some(i + 1)
  }

  function Acknowledge(r: Ring, number: nat): (Ring, Status) {
    match Find(r.held, number)
    case None => (r, BadSequenceNumberUnknown)
    case Some(i) =>
      (r.(held := RemoveAt(r.held, i), retained := r.retained - |r.held[i].data|), Good)
  }

  function Republish(r: Ring, number: nat): Option<Message> {
    match Find(r.held, number)
    case None => None
    case Some(i) => Some(r.held[i])
  }

  function Numbers(held: seq<Message>): (r: seq<nat>)
    ensures |r| == |held|
    ensures forall i :: 0 <= i < |held| ==> r[i] == held[i].number
  {
    if held == [] then [] else Numbers(held[..|held| - 1]) + [held[|held| - 1].number]
  }

  /** Drops the oldest messages while the total is over the bound, never the newest one. */
  function Evict(held: seq<Message>, retained: int): (seq<Message>, int) {
    if |held| > 1 && retained > MAX_RETAINED
    then Evict(held[1..], retained - |held[0].data|)
    else (held, retained)
  }

  function Retain(r: Ring, m: Message): Ring {
    var (held, retained) := Evict(r.held + [m], r.retained + |m.data|);
    Ring(held, retained, r.next + 1)
  }

  // ---------- invariant ----------

  function Size(held: seq<Message>): nat {
    if held == [] then 0 else |held[0].data| + Size(held[1..])
  }

  /** All messages ever sent, which were acknowledged and which were evicted. */
  datatype Mail = Mail(sent: seq<Message>, acked: set<int>, evicted: set<int>)

  ghost predicate Holds(held: seq<Message>, n: int) {
    exists i :: 0 <= i < |held| && held[i].number == n
  }

  /** Numbers are given out from 1 without a gap, and no message is empty or over the cap. */
  ghost predicate Numbered(sent: seq<Message>) {
    forall i :: 0 <= i < |sent| ==>
      sent[i].number == i + 1 && 1 <= |sent[i].data| <= MAX_PER_RESPONSE
  }

  /** Held messages are unaltered copies of sent ones, in number order. */
  ghost predicate Copies(held: seq<Message>, sent: seq<Message>) {
    && (forall i, j :: 0 <= i < j < |held| ==> held[i].number < held[j].number)
    && (forall i :: 0 <= i < |held| ==>
          1 <= held[i].number <= |sent| && held[i] == sent[held[i].number - 1])
  }

  /** A sent message is held exactly while neither acknowledged nor evicted, and every evicted
      number is below every held one. */
  ghost predicate Accounted(held: seq<Message>, m: Mail) {
    && (forall n :: n in m.acked ==> 1 <= n <= |m.sent| && n !in m.evicted)
    && (forall n :: n in m.evicted ==> 1 <= n <= |m.sent|)
    && (forall n :: 1 <= n <= |m.sent| ==> (Holds(held, n) <==> n !in m.acked && n !in m.evicted))
    && (forall n, i :: n in m.evicted && 0 <= i < |held| ==> n < held[i].number)
  }

  ghost predicate Faithful(r: Ring, m: Mail) {
    && r.retained == Size(r.held) <= MAX_RETAINED
    && r.next == |m.sent| + 1
    && Numbered(m.sent) && Copies(r.held, m.sent) && Accounted(r.held, m)
  }

  // ---------- sizes ----------

  lemma {:induction false} SizeSplit(a: seq<Message>, b: seq<Message>)
    ensures Size(a + b) == Size(a) + Size(b)
  {
    if a == [] {
      assert a + b == b;
    } else {
      SizeSplit(a[1..], b);
      assert (a + b)[1..] == a[1..] + b;
    }
  }

  lemma SizeAppend(held: seq<Message>, m: Message)
    ensures Size(held + [m]) == Size(held) + |m.data|
  {
    SizeSplit(held, [m]);
    assert [m][1..] == [];
  }

  lemma SizeRemove(held: seq<Message>, i: nat)
    requires i < |held|
    ensures Size(RemoveAt(held, i)) == Size(held) - |held[i].data|
  {
    SizeSplit(held[..i], held[i + 1..]);
    SizeSplit(held[..i], held[i..]);
    assert held[..i] + held[i..] == held && held[i..][1..] == held[i + 1..];
  }

  /** Eviction keeps the longest suffix that fits, and always the newest message. */
  lemma {:induction false} EvictSuffix(held: seq<Message>, retained: int) returns (k: nat)
    requires held != [] && retained == Size(held) && |held[|held| - 1].data| <= MAX_RETAINED
    ensures k < |held| && Evict(held, retained) == (held[k..], Size(held[k..]))
    ensures Size(held[k..]) <= MAX_RETAINED
    ensures k > 0 ==> Size(held[k - 1..]) > MAX_RETAINED
  {
    if |held| > 1 && retained > MAX_RETAINED {
      var j := EvictSuffix(held[1..], retained - |held[0].data|);
      k := j + 1;
      assert held[1..][j..] == held[k..];
      if j > 0 {
        assert held[1..][j - 1..] == held[k - 1..];
      } else {
        assert held[0..] == held;
      }
    } else {
      k := 0;
      assert held[0..] == held;
      if |held| == 1 {
        assert held[1..] == [];
      }
    }
  }

  // ---------- acknowledging ----------

  ghost function MailAck(m: Mail, r: Ring, number: nat): Mail {
    if Find(r.held, number).Some? then m.(acked := m.acked + {number}) else m
  }

  lemma HoldsRemove(held: seq<Message>, at: nat, n: int)
    requires at < |held|
    requires forall i, j :: 0 <= i < j < |held| ==> held[i].number < held[j].number
    ensures Holds(RemoveAt(held, at), n) <==> Holds(held, n) && n != held[at].number
  {
    var h := RemoveAt(held, at);
    if Holds(held, n) && n != held[at].number {
      var i :| 0 <= i < |held| && held[i].number == n;
      assert if i < at then h[i].number == n else h[i - 1].number == n;
    }
    if i :| 0 <= i < |h| && h[i].number == n {
      assert if i < at then held[i].number == n else held[i + 1].number == n;
    }
  }

  lemma AckAccounted(held: seq<Message>, m: Mail, at: nat)
    requires at < |held| && Copies(held, m.sent) && Accounted(held, m)
    ensures Accounted(RemoveAt(held, at), m.(acked := m.acked + {held[at].number}))
  {
    assert Holds(held, held[at].number);
    forall n {
      HoldsRemove(held, at, n);
    }
  }

  lemma AckCopies(held: seq<Message>, sent: seq<Message>, at: nat)
    requires at < |held| && Copies(held, sent)
    ensures Copies(RemoveAt(held, at), sent)
  {
  }

  lemma AckFaithful(r: Ring, m: Mail, number: nat)
    requires Faithful(r, m)
    ensures Faithful(Acknowledge(r, number).0, MailAck(m, r, number))
  {
    var at := Find(r.held, number);
    if at.Some? {
      SizeRemove(r.held, at.value);
      AckAccounted(r.held, m, at.value);
      AckCopies(r.held, m.sent, at.value);
      hide Accounted, Copies, Size;
    }
  }

  // ---------- sending ----------

  ghost function MailSend(m: Mail, r: Ring, msg: Message): Mail {
    var h := Retain(r, msg).held;
    m.(sent := m.sent + [msg], evicted := m.evicted + set x | x in r.held && x !in h :: x.number)
  }

  lemma HoldsAppend(held: seq<Message>, msg: Message, n: int)
    ensures Holds(held + [msg], n) <==> Holds(held, n) || n == msg.number
  {
    var h := held + [msg];
    if i :| 0 <= i < |held| && held[i].number == n {
      assert h[i].number == n;
    }
    assert h[|held|].number == msg.number;
  }

  lemma SendAccounted(held: seq<Message>, m: Mail, msg: Message)
    requires Copies(held, m.sent) && Accounted(held, m) && msg.number == |m.sent| + 1
    ensures Accounted(held + [msg], m.(sent := m.sent + [msg]))
  {
    forall n {
      HoldsAppend(held, msg, n);
    }
  }

  lemma HoldsSuffix(held: seq<Message>, k: nat, n: int)
    requires k <= |held|
    ensures Holds(held, n) <==> Holds(held[..k], n) || Holds(held[k..], n)
  {
    if i :| 0 <= i < |held| && held[i].number == n {
      assert if i < k then held[..k][i].number == n else held[k..][i - k].number == n;
    }
  }

  lemma EvictAccounted(held: seq<Message>, m: Mail, k: nat, out: set<int>)
    requires k <= |held| && Copies(held, m.sent) && Accounted(held, m)
    requires forall n :: n in out <==> Holds(held[..k], n)
    ensures Accounted(held[k..], m.(evicted := m.evicted + out))
  {
    forall n {
      HoldsSuffix(held, k, n);
    }
    forall n | n in out
      ensures 1 <= n <= |m.sent| && n !in m.acked && !Holds(held[k..], n)
      ensures forall i :: 0 <= i < |held[k..]| ==> n < held[k..][i].number
    {
      assert Holds(held, n);
      var i :| 0 <= i < |held[..k]| && held[..k][i].number == n;
    }
    forall n, i | n in m.evicted && 0 <= i < |held[k..]|
      ensures n < held[k..][i].number
    {
      assert held[k..][i] == held[k + i];
    }
    assert forall n :: Holds(held[k..], n) ==> Holds(held, n);
  }

  /** The messages that leave are those before the suffix that stays. */
  lemma EvictedNumbers(was: seq<Message>, sent: seq<Message>, msg: Message, k: nat)
    requires k <= |was| && Copies(was, sent) && msg.number == |sent| + 1
    ensures var h := (was + [msg])[k..];
            var out := set x | x in was && x !in h :: x.number;
            forall n :: n in out <==> Holds((was + [msg])[..k], n)
  {
    var all := was + [msg];
    var h := all[k..];
    var out := set x | x in was && x !in h :: x.number;
    forall n
      ensures n in out <==> Holds(all[..k], n)
    {
      if n in out {
        var x :| x in was && x !in h && x.number == n;
        assert all == all[..k] + h && x in all;
        var i :| 0 <= i < |all[..k]| && all[..k][i] == x;
      }
      if i :| 0 <= i < k && all[..k][i].number == n {
        var x := was[i];
        assert x !in h;
        assert x in was && x.number == n;
      }
    }
  }

  lemma SendFaithful(r: Ring, m: Mail, msg: Message)
    requires Faithful(r, m) && msg.number == r.next && 1 <= |msg.data| <= MAX_PER_RESPONSE
    ensures Faithful(Retain(r, msg), MailSend(m, r, msg))
  {
    hide Accounted, Copies, Holds, Evict, Size;
    var all, m1 := r.held + [msg], m.(sent := m.sent + [msg]);
    SizeAppend(r.held, msg);
    var k := EvictSuffix(all, r.retained + |msg.data|);
    var out := set x | x in r.held && x !in all[k..] :: x.number;
    assert MailSend(m, r, msg) == m1.(evicted := m1.evicted + out);
    EvictedNumbers(r.held, m.sent, msg, k);
    SendAccounted(r.held, m, msg);
    SendCopies(r.held, m.sent, msg, k);
    EvictAccounted(all, m1, k, out);
  }

  /** Message `n` is held, and with the messages after it and the new one it is over the bound. */
  ghost predicate Overflows(held: seq<Message>, msg: Message, n: int) {
    exists j :: 0 <= j < |held| && held[j].number == n && Size(held[j..]) + |msg.data| > MAX_RETAINED
  }

  lemma {:induction false} SizeShrinks(held: seq<Message>, i: nat, j: nat)
    requires i <= j <= |held|
    ensures Size(held[j..]) <= Size(held[i..])
  {
    SizeSplit(held[i..j], held[j..]);
    assert held[i..j] + held[j..] == held[i..];
  }

  /** The cut at `k`, which leaves as much as fits, is after exactly the messages that no longer fit. */
  lemma CutPoint(held: seq<Message>, msg: Message, k: nat, j: nat)
    requires var all := held + [msg];
             k <= |held| && Size(all[k..]) <= MAX_RETAINED && (k > 0 ==> Size(all[k - 1..]) > MAX_RETAINED)
    requires j < |held|
    ensures j < k <==> Size(held[j..]) + |msg.data| > MAX_RETAINED
  {
    hide Size;
    var all := held + [msg];
    SizeAppend(held[j..], msg);
    assert all[j..] == held[j..] + [msg];
    if j < k {
      SizeShrinks(all, j, k - 1);
    } else {
      SizeShrinks(all, k, j);
    }
  }

  lemma FrontOverflows(held: seq<Message>, msg: Message, k: nat, n: int)
    requires k <= |held|
    requires forall j :: 0 <= j < |held| ==> (j < k <==> Size(held[j..]) + |msg.data| > MAX_RETAINED)
    ensures Holds((held + [msg])[..k], n) <==> Overflows(held, msg, n)
  {
    hide Size;
    assert (held + [msg])[..k] == held[..k];
    if Holds(held[..k], n) {
      var i :| 0 <= i < k && held[..k][i].number == n;
      assert held[i].number == n && Size(held[i..]) + |msg.data| > MAX_RETAINED;
    }
    if Overflows(held, msg, n) {
      var j :| 0 <= j < |held| && held[j].number == n && Size(held[j..]) + |msg.data| > MAX_RETAINED;
      assert held[..k][j].number == n;
    }
  }

  /** Sending evicts exactly the messages that, with all after them, no longer fit. */
  lemma SendEvicts(r: Ring, m: Mail, msg: Message, n: int)
    requires Faithful(r, m) && msg.number == r.next && 1 <= |msg.data| <= MAX_PER_RESPONSE
    ensures n in MailSend(m, r, msg).evicted <==> n in m.evicted || Overflows(r.held, msg, n)
  {
    hide Accounted, Copies, Evict, Size, Overflows, Holds;
    var all := r.held + [msg];
    SizeAppend(r.held, msg);
    var k := EvictSuffix(all, r.retained + |msg.data|);
    EvictedNumbers(r.held, m.sent, msg, k);
    forall j | 0 <= j < |r.held|
      ensures j < k <==> Size(r.held[j..]) + |msg.data| > MAX_RETAINED
    {
      CutPoint(r.held, msg, k, j);
    }
    FrontOverflows(r.held, msg, k, n);
    var out := set x | x in r.held && x !in all[k..] :: x.number;
    assert MailSend(m, r, msg).evicted == m.evicted + out;
  }

  lemma SendCopies(held: seq<Message>, sent: seq<Message>, msg: Message, k: nat)
    requires Copies(held, sent) && msg.number == |sent| + 1 && k <= |held|
    ensures Copies(held + [msg], sent + [msg]) && Copies((held + [msg])[k..], sent + [msg])
  {
  }

  // ---------- what the client can rely on ----------

  /** Republish returns the original message exactly while it is neither acknowledged nor evicted;
      any other number is unavailable. */
  lemma RepublishExact(r: Ring, m: Mail, n: nat)
    requires Faithful(r, m)
    ensures 1 <= n <= |m.sent| && n !in m.acked && n !in m.evicted
            ==> Republish(r, n) == Some(m.sent[n - 1])
    ensures !(1 <= n <= |m.sent| && n !in m.acked && n !in m.evicted) ==> Republish(r, n) == None
  {
    if 1 <= n <= |m.sent| {
      assert Holds(r.held, n) <==> Find(r.held, n).Some?;
    }
  }
}
