/** Vocabulary shared by every component: optional values, status codes and a few
    facts about sequences that the standard collections do not give directly. */
module Common {

  datatype Option<+T> = None | Some(value: T)

  /** The status codes the modelled services distinguish. `Other` stands for any code an
      authenticator, a transport or a backing service may hand back. */
  datatype Status =
    | Good
    | Bad
    | BadAttributeIdInvalid
    | BadMonitoredItemIdInvalid
    | BadSubscriptionIdInvalid
    | BadSequenceNumberUnknown
    | BadMessageNotAvailable
    | BadNoSubscription
    | BadNoContinuationPoints
    | BadContinuationPointInvalid
    | BadSessionIdInvalid
    | BadUserIsAlreadyLoggedOn
    | BadApplicationSignatureInvalid
    | BadIdentityTokenRejected
    | Other(code: nat)

  function Min(a: int, b: int): int {
    if a <= b then a else b
  }

  function Max(a: int, b: int): int {
    if a >= b then a else b
  }

  function RemoveAt<T>(s: seq<T>, i: nat): (r: seq<T>)
    requires i < |s|
    ensures |r| == |s| - 1
    ensures forall j :: 0 <= j < i ==> r[j] == s[j]
    ensures forall j :: i <= j < |r| ==> r[j] == s[j + 1]
  {
    s[..i] + s[i + 1..]
  }

  predicate Increasing(s: seq<int>) {
    forall i, j :: 0 <= i < j < |s| ==> s[i] < s[j]
  }

  predicate Distinct<T(==)>(s: seq<T>) {
    forall i, j :: 0 <= i < j < |s| ==> s[i] != s[j]
  }

  function Elements<T>(s: seq<T>): set<T> {
    set x | x in s
  }

  /** A sequence that lists the members of a set, each once. */
  predicate Lists<T(==)>(order: seq<T>, keys: set<T>) {
    Distinct(order) && Elements(order) == keys
  }

  /** Two listings of one set have the same length, namely its size. */
  lemma {:induction false} DistinctSize<T>(s: seq<T>)
    requires Distinct(s)
    ensures |Elements(s)| == |s|
  {
    if s != [] {
      var n := |s| - 1;
      DistinctSize(s[..n]);
      assert Elements(s) == Elements(s[..n]) + {s[n]};
      assert s[n] !in Elements(s[..n]);
    }
  }

  function Below(n: nat): (r: set<int>)
    ensures |r| == n
    ensures forall k :: k in r <==> 0 <= k < n
  {
    if n == 0 then {} else Below(n - 1) + {n - 1}
  }

  lemma {:induction false} SubsetSize<T>(a: set<T>, b: set<T>)
    requires a <= b
    ensures |a| <= |b|
  {
    assert a + (b - a) == b;
  }

  lemma ListsAppend<T>(order: seq<T>, keys: set<T>, x: T)
    requires Lists(order, keys) && x !in keys
    ensures Lists(order + [x], keys + {x})
  {
    assert forall i :: 0 <= i < |order| ==> order[i] in Elements(order);
  }

  lemma {:induction false} Monotone(p: nat, a: nat, b: nat)
    requires a <= b
    ensures p * a <= p * b
  {
    if a < b {
      Monotone(p, a, b - 1);
      assert p * b == p * (b - 1) + p;
    }
  }
}
