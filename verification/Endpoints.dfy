/** Comparing the endpoints a client discovered with those the server vouches for: a greedy matching
    that answers yes exactly when the two lists can be paired off. */
module Endpoints {
  import opened Common

  datatype UserToken = UserToken(policyId: string, tokenType: nat, issuer: string, policyUri: string)

  datatype Endpoint = Endpoint(
    url: string, mode: nat, policyUri: string, certificate: seq<nat>, transportUri: string,
    tokens: seq<UserToken>)

  // ---------- equivalence of two endpoints ----------

  /** What of a token, and of an endpoint, matters to security. */
  datatype TokenKey = TokenKey(policyId: string, tokenType: nat, policyUri: string)
  datatype Key = Key(mode: nat, policyUri: string, certificate: seq<nat>, transportUri: string, tokens: seq<TokenKey>)

  function TokenKeyOf(t: UserToken): TokenKey {
    TokenKey(t.policyId, t.tokenType, t.policyUri)
  }

  function TokenKeys(ts: seq<UserToken>): (r: seq<TokenKey>)
    ensures |r| == |ts| && forall i :: 0 <= i < |ts| ==> r[i] == TokenKeyOf(ts[i])
  {
    if ts == [] then [] else TokenKeys(ts[..|ts| - 1]) + [TokenKeyOf(ts[|ts| - 1])]
  }

  function KeyOf(e: Endpoint): Key {
    Key(e.mode, e.policyUri, e.certificate, e.transportUri, TokenKeys(e.tokens))
  }

  /** What makes two endpoints inequivalent: another mode, policy, certificate or transport profile, another
      number of token policies, or at some place one with another id, type or policy. Nothing else does. */
  lemma InequivalentExactly(a: Endpoint, b: Endpoint)
    ensures KeyOf(a) != KeyOf(b)
            <==> || a.mode != b.mode || a.policyUri != b.policyUri || a.certificate != b.certificate
                 || a.transportUri != b.transportUri || |a.tokens| != |b.tokens|
                 || exists i :: 0 <= i < |a.tokens|
                                && TokensDiffer(a.tokens[i], b.tokens[i])
  {
    var ka, kb := TokenKeys(a.tokens), TokenKeys(b.tokens);
    if |a.tokens| == |b.tokens| {
      if i :| 0 <= i < |a.tokens| && TokensDiffer(a.tokens[i], b.tokens[i]) {
        assert ka[i] != kb[i];
      } else {
        assert forall i :: 0 <= i < |ka| ==> ka[i] == kb[i] by {
          assert forall i :: 0 <= i < |ka| ==> !TokensDiffer(a.tokens[i], b.tokens[i]);
        }
        assert ka == kb;
      }
    } else {
      assert |ka| != |kb|;
    }
  }

  predicate TokensDiffer(a: UserToken, b: UserToken) {
    a.policyId != b.policyId || a.tokenType != b.tokenType || a.policyUri != b.policyUri
  }

  /** Two endpoints are equivalent exactly when they agree on everything that matters. */
  method SecurityEquivalent(a: Endpoint, b: Endpoint) returns (same: bool)
    ensures same <==> KeyOf(a) == KeyOf(b)
  {
    if a.mode != b.mode || a.policyUri != b.policyUri || a.certificate != b.certificate
       || a.transportUri != b.transportUri || |a.tokens| != |b.tokens| {
      assert |a.tokens| != |b.tokens| ==> |TokenKeys(a.tokens)| != |TokenKeys(b.tokens)|;
      return false;
    }
    for i := 0 to |a.tokens|
      invariant forall j :: 0 <= j < i ==> TokenKeyOf(a.tokens[j]) == TokenKeyOf(b.tokens[j])
    {
      var lhs, rhs := a.tokens[i], b.tokens[i];
      if lhs.policyId != rhs.policyId || lhs.tokenType != rhs.tokenType || lhs.policyUri != rhs.policyUri {
        assert TokenKeys(a.tokens)[i] != TokenKeys(b.tokens)[i];
        return false;
      }
    }
    assert TokenKeys(a.tokens) == TokenKeys(b.tokens);
    same := true;
  }

  // ---------- lists of endpoints ----------

  function Keys(es: seq<Endpoint>): (r: seq<Key>)
    ensures |r| == |es| && forall i :: 0 <= i < |es| ==> r[i] == KeyOf(es[i])
  {
    if es == [] then [] else Keys(es[..|es| - 1]) + [KeyOf(es[|es| - 1])]
  }

  /** `p` pairs every discovered endpoint with an equivalent authoritative one, none used twice. */
  ghost predicate Pairs(discovered: seq<Endpoint>, authoritative: seq<Endpoint>, p: seq<int>) {
    && |p| == |discovered| == |authoritative| && Distinct(p)
    && forall i :: 0 <= i < |p| ==>
         0 <= p[i] < |authoritative| && KeyOf(discovered[i]) == KeyOf(authoritative[p[i]])
  }

  /** The keys at the chosen places. */
  ghost function Chosen(keys: seq<Key>, places: set<int>): multiset<Key> {
    if keys == [] then multiset{}
    else
      var n := |keys| - 1;
      Chosen(keys[..n], places) + (if n in places then multiset{keys[n]} else multiset{})
  }

  lemma {:induction false} ChosenSame(keys: seq<Key>, a: set<int>, b: set<int>)
    requires forall i :: 0 <= i < |keys| ==> (i in a <==> i in b)
    ensures Chosen(keys, a) == Chosen(keys, b)
  {
    if keys != [] {
      ChosenSame(keys[..|keys| - 1], a, b);
    }
  }

  lemma {:induction false} ChosenOneMore(keys: seq<Key>, places: set<int>, i: int)
    requires 0 <= i < |keys| && i !in places
    ensures Chosen(keys, places + {i}) == Chosen(keys, places) + multiset{keys[i]}
  {
    hide Chosen;
    var n := |keys| - 1;
    ChosenNext(keys, places);
    ChosenNext(keys, places + {i});
    if i < n {
      ChosenOneMore(keys[..n], places, i);
    } else {
      ChosenSame(keys[..n], places, places + {i});
    }
  }

  lemma ChosenNext(keys: seq<Key>, places: set<int>)
    requires keys != []
    ensures var n := |keys| - 1;
            Chosen(keys, places) == Chosen(keys[..n], places) + (if n in places then multiset{keys[n]} else multiset{})
  {
  }

  lemma {:induction false} ChosenAll(keys: seq<Key>, places: set<int>, x: Key)
    requires forall i :: 0 <= i < |keys| && keys[i] == x ==> i in places
    ensures Chosen(keys, places)[x] == multiset(keys)[x]
  {
    if keys != [] {
      hide Chosen;
      var n := |keys| - 1;
      ChosenNext(keys, places);
      ChosenAll(keys[..n], places, x);
      Removed(keys, n);
      assert RemoveAt(keys, n) == keys[..n];
    }
  }

  lemma ChosenEvery(keys: seq<Key>, places: set<int>)
    requires forall i :: 0 <= i < |keys| ==> i in places
    ensures Chosen(keys, places) == multiset(keys)
  {
    forall x
      ensures Chosen(keys, places)[x] == multiset(keys)[x]
    {
      ChosenAll(keys, places, x);
    }
  }

  /** The keys of the endpoints paired so far are those at the places they are paired with. */
  lemma {:induction false} PairedKeys(d: seq<Key>, a: seq<Key>, p: seq<int>)
    requires |p| <= |d| && Distinct(p)
    requires forall i :: 0 <= i < |p| ==> 0 <= p[i] < |a| && d[i] == a[p[i]]
    ensures multiset(d[..|p|]) == Chosen(a, Elements(p))
  {
    if p == [] {
      ChosenNone(a);
    } else {
      var n := |p| - 1;
      PairedKeys(d, a, p[..n]);
      assert Elements(p) == Elements(p[..n]) + {p[n]};
      ChosenOneMore(a, Elements(p[..n]), p[n]);
      assert d[..|p|] == d[..n] + [d[n]];
    }
  }

  lemma {:induction false} ChosenNone(keys: seq<Key>)
    ensures Chosen(keys, Elements<int>([])) == multiset{}
  {
    if keys != [] {
      ChosenNone(keys[..|keys| - 1]);
    }
  }

  /** A pairing uses every place. */
  lemma PairingIsOnto(p: seq<int>, n: nat)
    requires |p| == n && Distinct(p) && forall i :: 0 <= i < |p| ==> 0 <= p[i] < n
    ensures forall i :: 0 <= i < n ==> i in p
  {
    DistinctSize(p);
    var all := Below(n);
    forall i | 0 <= i < n
      ensures i in p
    {
      if i !in p {
        assert Elements(p) <= all - {i};
        SubsetSize(Elements(p), all - {i});
        assert false;
      }
    }
  }

  /** Lists that can be paired off have the same keys, each equally often. */
  lemma PairsSameKeys(discovered: seq<Endpoint>, authoritative: seq<Endpoint>, p: seq<int>)
    requires Pairs(discovered, authoritative, p)
    ensures multiset(Keys(discovered)) == multiset(Keys(authoritative))
  {
    var d, a := Keys(discovered), Keys(authoritative);
    PairedKeys(d, a, p);
    PairingIsOnto(p, |a|);
    ChosenEvery(a, Elements(p));
    assert d[..|p|] == d;
  }

  /** For non-empty lists the answer is yes exactly when the endpoints can be paired off, and exactly
      when both lists have the same keys equally often. The pairing found is returned. */
  method EndpointSetsSecurityEquivalent(discovered: seq<Endpoint>, authoritative: seq<Endpoint>)
      returns (same: bool, ghost pairing: seq<int>)
    ensures discovered == [] || authoritative == [] ==> same
    ensures discovered != [] && authoritative != [] ==>
              && (same <==> multiset(Keys(discovered)) == multiset(Keys(authoritative)))
              && (same <==> exists p :: Pairs(discovered, authoritative, p))
              && (same ==> Pairs(discovered, authoritative, pairing))
  {
    pairing := [];
    if authoritative == [] {
      return true, [];
    }
    if discovered == [] {
      return true, [];
    }
    if |discovered| != |authoritative| {
      DifferentLengths(discovered, authoritative);
      return false, [];
    }
    hide Keys, KeyOf, Chosen, Pairs;
    var matched := new bool[|authoritative|](_ => false);
    for k := 0 to |discovered|
      invariant fresh(matched) && matched.Length == |authoritative|
      invariant Partial(discovered, authoritative, pairing, k)
      invariant forall i :: 0 <= i < matched.Length ==> (matched[i] <==> i in pairing)
    {
      var found := false;
      for i := 0 to matched.Length
        invariant fresh(matched) && matched.Length == |authoritative| && !found
        invariant Partial(discovered, authoritative, pairing, k)
        invariant forall j :: 0 <= j < matched.Length ==> (matched[j] <==> j in pairing)
        invariant forall j :: 0 <= j < i ==>
                    matched[j] || KeyOf(discovered[k]) != KeyOf(authoritative[j])
      {
        if matched[i] {
          continue;
        }
        var equivalent := SecurityEquivalent(discovered[k], authoritative[i]);
        if !equivalent {
          continue;
        }
        PartialNext(discovered, authoritative, pairing, k, i);
        matched[i] := true;
        found := true;
        pairing := pairing + [i];
        break;
      }
      if !found {
        Unmatched(discovered, authoritative, pairing, k);
        return false, [];
      }
    }
    PartialIsWhole(discovered, authoritative, pairing);
    PairsSameKeys(discovered, authoritative, pairing);
    same := true;
  }

  lemma PartialIsWhole(discovered: seq<Endpoint>, authoritative: seq<Endpoint>, p: seq<int>)
    requires |discovered| == |authoritative| && Partial(discovered, authoritative, p, |discovered|)
    ensures Pairs(discovered, authoritative, p)
  {
  }

  lemma PartialNext(discovered: seq<Endpoint>, authoritative: seq<Endpoint>, p: seq<int>, k: nat, i: int)
    requires k < |discovered| && Partial(discovered, authoritative, p, k)
    requires 0 <= i < |authoritative| && i !in p && KeyOf(discovered[k]) == KeyOf(authoritative[i])
    ensures Partial(discovered, authoritative, p + [i], k + 1)
  {
    hide KeyOf;
  }

  /** The first `k` discovered endpoints are paired. */
  ghost predicate Partial(discovered: seq<Endpoint>, authoritative: seq<Endpoint>, p: seq<int>, k: nat) {
    && |p| == k <= |discovered| && Distinct(p)
    && forall i :: 0 <= i < |p| ==>
         0 <= p[i] < |authoritative| && KeyOf(discovered[i]) == KeyOf(authoritative[p[i]])
  }

  lemma DifferentLengths(discovered: seq<Endpoint>, authoritative: seq<Endpoint>)
    requires |discovered| != |authoritative|
    ensures multiset(Keys(discovered)) != multiset(Keys(authoritative))
    ensures !exists p :: Pairs(discovered, authoritative, p)
  {
    assert |multiset(Keys(discovered))| == |discovered|;
    assert |multiset(Keys(authoritative))| == |authoritative|;
  }

  /** If no place is left for endpoint `k`, its key is more frequent among the discovered endpoints. */
  lemma Unmatched(discovered: seq<Endpoint>, authoritative: seq<Endpoint>, p: seq<int>, k: nat)
    requires k < |discovered| && Partial(discovered, authoritative, p, k)
    requires forall j :: 0 <= j < |authoritative| ==>
               j in p || KeyOf(discovered[k]) != KeyOf(authoritative[j])
    ensures multiset(Keys(discovered)) != multiset(Keys(authoritative))
    ensures !exists q :: Pairs(discovered, authoritative, q)
  {
    hide KeyOf, Chosen, Pairs;
    var d, a := Keys(discovered), Keys(authoritative);
    PairedKeys(d, a, p);
    MoreOften(d, a, p, k);
    forall q
      ensures !Pairs(discovered, authoritative, q)
    {
      if Pairs(discovered, authoritative, q) {
        PairsSameKeys(discovered, authoritative, q);
      }
    }
  }

  lemma MoreOften(d: seq<Key>, a: seq<Key>, p: seq<int>, k: nat)
    requires k < |d| && multiset(d[..k]) == Chosen(a, Elements(p))
    requires forall j :: 0 <= j < |a| && a[j] == d[k] ==> j in p
    ensures multiset(d) != multiset(a)
  {
    hide Chosen;
    ChosenAll(a, Elements(p), d[k]);
    assert d == d[..k] + [d[k]] + d[k + 1..];
    assert multiset(d)[d[k]] > multiset(a)[d[k]];
  }

  /** The answer does not depend on the order of either list. */
  lemma {:induction false} OrderDoesNotMatter(a: seq<Endpoint>, b: seq<Endpoint>)
    requires multiset(a) == multiset(b)
    ensures multiset(Keys(a)) == multiset(Keys(b))
    decreases |a|
  {
    hide Keys, KeyOf;
    if a == [] {
      assert |multiset(b)| == |b|;
    } else {
      var n := |a| - 1;
      assert a == a[..n] + [a[n]];
      assert a[n] in multiset(b);
      var i :| 0 <= i < |b| && b[i] == a[n];
      Removed(b, i);
      Removed(a, n);
      assert RemoveAt(a, n) == a[..n];
      Cancel(multiset(a[..n]), multiset(RemoveAt(b, i)), a[n]);
      OrderDoesNotMatter(a[..n], RemoveAt(b, i));
      KeysWithout(a, n);
      KeysWithout(b, i);
    }
  }

  lemma Cancel<T>(x: multiset<T>, y: multiset<T>, e: T)
    requires x + multiset{e} == y + multiset{e}
    ensures x == y
  {
    forall k
      ensures x[k] == y[k]
    {
      assert (x + multiset{e})[k] == (y + multiset{e})[k];
    }
  }

  lemma Removed<T>(s: seq<T>, i: nat)
    requires i < |s|
    ensures multiset(s) == multiset(RemoveAt(s, i)) + multiset{s[i]}
  {
    assert s == s[..i] + [s[i]] + s[i + 1..];
  }

  lemma KeysWithout(es: seq<Endpoint>, i: nat)
    requires i < |es|
    ensures multiset(Keys(es)) == multiset(Keys(RemoveAt(es, i))) + multiset{KeyOf(es[i])}
  {
    hide Keys, KeyOf;
    var rest := RemoveAt(es, i);
    forall j | 0 <= j < |rest|
      ensures RemoveAt(Keys(es), i)[j] == Keys(rest)[j]
    {
      assert Keys(rest)[j] == KeyOf(rest[j]);
    }
    assert RemoveAt(Keys(es), i) == Keys(rest);
    Removed(Keys(es), i);
  }
}
