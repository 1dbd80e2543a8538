/** Event identifiers as byte strings. */
module EventIds {
  import opened Common
  import opened Codec

  /** The bytes of a number, the most significant first. */
  function Big(n: nat, width: nat): (b: seq<Byte>)
    ensures |b| == width
  {
    if width == 0 then [] else Big(n / 256, width - 1) + [n % 256]
  }

  function FromBig(b: seq<Byte>): nat {
    if b == [] then 0 else 256 * FromBig(b[..|b| - 1]) + b[|b| - 1]
  }

  lemma {:induction false} FromBigBound(b: seq<Byte>)
    ensures FromBig(b) < Pow(|b|)
  {
    if b != [] {
      FromBigBound(b[..|b| - 1]);
    }
  }

  lemma DivTwice(n: nat, p: nat)
    requires p > 0
    ensures n / 256 / p == n / (256 * p)
  {
    var x, y := n / 256, n % 256;
    var q, r := x / p, x % p;
    assert x == p * q + r;
    Regroup(p, q, r, y);
    Quotient(256 * p, q, 256 * r + y);
  }

  lemma Regroup(p: nat, q: nat, r: nat, y: nat)
    ensures 256 * (p * q + r) + y == 256 * p * q + (256 * r + y)
  {
  }

  lemma Quotient(p: nat, q: nat, r: nat)
    requires p > 0 && r < p
    ensures (p * q + r) / p == q
  {
    var x := p * q + r;
    var d, e := x / p, x % p;
    assert x == p * d + e;
    if d < q {
      assert p * (d + 1) == p * d + p;
      Monotone(p, d + 1, q);
    } else if d > q {
      assert p * (q + 1) == p * q + p;
      Monotone(p, q + 1, d);
    }
  }

  lemma {:induction false} BigDigit(n: nat, width: nat, i: nat)
    requires i < width
    ensures Big(n, width)[i] == n / Pow(width - 1 - i) % 256
  {
    if i < width - 1 {
      BigDigit(n / 256, width - 1, i);
      DivTwice(n, Pow(width - 2 - i));
    }
  }

  /** Writes the bytes of an id, each by shifting and masking. */
  method EncodeEventId(id: nat) returns (bytes: seq<Byte>)
    requires id < Pow(8)
    ensures bytes == Big(id, 8)
  {
    bytes := [];
    for i := 0 to 8
      invariant bytes == Big(id, 8)[..i]
    {
      BigDigit(id, 8, i);
      bytes := bytes + [id / Pow(7 - i) % 256];
    }
  }

  /** Reads an id in 64-bit arithmetic; only strings of eight bytes are ids. */
  method DecodeEventId(bytes: seq<Byte>) returns (id: Option<nat>)
    ensures id == if |bytes| == 8 then Some(FromBig(bytes)) else None
  {
    if |bytes| != 8 {
      return None;
    }
    var value := 0;
    for i := 0 to 8
      invariant value == FromBig(bytes[..i])
    {
      FromBigBound(bytes[..i]);
      ShiftFits(value, i);
      value := value * 256 % Pow(8) + bytes[i];
      assert bytes[..i + 1][..i] == bytes[..i];
    }
    assert bytes[..8] == bytes;
    return Some(value);
  }

  lemma ShiftFits(value: nat, i: nat)
    requires value < Pow(i) && i < 8
    ensures value * 256 % Pow(8) == value * 256
  {
    PowGrows(i + 1, 8);
    assert value * 256 < Pow(i + 1);
  }

  lemma {:induction false} PowGrows(a: nat, b: nat)
    requires a <= b
    ensures Pow(a) <= Pow(b)
  {
    if a < b {
      PowGrows(a, b - 1);
    }
  }

  // ---------- ids and byte strings correspond, in order ----------

  lemma {:induction false} IdRoundTrip(n: nat, width: nat)
    requires n < Pow(width)
    ensures FromBig(Big(n, width)) == n
  {
    if width > 0 {
      IdRoundTrip(n / 256, width - 1);
      assert Big(n, width)[..width - 1] == Big(n / 256, width - 1);
    }
  }

  lemma {:induction false} BytesRoundTrip(b: seq<Byte>)
    ensures Big(FromBig(b), |b|) == b && FromBig(b) < Pow(|b|)
  {
    if b != [] {
      var n := |b| - 1;
      BytesRoundTrip(b[..n]);
      assert FromBig(b) / 256 == FromBig(b[..n]) && FromBig(b) % 256 == b[n];
      assert b == b[..n] + [b[n]];
    }
  }

  /** `a` comes before `b` in the order of unsigned byte strings. */
  ghost predicate Precedes(a: seq<Byte>, b: seq<Byte>)
    requires |a| == |b|
  {
    exists i :: 0 <= i < |a| && a[..i] == b[..i] && a[i] < b[i]
  }

  lemma {:induction false} OrderedAsBytes(a: seq<Byte>, b: seq<Byte>)
    requires |a| == |b|
    ensures FromBig(a) < FromBig(b) <==> Precedes(a, b)
    decreases |a|
  {
    if a != [] {
      var n := |a| - 1;
      OrderedAsBytes(a[..n], b[..n]);
      OrderedAsBytes(b[..n], a[..n]);
      PrecedesNext(a, b);
      if FromBig(a[..n]) == FromBig(b[..n]) {
        BytesRoundTrip(a[..n]);
        BytesRoundTrip(b[..n]);
      }
    }
  }

  lemma PrecedesNext(a: seq<Byte>, b: seq<Byte>)
    requires |a| == |b| && a != []
    ensures var n := |a| - 1;
            Precedes(a, b) <==> Precedes(a[..n], b[..n]) || (a[..n] == b[..n] && a[n] < b[n])
  {
    var n := |a| - 1;
    if Precedes(a, b) {
      var i :| 0 <= i < |a| && a[..i] == b[..i] && a[i] < b[i];
      if i < n {
        assert a[..n][..i] == a[..i] && b[..n][..i] == b[..i];
      }
    }
    if Precedes(a[..n], b[..n]) {
      var i :| 0 <= i < n && a[..n][..i] == b[..n][..i] && a[..n][i] < b[..n][i];
      assert a[..i] == a[..n][..i] && b[..i] == b[..n][..i];
    }
  }

  /** Ids of 64 bits and strings of eight bytes correspond one to one, and their orders agree. */
  lemma EventIdsAreOrderedBytes(m: nat, n: nat, b: seq<Byte>)
    requires m < Pow(8) && n < Pow(8) && |b| == 8
    ensures FromBig(Big(n, 8)) == n && FromBig(b) < Pow(8) && Big(FromBig(b), 8) == b
    ensures m < n <==> Precedes(Big(m, 8), Big(n, 8))
  {
    IdRoundTrip(m, 8);
    IdRoundTrip(n, 8);
    BytesRoundTrip(b);
    OrderedAsBytes(Big(m, 8), Big(n, 8));
  }
}
