/** The bytes of the binary encoding, place by place. */
module WireForm {
  import opened Common
  import opened Schema
  import opened Codec
  import EventIds

  // ---------- integers ----------

  /** An integer is written least significant byte first. */
  lemma {:induction false} LittleDigit(n: nat, width: nat, i: nat)
    requires i < width
    ensures Little(n, width)[i] == n / Pow(i) % 256
  {
    if i > 0 {
      LittleDigit(n / 256, width - 1, i - 1);
      EventIds.DivTwice(n, Pow(i - 1));
    }
  }

  /** The value of bytes by their weights. */
  function Weighed(b: seq<Byte>): nat {
    if b == [] then 0 else Weighed(b[..|b| - 1]) + b[|b| - 1] * Pow(|b| - 1)
  }

  lemma {:induction false} LittleWeighs(b: seq<Byte>)
    ensures FromLittle(b) == Weighed(b)
  {
    if b != [] {
      LittleWeighs(b[1..]);
      WeighedFirst(b);
    }
  }

  lemma {:induction false} WeighedFirst(b: seq<Byte>)
    requires b != []
    ensures Weighed(b) == b[0] + 256 * Weighed(b[1..])
  {
    var n := |b| - 1;
    if n > 0 {
      WeighedFirst(b[..n]);
      assert b[..n][1..] == b[1..][..n - 1];
      Regroup(b[n], Pow(n - 1));
    } else {
      assert b[..0] == [] && b[1..] == [];
    }
  }

  lemma Regroup(x: nat, p: nat)
    ensures x * (256 * p) == 256 * (x * p)
  {
  }

  /** An integer is read from as many bytes as it is wide, as the sum of their weights, if there are so
      many; and the bytes behind it are left. */
  lemma IntReadExactly(width: nat, b: seq<Byte>)
    ensures DecodeInt(width, b) == if |b| >= width then Got(Weighed(b[..width]), b[width..]) else Failed
  {
    if |b| >= width {
      LittleWeighs(b[..width]);
    }
  }

  /** From the digits of a number, least significant first, that number is read. */
  lemma DigitsRead(n: nat, width: nat, b: seq<Byte>)
    requires n < Pow(width) && |b| >= width
    requires forall i :: 0 <= i < width ==> b[i] == n / Pow(i) % 256
    ensures DecodeInt(width, b) == Got(n, b[width..])
  {
    hide Little, Pow;
    forall i | 0 <= i < width
      ensures Little(n, width)[i] == b[i]
    {
      LittleDigit(n, width, i);
    }
    assert b[..width] == Little(n, width);
    LittleRoundTrip(n, width);
  }

  function FourBytes(a: int, b: int, c: int, d: int): int {
    a + 256 * b + 65_536 * c + 16_777_216 * d
  }

  /** A count is read from four bytes, and is negative exactly when the last of them is at least 128. */
  lemma CountReadExactly(b: seq<Byte>)
    ensures if |b| < 4 then DecodeCount(b) == Failed
            else
              var raw := FourBytes(b[0], b[1], b[2], b[3]);
              DecodeCount(b) == Got(if b[3] < 128 then raw else raw - 4_294_967_296, b[4..])
  {
    if |b| >= 4 {
      var c := b[..4];
      assert c[1..][1..][1..][1..] == [];
      FromFour(c, c[1..], c[1..][1..], c[1..][1..][1..]);
    }
  }

  lemma FromFour(c: seq<Byte>, d: seq<Byte>, e: seq<Byte>, f: seq<Byte>)
    requires |c| == 4 && d == c[1..] && e == d[1..] && f == e[1..]
    ensures FromLittle(c) == FourBytes(c[0], c[1], c[2], c[3])
  {
    assert f[1..] == [];
    assert FromLittle(f) == f[0];
    assert FromLittle(e) == e[0] + 256 * FromLittle(f);
    assert FromLittle(d) == d[0] + 256 * FromLittle(e);
  }

  // ---------- arrays and byte strings ----------

  /** An array starts with the four bytes of its length, a byte string too. */
  lemma LengthFirst(ts: Types, t: Name, vs: seq<Value>, bytes: seq<Byte>, i: nat)
    requires Descends(ts) && TypedArray(ts, t, vs) && |bytes| < MAX_COUNT && i < 4
    ensures |EncodeArray(ts, t, vs)| >= 4 && EncodeArray(ts, t, vs)[i] == |vs| / Pow(i) % 256
    ensures EncodeBuiltIn(Blob, Bytes(bytes))[i] == |bytes| / Pow(i) % 256
    ensures EncodeBuiltIn(Blob, Bytes(bytes))[4..] == bytes
  {
    LittleDigit(|vs|, 4, i);
    LittleDigit(|bytes|, 4, i);
    var header, each := Little(|vs|, 4), EncodeEach(ts, t, vs);
    assert EncodeArray(ts, t, vs) == header + each && (header + each)[i] == header[i];
  }

  lemma {:induction false} EachSplit(ts: Types, t: Name, a: seq<Value>, b: seq<Value>)
    requires Descends(ts)
    requires (forall i :: 0 <= i < |a| ==> Typed(ts, t, a[i])) && (forall i :: 0 <= i < |b| ==> Typed(ts, t, b[i]))
    ensures EncodeEach(ts, t, a + b) == EncodeEach(ts, t, a) + EncodeEach(ts, t, b)
  {
    if a == [] {
      assert a + b == b;
    } else {
      assert (a + b)[1..] == a[1..] + b;
      EachSplit(ts, t, a[1..], b);
    }
  }

  /** Behind the length stand the elements in order: each behind those before it. */
  lemma ElementPlaced(ts: Types, t: Name, vs: seq<Value>, i: nat)
    requires Descends(ts) && TypedArray(ts, t, vs) && i < |vs|
    ensures TypedArray(ts, t, vs[..i]) && TypedArray(ts, t, vs[i + 1..])
    ensures EncodeArray(ts, t, vs)[4..]
            == EncodeArray(ts, t, vs[..i])[4..] + Encode(ts, t, vs[i]) + EncodeArray(ts, t, vs[i + 1..])[4..]
  {
    assert vs == vs[..i] + ([vs[i]] + vs[i + 1..]);
    EachSplit(ts, t, vs[..i], [vs[i]] + vs[i + 1..]);
    EachSplit(ts, t, [vs[i]], vs[i + 1..]);
    assert EncodeEach(ts, t, [vs[i]]) == Encode(ts, t, vs[i]) + [];
    ArrayTail(ts, t, vs);
    ArrayTail(ts, t, vs[..i]);
    ArrayTail(ts, t, vs[i + 1..]);
  }

  lemma ArrayTail(ts: Types, t: Name, vs: seq<Value>)
    requires Descends(ts) && TypedArray(ts, t, vs)
    ensures |EncodeArray(ts, t, vs)| >= 4 && EncodeArray(ts, t, vs)[4..] == EncodeEach(ts, t, vs)
  {
    var header, each := Little(|vs|, 4), EncodeEach(ts, t, vs);
    assert EncodeArray(ts, t, vs) == header + each && (header + each)[4..] == each;
  }

  // ---------- structures ----------

  lemma {:induction false} FieldsSplit(ts: Types, k: nat, fields: seq<Field>, vs: seq<Value>, j: nat)
    requires Descends(ts) && Precedes(ts, k, fields) && TypedFields(ts, k, fields, vs) && j <= |fields|
    ensures |vs| == |fields| && Precedes(ts, k, fields[..j]) && Precedes(ts, k, fields[j..])
    ensures TypedFields(ts, k, fields[..j], vs[..j]) && TypedFields(ts, k, fields[j..], vs[j..])
    ensures EncodeFields(ts, k, fields, vs)
            == EncodeFields(ts, k, fields[..j], vs[..j]) + EncodeFields(ts, k, fields[j..], vs[j..])
    decreases |fields|
  {
    if j == 0 {
      assert fields[..0] == [] && fields[0..] == fields && vs[..0] == [] && vs[0..] == vs;
    } else {
      FieldsSplit(ts, k, fields[1..], vs[1..], j - 1);
      assert fields[..j][1..] == fields[1..][..j - 1] && vs[..j][1..] == vs[1..][..j - 1];
      assert fields[1..][j - 1..] == fields[j..] && vs[1..][j - 1..] == vs[j..];
    }
  }

  /** A structure is its fields in order, each behind those before it, and nothing else. */
  lemma FieldPlaced(ts: Types, t: Name, v: Value, j: nat)
    requires Descends(ts) && Typed(ts, t, v) && Find(ts.structs, t).Some?
    requires j < |ts.structs[Find(ts.structs, t).value].fields|
    ensures v.Record?
    ensures var k := Find(ts.structs, t).value;
            var fields := ts.structs[k].fields;
            && |v.fields| == |fields| && Precedes(ts, k, fields[..j]) && Precedes(ts, k, fields[j + 1..])
            && TypedFields(ts, k, fields[..j], v.fields[..j]) && TypedFields(ts, k, fields[j + 1..], v.fields[j + 1..])
            && TypedField(ts, k, fields[j], v.fields[j])
            && Encode(ts, t, v)
               == EncodeFields(ts, k, fields[..j], v.fields[..j])
                  + (if fields[j].isArray then EncodeArray(ts, fields[j].typeName, v.fields[j].elements)
                     else Encode(ts, fields[j].typeName, v.fields[j]))
                  + EncodeFields(ts, k, fields[j + 1..], v.fields[j + 1..])
  {
    var k := Find(ts.structs, t).value;
    var fields, vs := ts.structs[k].fields, v.fields;
    FieldsSplit(ts, k, fields, vs, j);
    assert fields[j..][0] == fields[j] && vs[j..][0] == vs[j];
    assert fields[j..][1..] == fields[j + 1..] && vs[j..][1..] == vs[j + 1..];
    var a, b := EncodeFields(ts, k, fields[..j], vs[..j]), EncodeFields(ts, k, fields[j + 1..], vs[j + 1..]);
    assert EncodeFields(ts, k, fields[j..], vs[j..]) == EncodeField(ts, k, fields[j], vs[j]) + b;
    assert a + (EncodeField(ts, k, fields[j], vs[j]) + b) == a + EncodeField(ts, k, fields[j], vs[j]) + b;
  }

  /** A structure of an Int32 and an array of two byte strings, as it goes over the wire. */
  lemma Example()
    ensures var ts := Types([Struct(3, [Field(1, false), Field(2, true)])], map[1 := Fixed(4), 2 := Blob]);
            var v := Record([Integer(258), Array([Bytes([65, 66]), Bytes([])])]);
            && Descends(ts) && Typed(ts, 3, v)
            && Encode(ts, 3, v) == [2, 1, 0, 0] + [2, 0, 0, 0] + ([2, 0, 0, 0] + [65, 66]) + [0, 0, 0, 0]
  {
    var fields := [Field(1, false), Field(2, true)];
    var ts := Types([Struct(3, fields)], map[1 := Fixed(4), 2 := Blob]);
    var each := [Bytes([65, 66]), Bytes([])];
    var vs := [Integer(258), Array(each)];
    OneStruct(Struct(3, fields), 1);
    OneStruct(Struct(3, fields), 2);
    OneStruct(Struct(3, fields), 3);
    hide Find;
    ExampleArray(ts, each);
    hide EncodeArray, TypedArray;
    LittleFour(258);
    assert Pow(4) == 256 * (256 * (256 * (256 * Pow(0))));
    hide Little, Pow;
    TwoFields(ts, 0, fields, vs);
    hide EncodeFields, TypedFields;
  }

  lemma OneStruct(s: Struct, name: Name)
    ensures Find([s], name) == if s.name == name then Some(0) else None
  {
    assert [s][..0] == [];
  }

  lemma TwoFields(ts: Types, k: nat, fields: seq<Field>, vs: seq<Value>)
    requires Descends(ts) && Precedes(ts, k, fields) && |fields| == |vs| == 2
    requires TypedField(ts, k, fields[0], vs[0]) && TypedField(ts, k, fields[1], vs[1])
    ensures TypedFields(ts, k, fields, vs)
    ensures EncodeFields(ts, k, fields, vs)
            == EncodeField(ts, k, fields[0], vs[0]) + EncodeField(ts, k, fields[1], vs[1])
  {
    hide EncodeField, TypedField;
    var f, v := fields[1..], vs[1..];
    assert f[0] == fields[1] && v[0] == vs[1] && f[1..] == [] && v[1..] == [];
    assert TypedFields(ts, k, f, v);
    assert EncodeFields(ts, k, f, v) == EncodeField(ts, k, fields[1], vs[1]) + [];
  }

  lemma ExampleArray(ts: Types, each: seq<Value>)
    requires Descends(ts) && Find(ts.structs, 2).None? && 2 in ts.builtIns && ts.builtIns[2] == Blob
    requires each == [Bytes([65, 66]), Bytes([])]
    ensures TypedArray(ts, 2, each)
    ensures EncodeArray(ts, 2, each) == [2, 0, 0, 0] + ([2, 0, 0, 0] + [65, 66]) + [0, 0, 0, 0]
  {
    LittleFour(2);
    LittleFour(0);
    hide Little;
    assert Encode(ts, 2, each[0]) == [2, 0, 0, 0] + [65, 66] && Encode(ts, 2, each[1]) == [0, 0, 0, 0] + [];
    assert each[1..] == [each[1]] && each[1..][1..] == [];
    assert EncodeEach(ts, 2, each[1..]) == Encode(ts, 2, each[1]) + [];
    assert EncodeEach(ts, 2, each) == Encode(ts, 2, each[0]) + EncodeEach(ts, 2, each[1..]);
  }

  lemma LittleFour(n: nat)
    ensures Little(n, 4) == [n % 256, n / 256 % 256, n / 256 / 256 % 256, n / 256 / 256 / 256 % 256]
  {
    assert Little(n / 256 / 256 / 256, 1) == [n / 256 / 256 / 256 % 256] + Little(n / 256 / 256 / 256 / 256, 0);
    assert Little(n / 256 / 256, 2) == [n / 256 / 256 % 256] + Little(n / 256 / 256 / 256, 1);
    assert Little(n / 256, 3) == [n / 256 % 256] + Little(n / 256 / 256, 2);
  }
}
