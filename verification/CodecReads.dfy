/** What the decoder makes of any bytes: which it accepts, for which value, and what it leaves. */
module CodecReads {
  import opened Common
  import opened Schema
  import opened Codec
  import opened CodecTheorems

  // ---------- wire forms ----------

  /** Four bytes that stand for the count `n`. Nothing has many forms: any negative count will do. */
  ghost predicate WireCount(n: nat, w: seq<Byte>) {
    && |w| == 4 && n < MAX_COUNT
    && (w == Little(n, 4) || (n == 0 && w[3] >= 128))
  }

  ghost predicate WireBuiltIn(kind: Kind, v: Value, w: seq<Byte>)
    requires TypedBuiltIn(kind, v)
  {
    match kind
    case Fixed(width) => w == Little(v.n, width)
    case Blob => |w| >= 4 && WireCount(|v.bytes|, w[..4]) && w[4..] == v.bytes
  }

  /** The bytes `w` are a wire form of the value: a structure is its fields in order, an array a count and
      its elements. */
  ghost predicate Wire(ts: Types, t: Name, v: Value, w: seq<Byte>)
    requires Descends(ts) && Typed(ts, t, v)
    decreases Rank(ts, t), 1, 0
  {
    match Find(ts.structs, t)
    case Some(k) => WireFields(ts, k, ts.structs[k].fields, v.fields, w)
    case None => WireBuiltIn(ts.builtIns[t], v, w)
  }

  ghost predicate WireFields(ts: Types, k: nat, fields: seq<Field>, vs: seq<Value>, w: seq<Byte>)
    requires Descends(ts) && Precedes(ts, k, fields) && TypedFields(ts, k, fields, vs)
    decreases k + 1, 0, |fields|
  {
    if fields == [] then w == []
    else
      exists i :: 0 <= i <= |w| && WireField(ts, k, fields[0], vs[0], w[..i])
                  && WireFields(ts, k, fields[1..], vs[1..], w[i..])
  }

  ghost predicate WireField(ts: Types, k: nat, field: Field, v: Value, w: seq<Byte>)
    requires Descends(ts) && Rank(ts, field.typeName) <= k && TypedField(ts, k, field, v)
    decreases Rank(ts, field.typeName), 4, 0
  {
    if field.isArray then WireArray(ts, field.typeName, v.elements, w) else Wire(ts, field.typeName, v, w)
  }

  ghost predicate WireArray(ts: Types, t: Name, vs: seq<Value>, w: seq<Byte>)
    requires Descends(ts) && TypedArray(ts, t, vs)
    decreases Rank(ts, t), 3, 0
  {
    |w| >= 4 && WireCount(|vs|, w[..4]) && WireEach(ts, t, vs, w[4..])
  }

  ghost predicate WireEach(ts: Types, t: Name, vs: seq<Value>, w: seq<Byte>)
    requires Descends(ts) && forall i :: 0 <= i < |vs| ==> Typed(ts, t, vs[i])
    decreases Rank(ts, t), 2, |vs|
  {
    if vs == [] then w == []
    else exists i :: 0 <= i <= |w| && Wire(ts, t, vs[0], w[..i]) && WireEach(ts, t, vs[1..], w[i..])
  }

  // ---------- every wire form is read ----------

  lemma CountRead(n: nat, w: seq<Byte>, rest: seq<Byte>)
    requires WireCount(n, w)
    ensures DecodeCount(w + rest).Got? && DecodeCount(w + rest).rest == rest
    ensures var c := DecodeCount(w + rest).value; c == n || (n == 0 && c < 0)
  {
    if w == Little(n, 4) {
      CountRoundTrip(n, rest);
    } else {
      assert (w + rest)[..4] == w && (w + rest)[4..] == rest;
      LastByte(w);
    }
  }

  /** The last of four bytes says whether the count is negative. */
  lemma LastByte(w: seq<Byte>)
    requires |w| == 4
    ensures FromLittle(w) < 2 * MAX_COUNT
    ensures FromLittle(w) >= MAX_COUNT <==> w[3] >= 128
  {
    var d, e, f := w[1..], w[1..][1..], w[1..][1..][1..];
    assert f[1..] == [] && FromLittle(f) == w[3];
    assert FromLittle(e) == w[2] + 256 * FromLittle(f);
    assert FromLittle(d) == w[1] + 256 * FromLittle(e);
    assert FromLittle(w) == w[0] + 256 * FromLittle(d);
  }

  lemma BuiltInRead(kind: Kind, v: Value, w: seq<Byte>, rest: seq<Byte>)
    requires TypedBuiltIn(kind, v) && WireBuiltIn(kind, v, w)
    ensures |w| == |EncodeBuiltIn(kind, v)| && DecodeBuiltIn(kind, w + rest) == Got(v, rest)
  {
    match kind
    case Fixed(width) => IntRoundTrip(v.n, width, rest);
    case Blob =>
      CountRead(|v.bytes|, w[..4], v.bytes + rest);
      assert w + rest == w[..4] + (v.bytes + rest);
      assert (v.bytes + rest)[..|v.bytes|] == v.bytes && (v.bytes + rest)[|v.bytes|..] == rest;
  }

  /** Every wire form of a value is as long as its encoding and is read as it, or fails like it. */
  lemma {:induction false} WireRead(ts: Types, t: Name, v: Value, w: seq<Byte>, rest: seq<Byte>)
    requires Descends(ts) && Typed(ts, t, v) && Wire(ts, t, v, w)
    ensures |w| == |Encode(ts, t, v)|
    ensures Decode(ts, t, w + rest) == When(Fits(ts, t, v, |rest|), v, rest)
    decreases Rank(ts, t), 1, 0
  {
    match Find(ts.structs, t)
    case Some(k) => FieldsRead(ts, k, ts.structs[k].fields, v.fields, w, rest);
    case None => BuiltInRead(ts.builtIns[t], v, w, rest);
  }

  lemma {:induction false} FieldsRead(ts: Types, k: nat, fields: seq<Field>, vs: seq<Value>, w: seq<Byte>,
      rest: seq<Byte>)
    requires Descends(ts) && Precedes(ts, k, fields) && TypedFields(ts, k, fields, vs)
    requires WireFields(ts, k, fields, vs, w)
    ensures |w| == |EncodeFields(ts, k, fields, vs)|
    ensures DecodeFields(ts, k, fields, w + rest) == When(FitsFields(ts, k, fields, vs, |rest|), vs, rest)
    decreases k + 1, 0, |fields|
  {
    hide WireField, WireFields;
    if fields == [] {
      NoFields(ts, k, w);
      assert w + rest == rest;
    } else {
      var i := FieldsCut(ts, k, fields, vs, w);
      FieldRead(ts, k, fields[0], vs[0], w[..i], w[i..] + rest);
      FieldsRead(ts, k, fields[1..], vs[1..], w[i..], rest);
      assert w + rest == w[..i] + (w[i..] + rest);
      assert |w[i..] + rest| == |EncodeFields(ts, k, fields[1..], vs[1..])| + |rest|;
      assert [vs[0]] + vs[1..] == vs;
    }
  }

  lemma NoFields(ts: Types, k: nat, w: seq<Byte>)
    requires Descends(ts) && WireFields(ts, k, [], [], w)
    ensures w == []
  {
  }

  lemma FieldsCut(ts: Types, k: nat, fields: seq<Field>, vs: seq<Value>, w: seq<Byte>) returns (i: nat)
    requires Descends(ts) && Precedes(ts, k, fields) && TypedFields(ts, k, fields, vs) && fields != []
    requires WireFields(ts, k, fields, vs, w)
    ensures i <= |w| && WireField(ts, k, fields[0], vs[0], w[..i])
    ensures WireFields(ts, k, fields[1..], vs[1..], w[i..])
  {
    hide WireField;
    i :| 0 <= i <= |w| && WireField(ts, k, fields[0], vs[0], w[..i])
         && WireFields(ts, k, fields[1..], vs[1..], w[i..]);
  }

  lemma FieldsJoin(ts: Types, k: nat, fields: seq<Field>, vs: seq<Value>, first: seq<Byte>, others: seq<Byte>)
    requires Descends(ts) && Precedes(ts, k, fields) && fields != [] && vs != []
    requires TypedField(ts, k, fields[0], vs[0]) && TypedFields(ts, k, fields[1..], vs[1..])
    requires WireField(ts, k, fields[0], vs[0], first) && WireFields(ts, k, fields[1..], vs[1..], others)
    ensures TypedFields(ts, k, fields, vs) && WireFields(ts, k, fields, vs, first + others)
  {
    hide WireField;
    var w := first + others;
    assert w[..|first|] == first && w[|first|..] == others;
  }

  lemma {:induction false} FieldRead(ts: Types, k: nat, field: Field, v: Value, w: seq<Byte>, rest: seq<Byte>)
    requires Descends(ts) && Rank(ts, field.typeName) <= k && TypedField(ts, k, field, v)
    requires WireField(ts, k, field, v, w)
    ensures |w| == |EncodeField(ts, k, field, v)|
    ensures DecodeField(ts, k, field, w + rest) == When(FitsField(ts, k, field, v, |rest|), v, rest)
    decreases Rank(ts, field.typeName), 4, 0
  {
    if field.isArray {
      ArrayRead(ts, field.typeName, v.elements, w, rest);
    } else {
      WireRead(ts, field.typeName, v, w, rest);
    }
  }

  lemma {:induction false} ArrayRead(ts: Types, t: Name, vs: seq<Value>, w: seq<Byte>, rest: seq<Byte>)
    requires Descends(ts) && TypedArray(ts, t, vs) && WireArray(ts, t, vs, w)
    ensures |w| == |EncodeArray(ts, t, vs)|
    ensures DecodeArray(ts, t, w + rest) == When(FitsArray(ts, t, vs, |rest|), vs, rest)
    decreases Rank(ts, t), 3, 0
  {
    hide WireArray, WireEach, WireCount, Little, DecodeArray, DecodeEach, DecodeCount, FitsArray, FitsEach, EncodeArray;
    ArrayCut(ts, t, vs, w);
    var each := w[4..];
    EachRead(ts, t, vs, each, rest);
    EachTakesAByte(ts, t, vs);
    CountRead(|vs|, w[..4], each + rest);
    assert w + rest == w[..4] + (each + rest);
    ArrayLength(ts, t, vs);
    CountedArray(ts, t, vs, w + rest, each, rest);
  }

  lemma ArrayCut(ts: Types, t: Name, vs: seq<Value>, w: seq<Byte>)
    requires Descends(ts) && TypedArray(ts, t, vs) && WireArray(ts, t, vs, w)
    ensures |w| >= 4 && WireCount(|vs|, w[..4]) && WireEach(ts, t, vs, w[4..])
    ensures vs == [] ==> w[4..] == []
  {
    hide WireCount;
  }

  lemma ArrayLength(ts: Types, t: Name, vs: seq<Value>)
    requires Descends(ts) && TypedArray(ts, t, vs)
    ensures |EncodeArray(ts, t, vs)| == 4 + |EncodeEach(ts, t, vs)|
  {
    hide Little, EncodeEach;
  }

  /** An array is its count and its elements, if as many bytes follow the count as it has elements. */
  lemma CountedArray(ts: Types, t: Name, vs: seq<Value>, b: seq<Byte>, each: seq<Byte>, rest: seq<Byte>)
    requires Descends(ts) && TypedArray(ts, t, vs) && (vs == [] ==> each == [])
    requires forall i :: 0 <= i < |vs| ==> Typed(ts, t, vs[i])
    requires DecodeCount(b).Got? && DecodeCount(b).rest == each + rest
    requires DecodeCount(b).value == |vs| || (|vs| == 0 && DecodeCount(b).value < 0)
    requires if ZeroWidth(ts, t) then each == [] else |each| >= |vs|
    requires DecodeEach(ts, t, |vs|, each + rest) == When(FitsEach(ts, t, vs, |rest|), vs, rest)
    ensures DecodeArray(ts, t, b) == When(FitsArray(ts, t, vs, |rest|), vs, rest)
  {
    hide DecodeCount, ZeroWidth, DecodeEach, DecodeArray, FitsArray, FitsEach, TypedArray, Typed;
    ArrayIs(ts, t, b);
    FitsIs(ts, t, vs, |rest|);
    assert |each + rest| == |each| + |rest|;
    if vs == [] {
      NoneFits(ts, t, |rest|);
      assert each + rest == rest;
    }
  }

  lemma ArrayIs(ts: Types, t: Name, b: seq<Byte>)
    requires Descends(ts) && DecodeCount(b).Got?
    ensures var c, tail := DecodeCount(b).value, DecodeCount(b).rest;
            DecodeArray(ts, t, b)
            == if c <= 0 then Got([], tail) else if c > |tail| then Failed else DecodeEach(ts, t, c, tail)
  {
    hide DecodeCount, DecodeEach;
  }

  lemma FitsIs(ts: Types, t: Name, vs: seq<Value>, n: nat)
    requires Descends(ts) && TypedArray(ts, t, vs)
    ensures forall i :: 0 <= i < |vs| ==> Typed(ts, t, vs[i])
    ensures FitsArray(ts, t, vs, n) <==> (ZeroWidth(ts, t) ==> |vs| <= n) && FitsEach(ts, t, vs, n)
  {
    hide ZeroWidth, FitsEach, Typed;
  }

  lemma NoneFits(ts: Types, t: Name, n: nat)
    requires Descends(ts)
    ensures FitsEach(ts, t, [], n)
  {
  }

  lemma {:induction false} EachRead(ts: Types, t: Name, vs: seq<Value>, w: seq<Byte>, rest: seq<Byte>)
    requires Descends(ts) && (forall i :: 0 <= i < |vs| ==> Typed(ts, t, vs[i])) && WireEach(ts, t, vs, w)
    ensures |w| == |EncodeEach(ts, t, vs)|
    ensures DecodeEach(ts, t, |vs|, w + rest) == When(FitsEach(ts, t, vs, |rest|), vs, rest)
    decreases Rank(ts, t), 2, |vs|
  {
    hide Wire, WireEach;
    if vs == [] {
      NoElements(ts, t, w);
      assert w + rest == rest;
    } else {
      var i := EachCut(ts, t, vs, w);
      WireRead(ts, t, vs[0], w[..i], w[i..] + rest);
      EachRead(ts, t, vs[1..], w[i..], rest);
      assert w + rest == w[..i] + (w[i..] + rest);
      assert |w[i..] + rest| == |EncodeEach(ts, t, vs[1..])| + |rest|;
      assert [vs[0]] + vs[1..] == vs;
    }
  }

  lemma NoElements(ts: Types, t: Name, w: seq<Byte>)
    requires Descends(ts) && WireEach(ts, t, [], w)
    ensures w == []
  {
  }

  lemma EachCut(ts: Types, t: Name, vs: seq<Value>, w: seq<Byte>) returns (i: nat)
    requires Descends(ts) && (forall i :: 0 <= i < |vs| ==> Typed(ts, t, vs[i])) && WireEach(ts, t, vs, w)
    requires vs != []
    ensures i <= |w| && Wire(ts, t, vs[0], w[..i]) && WireEach(ts, t, vs[1..], w[i..])
  {
    hide Wire;
    i :| 0 <= i <= |w| && Wire(ts, t, vs[0], w[..i]) && WireEach(ts, t, vs[1..], w[i..]);
  }

  lemma EachJoin(ts: Types, t: Name, vs: seq<Value>, first: seq<Byte>, others: seq<Byte>)
    requires Descends(ts) && (forall i :: 0 <= i < |vs| ==> Typed(ts, t, vs[i])) && vs != []
    requires Wire(ts, t, vs[0], first) && WireEach(ts, t, vs[1..], others)
    ensures WireEach(ts, t, vs, first + others)
  {
    hide Wire;
    var w := first + others;
    assert w[..|first|] == first && w[|first|..] == others;
  }

  // ---------- nothing else is read ----------

  /** Four bytes give the count they are a form of, or a negative one. */
  lemma CountOf(b: seq<Byte>)
    ensures DecodeCount(b).Got? <==> |b| >= 4
    ensures |b| >= 4 ==> DecodeCount(b).rest == b[4..] && DecodeCount(b).value < MAX_COUNT
    ensures |b| >= 4 ==> WireCount(Max(0, DecodeCount(b).value), b[..4])
  {
    if |b| >= 4 {
      LastByte(b[..4]);
      DigitsBack(b[..4]);
    }
  }

  lemma {:induction false} DigitsBack(b: seq<Byte>)
    ensures FromLittle(b) < Pow(|b|) && Little(FromLittle(b), |b|) == b
  {
    if b != [] {
      var n := FromLittle(b[1..]);
      DigitsBack(b[1..]);
      assert FromLittle(b) == b[0] + 256 * n;
      assert FromLittle(b) % 256 == b[0] && FromLittle(b) / 256 == n;
      hide FromLittle;
      assert Little(FromLittle(b), |b|) == [b[0]] + Little(n, |b| - 1);
    }
  }

  lemma BuiltInWire(kind: Kind, b: seq<Byte>) returns (w: seq<Byte>)
    requires DecodeBuiltIn(kind, b).Got?
    ensures var d := DecodeBuiltIn(kind, b);
            TypedBuiltIn(kind, d.value) && b == w + d.rest && WireBuiltIn(kind, d.value, w)
  {
    match kind
    case Fixed(width) =>
      w := b[..width];
      DigitsBack(w);
    case Blob =>
      CountOf(b);
      var n := Max(0, DecodeCount(b).value);
      w := b[..4 + n];
      assert w[..4] == b[..4] && w[4..] == b[4..][..n] && b[4..][n..] == b[4 + n..];
  }

  /** What is decoded is a value of the type, and the bytes taken are a wire form of it. */
  lemma {:induction false} DecodedWire(ts: Types, t: Name, b: seq<Byte>) returns (w: seq<Byte>)
    requires Descends(ts) && Decode(ts, t, b).Got?
    ensures var d := Decode(ts, t, b);
            Typed(ts, t, d.value) && b == w + d.rest && Wire(ts, t, d.value, w)
    decreases Rank(ts, t), 1, 0
  {
    match Find(ts.structs, t)
    case Some(k) => w := FieldsWire(ts, k, ts.structs[k].fields, b);
    case None => w := BuiltInWire(ts.builtIns[t], b);
  }

  lemma {:induction false} FieldsWire(ts: Types, k: nat, fields: seq<Field>, b: seq<Byte>) returns (w: seq<Byte>)
    requires Descends(ts) && Precedes(ts, k, fields) && DecodeFields(ts, k, fields, b).Got?
    ensures var d := DecodeFields(ts, k, fields, b);
            TypedFields(ts, k, fields, d.value) && b == w + d.rest && WireFields(ts, k, fields, d.value, w)
    decreases k + 1, 0, |fields|
  {
    hide WireField, WireFields, DecodeFields, DecodeField, TypedFields, TypedField;
    if fields == [] {
      NoFieldsWire(ts, k, b);
      w := [];
    } else {
      FieldsDecoded(ts, k, fields, b);
      var first := FieldWire(ts, k, fields[0], b);
      var others := FieldsWire(ts, k, fields[1..], DecodeField(ts, k, fields[0], b).rest);
      w := first + others;
      FieldsJoin(ts, k, fields, DecodeFields(ts, k, fields, b).value, first, others);
    }
  }

  lemma NoFieldsWire(ts: Types, k: nat, b: seq<Byte>)
    requires Descends(ts)
    ensures var d := DecodeFields(ts, k, [], b);
            d == Got([], b) && TypedFields(ts, k, [], d.value) && WireFields(ts, k, [], d.value, [])
  {
  }

  lemma FieldsDecoded(ts: Types, k: nat, fields: seq<Field>, b: seq<Byte>)
    requires Descends(ts) && Precedes(ts, k, fields) && DecodeFields(ts, k, fields, b).Got? && fields != []
    ensures DecodeField(ts, k, fields[0], b).Got?
    ensures var d, first := DecodeFields(ts, k, fields, b), DecodeField(ts, k, fields[0], b);
            var others := DecodeFields(ts, k, fields[1..], first.rest);
            others.Got? && d.value != [] && d.value[0] == first.value && d.value[1..] == others.value
            && d.rest == others.rest
  {
    hide DecodeField;
  }

  lemma {:induction false} FieldWire(ts: Types, k: nat, field: Field, b: seq<Byte>) returns (w: seq<Byte>)
    requires Descends(ts) && Rank(ts, field.typeName) <= k && DecodeField(ts, k, field, b).Got?
    ensures var d := DecodeField(ts, k, field, b);
            TypedField(ts, k, field, d.value) && b == w + d.rest && WireField(ts, k, field, d.value, w)
    decreases Rank(ts, field.typeName), 4, 0
  {
    if field.isArray {
      w := ArrayWire(ts, field.typeName, b);
    } else {
      w := DecodedWire(ts, field.typeName, b);
    }
  }

  lemma {:induction false} ArrayWire(ts: Types, t: Name, b: seq<Byte>) returns (w: seq<Byte>)
    requires Descends(ts) && DecodeArray(ts, t, b).Got?
    ensures var d := DecodeArray(ts, t, b);
            TypedArray(ts, t, d.value) && b == w + d.rest && WireArray(ts, t, d.value, w)
    decreases Rank(ts, t), 3, 0
  {
    CountOf(b);
    var c := DecodeCount(b).value;
    w := b[..4];
    if c > 0 {
      var each := EachWire(ts, t, c, b[4..]);
      w := b[..4] + each;
      assert w[..4] == b[..4] && w[4..] == each;
    } else {
      assert w[..4] == b[..4] && w[4..] == [];
    }
  }

  lemma {:induction false} EachWire(ts: Types, t: Name, count: nat, b: seq<Byte>) returns (w: seq<Byte>)
    requires Descends(ts) && DecodeEach(ts, t, count, b).Got?
    ensures var d := DecodeEach(ts, t, count, b);
            && |d.value| == count && (forall i :: 0 <= i < count ==> Typed(ts, t, d.value[i]))
            && b == w + d.rest && WireEach(ts, t, d.value, w)
    decreases Rank(ts, t), 2, count
  {
    hide Wire;
    w := [];
    if count > 0 {
      hide WireEach;
      var d := Decode(ts, t, b);
      var first := DecodedWire(ts, t, b);
      var others := EachWire(ts, t, count - 1, d.rest);
      w := first + others;
      var vs := DecodeEach(ts, t, count, b).value;
      assert vs[0] == d.value && vs[1..] == DecodeEach(ts, t, count - 1, d.rest).value;
      EachJoin(ts, t, vs, first, others);
    }
  }

  // ---------- exactly ----------

  /** The bytes are a wire form of the value followed by `rest`, and arrays of elements that take no bytes
      have enough behind them. */
  ghost predicate Reads(ts: Types, t: Name, b: seq<Byte>, v: Value, rest: seq<Byte>)
    requires Descends(ts)
  {
    && Typed(ts, t, v) && |rest| <= |b| && b[|b| - |rest|..] == rest
    && Wire(ts, t, v, b[..|b| - |rest|]) && Fits(ts, t, v, |rest|)
  }

  /** Of any bytes whatever, the decoder accepts exactly those that start with a wire form of a value of the
      type, gives that value, and leaves exactly what follows; it fails on all others. */
  lemma ReadsExactly(ts: Types, t: Name, b: seq<Byte>, v: Value, rest: seq<Byte>)
    requires Descends(ts)
    ensures Decode(ts, t, b) == Got(v, rest) <==> Reads(ts, t, b, v, rest)
  {
    if Decode(ts, t, b) == Got(v, rest) {
      var w := DecodedWire(ts, t, b);
      assert b[|b| - |rest|..] == rest && b[..|b| - |rest|] == w;
      WireRead(ts, t, v, w, rest);
    }
    if Reads(ts, t, b, v, rest) {
      var w := b[..|b| - |rest|];
      WireRead(ts, t, v, w, rest);
      assert b == w + rest;
    }
  }
}
