/** Decoding undoes encoding. */
module CodecTheorems {
  import opened Common
  import opened Schema
  import opened Codec

  // ---------- types that take no bytes ----------

  /** A structure all of whose fields take no bytes; in particular one without fields. */
  predicate ZeroWidth(ts: Types, t: Name)
    requires Descends(ts)
    decreases Rank(ts, t), 1, 0
  {
    match Find(ts.structs, t)
    case Some(k) => ZeroFields(ts, k, ts.structs[k].fields)
    case None => t in ts.builtIns && ts.builtIns[t] == Fixed(0)
  }

  predicate ZeroFields(ts: Types, k: nat, fields: seq<Field>)
    requires Descends(ts) && Precedes(ts, k, fields)
    decreases k + 1, 0, |fields|
  {
    fields == [] || (!fields[0].isArray && ZeroWidth(ts, fields[0].typeName) && ZeroFields(ts, k, fields[1..]))
  }

  /** A value takes no bytes exactly when its type says so. */
  lemma {:induction false} EncodesToNothing(ts: Types, t: Name, v: Value)
    requires Descends(ts) && Typed(ts, t, v)
    ensures Encode(ts, t, v) == [] <==> ZeroWidth(ts, t)
    decreases Rank(ts, t), 1, 0
  {
    match Find(ts.structs, t)
    case Some(k) => FieldsToNothing(ts, k, ts.structs[k].fields, v.fields);
    case None =>
  }

  lemma ArrayTakesBytes(ts: Types, t: Name, vs: seq<Value>)
    requires Descends(ts) && TypedArray(ts, t, vs)
    ensures |EncodeArray(ts, t, vs)| >= 4
  {
    assert |EncodeArray(ts, t, vs)| == |Little(|vs|, 4)| + |EncodeEach(ts, t, vs)|;
  }

  lemma {:induction false} FieldsToNothing(ts: Types, k: nat, fields: seq<Field>, vs: seq<Value>)
    requires Descends(ts) && Precedes(ts, k, fields) && TypedFields(ts, k, fields, vs)
    ensures EncodeFields(ts, k, fields, vs) == [] <==> ZeroFields(ts, k, fields)
    decreases k + 1, 0, |fields|
  {
    if fields != [] {
      if !fields[0].isArray {
        EncodesToNothing(ts, fields[0].typeName, vs[0]);
      }
      FieldsToNothing(ts, k, fields[1..], vs[1..]);
      var first := EncodeField(ts, k, fields[0], vs[0]);
      if fields[0].isArray {
        ArrayTakesBytes(ts, fields[0].typeName, vs[0].elements);
      }
      assert |EncodeFields(ts, k, fields, vs)| == |first| + |EncodeFields(ts, k, fields[1..], vs[1..])|;
    }
  }

  /** So many elements need at least as many bytes, unless they need none. */
  lemma {:induction false} EachTakesAByte(ts: Types, t: Name, vs: seq<Value>)
    requires Descends(ts) && forall i :: 0 <= i < |vs| ==> Typed(ts, t, vs[i])
    ensures if ZeroWidth(ts, t) then EncodeEach(ts, t, vs) == [] else |EncodeEach(ts, t, vs)| >= |vs|
  {
    if vs != [] {
      EncodesToNothing(ts, t, vs[0]);
      EachTakesAByte(ts, t, vs[1..]);
    }
  }

  // ---------- round trips ----------

  lemma IntRoundTrip(n: nat, width: nat, rest: seq<Byte>)
    requires n < Pow(width)
    ensures DecodeInt(width, Little(n, width) + rest) == Got(n, rest)
  {
    LittleRoundTrip(n, width);
    var b := Little(n, width) + rest;
    assert b[..width] == Little(n, width) && b[width..] == rest;
  }

  lemma CountRoundTrip(n: nat, rest: seq<Byte>)
    requires n < MAX_COUNT
    ensures DecodeCount(Little(n, 4) + rest) == Got(n, rest)
  {
    assert Pow(4) == 256 * (256 * (256 * (256 * Pow(0))));
    IntRoundTrip(n, 4, rest);
  }

  lemma BuiltInRoundTrip(kind: Kind, v: Value, rest: seq<Byte>)
    requires TypedBuiltIn(kind, v)
    ensures DecodeBuiltIn(kind, EncodeBuiltIn(kind, v) + rest) == Got(v, rest)
  {
    match kind
    case Fixed(width) => IntRoundTrip(v.n, width, rest);
    case Blob =>
      CountRoundTrip(|v.bytes|, v.bytes + rest);
      assert Little(|v.bytes|, 4) + v.bytes + rest == Little(|v.bytes|, 4) + (v.bytes + rest);
      assert (v.bytes + rest)[..|v.bytes|] == v.bytes && (v.bytes + rest)[|v.bytes|..] == rest;
  }

  // ---------- which encodings decode ----------

  /** Wherever an array of elements that take no bytes stands in the value, at least as many bytes
      follow it, in the encoding and the `n` bytes behind that, as it has elements. */
  predicate Fits(ts: Types, t: Name, v: Value, n: nat)
    requires Descends(ts) && Typed(ts, t, v)
    decreases Rank(ts, t), 1, 0
  {
    match Find(ts.structs, t)
    case Some(k) => FitsFields(ts, k, ts.structs[k].fields, v.fields, n)
    case None => true
  }

  predicate FitsFields(ts: Types, k: nat, fields: seq<Field>, vs: seq<Value>, n: nat)
    requires Descends(ts) && Precedes(ts, k, fields) && TypedFields(ts, k, fields, vs)
    decreases k + 1, 0, |fields|
  {
    fields != [] ==>
      && FitsField(ts, k, fields[0], vs[0], |EncodeFields(ts, k, fields[1..], vs[1..])| + n)
      && FitsFields(ts, k, fields[1..], vs[1..], n)
  }

  predicate FitsField(ts: Types, k: nat, field: Field, v: Value, n: nat)
    requires Descends(ts) && Rank(ts, field.typeName) <= k && TypedField(ts, k, field, v)
    decreases Rank(ts, field.typeName), 4, 0
  {
    if field.isArray then FitsArray(ts, field.typeName, v.elements, n) else Fits(ts, field.typeName, v, n)
  }

  predicate FitsArray(ts: Types, t: Name, vs: seq<Value>, n: nat)
    requires Descends(ts) && TypedArray(ts, t, vs)
    decreases Rank(ts, t), 3, 0
  {
    (ZeroWidth(ts, t) ==> |vs| <= n) && FitsEach(ts, t, vs, n)
  }

  predicate FitsEach(ts: Types, t: Name, vs: seq<Value>, n: nat)
    requires Descends(ts) && forall i :: 0 <= i < |vs| ==> Typed(ts, t, vs[i])
    decreases Rank(ts, t), 2, |vs|
  {
    vs != [] ==>
      && Fits(ts, t, vs[0], |EncodeEach(ts, t, vs[1..])| + n)
      && FitsEach(ts, t, vs[1..], n)
  }

  /** The value and what follows it, or a failure. */
  function When<T>(fits: bool, value: T, rest: seq<Byte>): Decoded<T> {
    if fits then Got(value, rest) else Failed
  }

  /** For every schema in dependency order and every value of it, decoding the encoding followed by
      anything gives back the value and exactly what followed, or fails; and it fails if and only if
      an array of elements that take no bytes has more of them than bytes follow it. */
  lemma {:induction false} DecodeExactly(ts: Types, t: Name, v: Value, rest: seq<Byte>)
    requires Descends(ts) && Typed(ts, t, v)
    ensures Decode(ts, t, Encode(ts, t, v) + rest) == When(Fits(ts, t, v, |rest|), v, rest)
    decreases Rank(ts, t), 1, 0
  {
    match Find(ts.structs, t)
    case Some(k) => FieldsDecodeExactly(ts, k, ts.structs[k].fields, v.fields, rest);
    case None => BuiltInRoundTrip(ts.builtIns[t], v, rest);
  }

  lemma {:induction false} FieldsDecodeExactly(ts: Types, k: nat, fields: seq<Field>, vs: seq<Value>, rest: seq<Byte>)
    requires Descends(ts) && Precedes(ts, k, fields) && TypedFields(ts, k, fields, vs)
    ensures DecodeFields(ts, k, fields, EncodeFields(ts, k, fields, vs) + rest)
            == When(FitsFields(ts, k, fields, vs, |rest|), vs, rest)
    decreases k + 1, 0, |fields|
  {
    if fields != [] {
      var first, others := EncodeField(ts, k, fields[0], vs[0]), EncodeFields(ts, k, fields[1..], vs[1..]);
      FieldDecodesExactly(ts, k, fields[0], vs[0], others + rest);
      FieldsDecodeExactly(ts, k, fields[1..], vs[1..], rest);
      assert first + others + rest == first + (others + rest);
      assert |others + rest| == |others| + |rest|;
      assert [vs[0]] + vs[1..] == vs;
    }
  }

  lemma {:induction false} FieldDecodesExactly(ts: Types, k: nat, field: Field, v: Value, rest: seq<Byte>)
    requires Descends(ts) && Rank(ts, field.typeName) <= k && TypedField(ts, k, field, v)
    ensures DecodeField(ts, k, field, EncodeField(ts, k, field, v) + rest)
            == When(FitsField(ts, k, field, v, |rest|), v, rest)
    decreases Rank(ts, field.typeName), 4, 0
  {
    if field.isArray {
      ArrayDecodesExactly(ts, field.typeName, v.elements, rest);
    } else {
      DecodeExactly(ts, field.typeName, v, rest);
    }
  }

  lemma {:induction false} ArrayDecodesExactly(ts: Types, t: Name, vs: seq<Value>, rest: seq<Byte>)
    requires Descends(ts) && TypedArray(ts, t, vs)
    ensures DecodeArray(ts, t, EncodeArray(ts, t, vs) + rest) == When(FitsArray(ts, t, vs, |rest|), vs, rest)
    decreases Rank(ts, t), 3, 0
  {
    var each := EncodeEach(ts, t, vs);
    CountRoundTrip(|vs|, each + rest);
    assert Little(|vs|, 4) + each + rest == Little(|vs|, 4) + (each + rest);
    assert |each + rest| == |each| + |rest|;
    EachTakesAByte(ts, t, vs);
    EachDecodesExactly(ts, t, vs, rest);
  }

  lemma {:induction false} EachDecodesExactly(ts: Types, t: Name, vs: seq<Value>, rest: seq<Byte>)
    requires Descends(ts) && forall i :: 0 <= i < |vs| ==> Typed(ts, t, vs[i])
    ensures DecodeEach(ts, t, |vs|, EncodeEach(ts, t, vs) + rest) == When(FitsEach(ts, t, vs, |rest|), vs, rest)
    decreases Rank(ts, t), 2, |vs|
  {
    if vs != [] {
      var first, others := Encode(ts, t, vs[0]), EncodeEach(ts, t, vs[1..]);
      DecodeExactly(ts, t, vs[0], others + rest);
      EachDecodesExactly(ts, t, vs[1..], rest);
      assert first + others + rest == first + (others + rest);
      assert |others + rest| == |others| + |rest|;
      assert [vs[0]] + vs[1..] == vs;
    }
  }

  // ---------- schemas all of whose values round-trip ----------

  /** No array field has elements that take no bytes. */
  ghost predicate ElementsTakeBytes(ts: Types)
    requires Descends(ts)
  {
    forall k :: 0 <= k < |ts.structs| ==> ArraysTakeBytes(ts, ts.structs[k].fields)
  }

  ghost predicate ArraysTakeBytes(ts: Types, fields: seq<Field>)
    requires Descends(ts)
  {
    forall j :: 0 <= j < |fields| && fields[j].isArray ==> !ZeroWidth(ts, fields[j].typeName)
  }

  lemma {:induction false} AllFit(ts: Types, t: Name, v: Value, n: nat)
    requires Descends(ts) && Typed(ts, t, v) && ElementsTakeBytes(ts)
    ensures Fits(ts, t, v, n)
    decreases Rank(ts, t), 1, 0
  {
    match Find(ts.structs, t)
    case Some(k) => FieldsAllFit(ts, k, ts.structs[k].fields, v.fields, n);
    case None =>
  }

  lemma {:induction false} FieldsAllFit(ts: Types, k: nat, fields: seq<Field>, vs: seq<Value>, n: nat)
    requires Descends(ts) && Precedes(ts, k, fields) && TypedFields(ts, k, fields, vs)
    requires ElementsTakeBytes(ts) && ArraysTakeBytes(ts, fields)
    ensures FitsFields(ts, k, fields, vs, n)
    decreases k + 1, 0, |fields|
  {
    if fields != [] {
      var behind := |EncodeFields(ts, k, fields[1..], vs[1..])| + n;
      if fields[0].isArray {
        assert TypedArray(ts, fields[0].typeName, vs[0].elements);
        EachFits(ts, fields[0].typeName, vs[0].elements, behind);
      } else {
        AllFit(ts, fields[0].typeName, vs[0], behind);
      }
      assert forall j :: 0 <= j < |fields| - 1 ==> fields[1..][j] == fields[j + 1];
      FieldsAllFit(ts, k, fields[1..], vs[1..], n);
    }
  }

  lemma {:induction false} EachFits(ts: Types, t: Name, vs: seq<Value>, n: nat)
    requires Descends(ts) && ElementsTakeBytes(ts) && forall i :: 0 <= i < |vs| ==> Typed(ts, t, vs[i])
    ensures FitsEach(ts, t, vs, n)
    decreases Rank(ts, t), 2, |vs|
  {
    if vs != [] {
      AllFit(ts, t, vs[0], |EncodeEach(ts, t, vs[1..])| + n);
      EachFits(ts, t, vs[1..], n);
    }
  }

  /** For every sorted schema whose array elements take bytes, and every value of it, decoding the
      encoding followed by anything gives back the value and exactly what followed. */
  lemma RoundTrip(ts: Types, t: Name, v: Value, rest: seq<Byte>)
    requires Descends(ts) && Typed(ts, t, v) && ElementsTakeBytes(ts)
    ensures Decode(ts, t, Encode(ts, t, v) + rest) == Got(v, rest)
  {
    DecodeExactly(ts, t, v, rest);
    AllFit(ts, t, v, |rest|);
  }

  /** The same for a schema as the sorter orders it. */
  lemma SortedSchemaRoundTrip(ts: Types, t: Name, v: Value, rest: seq<Byte>)
    requires Ordered(Names(ts.structs), ts.structs) && DistinctNames(ts.structs)
    ensures Descends(ts)
    ensures Typed(ts, t, v) ==> Decode(ts, t, Encode(ts, t, v) + rest) == When(Fits(ts, t, v, |rest|), v, rest)
    ensures Typed(ts, t, v) && ElementsTakeBytes(ts) ==> Fits(ts, t, v, |rest|)
  {
    OrderDescends(ts);
    if Typed(ts, t, v) {
      DecodeExactly(ts, t, v, rest);
      if ElementsTakeBytes(ts) {
        AllFit(ts, t, v, |rest|);
      }
    }
  }

  /** A structure whose array field holds one structure without fields does not decode, with nothing
      behind it. */
  lemma EmptyStructureRefused()
    ensures var ts := Types([Struct(1, []), Struct(2, [Field(1, true)])], map[]);
            var v := Record([Array([Record([])])]);
            Descends(ts) && Typed(ts, 2, v) && Decode(ts, 2, Encode(ts, 2, v)) == Failed
  {
    var ts := Types([Struct(1, []), Struct(2, [Field(1, true)])], map[]);
    var empty := Record([]);
    var v := Record([Array([empty])]);
    assert ts.structs[..1] == [Struct(1, [])];
    assert Find(ts.structs, 1) == Some(0) && Find(ts.structs, 2) == Some(1);
    assert Typed(ts, 1, empty) && ZeroWidth(ts, 1);
    assert TypedArray(ts, 1, [empty]) && !FitsArray(ts, 1, [empty], 0);
    var fields := [Field(1, true)];
    assert fields[1..] == [] && v.fields[1..] == [];
    assert TypedFields(ts, 1, fields, v.fields) && !FitsFields(ts, 1, fields, v.fields, 0);
    DecodeExactly(ts, 2, v, []);
    assert Encode(ts, 2, v) + [] == Encode(ts, 2, v);
  }
}
