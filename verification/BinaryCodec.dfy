/** The emitted codec as it runs: an encoder that appends to a buffer and a decoder that advances over
    one, looping over fields and elements. */
module BinaryCodec {
  import opened Common
  import opened Schema
  import opened Codec

  class Encoder {
    var bytes: seq<Byte>

    constructor ()
      ensures bytes == []
    {
      bytes := [];
    }

    method PutInt(n: nat, width: nat)
      modifies this
      ensures bytes == old(bytes) + Little(n, width)
    {
      var m := n;
      for i := 0 to width
        invariant bytes + Little(m, width - i) == old(bytes) + Little(n, width)
      {
        ghost var before := bytes;
        bytes := bytes + [m % 256];
        assert bytes + Little(m / 256, width - i - 1) == before + ([m % 256] + Little(m / 256, width - i - 1));
        m := m / 256;
      }
    }

    method PutValue(ts: Types, t: Name, v: Value)
      requires Descends(ts) && Typed(ts, t, v)
      modifies this
      ensures bytes == old(bytes) + Encode(ts, t, v)
      decreases Rank(ts, t), 1, 0
    {
      match Find(ts.structs, t)
      case Some(k) => PutStruct(ts, k, ts.structs[k].fields, v.fields);
      case None =>
        match ts.builtIns[t]
        case Fixed(width) => PutInt(v.n, width);
        case Blob =>
          PutInt(|v.bytes|, 4);
          bytes := bytes + v.bytes;
    }

    method PutStruct(ts: Types, k: nat, fields: seq<Field>, vs: seq<Value>)
      requires Descends(ts) && Precedes(ts, k, fields) && TypedFields(ts, k, fields, vs)
      modifies this
      ensures bytes == old(bytes) + EncodeFields(ts, k, fields, vs)
      decreases k + 1, 0, 0
    {
      for i := 0 to |fields|
        invariant TypedFields(ts, k, fields[i..], vs[i..])
        invariant bytes + EncodeFields(ts, k, fields[i..], vs[i..]) == old(bytes) + EncodeFields(ts, k, fields, vs)
      {
        ghost var before, others := bytes, EncodeFields(ts, k, fields[i + 1..], vs[i + 1..]);
        assert fields[i..][1..] == fields[i + 1..] && vs[i..][1..] == vs[i + 1..];
        assert TypedField(ts, k, fields[i], vs[i]);
        ghost var first := EncodeField(ts, k, fields[i], vs[i]);
        if fields[i].isArray {
          PutArray(ts, fields[i].typeName, vs[i].elements);
        } else {
          PutValue(ts, fields[i].typeName, vs[i]);
        }
        assert before + first + others == before + (first + others);
      }
    }

    method PutArray(ts: Types, t: Name, vs: seq<Value>)
      requires Descends(ts) && TypedArray(ts, t, vs)
      modifies this
      ensures bytes == old(bytes) + EncodeArray(ts, t, vs)
      decreases Rank(ts, t), 3, 0
    {
      PutInt(|vs|, 4);
      ghost var header := bytes;
      for i := 0 to |vs|
        invariant bytes + EncodeEach(ts, t, vs[i..]) == header + EncodeEach(ts, t, vs)
      {
        ghost var before, first, others := bytes, Encode(ts, t, vs[i]), EncodeEach(ts, t, vs[i + 1..]);
        assert vs[i..][1..] == vs[i + 1..];
        PutValue(ts, t, vs[i]);
        assert before + first + others == before + (first + others);
      }
      assert old(bytes) + Little(|vs|, 4) + EncodeEach(ts, t, vs)
          == old(bytes) + (Little(|vs|, 4) + EncodeEach(ts, t, vs));
    }
  }

  /** What came before a decoded rest, put back in front. */
  function Prepend(vs: seq<Value>, d: Decoded<seq<Value>>): Decoded<seq<Value>> {
    match d
    case Failed => Failed
    case Got(ws, rest) => Got(vs + ws, rest)
  }

  class Decoder {
    const bytes: seq<Byte>
    var offset: nat

    ghost predicate Valid()
      reads this
    {
      offset <= |bytes|
    }

    function Remaining(): seq<Byte>
      requires Valid()
      reads this
    {
      bytes[offset..]
    }

    constructor (input: seq<Byte>)
      ensures Valid() && Remaining() == input
    {
      bytes, offset := input, 0;
    }

    method TakeInt(width: nat) returns (n: Option<nat>)
      requires Valid()
      modifies this
      ensures Valid()
      ensures n.Some? ==> DecodeInt(width, old(Remaining())) == Got(n.value, Remaining())
      ensures n.None? ==> DecodeInt(width, old(Remaining())) == Decoded.Failed
    {
      if offset + width > |bytes| {
        return None;
      }
      var value := FromLittle(bytes[offset..offset + width]);
      assert bytes[offset..][..width] == bytes[offset..offset + width];
      assert bytes[offset..][width..] == bytes[offset + width..];
      offset := offset + width;
      return Some(value);
    }

    method TakeCount() returns (n: Option<int>)
      requires Valid()
      modifies this
      ensures Valid()
      ensures n.Some? ==> DecodeCount(old(Remaining())) == Got(n.value, Remaining())
      ensures n.None? ==> DecodeCount(old(Remaining())) == Decoded.Failed
    {
      var raw := TakeInt(4);
      if raw.None? {
        return None;
      }
      return Some(if raw.value < MAX_COUNT then raw.value else raw.value - 2 * MAX_COUNT);
    }

    method TakeBlob() returns (v: Option<Value>)
      requires Valid()
      modifies this
      ensures Valid()
      ensures v.Some? ==> DecodeBuiltIn(Blob, old(Remaining())) == Got(v.value, Remaining())
      ensures v.None? ==> DecodeBuiltIn(Blob, old(Remaining())) == Decoded.Failed
    {
      var length := TakeCount();
      if length.None? {
        return None;
      }
      if length.value < 0 {
        return Some(Bytes([]));
      }
      if offset + length.value > |bytes| {
        return None;
      }
      var text := bytes[offset..offset + length.value];
      assert bytes[offset..][..length.value] == text;
      assert bytes[offset..][length.value..] == bytes[offset + length.value..];
      offset := offset + length.value;
      return Some(Bytes(text));
    }

    method TakeValue(ts: Types, t: Name) returns (v: Option<Value>)
      requires Descends(ts) && Valid()
      modifies this
      ensures Valid()
      ensures v.Some? ==> Decode(ts, t, old(Remaining())) == Got(v.value, Remaining())
      ensures v.None? ==> Decode(ts, t, old(Remaining())) == Decoded.Failed
      decreases Rank(ts, t), 1, 0
    {
      match Find(ts.structs, t)
      case Some(k) =>
        var vs := TakeStruct(ts, k, ts.structs[k].fields);
        return if vs.None? then None else Some(Record(vs.value));
      case None =>
        if t !in ts.builtIns {
          return None;
        }
        match ts.builtIns[t]
        case Fixed(width) =>
          var n := TakeInt(width);
          return if n.None? then None else Some(Integer(n.value));
        case Blob => v := TakeBlob();
    }

    method TakeField(ts: Types, k: nat, field: Field) returns (v: Option<Value>)
      requires Descends(ts) && Rank(ts, field.typeName) <= k && Valid()
      modifies this
      ensures Valid()
      ensures v.Some? ==> DecodeField(ts, k, field, old(Remaining())) == Got(v.value, Remaining())
      ensures v.None? ==> DecodeField(ts, k, field, old(Remaining())) == Decoded.Failed
      decreases Rank(ts, field.typeName), 4, 0
    {
      if field.isArray {
        var vs := TakeArray(ts, field.typeName);
        return if vs.None? then None else Some(Array(vs.value));
      } else {
        v := TakeValue(ts, field.typeName);
      }
    }

    method TakeStruct(ts: Types, k: nat, fields: seq<Field>) returns (vs: Option<seq<Value>>)
      requires Descends(ts) && Precedes(ts, k, fields) && Valid()
      modifies this
      ensures Valid()
      ensures vs.Some? ==> DecodeFields(ts, k, fields, old(Remaining())) == Got(vs.value, Remaining())
      ensures vs.None? ==> DecodeFields(ts, k, fields, old(Remaining())) == Decoded.Failed
      decreases k + 1, 0, 0
    {
      var values := [];
      ghost var all := DecodeFields(ts, k, fields, Remaining());
      assert fields[0..] == fields;
      PrependNothing(all);
      for i := 0 to |fields|
        invariant Valid()
        invariant all == Prepend(values, DecodeFields(ts, k, fields[i..], Remaining()))
      {
        assert fields[i..][1..] == fields[i + 1..];
        var v := TakeField(ts, k, fields[i]);
        if v.None? {
          return None;
        }
        PrependMore(values, v.value, DecodeFields(ts, k, fields[i + 1..], Remaining()));
        values := values + [v.value];
      }
      assert values + [] == values;
      return Some(values);
    }

    method TakeArray(ts: Types, t: Name) returns (vs: Option<seq<Value>>)
      requires Descends(ts) && Valid()
      modifies this
      ensures Valid()
      ensures vs.Some? ==> DecodeArray(ts, t, old(Remaining())) == Got(vs.value, Remaining())
      ensures vs.None? ==> DecodeArray(ts, t, old(Remaining())) == Decoded.Failed
      decreases Rank(ts, t), 3, 0
    {
      var count := TakeCount();
      if count.None? {
        return None;
      }
      if count.value <= 0 {
        return Some([]);
      }
      if count.value > |bytes| - offset {
        return None;
      }
      var values := [];
      ghost var all := DecodeEach(ts, t, count.value, Remaining());
      PrependNothing(all);
      for i := 0 to count.value
        invariant Valid()
        invariant all == Prepend(values, DecodeEach(ts, t, count.value - i, Remaining()))
      {
        var v := TakeValue(ts, t);
        if v.None? {
          return None;
        }
        PrependMore(values, v.value, DecodeEach(ts, t, count.value - i - 1, Remaining()));
        values := values + [v.value];
      }
      assert values + [] == values;
      return Some(values);
    }
  }

  // ---------- helper lemmas ----------

  lemma PrependNothing(d: Decoded<seq<Value>>)
    ensures Prepend([], d) == d
  {
    if d.Got? {
      assert [] + d.value == d.value;
    }
  }

  lemma PrependMore(vs: seq<Value>, v: Value, d: Decoded<seq<Value>>)
    ensures Prepend(vs, Prepend([v], d)) == Prepend(vs + [v], d)
  {
    if d.Got? {
      assert vs + ([v] + d.value) == vs + [v] + d.value;
    }
  }
}
