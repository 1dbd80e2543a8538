/** The binary encoding of schema values: a structure is its fields in order, an array an Int32 count
    and its elements. The place of a structure in the sorted schema bounds the recursion. */
module Codec {
  import opened Common
  import opened Schema

  type Byte = b: int | 0 <= b < 256

  /** The built-in types a schema bottoms out in: integers of a fixed width, little-endian, among them
      the enumerations; and strings of bytes after an Int32 length. */
  datatype Kind = Fixed(width: nat) | Blob

  datatype Types = Types(structs: seq<Struct>, builtIns: map<Name, Kind>)

  datatype Value =
    | Integer(n: nat)
    | Bytes(bytes: seq<Byte>)
    | Array(elements: seq<Value>)
    | Record(fields: seq<Value>)

  const MAX_COUNT: nat := 0x8000_0000

  function Find(structs: seq<Struct>, name: Name): (k: Option<nat>)
    ensures k.Some? ==> k.value < |structs| && structs[k.value].name == name
    ensures k.None? ==> forall i :: 0 <= i < |structs| ==> structs[i].name != name
  {
    if structs == [] then None
    else if structs[|structs| - 1].name == name then Some(|structs| - 1)
    else Find(structs[..|structs| - 1], name)
  }

  /** 0 for a built-in type, above that the place in the sorted schema. */
  function Rank(ts: Types, t: Name): nat {
    match Find(ts.structs, t)
    case Some(k) => k + 1
    case None => 0
  }

  /** Fields of structure `k` refer only to what stands before it. */
  predicate Precedes(ts: Types, k: nat, fields: seq<Field>) {
    forall j :: 0 <= j < |fields| ==> Rank(ts, fields[j].typeName) <= k
  }

  predicate Descends(ts: Types) {
    forall k :: 0 <= k < |ts.structs| ==> Precedes(ts, k, ts.structs[k].fields)
  }

  /** The order the sorter produces is one the codec can recurse along. */
  lemma OrderDescends(ts: Types)
    requires Ordered(Names(ts.structs), ts.structs) && DistinctNames(ts.structs)
    ensures Descends(ts)
  {
    forall k, j | 0 <= k < |ts.structs| && 0 <= j < |ts.structs[k].fields|
      ensures Rank(ts, ts.structs[k].fields[j].typeName) <= k
    {
      var t := ts.structs[k].fields[j].typeName;
      match Find(ts.structs, t)
      case None =>
      case Some(i) =>
        assert t in Dependencies(ts.structs[k]) && t in Names(ts.structs);
        var h :| 0 <= h < k && ts.structs[..k][h].name == t;
        assert ts.structs[h].name == t;
    }
  }

  // ---------- integers ----------

  function Pow(width: nat): (p: nat)
    ensures p > 0
  {
    if width == 0 then 1 else 256 * Pow(width - 1)
  }

  function Little(n: nat, width: nat): (b: seq<Byte>)
    ensures |b| == width
  {
    if width == 0 then [] else [n % 256] + Little(n / 256, width - 1)
  }

  function FromLittle(b: seq<Byte>): nat {
    if b == [] then 0 else b[0] + 256 * FromLittle(b[1..])
  }

  lemma {:induction false} LittleRoundTrip(n: nat, width: nat)
    requires n < Pow(width)
    ensures FromLittle(Little(n, width)) == n
  {
    if width > 0 {
      LittleRoundTrip(n / 256, width - 1);
      assert Little(n, width)[1..] == Little(n / 256, width - 1);
    }
  }

  // ---------- well-typed values ----------

  predicate Typed(ts: Types, t: Name, v: Value)
    requires Descends(ts)
    decreases Rank(ts, t), 1, 0
  {
    match Find(ts.structs, t)
    case Some(k) => v.Record? && TypedFields(ts, k, ts.structs[k].fields, v.fields)
    case None => t in ts.builtIns && TypedBuiltIn(ts.builtIns[t], v)
  }

  predicate TypedBuiltIn(kind: Kind, v: Value) {
    match kind
    case Fixed(width) => v.Integer? && v.n < Pow(width)
    case Blob => v.Bytes? && |v.bytes| < MAX_COUNT
  }

  predicate TypedFields(ts: Types, k: nat, fields: seq<Field>, vs: seq<Value>)
    requires Descends(ts) && Precedes(ts, k, fields)
    decreases k + 1, 0, |fields|
  {
    && |fields| == |vs|
    && (fields == [] || (TypedField(ts, k, fields[0], vs[0]) && TypedFields(ts, k, fields[1..], vs[1..])))
  }

  predicate TypedField(ts: Types, k: nat, field: Field, v: Value)
    requires Descends(ts) && Rank(ts, field.typeName) <= k
    decreases Rank(ts, field.typeName), 3, 0
  {
    if field.isArray then v.Array? && TypedArray(ts, field.typeName, v.elements)
    else Typed(ts, field.typeName, v)
  }

  predicate TypedArray(ts: Types, t: Name, vs: seq<Value>)
    requires Descends(ts)
    decreases Rank(ts, t), 2, 0
  {
    |vs| < MAX_COUNT && forall i :: 0 <= i < |vs| ==> Typed(ts, t, vs[i])
  }

  // ---------- encoding ----------

  function Encode(ts: Types, t: Name, v: Value): seq<Byte>
    requires Descends(ts) && Typed(ts, t, v)
    decreases Rank(ts, t), 1, 0
  {
    match Find(ts.structs, t)
    case Some(k) => EncodeFields(ts, k, ts.structs[k].fields, v.fields)
    case None => EncodeBuiltIn(ts.builtIns[t], v)
  }

  function EncodeBuiltIn(kind: Kind, v: Value): seq<Byte>
    requires TypedBuiltIn(kind, v)
  {
    match kind
    case Fixed(width) => Little(v.n, width)
    case Blob => Little(|v.bytes|, 4) + v.bytes
  }

  function EncodeFields(ts: Types, k: nat, fields: seq<Field>, vs: seq<Value>): seq<Byte>
    requires Descends(ts) && Precedes(ts, k, fields) && TypedFields(ts, k, fields, vs)
    decreases k + 1, 0, |fields|
  {
    if fields == [] then []
    else EncodeField(ts, k, fields[0], vs[0]) + EncodeFields(ts, k, fields[1..], vs[1..])
  }

  function EncodeField(ts: Types, k: nat, field: Field, v: Value): seq<Byte>
    requires Descends(ts) && Rank(ts, field.typeName) <= k && TypedField(ts, k, field, v)
    decreases Rank(ts, field.typeName), 4, 0
  {
    if field.isArray then EncodeArray(ts, field.typeName, v.elements) else Encode(ts, field.typeName, v)
  }

  function EncodeArray(ts: Types, t: Name, vs: seq<Value>): seq<Byte>
    requires Descends(ts) && TypedArray(ts, t, vs)
    decreases Rank(ts, t), 3, 0
  {
    Little(|vs|, 4) + EncodeEach(ts, t, vs)
  }

  function EncodeEach(ts: Types, t: Name, vs: seq<Value>): seq<Byte>
    requires Descends(ts) && forall i :: 0 <= i < |vs| ==> Typed(ts, t, vs[i])
    decreases Rank(ts, t), 2, |vs|
  {
    if vs == [] then [] else Encode(ts, t, vs[0]) + EncodeEach(ts, t, vs[1..])
  }

  // ---------- decoding ----------

  datatype Decoded<T> = Failed | Got(value: T, rest: seq<Byte>)

  function DecodeInt(width: nat, b: seq<Byte>): Decoded<nat> {
    if |b| < width then Failed else Got(FromLittle(b[..width]), b[width..])
  }

  /** A signed 32-bit count. */
  function DecodeCount(b: seq<Byte>): Decoded<int> {
    match DecodeInt(4, b)
    case Failed => Failed
    case Got(raw, rest) => Got(if raw < MAX_COUNT then raw else raw - 2 * MAX_COUNT, rest)
  }

  function Decode(ts: Types, t: Name, b: seq<Byte>): Decoded<Value>
    requires Descends(ts)
    decreases Rank(ts, t), 1, 0
  {
    match Find(ts.structs, t)
    case Some(k) =>
      (match DecodeFields(ts, k, ts.structs[k].fields, b)
       case Failed => Failed
       case Got(vs, rest) => Got(Record(vs), rest))
    case None => if t in ts.builtIns then DecodeBuiltIn(ts.builtIns[t], b) else Failed
  }

  function DecodeBuiltIn(kind: Kind, b: seq<Byte>): Decoded<Value> {
    match kind
    case Fixed(width) =>
      (match DecodeInt(width, b)
       case Failed => Failed
       case Got(n, rest) => Got(Integer(n), rest))
    case Blob =>
      match DecodeCount(b)
      case Failed => Failed
      case Got(length, rest) =>
        if length < 0 then Got(Bytes([]), rest)
        else if length > |rest| then Failed
        else Got(Bytes(rest[..length]), rest[length..])
  }

  function DecodeFields(ts: Types, k: nat, fields: seq<Field>, b: seq<Byte>): Decoded<seq<Value>>
    requires Descends(ts) && Precedes(ts, k, fields)
    decreases k + 1, 0, |fields|
  {
    if fields == [] then Got([], b)
    else
      match DecodeField(ts, k, fields[0], b)
      case Failed => Failed
      case Got(v, rest) =>
        match DecodeFields(ts, k, fields[1..], rest)
        case Failed => Failed
        case Got(vs, rest') => Got([v] + vs, rest')
  }

  function DecodeField(ts: Types, k: nat, field: Field, b: seq<Byte>): Decoded<Value>
    requires Descends(ts) && Rank(ts, field.typeName) <= k
    decreases Rank(ts, field.typeName), 4, 0
  {
    if field.isArray then
      match DecodeArray(ts, field.typeName, b)
      case Failed => Failed
      case Got(vs, rest) => Got(Array(vs), rest)
    else Decode(ts, field.typeName, b)
  }

  /** A count of more elements than there are bytes left is refused. */
  function DecodeArray(ts: Types, t: Name, b: seq<Byte>): Decoded<seq<Value>>
    requires Descends(ts)
    decreases Rank(ts, t), 3, 0
  {
    match DecodeCount(b)
    case Failed => Failed
    case Got(count, rest) =>
      if count <= 0 then Got([], rest)
      else if count > |rest| then Failed
      else DecodeEach(ts, t, count, rest)
  }

  function DecodeEach(ts: Types, t: Name, count: nat, b: seq<Byte>): Decoded<seq<Value>>
    requires Descends(ts)
    decreases Rank(ts, t), 2, count
  {
    if count == 0 then Got([], b)
    else
      match Decode(ts, t, b)
      case Failed => Failed
      case Got(v, rest) =>
        match DecodeEach(ts, t, count - 1, rest)
        case Failed => Failed
        case Got(vs, rest') => Got([v] + vs, rest')
  }
}
