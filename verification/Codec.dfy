/**
  Encoding and decoding of one value as a MontyObject message
  (internal/wire/value_codec.go).
*/
module Codec {
  import opened Prelude
  import opened ProtoWire
  import opened Records
  import opened Uuid
  import opened Values

  // ----- encoding -----

  function SequenceNumber(kind: SequenceKind): (n: nat)
    ensures n in {11, 12, 15, 16}
  {
    match kind
    case List => 11
    case Tuple => 12
    case Set => 15
    case FrozenSet => 16
  }

  /** The fields of BigInt: a sign flag and the magnitude, always sent. */
  function BigFields(i: int): seq<Field> {
    Uint(1, if i < 0 then 1 else 0) + [Field(2, Blob(BigBytes(Abs(i))))]
  }

  function UuidBytes(id: Bytes): Bytes {
    var raw := ParseUUID(id);
    if raw.Some? then raw.value else []
  }

  function UuidMessage(id: Bytes): Bytes {
    FlatBody([Field(1, Blob(UuidBytes(id)))])
  }

  /** The message body of a value that can be encoded. */
  function Body(v: Value): (b: Bytes) {
    match v
    case Ellipsis => BytesField(1, [])
    case Null => BytesField(2, [])
    case NotImplemented => BytesField(3, [])
    case Bool(b) => VarintField(4, if b then 1 else 0)
    case Int(i) => if IsInt64(i) then VarintField(5, EncodeZigZag(i)) else BytesField(6, FlatBody(BigFields(i)))
    case Float(bits) => Fixed64Field(7, bits)
    case Str(s) => BytesField(8, s)
    case ByteString(s) => BytesField(9, s)
    case Sequence(kind, items) => BytesField(SequenceNumber(kind), ItemsBody(1, items))
    case NamedTuple(name, fields, values) =>
      BytesField(13, StringField(1, name) + (NamesBody(fields) + ItemsBody(3, values)))
    case Dict(pairs) => BytesField(14, PairsBody(pairs))
    case Plain(rec) => BytesField(Number(rec), FlatBody(FieldsOf(rec)))
    case Class(t) => BytesField(23, TypeBody(t))
    case Instance(t, id, attrs) =>
      BytesField(24, BytesField(1, TypeBody(t)) + (BytesField(2, UuidMessage(id)) + BytesField(3, PairsBody(attrs))))
    case BuiltinFunction(name) => BytesField(26, name)
    case Path(p) => BytesField(27, p)
  }

  function ItemsBody(num: nat, items: seq<Value>): Bytes
    decreases items
  {
    if items == [] then [] else BytesField(num, Body(items[0])) + ItemsBody(num, items[1..])
  }

  function NamesBody(names: seq<Bytes>): Bytes {
    if names == [] then [] else BytesField(2, names[0]) + NamesBody(names[1..])
  }

  function PairBody(p: Pair): Bytes {
    BytesField(1, Body(p.key)) + BytesField(2, Body(p.value))
  }

  function PairsBody(pairs: seq<Pair>): Bytes {
    if pairs == [] then [] else BytesField(1, PairBody(pairs[0])) + PairsBody(pairs[1..])
  }

  function TypeBody(t: TypeInfo): Bytes {
    StringField(1, t.name)
    + ((if t.id == [] then [] else BytesField(2, UuidMessage(t.id)))
       + (UintField(3, t.origin)
          + (UintField(4, if t.isDataclass then 1 else 0)
             + (if t.attrs == [] then [] else BytesField(5, PairsBody(t.attrs))))))
  }

  /** The conversion errors of AppendValue: a cycle marker, or an id that is no uuid. */
  predicate Encodable(v: Value) {
    match v
    case Sequence(_, items) => forall i | 0 <= i < |items| :: Encodable(items[i])
    case NamedTuple(_, _, values) => forall i | 0 <= i < |values| :: Encodable(values[i])
    case Dict(pairs) => EncodablePairs(pairs)
    case Plain(rec) => !rec.Cycle?
    case Class(t) => EncodableType(t)
    case Instance(t, id, attrs) => EncodableType(t) && ParseUUID(id).Some? && EncodablePairs(attrs)
    case _ => true
  }

  predicate EncodableType(t: TypeInfo) {
    (t.id != [] ==> ParseUUID(t.id).Some?) && EncodablePairs(t.attrs)
  }

  predicate EncodablePair(p: Pair) {
    Encodable(p.key) && Encodable(p.value)
  }

  predicate EncodablePairs(pairs: seq<Pair>) {
    forall i | 0 <= i < |pairs| :: EncodablePair(pairs[i])
  }

  /** AppendValue: the bytes appended, or none and a conversion error. */
  function AppendValue(v: Value): (r: Option<Bytes>) {
    if Encodable(v) then Some(Body(v)) else None
  }

  // ----- decoding -----

  const MAX_DECODE_NESTING: nat := 100

  /** A decoded part and what is left of the budget. */
  datatype Decoded<+T> = Decoded(value: T, left: int)

  /** Budget.charge */
  function Charge<T>(v: T, budget: int, n: nat): Option<Decoded<T>> {
    if budget < n then None else Some(Decoded(v, budget - n))
  }

  function DecodeBig(msg: Bytes, budget: int): (r: Option<Decoded<Value>>) {
    var m := Flat(msg, Schema({1}, {2}), map[]);
    if m.None? then None
    else
      var mag := Text(At(m.value, 2));
      var magnitude: int := FromBig(mag);
      Charge(Int(if Num(At(m.value, 1)) != 0 then -magnitude else magnitude), budget, |mag|)
  }

  function DecodeUuid(msg: Bytes): (r: Option<Bytes>) {
    var m := Flat(msg, Schema({}, {1}), map[]);
    if m.None? then None else FormatUUID(Text(At(m.value, 1)))
  }

  function DecodeValue(msg: Bytes, budget: int, depth: nat): (r: Option<Decoded<Value>>)
    decreases |msg|, 2
  {
    if depth > MAX_DECODE_NESTING || budget < NODE_SIZE then None
    else ValueFrom(msg, budget - NODE_SIZE, depth, None)
  }

  /** The field loop: the last field decides, and a field of no known kind leaves the value undecided. */
  function ValueFrom(b: Bytes, budget: int, depth: nat, last: Option<Value>): (r: Option<Decoded<Value>>)
    decreases |b|, 0
  {
    if b == [] then (if last.None? then None else Some(Decoded(last.value, budget)))
    else
      var f := NextField(b);
      if f.None? then None
      else
        var a := DecodeKind(f.value.value, budget, depth);
        if a.None? then None else ValueFrom(f.value.rest, a.value.left, depth, a.value.value)
  }

  function Size(p: Payload): nat {
    if p.Blob? then |p.data| else 0
  }

  function Known(d: Option<Decoded<Value>>): Option<Decoded<Option<Value>>> {
    if d.None? then None else Some(Decoded(Some(d.value.value), d.value.left))
  }

  function DecodeKind(f: Field, budget: int, depth: nat): (r: Option<Decoded<Option<Value>>>)
    decreases Size(f.payload), 3
  {
    if f.num == 4 then
      if f.payload.Varint? then Some(Decoded(Some(Bool(f.payload.n != 0)), budget)) else None
    else if f.num == 5 then
      if f.payload.Varint? then Some(Decoded(Some(Int(DecodeZigZag(f.payload.n))), budget)) else None
    else if f.num == 7 then
      if f.payload.Fixed? then Some(Decoded(Some(Float(f.payload.bits)), budget)) else None
    else if 1 <= f.num <= 30 then
      if f.payload.Blob? then Known(DecodeMessage(f.num, f.payload.data, budget, depth)) else None
    else Some(Decoded(None, budget))
  }

  /** The kinds carried as length-delimited payloads. */
  function DecodeMessage(num: nat, data: Bytes, budget: int, depth: nat): (r: Option<Decoded<Value>>)
    requires 1 <= num <= 30 && num !in {4, 5, 7}
    decreases |data|, 2
  {
    if num == 1 then Some(Decoded(Ellipsis, budget))
    else if num == 2 then Some(Decoded(Null, budget))
    else if num == 3 then Some(Decoded(NotImplemented, budget))
    else if num == 6 then DecodeBig(data, budget)
    else if num == 8 || num == 29 then Charge(Str(data), budget, |data|)
    else if num == 9 then Charge(ByteString(data), budget, |data|)
    else if num == 10 then None
    else if num in {11, 12, 15, 16} then
      var kind := if num == 11 then List else if num == 12 then Tuple else if num == 15 then Set else FrozenSet;
      var items := ItemsFrom(data, budget, depth, []);
      if items.None? then None else Some(Decoded(Sequence(kind, items.value.value), items.value.left))
    else if num == 13 then NamedTupleFrom(data, budget, depth, [], [], [])
    else if num == 14 then
      var pairs := PairsFrom(data, budget, depth, []);
      if pairs.None? then None else Some(Decoded(Dict(pairs.value.value), pairs.value.left))
    else if num == 23 then
      var t := TypeFrom(data, budget, depth, EMPTY_TYPE, false);
      if t.None? then None else Some(Decoded(Class(t.value.value), t.value.left))
    else if num == 24 then InstanceFrom(data, budget, depth, None, None, [])
    else if num == 26 then Some(Decoded(BuiltinFunction(data), budget))
    else if num == 27 then Some(Decoded(Path(data), budget))
    else
      var rec := DecodeRecord(num, data);
      if rec.None? then None else Some(Decoded(Plain(rec.value), budget))
  }

  function ItemsFrom(b: Bytes, budget: int, depth: nat, items: seq<Value>): (r: Option<Decoded<seq<Value>>>)
    decreases |b|, 1
  {
    if b == [] then Some(Decoded(items, budget))
    else
      var f := NextField(b);
      if f.None? then None
      else if f.value.value.num != 1 then ItemsFrom(f.value.rest, budget, depth, items)
      else if !f.value.value.payload.Blob? then None
      else
        var v := DecodeValue(f.value.value.payload.data, budget, depth + 1);
        if v.None? then None else ItemsFrom(f.value.rest, v.value.left, depth, items + [v.value.value])
  }

  function NamedTupleFrom(b: Bytes, budget: int, depth: nat, name: Bytes, fields: seq<Bytes>, values: seq<Value>)
    : (r: Option<Decoded<Value>>)
    decreases |b|, 1
  {
    if b == [] then Some(Decoded(NamedTuple(name, fields, values), budget))
    else
      var f := NextField(b);
      if f.None? then None
      else
        var num, payload, rest := f.value.value.num, f.value.value.payload, f.value.rest;
        if num !in {1, 2, 3} then NamedTupleFrom(rest, budget, depth, name, fields, values)
        else if !payload.Blob? then None
        else if num == 1 then NamedTupleFrom(rest, budget, depth, payload.data, fields, values)
        else if num == 2 then NamedTupleFrom(rest, budget, depth, name, fields + [payload.data], values)
        else
          var v := DecodeValue(payload.data, budget, depth + 1);
          if v.None? then None else NamedTupleFrom(rest, v.value.left, depth, name, fields, values + [v.value.value])
  }

  function PairsFrom(b: Bytes, budget: int, depth: nat, pairs: seq<Pair>): (r: Option<Decoded<seq<Pair>>>)
    decreases |b|, 1
  {
    if b == [] then Some(Decoded(pairs, budget))
    else
      var f := NextField(b);
      if f.None? then None
      else if f.value.value.num != 1 then PairsFrom(f.value.rest, budget, depth, pairs)
      else if !f.value.value.payload.Blob? then None
      else
        var p := PairFrom(f.value.value.payload.data, budget, depth, None, None);
        if p.None? then None else PairsFrom(f.value.rest, p.value.left, depth, pairs + [p.value.value])
  }

  function PairFrom(b: Bytes, budget: int, depth: nat, key: Option<Value>, val: Option<Value>): (r: Option<Decoded<Pair>>)
    decreases |b|, 1
  {
    if b == [] then
      if key.None? || val.None? then None else Some(Decoded(Pair(key.value, val.value), budget))
    else
      var f := NextField(b);
      if f.None? then None
      else
        var num, payload, rest := f.value.value.num, f.value.value.payload, f.value.rest;
        if num !in {1, 2} then PairFrom(rest, budget, depth, key, val)
        else if !payload.Blob? then None
        else
          var v := DecodeValue(payload.data, budget, depth + 1);
          if v.None? then None
          else if num == 1 then PairFrom(rest, v.value.left, depth, Some(v.value.value), val)
          else PairFrom(rest, v.value.left, depth, key, Some(v.value.value))
  }

  const EMPTY_TYPE: TypeInfo := TypeInfo([], [], 0, false, [])

  /** The checks of decodeType once the message has been read. */
  predicate TypeAccepted(t: TypeInfo, hasID: bool) {
    if t.origin == BUILTIN then !hasID else (t.origin == SANDBOX || t.origin == HOST) && hasID
  }

  function TypeFrom(b: Bytes, budget: int, depth: nat, t: TypeInfo, hasID: bool): (r: Option<Decoded<TypeInfo>>)
    decreases |b|, 1
  {
    if b == [] then (if TypeAccepted(t, hasID) then Some(Decoded(t, budget)) else None)
    else
      var f := NextField(b);
      if f.None? then None
      else
        var num, payload, rest := f.value.value.num, f.value.value.payload, f.value.rest;
        if num == 3 || num == 4 then
          if !payload.Varint? then None
          else if num == 3 then TypeFrom(rest, budget, depth, t.(origin := payload.n % 256), hasID)
          else TypeFrom(rest, budget, depth, t.(isDataclass := payload.n != 0), hasID)
        else if num !in {1, 2, 5} then TypeFrom(rest, budget, depth, t, hasID)
        else if !payload.Blob? then None
        else if num == 1 then TypeFrom(rest, budget, depth, t.(name := payload.data), hasID)
        else if num == 2 then
          var id := DecodeUuid(payload.data);
          if id.None? then None else TypeFrom(rest, budget, depth, t.(id := id.value), true)
        else
          var attrs := PairsFrom(payload.data, budget, depth, []);
          if attrs.None? then None
          else
            var t1 := if attrs.value.value == [] then t else t.(attrs := attrs.value.value);
            TypeFrom(rest, attrs.value.left, depth, t1, hasID)
  }

  function InstanceFrom(b: Bytes, budget: int, depth: nat, t: Option<TypeInfo>, id: Option<Bytes>, attrs: seq<Pair>)
    : (r: Option<Decoded<Value>>)
    decreases |b|, 1
  {
    if b == [] then
      if t.None? || id.None? || t.value.origin == BUILTIN then None
      else Some(Decoded(Instance(t.value, id.value, attrs), budget))
    else
      var f := NextField(b);
      if f.None? then None
      else
        var num, payload, rest := f.value.value.num, f.value.value.payload, f.value.rest;
        if num !in {1, 2, 3} then InstanceFrom(rest, budget, depth, t, id, attrs)
        else if !payload.Blob? then None
        else if num == 1 then
          var t1 := TypeFrom(payload.data, budget, depth + 1, EMPTY_TYPE, false);
          if t1.None? then None else InstanceFrom(rest, t1.value.left, depth, Some(t1.value.value), id, attrs)
        else if num == 2 then
          var id1 := DecodeUuid(payload.data);
          if id1.None? then None else InstanceFrom(rest, budget, depth, t, id1, attrs)
        else
          var ps := PairsFrom(payload.data, budget, depth, []);
          if ps.None? then None
          else InstanceFrom(rest, ps.value.left, depth, t, id, if ps.value.value == [] then attrs else ps.value.value)
  }
}
