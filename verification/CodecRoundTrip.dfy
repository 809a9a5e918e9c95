/**
  Decoding undoes encoding: every well-formed value that the encoder accepts
  comes back unchanged, and the budget is charged exactly what the value needs.
*/
module CodecRoundTrip {
  import opened Prelude
  import opened ProtoWire
  import opened Records
  import opened Uuid
  import opened Values
  import opened Codec

  // ----- one message -----

  lemma MessageAlone(num: nat, data: Bytes, budget: int, depth: nat)
    requires 1 <= num <= 30 && num !in {4, 5, 7}
    requires |data| < TWO64 && depth <= MAX_DECODE_NESTING && budget >= NODE_SIZE
    ensures DecodeValue(BytesField(num, data), budget, depth) == DecodeMessage(num, data, budget - NODE_SIZE, depth)
  {
    hide NextField, BytesField, DecodeMessage;
    NextBlob(num, data, []);
    var b := BytesField(num, data);
    assert b + [] == b;
    var a := DecodeKind(Field(num, Blob(data)), budget - NODE_SIZE, depth);
    if a.Some? {
      assert ValueFrom([], a.value.left, depth, a.value.value) == Some(Decoded(a.value.value.value, a.value.left));
    }
  }

  /** A last field of no known kind spoils the message, whatever value came before it. */
  lemma TrailingUnknown(b: Bytes, budget: int, depth: nat, last: Option<Value>)
    requires NextField(b).Some? && NextField(b).value.rest == [] && NextField(b).value.value.num > 30
    ensures ValueFrom(b, budget, depth, last) == None
  {
    hide NextField;
    assert ValueFrom([], budget, depth, None) == None;
  }

  lemma ScalarAlone(v: Value, budget: int, depth: nat)
    requires v.Bool? || (v.Int? && IsInt64(v.i)) || (v.Float? && v.bits < TWO64)
    requires depth <= MAX_DECODE_NESTING && budget >= NODE_SIZE
    ensures DecodeValue(Body(v), budget, depth) == Some(Decoded(v, budget - NODE_SIZE))
  {
    hide NextField, VarintField, Fixed64Field;
    assert Body(v) + [] == Body(v);
    assert ValueFrom([], budget - NODE_SIZE, depth, Some(v)) == Some(Decoded(v, budget - NODE_SIZE));
    match v
    case Bool(b) =>
      NextVarint(4, if b then 1 else 0, []);
      assert DecodeKind(Field(4, Varint(if b then 1 else 0)), budget - NODE_SIZE, depth) == Some(Decoded(Some(v), budget - NODE_SIZE));
    case Int(i) =>
      ZigZagRoundTrip(i);
      NextVarint(5, EncodeZigZag(i), []);
      assert DecodeKind(Field(5, Varint(EncodeZigZag(i))), budget - NODE_SIZE, depth) == Some(Decoded(Some(v), budget - NODE_SIZE));
    case Float(bits) =>
      NextFixed64(7, bits, []);
      assert DecodeKind(Field(7, Fixed(bits)), budget - NODE_SIZE, depth) == Some(Decoded(Some(v), budget - NODE_SIZE));
  }

  lemma BigAlone(i: int, budget: int)
    requires |FlatBody(BigFields(i))| < TWO64
    requires budget >= |BigBytes(Abs(i))|
    ensures DecodeBig(FlatBody(BigFields(i)), budget) == Some(Decoded(Int(i), budget - |BigBytes(Abs(i))|))
  {
    hide Flat, FlatBody, BigBytes, FromBig;
    var schema, mag := Schema({1}, {2}), BigBytes(Abs(i));
    var sign := if i < 0 then 1 else 0;
    Start(schema);
    GrowUint(schema, [], 1, sign);
    assert [] + Uint(1, sign) == Uint(1, sign);
    Grow(schema, Uint(1, sign), [Field(2, Blob(mag))], 2);
    FlatRoundTrip(BigFields(i), schema, map[]);
    BigRoundTrip(Abs(i));
  }

  lemma UuidAlone(id: Bytes)
    requires IsUUID(id)
    ensures |UuidMessage(id)| < TWO64
    ensures DecodeUuid(UuidMessage(id)) == Some(id)
  {
    FormatParse(id);
    var raw := UuidBytes(id);
    UuidMessageSize(raw);
    hide Flat, FormatUUID, ParseUUID;
    FlatRoundTrip([Field(1, Blob(raw))], Schema({}, {1}), map[]);
  }

  lemma UuidMessageSize(raw: Bytes)
    requires |raw| == 16
    ensures |FlatBody([Field(1, Blob(raw))])| == 18
  {
    var f := Field(1, Blob(raw));
    assert FlatBody([f]) == Emit(f) + FlatBody([]);
    assert AppendVarint(16) == [16] && AppendVarint(10) == [10];
  }

  // ----- values and their parts -----

  /** What is asked of a value for it to come back, with room levels of nesting below it. */
  ghost predicate Sane(v: Value, room: int) {
    WellFormed(v) && CycleFree(v) && Shallow(v, room)
  }

  ghost predicate SaneItems(items: seq<Value>, room: int) {
    forall i | 0 <= i < |items| :: Sane(items[i], room)
  }

  ghost predicate SanePair(p: Pair, room: int) {
    Sane(p.key, room) && Sane(p.value, room)
  }

  ghost predicate SanePairs(pairs: seq<Pair>, room: int) {
    forall i | 0 <= i < |pairs| :: SanePair(pairs[i], room)
  }

  ghost predicate SaneType(t: TypeInfo, room: int) {
    && BUILTIN <= t.origin <= HOST
    && (if t.origin == BUILTIN then t.id == [] else IsUUID(t.id))
    && SanePairs(t.attrs, room)
  }

  lemma SaneParts(v: Value, room: int)
    requires Sane(v, room)
    ensures room >= 0
    ensures v.Sequence? ==> SaneItems(v.items, room - 1)
    ensures v.NamedTuple? ==> SaneItems(v.values, room - 1)
    ensures v.Dict? ==> SanePairs(v.pairs, room - 1)
    ensures v.Class? ==> SaneType(v.t, room - 1)
    ensures v.Instance? ==> SaneType(v.t, room - 2) && v.t.origin != BUILTIN && IsUUID(v.id) && SanePairs(v.attrs, room - 1)
    ensures v.Float? ==> v.bits < TWO64
    ensures v.Plain? ==> WellFormedRecord(v.rec) && !v.rec.Cycle?
  {
    hide IsUUID, WellFormedRecord;
    match v
    case Dict(pairs) => SanePairsFrom(pairs, room - 1);
    case Class(t) =>
      assert WellFormedType(t);
      SanePairsFrom(t.attrs, room - 1);
    case Instance(t, _, attrs) =>
      assert WellFormedType(t);
      SanePairsFrom(t.attrs, room - 2);
      SanePairsFrom(attrs, room - 1);
    case _ =>
  }

  lemma SanePairsFrom(pairs: seq<Pair>, room: int)
    requires WellFormedPairs(pairs) && CycleFreePairs(pairs) && ShallowPairs(pairs, room)
    ensures SanePairs(pairs, room)
  {
    hide WellFormed, CycleFree, Shallow;
    forall i | 0 <= i < |pairs| ensures SanePair(pairs[i], room) {
      assert WellFormedPair(pairs[i]) && CycleFreePair(pairs[i]) && ShallowPair(pairs[i], room);
    }
  }

  lemma AppendShift<T>(acc: seq<T>, s: seq<T>)
    requires s != []
    ensures acc + [s[0]] + s[1..] == acc + s
  {
  }

  lemma BytesFieldLonger(num: nat, s: Bytes)
    ensures |BytesField(num, s)| > |s|
  {
  }

  /**
    Main result: decoding the encoding of a well-formed value returns that
    value, whatever the depth it sits at, and takes exactly Need(v) from the budget.
  */
  lemma {:induction false} ValueRoundTrip(v: Value, budget: int, depth: nat)
    requires Sane(v, MAX_DECODE_NESTING - depth) && |Body(v)| < TWO64 && budget >= Need(v)
    ensures DecodeValue(Body(v), budget, depth) == Some(Decoded(v, budget - Need(v)))
    decreases v
  {
    hide Sane, Body, DecodeValue, Need;
    match v
    case Sequence(_, _) => SequenceRoundTrip(v, budget, depth);
    case NamedTuple(_, _, _) => NamedTupleRoundTrip(v, budget, depth);
    case Dict(_) => DictRoundTrip(v, budget, depth);
    case Class(_) => ClassRoundTrip(v, budget, depth);
    case Instance(_, _, _) => InstanceRoundTrip(v, budget, depth);
    case _ => LeafRoundTrip(v, budget, depth);
  }

  lemma LeafRoundTrip(v: Value, budget: int, depth: nat)
    requires !v.Sequence? && !v.NamedTuple? && !v.Dict? && !v.Class? && !v.Instance?
    requires Sane(v, MAX_DECODE_NESTING - depth) && |Body(v)| < TWO64 && budget >= Need(v)
    ensures DecodeValue(Body(v), budget, depth) == Some(Decoded(v, budget - Need(v)))
  {
    hide Sane, DecodeValue, BytesField, FieldsOf, FlatBody, DecodeRecord, DecodeBig, WellFormedRecord;
    SaneParts(v, MAX_DECODE_NESTING - depth);
    match v
    case Int(i) =>
      if IsInt64(i) {
        ScalarAlone(v, budget, depth);
      } else {
        BytesFieldLonger(6, FlatBody(BigFields(i)));
        MessageAlone(6, FlatBody(BigFields(i)), budget, depth);
        BigAlone(i, budget - NODE_SIZE);
      }
    case Plain(rec) =>
      BytesFieldLonger(Number(rec), FlatBody(FieldsOf(rec)));
      MessageAlone(Number(rec), FlatBody(FieldsOf(rec)), budget, depth);
      RecordRoundTrip(rec);
    case Ellipsis => MessageAlone(1, [], budget, depth);
    case Null => MessageAlone(2, [], budget, depth);
    case NotImplemented => MessageAlone(3, [], budget, depth);
    case Str(s) => TextAlone(8, s, budget, depth);
    case ByteString(s) => TextAlone(9, s, budget, depth);
    case BuiltinFunction(s) => TextAlone(26, s, budget, depth);
    case Path(s) => TextAlone(27, s, budget, depth);
    case _ => ScalarAlone(v, budget, depth);
  }

  lemma TextAlone(num: nat, s: Bytes, budget: int, depth: nat)
    requires num in {8, 9, 26, 27} && |BytesField(num, s)| < TWO64
    requires depth <= MAX_DECODE_NESTING && budget >= NODE_SIZE
    ensures DecodeValue(BytesField(num, s), budget, depth) == DecodeMessage(num, s, budget - NODE_SIZE, depth)
  {
    hide BytesField;
    BytesFieldLonger(num, s);
    MessageAlone(num, s, budget, depth);
  }

  lemma {:induction false} SequenceRoundTrip(v: Value, budget: int, depth: nat)
    requires v.Sequence? && Sane(v, MAX_DECODE_NESTING - depth) && |Body(v)| < TWO64 && budget >= Need(v)
    ensures DecodeValue(Body(v), budget, depth) == Some(Decoded(v, budget - Need(v)))
    decreases v, 0
  {
    hide Sane, SaneItems, BytesField, ItemsBody, ItemsFrom, DecodeValue;
    SaneParts(v, MAX_DECODE_NESTING - depth);
    var data := ItemsBody(1, v.items);
    BytesFieldLonger(SequenceNumber(v.kind), data);
    MessageAlone(SequenceNumber(v.kind), data, budget, depth);
    ItemsRoundTrip(v.items, budget - NODE_SIZE, depth, []);
    assert [] + v.items == v.items;
  }

  lemma ItemsSplit(num: nat, items: seq<Value>, room: int)
    requires items != [] && SaneItems(items, room)
    ensures Sane(items[0], room) && SaneItems(items[1..], room)
    ensures ItemsBody(num, items) == BytesField(num, Body(items[0])) + ItemsBody(num, items[1..])
    ensures |ItemsBody(num, items)| > |Body(items[0])| && |ItemsBody(num, items)| > |ItemsBody(num, items[1..])|
    ensures NeedItems(items) == Need(items[0]) + NeedItems(items[1..])
  {
    hide Sane, Body, Need, BytesField;
    BytesFieldLonger(num, Body(items[0]));
  }

  lemma ItemsEmpty(budget: int, depth: nat, acc: seq<Value>)
    ensures ItemsBody(1, []) == [] && NeedItems([]) == 0
    ensures ItemsFrom([], budget, depth, acc) == Some(Decoded(acc + [], budget))
  {
    assert acc + [] == acc;
  }

  lemma ItemStep(data: Bytes, rest: Bytes, budget: int, depth: nat, acc: seq<Value>, d: Decoded<Value>)
    requires |data| < TWO64 && DecodeValue(data, budget, depth + 1) == Some(d)
    ensures ItemsFrom(BytesField(1, data) + rest, budget, depth, acc) == ItemsFrom(rest, d.left, depth, acc + [d.value])
  {
    hide NextField, BytesField, DecodeValue;
    NextBlob(1, data, rest);
  }

  lemma {:induction false} ItemsRoundTrip(items: seq<Value>, budget: int, depth: nat, acc: seq<Value>)
    requires SaneItems(items, MAX_DECODE_NESTING - depth - 1)
    requires |ItemsBody(1, items)| < TWO64 && budget >= NeedItems(items)
    ensures ItemsFrom(ItemsBody(1, items), budget, depth, acc) == Some(Decoded(acc + items, budget - NeedItems(items)))
    decreases items, 0
  {
    hide *;
    if items == [] {
      ItemsEmpty(budget, depth, acc);
    } else {
      var v, rest := items[0], ItemsBody(1, items[1..]);
      ItemsSplit(1, items, MAX_DECODE_NESTING - depth - 1);
      ValueRoundTrip(v, budget, depth + 1);
      ItemStep(Body(v), rest, budget, depth, acc, Decoded(v, budget - Need(v)));
      ItemsRoundTrip(items[1..], budget - Need(v), depth, acc + [v]);
      AppendShift(acc, items);
    }
  }

  lemma {:induction false} DictRoundTrip(v: Value, budget: int, depth: nat)
    requires v.Dict? && Sane(v, MAX_DECODE_NESTING - depth) && |Body(v)| < TWO64 && budget >= Need(v)
    ensures DecodeValue(Body(v), budget, depth) == Some(Decoded(v, budget - Need(v)))
    decreases v, 0
  {
    hide Sane, SanePairs, BytesField, PairsBody, PairsFrom, DecodeValue;
    SaneParts(v, MAX_DECODE_NESTING - depth);
    BytesFieldLonger(14, PairsBody(v.pairs));
    MessageAlone(14, PairsBody(v.pairs), budget, depth);
    PairsRoundTrip(v.pairs, budget - NODE_SIZE, depth, []);
    assert [] + v.pairs == v.pairs;
  }

  lemma {:induction false} ClassRoundTrip(v: Value, budget: int, depth: nat)
    requires v.Class? && Sane(v, MAX_DECODE_NESTING - depth) && |Body(v)| < TWO64 && budget >= Need(v)
    ensures DecodeValue(Body(v), budget, depth) == Some(Decoded(v, budget - Need(v)))
    decreases v, 0
  {
    hide Sane, SaneType, BytesField, TypeBody, TypeFrom, DecodeValue;
    SaneParts(v, MAX_DECODE_NESTING - depth);
    BytesFieldLonger(23, TypeBody(v.t));
    MessageAlone(23, TypeBody(v.t), budget, depth);
    TypeRoundTrip(v.t, budget - NODE_SIZE, depth);
  }

  // ----- named tuples -----

  lemma {:induction false} NamedTupleRoundTrip(v: Value, budget: int, depth: nat)
    requires v.NamedTuple? && Sane(v, MAX_DECODE_NESTING - depth) && |Body(v)| < TWO64 && budget >= Need(v)
    ensures DecodeValue(Body(v), budget, depth) == Some(Decoded(v, budget - Need(v)))
    decreases v, 0
  {
    hide Sane, SaneItems, BytesField, NextField, NamesBody, ItemsBody, NamedTupleFrom, DecodeValue;
    SaneParts(v, MAX_DECODE_NESTING - depth);
    var names, tail := NamesBody(v.fieldNames), ItemsBody(3, v.values);
    var data := StringField(1, v.typeName) + (names + tail);
    var left := budget - NODE_SIZE;
    BytesFieldLonger(13, data);
    MessageAlone(13, data, budget, depth);
    BytesFieldLonger(1, v.typeName);
    TypeNameStep(v.typeName, names + tail, left, depth);
    NamesStep(v.fieldNames, tail, left, depth, v.typeName, []);
    assert [] + v.fieldNames == v.fieldNames;
    TupleValuesRoundTrip(v.values, left, depth, v.typeName, v.fieldNames, []);
    assert [] + v.values == v.values;
  }

  lemma TypeNameStep(name: Bytes, rest: Bytes, budget: int, depth: nat)
    requires |name| < TWO64
    ensures NamedTupleFrom(StringField(1, name) + rest, budget, depth, [], [], [])
         == NamedTupleFrom(rest, budget, depth, name, [], [])
  {
    hide NextField, BytesField, DecodeValue;
    if name == [] {
      assert [] + rest == rest;
    } else {
      NextBlob(1, name, rest);
    }
  }

  lemma NameStep(field: Bytes, rest: Bytes, budget: int, depth: nat, name: Bytes, acc: seq<Bytes>)
    requires |field| < TWO64
    ensures NamedTupleFrom(BytesField(2, field) + rest, budget, depth, name, acc, [])
         == NamedTupleFrom(rest, budget, depth, name, acc + [field], [])
  {
    hide NextField, BytesField, DecodeValue;
    NextBlob(2, field, rest);
  }

  lemma {:induction false} NamesStep(names: seq<Bytes>, rest: Bytes, budget: int, depth: nat, name: Bytes, acc: seq<Bytes>)
    requires |NamesBody(names)| < TWO64
    ensures NamedTupleFrom(NamesBody(names) + rest, budget, depth, name, acc, [])
         == NamedTupleFrom(rest, budget, depth, name, acc + names, [])
    decreases |names|
  {
    if names == [] {
      assert [] + rest == rest && acc + names == acc;
    } else {
      hide BytesField, NamedTupleFrom;
      var tail := NamesBody(names[1..]) + rest;
      BytesFieldLonger(2, names[0]);
      assert NamesBody(names) + rest == BytesField(2, names[0]) + tail;
      NameStep(names[0], tail, budget, depth, name, acc);
      NamesStep(names[1..], rest, budget, depth, name, acc + [names[0]]);
      AppendShift(acc, names);
    }
  }

  lemma TupleValuesEmpty(budget: int, depth: nat, name: Bytes, fields: seq<Bytes>, acc: seq<Value>)
    ensures ItemsBody(3, []) == [] && NeedItems([]) == 0
    ensures NamedTupleFrom([], budget, depth, name, fields, acc) == Some(Decoded(NamedTuple(name, fields, acc + []), budget))
  {
    assert acc + [] == acc;
  }

  lemma TupleValueStep(data: Bytes, rest: Bytes, budget: int, depth: nat, name: Bytes, fields: seq<Bytes>, acc: seq<Value>, d: Decoded<Value>)
    requires |data| < TWO64 && DecodeValue(data, budget, depth + 1) == Some(d)
    ensures NamedTupleFrom(BytesField(3, data) + rest, budget, depth, name, fields, acc)
         == NamedTupleFrom(rest, d.left, depth, name, fields, acc + [d.value])
  {
    hide NextField, BytesField, DecodeValue;
    NextBlob(3, data, rest);
  }

  lemma {:induction false} TupleValuesRoundTrip(values: seq<Value>, budget: int, depth: nat, name: Bytes, fields: seq<Bytes>, acc: seq<Value>)
    requires SaneItems(values, MAX_DECODE_NESTING - depth - 1)
    requires |ItemsBody(3, values)| < TWO64 && budget >= NeedItems(values)
    ensures NamedTupleFrom(ItemsBody(3, values), budget, depth, name, fields, acc)
         == Some(Decoded(NamedTuple(name, fields, acc + values), budget - NeedItems(values)))
    decreases values, 0
  {
    hide *;
    if values == [] {
      TupleValuesEmpty(budget, depth, name, fields, acc);
    } else {
      var v, rest := values[0], ItemsBody(3, values[1..]);
      ItemsSplit(3, values, MAX_DECODE_NESTING - depth - 1);
      ValueRoundTrip(v, budget, depth + 1);
      TupleValueStep(Body(v), rest, budget, depth, name, fields, acc, Decoded(v, budget - Need(v)));
      TupleValuesRoundTrip(values[1..], budget - Need(v), depth, name, fields, acc + [v]);
      AppendShift(acc, values);
    }
  }

  // ----- dicts -----

  lemma PairsSplit(pairs: seq<Pair>, room: int)
    requires pairs != [] && SanePairs(pairs, room)
    ensures SanePair(pairs[0], room) && SanePairs(pairs[1..], room)
    ensures PairsBody(pairs) == BytesField(1, PairBody(pairs[0])) + PairsBody(pairs[1..])
    ensures |PairsBody(pairs)| > |PairBody(pairs[0])| && |PairsBody(pairs)| > |PairsBody(pairs[1..])|
    ensures NeedPairs(pairs) == NeedPair(pairs[0]) + NeedPairs(pairs[1..])
  {
    hide SanePair, PairBody, NeedPair, BytesField;
    BytesFieldLonger(1, PairBody(pairs[0]));
  }

  lemma PairsEmpty(budget: int, depth: nat, acc: seq<Pair>)
    ensures PairsBody([]) == [] && NeedPairs([]) == 0
    ensures PairsFrom([], budget, depth, acc) == Some(Decoded(acc + [], budget))
  {
    assert acc + [] == acc;
  }

  lemma PairStep(data: Bytes, rest: Bytes, budget: int, depth: nat, acc: seq<Pair>, d: Decoded<Pair>)
    requires |data| < TWO64 && PairFrom(data, budget, depth, None, None) == Some(d)
    ensures PairsFrom(BytesField(1, data) + rest, budget, depth, acc) == PairsFrom(rest, d.left, depth, acc + [d.value])
  {
    hide NextField, BytesField, PairFrom;
    NextBlob(1, data, rest);
  }

  lemma {:induction false} PairsRoundTrip(pairs: seq<Pair>, budget: int, depth: nat, acc: seq<Pair>)
    requires SanePairs(pairs, MAX_DECODE_NESTING - depth - 1)
    requires |PairsBody(pairs)| < TWO64 && budget >= NeedPairs(pairs)
    ensures PairsFrom(PairsBody(pairs), budget, depth, acc) == Some(Decoded(acc + pairs, budget - NeedPairs(pairs)))
    decreases pairs, 0
  {
    hide *;
    if pairs == [] {
      PairsEmpty(budget, depth, acc);
    } else {
      var p, rest := pairs[0], PairsBody(pairs[1..]);
      PairsSplit(pairs, MAX_DECODE_NESTING - depth - 1);
      PairRoundTrip(p, budget, depth);
      PairStep(PairBody(p), rest, budget, depth, acc, Decoded(p, budget - NeedPair(p)));
      PairsRoundTrip(pairs[1..], budget - NeedPair(p), depth, acc + [p]);
      AppendShift(acc, pairs);
    }
  }

  lemma {:induction false} PairRoundTrip(p: Pair, budget: int, depth: nat)
    requires SanePair(p, MAX_DECODE_NESTING - depth - 1)
    requires |PairBody(p)| < TWO64 && budget >= NeedPair(p)
    ensures PairFrom(PairBody(p), budget, depth, None, None) == Some(Decoded(p, budget - NeedPair(p)))
    decreases p, 0
  {
    hide Sane, Body, Need, NextField, BytesField, DecodeValue;
    BytesFieldLonger(1, Body(p.key));
    BytesFieldLonger(2, Body(p.value));
    var second := BytesField(2, Body(p.value));
    NextBlob(1, Body(p.key), second);
    NextBlob(2, Body(p.value), []);
    assert second + [] == second;
    ValueRoundTrip(p.key, budget, depth + 1);
    ValueRoundTrip(p.value, budget - Need(p.key), depth + 1);
    assert PairFrom(second, budget - Need(p.key), depth, Some(p.key), None) == Some(Decoded(p, budget - NeedPair(p)));
  }

  // ----- types -----

  lemma TypeTextStep(name: Bytes, rest: Bytes, budget: int, depth: nat)
    requires |name| < TWO64
    ensures TypeFrom(StringField(1, name) + rest, budget, depth, EMPTY_TYPE, false)
         == TypeFrom(rest, budget, depth, EMPTY_TYPE.(name := name), false)
  {
    hide NextField, BytesField, PairsFrom;
    if name == [] {
      assert [] + rest == rest;
    } else {
      NextBlob(1, name, rest);
    }
  }

  function IdField(id: Bytes): Bytes {
    if id == [] then [] else BytesField(2, UuidMessage(id))
  }

  lemma TypeIdStep(id: Bytes, rest: Bytes, budget: int, depth: nat, t: TypeInfo)
    requires t.id == [] && (id == [] || IsUUID(id))
    ensures TypeFrom(IdField(id) + rest, budget, depth, t, false)
         == TypeFrom(rest, budget, depth, t.(id := id), id != [])
  {
    hide NextField, BytesField, PairsFrom, DecodeUuid, UuidMessage;
    if id == [] {
      assert [] + rest == rest;
    } else {
      UuidAlone(id);
      NextBlob(2, UuidMessage(id), rest);
    }
  }

  lemma TypeOriginStep(origin: nat, rest: Bytes, budget: int, depth: nat, t: TypeInfo, hasID: bool)
    requires t.origin == 0 && origin < 256
    ensures TypeFrom(UintField(3, origin) + rest, budget, depth, t, hasID)
         == TypeFrom(rest, budget, depth, t.(origin := origin), hasID)
  {
    hide NextField, VarintField, PairsFrom;
    if origin == 0 {
      assert [] + rest == rest;
    } else {
      NextVarint(3, origin, rest);
    }
  }

  lemma TypeDataclassStep(flag: bool, rest: Bytes, budget: int, depth: nat, t: TypeInfo, hasID: bool)
    requires !t.isDataclass
    ensures TypeFrom(UintField(4, if flag then 1 else 0) + rest, budget, depth, t, hasID)
         == TypeFrom(rest, budget, depth, t.(isDataclass := flag), hasID)
  {
    hide NextField, VarintField, PairsFrom;
    if !flag {
      assert [] + rest == rest;
    } else {
      NextVarint(4, 1, rest);
    }
  }

  function AttrsField(attrs: seq<Pair>): Bytes {
    if attrs == [] then [] else BytesField(5, PairsBody(attrs))
  }

  lemma {:induction false} TypeAttrsStep(attrs: seq<Pair>, budget: int, depth: nat, t: TypeInfo, hasID: bool)
    requires SanePairs(attrs, MAX_DECODE_NESTING - depth - 1)
    requires |AttrsField(attrs)| < TWO64 && budget >= NeedPairs(attrs)
    requires t.attrs == [] && TypeAccepted(t, hasID)
    ensures TypeFrom(AttrsField(attrs), budget, depth, t, hasID)
         == Some(Decoded(t.(attrs := attrs), budget - NeedPairs(attrs)))
    decreases attrs, 1
  {
    hide SanePairs, PairsBody, NextField, BytesField, PairsFrom;
    if attrs != [] {
      BytesFieldLonger(5, PairsBody(attrs));
      NextBlob(5, PairsBody(attrs), []);
      assert AttrsField(attrs) + [] == AttrsField(attrs);
      PairsRoundTrip(attrs, budget, depth, []);
      assert [] + attrs == attrs;
    }
  }

  lemma {:induction false} TypeRoundTrip(t: TypeInfo, budget: int, depth: nat)
    requires SaneType(t, MAX_DECODE_NESTING - depth - 1)
    requires |TypeBody(t)| < TWO64 && budget >= NeedPairs(t.attrs)
    ensures TypeFrom(TypeBody(t), budget, depth, EMPTY_TYPE, false) == Some(Decoded(t, budget - NeedPairs(t.attrs)))
    decreases t, 0
  {
    hide SanePairs, NeedPairs, PairsBody, BytesField, UintField, TypeFrom, IsUUID, UuidMessage;
    var attrs := AttrsField(t.attrs);
    var flag := UintField(4, if t.isDataclass then 1 else 0) + attrs;
    var origin := UintField(3, t.origin) + flag;
    var id := IdField(t.id) + origin;
    assert TypeBody(t) == StringField(1, t.name) + id;
    assert |t.name| < TWO64 by {
      BytesFieldLonger(1, t.name);
    }
    var t1 := EMPTY_TYPE.(name := t.name);
    var t2 := t1.(id := t.id);
    var t3 := t2.(origin := t.origin);
    var t4 := t3.(isDataclass := t.isDataclass);
    var hasID := t.id != [];
    TypeTextStep(t.name, id, budget, depth);
    TypeIdStep(t.id, origin, budget, depth, t1);
    TypeOriginStep(t.origin, flag, budget, depth, t2, hasID);
    TypeDataclassStep(t.isDataclass, attrs, budget, depth, t3, hasID);
    UuidNotEmpty(t.id);
    TypeAttrsStep(t.attrs, budget, depth, t4, hasID);
  }

  lemma UuidNotEmpty(id: Bytes)
    ensures IsUUID(id) ==> id != []
  {
  }

  lemma {:induction false} InstanceRoundTrip(v: Value, budget: int, depth: nat)
    requires v.Instance? && Sane(v, MAX_DECODE_NESTING - depth) && |Body(v)| < TWO64 && budget >= Need(v)
    ensures DecodeValue(Body(v), budget, depth) == Some(Decoded(v, budget - Need(v)))
    decreases v, 0
  {
    hide Sane, SaneType, SanePairs, IsUUID, NeedPairs;
    hide BytesField, NextField, TypeFrom, PairsFrom, TypeBody, UuidMessage, DecodeUuid, DecodeValue, PairsBody;
    SaneParts(v, MAX_DECODE_NESTING - depth);
    var typeField := BytesField(1, TypeBody(v.t));
    var idField := BytesField(2, UuidMessage(v.id));
    var attrsField := BytesField(3, PairsBody(v.attrs));
    var data := typeField + (idField + attrsField);
    BytesFieldLonger(24, data);
    BytesFieldLonger(1, TypeBody(v.t));
    BytesFieldLonger(3, PairsBody(v.attrs));
    MessageAlone(24, data, budget, depth);
    var left := budget - NODE_SIZE;
    var left1 := left - NeedPairs(v.t.attrs);
    TypeRoundTrip(v.t, left, depth + 1);
    UuidAlone(v.id);
    PairsRoundTrip(v.attrs, left1, depth, []);
    assert [] + v.attrs == v.attrs;
    InstanceSteps(v, left, depth);
  }

  lemma InstanceSteps(v: Value, budget: int, depth: nat)
    requires v.Instance? && v.t.origin != BUILTIN
    requires |TypeBody(v.t)| < TWO64 && |UuidMessage(v.id)| < TWO64 && |PairsBody(v.attrs)| < TWO64
    requires TypeFrom(TypeBody(v.t), budget, depth + 1, EMPTY_TYPE, false) == Some(Decoded(v.t, budget - NeedPairs(v.t.attrs)))
    requires DecodeUuid(UuidMessage(v.id)) == Some(v.id)
    requires var left := budget - NeedPairs(v.t.attrs);
      PairsFrom(PairsBody(v.attrs), left, depth, []) == Some(Decoded(v.attrs, left - NeedPairs(v.attrs)))
    ensures InstanceFrom(BytesField(1, TypeBody(v.t)) + (BytesField(2, UuidMessage(v.id)) + BytesField(3, PairsBody(v.attrs))),
                         budget, depth, None, None, [])
         == Some(Decoded(v, budget - NeedPairs(v.t.attrs) - NeedPairs(v.attrs)))
  {
    hide BytesField, NextField, TypeFrom, PairsFrom, TypeBody, UuidMessage, DecodeUuid, PairsBody;
    var idField := BytesField(2, UuidMessage(v.id));
    var attrsField := BytesField(3, PairsBody(v.attrs));
    var left := budget - NeedPairs(v.t.attrs);
    NextBlob(1, TypeBody(v.t), idField + attrsField);
    NextBlob(2, UuidMessage(v.id), attrsField);
    NextBlob(3, PairsBody(v.attrs), []);
    assert attrsField + [] == attrsField;
    assert InstanceFrom(attrsField, left, depth, Some(v.t), Some(v.id), []) == Some(Decoded(v, left - NeedPairs(v.attrs)));
    assert InstanceFrom(idField + attrsField, left, depth, Some(v.t), None, [])
        == InstanceFrom(attrsField, left, depth, Some(v.t), Some(v.id), []);
  }
}
