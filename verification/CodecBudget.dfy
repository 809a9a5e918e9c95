/**
  What every successful decode has paid for and what it may return, whatever
  the bytes: at least 88 bytes a node plus its payloads, only well-formed
  values, nesting within the limit, and a result that does not depend on how
  much budget was left over.
*/
module CodecBudget {
  import opened Prelude
  import opened ProtoWire
  import opened Records
  import opened Uuid
  import opened Values
  import opened Codec

  ghost predicate Fine(v: Value, room: int) {
    WellFormed(v) && Shallow(v, room)
  }

  ghost predicate FineItems(items: seq<Value>, room: int) {
    forall i | 0 <= i < |items| :: Fine(items[i], room)
  }

  ghost predicate FinePair(p: Pair, room: int) {
    Fine(p.key, room) && Fine(p.value, room)
  }

  ghost predicate FinePairs(pairs: seq<Pair>, room: int) {
    forall i | 0 <= i < |pairs| :: FinePair(pairs[i], room)
  }

  ghost predicate FineType(t: TypeInfo, room: int) {
    WellFormedType(t) && FinePairs(t.attrs, room)
  }

  function Room(depth: nat): int {
    MAX_DECODE_NESTING - depth
  }

  // ----- how parts make a value -----

  lemma FineSequence(kind: SequenceKind, items: seq<Value>, room: int)
    requires room >= 0 && FineItems(items, room - 1)
    ensures Fine(Sequence(kind, items), room)
  {
  }

  lemma FineNamedTuple(name: Bytes, fields: seq<Bytes>, values: seq<Value>, room: int)
    requires room >= 0 && FineItems(values, room - 1)
    ensures Fine(NamedTuple(name, fields, values), room)
  {
  }

  lemma FinePairsSplit(pairs: seq<Pair>, room: int)
    requires FinePairs(pairs, room)
    ensures WellFormedPairs(pairs) && ShallowPairs(pairs, room)
  {
    hide WellFormed, Shallow;
    forall i | 0 <= i < |pairs| ensures WellFormedPair(pairs[i]) && ShallowPair(pairs[i], room) {
      assert FinePair(pairs[i], room);
    }
  }

  lemma FineDict(pairs: seq<Pair>, room: int)
    requires room >= 0 && FinePairs(pairs, room - 1)
    ensures Fine(Dict(pairs), room)
  {
    hide FinePairs;
    FinePairsSplit(pairs, room - 1);
  }

  lemma FineClass(t: TypeInfo, room: int)
    requires room >= 0 && FineType(t, room - 1)
    ensures Fine(Class(t), room)
  {
    hide FinePairs;
    FinePairsSplit(t.attrs, room - 1);
  }

  lemma FineInstance(t: TypeInfo, id: Bytes, attrs: seq<Pair>, room: int)
    requires room >= 0 && FineType(t, room - 2) && t.origin != BUILTIN && IsUUID(id) && FinePairs(attrs, room - 1)
    ensures Fine(Instance(t, id, attrs), room)
  {
    hide FinePairs, IsUUID;
    FinePairsSplit(t.attrs, room - 2);
    FinePairsSplit(attrs, room - 1);
  }

  // ----- messages without nested values -----

  lemma UuidFacts(msg: Bytes)
    requires DecodeUuid(msg).Some?
    ensures IsUUID(DecodeUuid(msg).value)
  {
    hide Flat, IsUUID;
    var m := Flat(msg, Schema({}, {1}), map[]).value;
    ParseFormat(Text(At(m, 1)));
  }

  lemma BigFacts(msg: Bytes, budget: int, k: nat)
    requires DecodeBig(msg, budget).Some? && budget >= 0
    ensures var d := DecodeBig(msg, budget).value;
      && d.value.Int? && 0 <= d.left && d.left + Need(d.value) <= budget + NODE_SIZE
      && DecodeBig(msg, budget + k) == Some(Decoded(d.value, d.left + k))
  {
    hide Flat, BigBytes, FromBig;
    var m := Flat(msg, Schema({1}, {2}), map[]).value;
    var mag := Text(At(m, 2));
    BigMinimal(mag);
  }

  // ----- one value -----

  /** A value has been paid for and sits within the limit. */
  ghost predicate Paid(v: Value, depth: nat, budget: int, left: int) {
    Fine(v, Room(depth)) && 0 <= left && left + Need(v) <= budget
  }

  /**
    Main result: any successful decode took at least Need of its result from
    the budget, its result is well formed and within the nesting limit, and
    more budget would have given the same result.
  */
  lemma {:induction false} ValueFacts(msg: Bytes, budget: int, depth: nat, k: nat)
    requires DecodeValue(msg, budget, depth).Some?
    ensures var d := DecodeValue(msg, budget, depth).value;
      && Paid(d.value, depth, budget, d.left)
      && DecodeValue(msg, budget + k, depth) == Some(Decoded(d.value, d.left + k))
    decreases |msg|, 2
  {
    hide Fine, Need, ValueFrom;
    FieldsFacts(msg, budget - NODE_SIZE, depth, None, k);
  }

  lemma {:induction false} FieldsFacts(b: Bytes, budget: int, depth: nat, last: Option<Value>, k: nat)
    requires ValueFrom(b, budget, depth, last).Some? && budget >= 0 && depth <= MAX_DECODE_NESTING
    requires last.Some? ==> Fine(last.value, Room(depth))
    ensures var d := ValueFrom(b, budget, depth, last).value;
      && Paid(d.value, depth, budget + (if last.Some? then Need(last.value) else NODE_SIZE), d.left)
      && ValueFrom(b, budget + k, depth, last) == Some(Decoded(d.value, d.left + k))
    decreases |b|, 0
  {
    hide Fine, Need, DecodeKind, NextField;
    if b != [] {
      var f := NextField(b).value;
      NextFieldBounded(b);
      KindFacts(f.value, budget, depth, k);
      var a := DecodeKind(f.value, budget, depth).value;
      FieldsFacts(f.rest, a.left, depth, a.value, k);
    }
  }

  ghost predicate BoundedPayload(p: Payload) {
    (p.Varint? ==> p.n < TWO64) && (p.Fixed? ==> p.bits < TWO64)
  }

  lemma {:induction false} KindFacts(f: Field, budget: int, depth: nat, k: nat)
    requires DecodeKind(f, budget, depth).Some? && budget >= 0 && depth <= MAX_DECODE_NESTING
    requires BoundedPayload(f.payload)
    ensures var a := DecodeKind(f, budget, depth).value;
      && 0 <= a.left <= budget
      && (a.value.Some? ==> Paid(a.value.value, depth, budget + NODE_SIZE, a.left))
      && DecodeKind(f, budget + k, depth) == Some(Decoded(a.value, a.left + k))
    decreases Size(f.payload), 3
  {
    hide DecodeMessage;
    if f.payload.Blob? && 1 <= f.num <= 30 && f.num !in {4, 5, 7} {
      hide Fine, Need;
      MessageFacts(f.num, f.payload.data, budget, depth, k);
    }
  }

  lemma {:induction false} MessageFacts(num: nat, data: Bytes, budget: int, depth: nat, k: nat)
    requires 1 <= num <= 30 && num !in {4, 5, 7} && budget >= 0 && depth <= MAX_DECODE_NESTING
    requires DecodeMessage(num, data, budget, depth).Some?
    ensures var d := DecodeMessage(num, data, budget, depth).value;
      && Paid(d.value, depth, budget + NODE_SIZE, d.left)
      && DecodeMessage(num, data, budget + k, depth) == Some(Decoded(d.value, d.left + k))
    decreases |data|, 2
  {
    hide DecodeBig, ItemsFrom, NamedTupleFrom, PairsFrom, TypeFrom, InstanceFrom, DecodeRecord, Accepted;
    if num == 6 {
      BigFacts(data, budget, k);
    } else if num in {11, 12, 15, 16} {
      ItemsFacts(data, budget, depth, [], k);
      var items := ItemsFrom(data, budget, depth, []).value;
      FineSequence(DecodeMessage(num, data, budget, depth).value.value.kind, items.value, Room(depth));
    } else if num == 13 {
      NamedTupleFacts(data, budget, depth, [], [], [], k);
    } else if num == 14 {
      PairsFacts(data, budget, depth, [], k);
      FineDict(PairsFrom(data, budget, depth, []).value.value, Room(depth));
    } else if num == 23 {
      TypeFacts(data, budget, depth, EMPTY_TYPE, false, k);
      FineClass(TypeFrom(data, budget, depth, EMPTY_TYPE, false).value.value, Room(depth));
    } else if num == 24 {
      InstanceFacts(data, budget, depth, None, None, [], k);
    } else if IsRecordNumber(num) {
      DecodedRecordWellFormed(num, data);
    }
  }

  // ----- its parts -----

  lemma {:induction false} ItemsFacts(b: Bytes, budget: int, depth: nat, acc: seq<Value>, k: nat)
    requires ItemsFrom(b, budget, depth, acc).Some? && budget >= 0
    requires FineItems(acc, Room(depth) - 1)
    ensures var d := ItemsFrom(b, budget, depth, acc).value;
      && FineItems(d.value, Room(depth) - 1)
      && 0 <= d.left && d.left + NeedItems(d.value) <= budget + NeedItems(acc)
      && ItemsFrom(b, budget + k, depth, acc) == Some(Decoded(d.value, d.left + k))
    decreases |b|, 1
  {
    hide Fine, Need, NeedItems, DecodeValue, NextField;
    if b != [] {
      var f := NextField(b).value;
      if f.value.num != 1 {
        ItemsFacts(f.rest, budget, depth, acc, k);
      } else {
        ValueFacts(f.value.payload.data, budget, depth + 1, k);
        var v := DecodeValue(f.value.payload.data, budget, depth + 1).value;
        NeedItemsAppend(acc, v.value);
        ItemsFacts(f.rest, v.left, depth, acc + [v.value], k);
      }
    }
  }

  lemma {:induction false} NamedTupleFacts(b: Bytes, budget: int, depth: nat, name: Bytes, fields: seq<Bytes>, acc: seq<Value>, k: nat)
    requires NamedTupleFrom(b, budget, depth, name, fields, acc).Some? && budget >= 0 && depth <= MAX_DECODE_NESTING
    requires FineItems(acc, Room(depth) - 1)
    ensures var d := NamedTupleFrom(b, budget, depth, name, fields, acc).value;
      && Paid(d.value, depth, budget + NODE_SIZE + NeedItems(acc), d.left)
      && NamedTupleFrom(b, budget + k, depth, name, fields, acc) == Some(Decoded(d.value, d.left + k))
    decreases |b|, 1
  {
    hide Fine, NeedItems, DecodeValue, NextField;
    if b == [] {
      FineNamedTuple(name, fields, acc, Room(depth));
    } else {
      hide Need;
      var f := NextField(b).value;
      if f.value.num == 1 {
        NamedTupleFacts(f.rest, budget, depth, f.value.payload.data, fields, acc, k);
      } else if f.value.num == 2 {
        NamedTupleFacts(f.rest, budget, depth, name, fields + [f.value.payload.data], acc, k);
      } else if f.value.num == 3 {
        ValueFacts(f.value.payload.data, budget, depth + 1, k);
        var v := DecodeValue(f.value.payload.data, budget, depth + 1).value;
        NeedItemsAppend(acc, v.value);
        NamedTupleFacts(f.rest, v.left, depth, name, fields, acc + [v.value], k);
      } else {
        NamedTupleFacts(f.rest, budget, depth, name, fields, acc, k);
      }
    }
  }

  lemma {:induction false} PairsFacts(b: Bytes, budget: int, depth: nat, acc: seq<Pair>, k: nat)
    requires PairsFrom(b, budget, depth, acc).Some? && budget >= 0
    requires FinePairs(acc, Room(depth) - 1)
    ensures var d := PairsFrom(b, budget, depth, acc).value;
      && FinePairs(d.value, Room(depth) - 1)
      && 0 <= d.left && d.left + NeedPairs(d.value) <= budget + NeedPairs(acc)
      && PairsFrom(b, budget + k, depth, acc) == Some(Decoded(d.value, d.left + k))
    decreases |b|, 1
  {
    hide FinePair, NeedPair, NeedPairs, PairFrom, NextField;
    if b != [] {
      var f := NextField(b).value;
      if f.value.num != 1 {
        PairsFacts(f.rest, budget, depth, acc, k);
      } else {
        PairFacts(f.value.payload.data, budget, depth, None, None, k);
        var p := PairFrom(f.value.payload.data, budget, depth, None, None).value;
        NeedPairsAppend(acc, p.value);
        PairsFacts(f.rest, p.left, depth, acc + [p.value], k);
      }
    }
  }

  function NeedOf(v: Option<Value>): nat {
    if v.None? then 0 else Need(v.value)
  }

  lemma {:induction false} PairFacts(b: Bytes, budget: int, depth: nat, key: Option<Value>, val: Option<Value>, k: nat)
    requires PairFrom(b, budget, depth, key, val).Some? && budget >= 0
    requires key.Some? ==> Fine(key.value, Room(depth) - 1)
    requires val.Some? ==> Fine(val.value, Room(depth) - 1)
    ensures var d := PairFrom(b, budget, depth, key, val).value;
      && FinePair(d.value, Room(depth) - 1)
      && 0 <= d.left && d.left + NeedPair(d.value) <= budget + NeedOf(key) + NeedOf(val)
      && PairFrom(b, budget + k, depth, key, val) == Some(Decoded(d.value, d.left + k))
    decreases |b|, 1
  {
    hide Fine, Need, DecodeValue, NextField;
    if b != [] {
      var f := NextField(b).value;
      if f.value.num !in {1, 2} {
        PairFacts(f.rest, budget, depth, key, val, k);
      } else {
        ValueFacts(f.value.payload.data, budget, depth + 1, k);
        var v := DecodeValue(f.value.payload.data, budget, depth + 1).value;
        if f.value.num == 1 {
          PairFacts(f.rest, v.left, depth, Some(v.value), val, k);
        } else {
          PairFacts(f.rest, v.left, depth, key, Some(v.value), k);
        }
      }
    }
  }

  /** A type while its message is being read. */
  ghost predicate PartialType(t: TypeInfo, hasID: bool, room: int) {
    (if hasID then IsUUID(t.id) else t.id == []) && FinePairs(t.attrs, room)
  }

  lemma TypeDone(t: TypeInfo, hasID: bool, room: int)
    requires PartialType(t, hasID, room) && TypeAccepted(t, hasID)
    ensures FineType(t, room)
  {
    hide FinePairs, IsUUID;
    FinePairsSplit(t.attrs, room);
  }

  lemma {:induction false} TypeFacts(b: Bytes, budget: int, depth: nat, t: TypeInfo, hasID: bool, k: nat)
    requires TypeFrom(b, budget, depth, t, hasID).Some? && budget >= 0
    requires PartialType(t, hasID, Room(depth) - 1)
    ensures var d := TypeFrom(b, budget, depth, t, hasID).value;
      && FineType(d.value, Room(depth) - 1)
      && 0 <= d.left && d.left + NeedPairs(d.value.attrs) <= budget + NeedPairs(t.attrs)
      && TypeFrom(b, budget + k, depth, t, hasID) == Some(Decoded(d.value, d.left + k))
    decreases |b|, 1
  {
    hide FinePair, FineType, NeedPairs, PairsFrom, NextField, DecodeUuid, IsUUID;
    if b == [] {
      TypeDone(t, hasID, Room(depth) - 1);
    } else {
      var f := NextField(b).value;
      var num, payload := f.value.num, f.value.payload;
      if num == 1 {
        TypeFacts(f.rest, budget, depth, t.(name := payload.data), hasID, k);
      } else if num == 2 {
        UuidFacts(payload.data);
        TypeFacts(f.rest, budget, depth, t.(id := DecodeUuid(payload.data).value), true, k);
      } else if num == 3 {
        TypeFacts(f.rest, budget, depth, t.(origin := payload.n % 256), hasID, k);
      } else if num == 4 {
        TypeFacts(f.rest, budget, depth, t.(isDataclass := payload.n != 0), hasID, k);
      } else if num == 5 {
        PairsFacts(payload.data, budget, depth, [], k);
        NoPairs();
        var attrs := PairsFrom(payload.data, budget, depth, []).value;
        TypeFacts(f.rest, attrs.left, depth, if attrs.value == [] then t else t.(attrs := attrs.value), hasID, k);
      } else {
        TypeFacts(f.rest, budget, depth, t, hasID, k);
      }
    }
  }

  lemma NoPairs()
    ensures NeedPairs([]) == 0
  {
  }

  function NeedOfType(t: Option<TypeInfo>): nat {
    if t.None? then 0 else NeedPairs(t.value.attrs)
  }

  lemma {:induction false} InstanceFacts(b: Bytes, budget: int, depth: nat, t: Option<TypeInfo>, id: Option<Bytes>, attrs: seq<Pair>, k: nat)
    requires InstanceFrom(b, budget, depth, t, id, attrs).Some? && budget >= 0 && depth <= MAX_DECODE_NESTING
    requires t.Some? ==> FineType(t.value, Room(depth) - 2)
    requires id.Some? ==> IsUUID(id.value)
    requires FinePairs(attrs, Room(depth) - 1)
    ensures var d := InstanceFrom(b, budget, depth, t, id, attrs).value;
      && Paid(d.value, depth, budget + NODE_SIZE + NeedOfType(t) + NeedPairs(attrs), d.left)
      && InstanceFrom(b, budget + k, depth, t, id, attrs) == Some(Decoded(d.value, d.left + k))
    decreases |b|, 1
  {
    hide Fine, FineType, FinePairs, NeedPairs, PairsFrom, TypeFrom, NextField, DecodeUuid, IsUUID;
    if b == [] {
      FineInstance(t.value, id.value, attrs, Room(depth));
    } else {
      hide Need;
      var f := NextField(b).value;
      var data := if f.value.payload.Blob? then f.value.payload.data else [];
      if f.value.num == 1 {
        EmptyTypeFacts(Room(depth) - 2);
        TypeFacts(data, budget, depth + 1, EMPTY_TYPE, false, k);
        var t1 := TypeFrom(data, budget, depth + 1, EMPTY_TYPE, false).value;
        InstanceFacts(f.rest, t1.left, depth, Some(t1.value), id, attrs, k);
      } else if f.value.num == 2 {
        UuidFacts(data);
        InstanceFacts(f.rest, budget, depth, t, DecodeUuid(data), attrs, k);
      } else if f.value.num == 3 {
        EmptyTypeFacts(Room(depth) - 1);
        PairsFacts(data, budget, depth, [], k);
        var ps := PairsFrom(data, budget, depth, []).value;
        InstanceFacts(f.rest, ps.left, depth, t, id, if ps.value == [] then attrs else ps.value, k);
      } else {
        InstanceFacts(f.rest, budget, depth, t, id, attrs, k);
      }
    }
  }

  lemma EmptyTypeFacts(room: int)
    ensures PartialType(EMPTY_TYPE, false, room) && FinePairs([], room) && NeedPairs([]) == 0
  {
  }
}
