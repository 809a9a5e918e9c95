/**
  The decoders as they run: a reader that consumes the message and remembers
  its first error, and a budget that is charged along the way. Each decoder
  is proved against its specification in Codec.
*/
module Decoder {
  import opened Prelude
  import opened ProtoWire
  import opened Records
  import opened Uuid
  import opened Values
  import opened Codec

  class Budget {
    var remaining: int

    constructor (n: int)
      ensures remaining == n
    {
      remaining := n;
    }

    method Charge(n: nat) returns (ok: bool)
      modifies this
      ensures remaining == old(remaining) - n
      ensures ok <==> old(remaining) >= n
    {
      remaining := remaining - n;
      ok := remaining >= 0;
    }
  }

  class Reader {
    var b: Bytes
    var failed: bool
    /** Where the field being read starts. */
    ghost var at: Bytes

    constructor (msg: Bytes)
      ensures b == msg && !failed
    {
      b := msg;
      failed := false;
      at := msg;
    }

    /** The tag of a field has been read and its value has not. */
    ghost predicate AfterTag(num: nat, typ: nat)
      reads this
    {
      !failed && ConsumeTag(at) == Some(Consumed(Tag(num, typ), b))
    }

    method Next() returns (num: nat, typ: nat, ok: bool)
      modifies this
      ensures !ok ==> (failed <==> old(failed) || old(b) != [])
      ensures !ok && !old(failed) && failed ==> NextField(old(b)).None?
      ensures !ok ==> b == old(b)
      ensures ok ==> !old(failed) && old(b) != [] && at == old(b) && AfterTag(num, typ) && |b| < |old(b)|
    {
      num, typ, ok := 0, 0, false;
      if failed || b == [] {
        return;
      }
      at := b;
      var t := ConsumeTag(b);
      if t.None? {
        failed := true;
        return;
      }
      b := t.value.rest;
      num, typ, ok := t.value.value.num, t.value.value.typ, true;
    }

    method Bytes(num: nat, typ: nat) returns (v: Bytes)
      requires AfterTag(num, typ)
      modifies `b, `failed
      ensures |b| <= |old(b)|
      ensures !failed ==> NextField(at) == Some(Consumed(Field(num, Blob(v)), b)) && |v| < |at|
      ensures failed ==> v == [] && (NextField(at).None? || !NextField(at).value.value.payload.Blob?)
      ensures failed ==> NextField(at).Some? ==> NextField(at).value.value.num == num
    {
      hide SkipValue;
      v := [];
      if typ != BYTES {
        failed := true;
        return;
      }
      var c := ConsumeBytes(b);
      if c.None? {
        failed := true;
        return;
      }
      v, b := c.value.value, c.value.rest;
    }

    method Varint(num: nat, typ: nat) returns (v: nat)
      requires AfterTag(num, typ)
      modifies `b, `failed
      ensures |b| <= |old(b)|
      ensures !failed ==> NextField(at) == Some(Consumed(Field(num, Payload.Varint(v)), b))
      ensures failed ==> v == 0 && (NextField(at).None? || !NextField(at).value.value.payload.Varint?)
      ensures failed ==> NextField(at).Some? ==> NextField(at).value.value.num == num
    {
      hide SkipValue;
      v := 0;
      if typ != VARINT {
        failed := true;
        return;
      }
      var c := ConsumeVarint(b);
      if c.None? {
        failed := true;
        return;
      }
      v, b := c.value.value, c.value.rest;
    }

    method Fixed64(num: nat, typ: nat) returns (v: nat)
      requires AfterTag(num, typ)
      modifies `b, `failed
      ensures |b| <= |old(b)|
      ensures !failed ==> NextField(at) == Some(Consumed(Field(num, Fixed(v)), b))
      ensures failed ==> v == 0 && (NextField(at).None? || !NextField(at).value.value.payload.Fixed?)
      ensures failed ==> NextField(at).Some? ==> NextField(at).value.value.num == num
    {
      hide SkipValue, FromLittle;
      v := 0;
      if typ != FIXED64 || |b| < 8 {
        failed := true;
        return;
      }
      v, b := FromLittle(b[..8]), b[8..];
    }

    method Skip(num: nat, typ: nat)
      requires AfterTag(num, typ)
      modifies `b, `failed
      ensures |b| <= |old(b)|
      ensures failed <==> NextField(at).None?
      ensures !failed ==> NextField(at).value.value.num == num && NextField(at).value.rest == b
    {
      var r := SkipValue(Tag(num, typ), b, GROUP_RECURSION_LIMIT);
      if r.None? {
        failed := true;
        return;
      }
      b := r.value;
    }
  }

  /** A decoder's outcome is the specified one: the value and what is left of the budget, or an error. */
  ghost predicate Matches<T>(r: Option<T>, left: int, spec: Option<Decoded<T>>) {
    if spec.None? then r.None? else r == Some(spec.value.value) && left == spec.value.left
  }

  /** The loop of every decoder of a flat message. */
  method ReadFlat(msg: Bytes, schema: Schema) returns (m: Option<Table>)
    ensures m == Flat(msg, schema, map[])
  {
    hide NextField;
    var r := new Reader(msg);
    var table: Table := map[];
    while true
      invariant fresh(r)
      invariant Flat(msg, schema, map[]) == if r.failed then None else Flat(r.b, schema, table)
      decreases !r.failed, |r.b|
    {
      var num, typ, ok := r.Next();
      if !ok {
        break;
      }
      if num in schema.ints {
        var v := r.Varint(num, typ);
        table := table[num := Payload.Varint(v)];
      } else if num in schema.strs {
        var s := r.Bytes(num, typ);
        table := table[num := Blob(s)];
      } else {
        r.Skip(num, typ);
      }
    }
    m := if r.failed then None else Some(table);
  }

  method ReadBig(msg: Bytes, budget: Budget) returns (r: Option<Value>)
    modifies budget
    ensures Matches(r, budget.remaining, DecodeBig(msg, old(budget.remaining)))
  {
    hide Flat, FromBig;
    r := None;
    var m := ReadFlat(msg, Schema({1}, {2}));
    if m.None? {
      return;
    }
    var mag := Text(At(m.value, 2));
    var ok := budget.Charge(|mag|);
    if !ok {
      return;
    }
    var x: int := FromBig(mag);
    r := Some(Int(if Num(At(m.value, 1)) != 0 then -x else x));
  }

  method ReadUuid(msg: Bytes) returns (id: Option<Bytes>)
    ensures id == DecodeUuid(msg)
  {
    hide Flat, FormatUUID;
    var m := ReadFlat(msg, Schema({}, {1}));
    id := if m.None? then None else FormatUUID(Text(At(m.value, 1)));
  }

  method ReadRecord(num: nat, msg: Bytes) returns (rec: Option<Record>)
    requires IsRecordNumber(num)
    ensures rec == DecodeRecord(num, msg)
  {
    hide Flat, Accepted, Assemble;
    var m := ReadFlat(msg, SchemaOf(num));
    if m.None? {
      return None;
    }
    var x := Assemble(num, m.value);
    rec := if Accepted(x) then Some(x) else None;
  }

  method ReadValue(msg: Bytes, budget: Budget, depth: nat) returns (r: Option<Value>)
    modifies budget
    ensures Matches(r, budget.remaining, DecodeValue(msg, old(budget.remaining), depth))
    decreases |msg|, 2
  {
    hide NextField, DecodeMessage;
    if depth > MAX_DECODE_NESTING {
      return None;
    }
    var ok := budget.Charge(NODE_SIZE);
    if !ok {
      return None;
    }
    var rd := new Reader(msg);
    var out: Option<Value> := None;
    ghost var spec := DecodeValue(msg, old(budget.remaining), depth);
    while true
      invariant fresh(rd)
      invariant |rd.b| <= |msg|
      invariant spec == if rd.failed then None else ValueFrom(rd.b, budget.remaining, depth, out)
      decreases !rd.failed, |rd.b|
    {
      var num, typ, more := rd.Next();
      if !more {
        break;
      }
      if num == 4 {
        var v := rd.Varint(num, typ);
        out := Some(Bool(v != 0));
      } else if num == 5 {
        var v := rd.Varint(num, typ);
        out := Some(Int(DecodeZigZag(v)));
      } else if num == 7 {
        var v := rd.Fixed64(num, typ);
        out := Some(Float(v));
      } else if 1 <= num <= 30 {
        var data := rd.Bytes(num, typ);
        out := ReadMessage(num, data, budget, depth);
        if out.None? {
          return None;
        }
      } else {
        rd.Skip(num, typ);
        out := None;
      }
    }
    r := if rd.failed then None else out;
  }

  method ReadMessage(num: nat, data: Bytes, budget: Budget, depth: nat) returns (r: Option<Value>)
    requires 1 <= num <= 30 && num !in {4, 5, 7}
    modifies budget
    ensures Matches(r, budget.remaining, DecodeMessage(num, data, old(budget.remaining), depth))
    decreases |data|, 2
  {
    hide DecodeBig, ItemsFrom, NamedTupleFrom, PairsFrom, TypeFrom, InstanceFrom, DecodeRecord;
    r := None;
    if num == 1 {
      r := Some(Ellipsis);
    } else if num == 2 {
      r := Some(Null);
    } else if num == 3 {
      r := Some(NotImplemented);
    } else if num == 6 {
      r := ReadBig(data, budget);
    } else if num == 8 || num == 9 || num == 29 {
      var ok := budget.Charge(|data|);
      if ok {
        r := Some(if num == 9 then ByteString(data) else Str(data));
      }
    } else if num == 11 || num == 12 || num == 15 || num == 16 {
      var items := ReadItems(data, budget, depth);
      if items.Some? {
        r := Some(Sequence(if num == 11 then List else if num == 12 then Tuple else if num == 15 then Set else FrozenSet, items.value));
      }
    } else if num == 13 {
      r := ReadNamedTuple(data, budget, depth);
    } else if num == 14 {
      var pairs := ReadPairs(data, budget, depth);
      if pairs.Some? {
        r := Some(Dict(pairs.value));
      }
    } else if num == 23 {
      var t := ReadType(data, budget, depth);
      if t.Some? {
        r := Some(Class(t.value));
      }
    } else if num == 24 {
      r := ReadInstance(data, budget, depth);
    } else if num == 26 {
      r := Some(BuiltinFunction(data));
    } else if num == 27 {
      r := Some(Path(data));
    } else if num != 10 {
      var rec := ReadRecord(num, data);
      if rec.Some? {
        r := Some(Plain(rec.value));
      }
    }
  }

  method ReadItems(msg: Bytes, budget: Budget, depth: nat) returns (r: Option<seq<Value>>)
    modifies budget
    ensures Matches(r, budget.remaining, ItemsFrom(msg, old(budget.remaining), depth, []))
    decreases |msg|, 1
  {
    hide NextField, DecodeValue;
    var rd := new Reader(msg);
    var items: seq<Value> := [];
    ghost var spec := ItemsFrom(msg, budget.remaining, depth, []);
    while true
      invariant fresh(rd)
      invariant |rd.b| <= |msg|
      invariant spec == if rd.failed then None else ItemsFrom(rd.b, budget.remaining, depth, items)
      decreases !rd.failed, |rd.b|
    {
      var num, typ, more := rd.Next();
      if !more {
        break;
      }
      if num != 1 {
        rd.Skip(num, typ);
      } else {
        var data := rd.Bytes(num, typ);
        var v := ReadValue(data, budget, depth + 1);
        if v.None? {
          return None;
        }
        items := items + [v.value];
      }
    }
    r := if rd.failed then None else Some(items);
  }

  method ReadNamedTuple(msg: Bytes, budget: Budget, depth: nat) returns (r: Option<Value>)
    modifies budget
    ensures Matches(r, budget.remaining, NamedTupleFrom(msg, old(budget.remaining), depth, [], [], []))
    decreases |msg|, 1
  {
    hide NextField, DecodeValue;
    var rd := new Reader(msg);
    var name: Bytes := [];
    var fields: seq<Bytes> := [];
    var values: seq<Value> := [];
    ghost var spec := NamedTupleFrom(msg, budget.remaining, depth, [], [], []);
    while true
      invariant fresh(rd)
      invariant |rd.b| <= |msg|
      invariant spec == if rd.failed then None else NamedTupleFrom(rd.b, budget.remaining, depth, name, fields, values)
      decreases !rd.failed, |rd.b|
    {
      var num, typ, more := rd.Next();
      if !more {
        break;
      }
      if num == 1 {
        name := rd.Bytes(num, typ);
      } else if num == 2 {
        var field := rd.Bytes(num, typ);
        fields := fields + [field];
      } else if num == 3 {
        var data := rd.Bytes(num, typ);
        var v := ReadValue(data, budget, depth + 1);
        if v.None? {
          return None;
        }
        values := values + [v.value];
      } else {
        rd.Skip(num, typ);
      }
    }
    r := if rd.failed then None else Some(NamedTuple(name, fields, values));
  }

  method ReadPairs(msg: Bytes, budget: Budget, depth: nat) returns (r: Option<seq<Pair>>)
    modifies budget
    ensures Matches(r, budget.remaining, PairsFrom(msg, old(budget.remaining), depth, []))
    decreases |msg|, 1
  {
    hide NextField, PairFrom;
    var rd := new Reader(msg);
    var pairs: seq<Pair> := [];
    ghost var spec := PairsFrom(msg, budget.remaining, depth, []);
    while true
      invariant fresh(rd)
      invariant |rd.b| <= |msg|
      invariant spec == if rd.failed then None else PairsFrom(rd.b, budget.remaining, depth, pairs)
      decreases !rd.failed, |rd.b|
    {
      var num, typ, more := rd.Next();
      if !more {
        break;
      }
      if num != 1 {
        rd.Skip(num, typ);
      } else {
        var data := rd.Bytes(num, typ);
        var p := ReadPair(data, budget, depth);
        if p.None? {
          return None;
        }
        pairs := pairs + [p.value];
      }
    }
    r := if rd.failed then None else Some(pairs);
  }

  method ReadPair(msg: Bytes, budget: Budget, depth: nat) returns (r: Option<Pair>)
    modifies budget
    ensures Matches(r, budget.remaining, PairFrom(msg, old(budget.remaining), depth, None, None))
    decreases |msg|, 1
  {
    hide NextField, DecodeValue;
    var rd := new Reader(msg);
    var key: Option<Value> := None;
    var val: Option<Value> := None;
    ghost var spec := PairFrom(msg, budget.remaining, depth, None, None);
    while true
      invariant fresh(rd)
      invariant |rd.b| <= |msg|
      invariant spec == if rd.failed then None else PairFrom(rd.b, budget.remaining, depth, key, val)
      decreases !rd.failed, |rd.b|
    {
      var num, typ, more := rd.Next();
      if !more {
        break;
      }
      if num == 1 || num == 2 {
        var data := rd.Bytes(num, typ);
        var v := ReadValue(data, budget, depth + 1);
        if v.None? {
          return None;
        }
        if num == 1 {
          key := v;
        } else {
          val := v;
        }
      } else {
        rd.Skip(num, typ);
      }
    }
    if rd.failed || key.None? || val.None? {
      return None;
    }
    r := Some(Pair(key.value, val.value));
  }

  method ReadType(msg: Bytes, budget: Budget, depth: nat) returns (r: Option<TypeInfo>)
    modifies budget
    ensures Matches(r, budget.remaining, TypeFrom(msg, old(budget.remaining), depth, EMPTY_TYPE, false))
    decreases |msg|, 1
  {
    hide NextField, PairsFrom, DecodeUuid;
    var rd := new Reader(msg);
    var t, hasID := EMPTY_TYPE, false;
    ghost var spec := TypeFrom(msg, budget.remaining, depth, EMPTY_TYPE, false);
    while true
      invariant fresh(rd)
      invariant |rd.b| <= |msg|
      invariant spec == if rd.failed then None else TypeFrom(rd.b, budget.remaining, depth, t, hasID)
      decreases !rd.failed, |rd.b|
    {
      var num, typ, more := rd.Next();
      if !more {
        break;
      }
      if num == 1 {
        var name := rd.Bytes(num, typ);
        t := t.(name := name);
      } else if num == 2 {
        var data := rd.Bytes(num, typ);
        var id := ReadUuid(data);
        if id.None? {
          return None;
        }
        t, hasID := t.(id := id.value), true;
      } else if num == 3 {
        var v := rd.Varint(num, typ);
        t := t.(origin := v % 256);
      } else if num == 4 {
        var v := rd.Varint(num, typ);
        t := t.(isDataclass := v != 0);
      } else if num == 5 {
        var data := rd.Bytes(num, typ);
        var attrs := ReadPairs(data, budget, depth);
        if attrs.None? {
          return None;
        }
        if attrs.value != [] {
          t := t.(attrs := attrs.value);
        }
      } else {
        rd.Skip(num, typ);
      }
    }
    r := if rd.failed || !TypeAccepted(t, hasID) then None else Some(t);
  }

  method ReadInstance(msg: Bytes, budget: Budget, depth: nat) returns (r: Option<Value>)
    modifies budget
    ensures Matches(r, budget.remaining, InstanceFrom(msg, old(budget.remaining), depth, None, None, []))
    decreases |msg|, 1
  {
    hide NextField, PairsFrom, TypeFrom, DecodeUuid;
    var rd := new Reader(msg);
    var t: Option<TypeInfo> := None;
    var id: Option<Bytes> := None;
    var attrs: seq<Pair> := [];
    ghost var spec := InstanceFrom(msg, budget.remaining, depth, None, None, []);
    while true
      invariant fresh(rd)
      invariant |rd.b| <= |msg|
      invariant spec == if rd.failed then None else InstanceFrom(rd.b, budget.remaining, depth, t, id, attrs)
      decreases !rd.failed, |rd.b|
    {
      var num, typ, more := rd.Next();
      if !more {
        break;
      }
      if num == 1 {
        var data := rd.Bytes(num, typ);
        t := ReadType(data, budget, depth + 1);
        if t.None? {
          return None;
        }
      } else if num == 2 {
        var data := rd.Bytes(num, typ);
        id := ReadUuid(data);
        if id.None? {
          return None;
        }
      } else if num == 3 {
        var data := rd.Bytes(num, typ);
        var ps := ReadPairs(data, budget, depth);
        if ps.None? {
          return None;
        }
        if ps.value != [] {
          attrs := ps.value;
        }
      } else {
        rd.Skip(num, typ);
      }
    }
    if rd.failed || t.None? || id.None? || t.value.origin == BUILTIN {
      return None;
    }
    r := Some(Instance(t.value, id.value, attrs));
  }
}
