/**
  What each message of the codec means, whatever bytes it came as: the message
  is a list of fields, the children are decoded in order, and each part is
  taken from the last field that carries it. Unknown fields mean nothing.
*/
module CodecMessages {
  import opened Prelude
  import opened ProtoWire
  import opened WireGrammar
  import opened Records
  import opened Values
  import opened Codec

  // ----- a message is a list of fields -----

  function Fields(b: Bytes): Option<seq<Field>>
    decreases |b|
  {
    if b == [] then Some([])
    else
      var f := NextField(b);
      if f.None? then None
      else
        var more := Fields(f.value.rest);
        if more.None? then None else Some([f.value.value] + more.value)
  }

  function FieldsIn(cs: seq<Chunk>): seq<Field> {
    seq(|cs|, i requires 0 <= i < |cs| => FieldOf(cs[i]))
  }

  lemma {:induction false} FieldsFound(b: Bytes) returns (cs: seq<Chunk>)
    requires Fields(b).Some?
    ensures AllLegal(cs, 10000) && b == WriteAll(cs) && Fields(b).value == FieldsIn(cs)
    decreases |b|
  {
    hide NextField, Legal, FieldOf, Write;
    if b == [] {
      cs := [];
    } else {
      var c := FieldFound(b);
      var more := FieldsFound(NextField(b).value.rest);
      cs := [c] + more;
      assert cs[1..] == more;
      assert FieldsIn(cs) == [FieldOf(c)] + FieldsIn(more);
    }
  }

  lemma {:induction false} FieldsRead(cs: seq<Chunk>)
    requires AllLegal(cs, 10000)
    ensures Fields(WriteAll(cs)) == Some(FieldsIn(cs))
    decreases |cs|
  {
    if cs != [] {
      hide NextField, Legal, FieldOf, Write;
      FieldRead(cs[0], WriteAll(cs[1..]));
      FieldsRead(cs[1..]);
      assert Write(cs[0]) != [] by { WriteSome(cs[0]); }
      assert FieldsIn(cs) == [FieldOf(cs[0])] + FieldsIn(cs[1..]);
    }
  }

  lemma WriteSome(c: Chunk)
    requires Legal(c, 10000)
    ensures Write(c) != []
  {
    assert IsTag(c.tag, Typ(c));
  }

  /** The bytes are a message of these fields exactly when they are fields of the grammar, one after the other. */
  lemma FieldsExactly(b: Bytes, fs: seq<Field>)
    ensures Fields(b) == Some(fs) <==> exists cs :: AllLegal(cs, 10000) && b == WriteAll(cs) && fs == FieldsIn(cs)
  {
    hide Fields, AllLegal, WriteAll, FieldsIn;
    if Fields(b) == Some(fs) {
      var cs := FieldsFound(b);
    }
    if cs :| AllLegal(cs, 10000) && b == WriteAll(cs) && fs == FieldsIn(cs) {
      FieldsRead(cs);
    }
  }

  // ----- picking fields -----

  /** The fields with one of these numbers, in order. */
  function Only(fs: seq<Field>, nums: set<nat>): (cs: seq<Field>)
    ensures forall c | c in cs :: c in fs && c.num in nums
  {
    if fs == [] then []
    else if fs[0].num in nums then [fs[0]] + Only(fs[1..], nums)
    else Only(fs[1..], nums)
  }

  /** The last field with this number, if there is one. */
  function Last(fs: seq<Field>, num: nat): Option<Payload> {
    if fs == [] then None
    else
      var later := Last(fs[1..], num);
      if later.Some? then later else if fs[0].num == num then Some(fs[0].payload) else None
  }

  /** Which field that is. */
  lemma {:induction false} LastIs(fs: seq<Field>, num: nat)
    ensures Last(fs, num).None? <==> forall i | 0 <= i < |fs| :: fs[i].num != num
    ensures Last(fs, num).Some? <==> exists i | 0 <= i < |fs| :: IsLast(fs, num, i) && Last(fs, num) == Some(fs[i].payload)
  {
    if fs != [] {
      LastIs(fs[1..], num);
      if Last(fs[1..], num).Some? {
        var i :| 0 <= i < |fs[1..]| && IsLast(fs[1..], num, i) && Last(fs[1..], num) == Some(fs[1..][i].payload);
        assert IsLast(fs, num, i + 1) && fs[i + 1] == fs[1..][i];
      } else if fs[0].num == num {
        assert forall i | 0 < i < |fs| :: fs[i] == fs[1..][i - 1];
        assert IsLast(fs, num, 0);
      } else {
        assert forall i | 0 < i < |fs| :: fs[i] == fs[1..][i - 1];
      }
    }
  }

  predicate IsLast(fs: seq<Field>, num: nat, i: nat)
    requires i < |fs|
  {
    fs[i].num == num && forall j | i < j < |fs| :: fs[j].num != num
  }

  predicate AllBlobs(fs: seq<Field>, nums: set<nat>) {
    forall i | 0 <= i < |fs| && fs[i].num in nums :: fs[i].payload.Blob?
  }

  predicate AllVarints(fs: seq<Field>, nums: set<nat>) {
    forall i | 0 <= i < |fs| && fs[i].num in nums :: fs[i].payload.Varint?
  }

  // ----- flat messages -----

  /** A flat message is read exactly if its known fields have their wire types, and each has its last value. */
  lemma FlatMeans(b: Bytes, schema: Schema)
    requires schema.ints !! schema.strs
    ensures var fs, m := Fields(b), Flat(b, schema, map[]);
      && (m.Some? <==> fs.Some? && AllVarints(fs.value, schema.ints) && AllBlobs(fs.value, schema.strs))
      && (m.Some? ==> forall k :: At(m.value, k) == if k in schema.ints + schema.strs then Last(fs.value, k) else None)
  {
    FlatRest(b, schema, map[]);
  }

  function LastOr(fs: seq<Field>, k: nat, schema: Schema, before: Option<Payload>): Option<Payload> {
    if k in schema.ints + schema.strs && Last(fs, k).Some? then Last(fs, k) else before
  }

  lemma {:induction false} FlatRest(b: Bytes, schema: Schema, t: Table)
    requires schema.ints !! schema.strs
    ensures var fs, m := Fields(b), Flat(b, schema, t);
      && (m.Some? <==> fs.Some? && AllVarints(fs.value, schema.ints) && AllBlobs(fs.value, schema.strs))
      && (m.Some? ==> forall k :: At(m.value, k) == LastOr(fs.value, k, schema, At(t, k)))
    decreases |b|
  {
    hide NextField;
    if b != [] && NextField(b).Some? {
      var f := NextField(b).value.value;
      var known := f.num in schema.ints || f.num in schema.strs;
      FlatRest(NextField(b).value.rest, schema, if known then t[f.num := f.payload] else t);
      var fs := Fields(b);
      if fs.Some? {
        var more := Fields(NextField(b).value.rest).value;
        assert fs.value[0] == f && fs.value[1..] == more;
        TypedCons(fs.value, schema);
      }
    }
  }

  lemma TypedCons(fs: seq<Field>, schema: Schema)
    requires fs != []
    ensures AllVarints(fs, schema.ints) <==> (fs[0].num in schema.ints ==> fs[0].payload.Varint?) && AllVarints(fs[1..], schema.ints)
    ensures AllBlobs(fs, schema.strs) <==> (fs[0].num in schema.strs ==> fs[0].payload.Blob?) && AllBlobs(fs[1..], schema.strs)
  {
    assert forall i | 0 < i < |fs| :: fs[i] == fs[1..][i - 1];
    if AllVarints(fs, schema.ints) { assert forall i | 0 <= i < |fs[1..]| :: fs[1..][i] == fs[i + 1]; }
    if AllBlobs(fs, schema.strs) { assert forall i | 0 <= i < |fs[1..]| :: fs[1..][i] == fs[i + 1]; }
  }

  // ----- children -----

  /** The fields decoded one after the other, each with the budget the ones before it left. */
  function Thread<T>(fs: seq<Field>, budget: int, step: (Field, int) -> Option<Decoded<T>>): (r: Option<Decoded<seq<T>>>)
    ensures r.Some? ==> |r.value.value| == |fs|
  {
    if fs == [] then Some(Decoded([], budget))
    else
      var first := step(fs[0], budget);
      if first.None? then None
      else
        var more := Thread(fs[1..], first.value.left, step);
        if more.None? then None else Some(Decoded([first.value.value] + more.value.value, more.value.left))
  }

  /** What was decoded from the last field with this number. */
  function LastOf<T>(cs: seq<Field>, vs: seq<T>, num: nat): Option<T>
    requires |cs| == |vs|
  {
    if cs == [] then None
    else
      var later := LastOf(cs[1..], vs[1..], num);
      if later.Some? then later else if cs[0].num == num then Some(vs[0]) else None
  }

  function Or<T>(a: Option<T>, b: Option<T>): Option<T> {
    if a.Some? then a else b
  }

  lemma ThreadCons<T>(f: Field, fs: seq<Field>, budget: int, step: (Field, int) -> Option<Decoded<T>>)
    ensures var first := step(f, budget);
      Thread([f] + fs, budget, step) ==
        if first.None? then None
        else
          var more := Thread(fs, first.value.left, step);
          if more.None? then None else Some(Decoded([first.value.value] + more.value.value, more.value.left))
  {
    assert ([f] + fs)[1..] == fs;
  }

  lemma OnlyCons(f: Field, fs: seq<Field>, nums: set<nat>)
    ensures Only([f] + fs, nums) == if f.num in nums then [f] + Only(fs, nums) else Only(fs, nums)
  {
    assert ([f] + fs)[1..] == fs;
  }

  lemma LastCons(f: Field, fs: seq<Field>, num: nat)
    ensures Last([f] + fs, num) == Or(Last(fs, num), if f.num == num then Some(f.payload) else None)
  {
    assert ([f] + fs)[1..] == fs;
  }

  lemma LastOfCons<T>(c: Field, cs: seq<Field>, v: T, vs: seq<T>, num: nat)
    requires |cs| == |vs|
    ensures LastOf([c] + cs, [v] + vs, num) == Or(LastOf(cs, vs, num), if c.num == num then Some(v) else None)
  {
    assert ([c] + cs)[1..] == cs && ([v] + vs)[1..] == vs;
  }

  lemma BlobsCons(f: Field, fs: seq<Field>, nums: set<nat>)
    ensures AllBlobs([f] + fs, nums) <==> (f.num in nums ==> f.payload.Blob?) && AllBlobs(fs, nums)
    ensures AllVarints([f] + fs, nums) <==> (f.num in nums ==> f.payload.Varint?) && AllVarints(fs, nums)
  {
    var all := [f] + fs;
    assert all[0] == f && forall i | 0 <= i < |fs| :: all[i + 1] == fs[i];
    if AllBlobs(fs, nums) && (f.num in nums ==> f.payload.Blob?) {
      assert forall i | 0 < i < |all| :: all[i] == fs[i - 1];
    }
    if AllVarints(fs, nums) && (f.num in nums ==> f.payload.Varint?) {
      assert forall i | 0 < i < |all| :: all[i] == fs[i - 1];
    }
  }

  // ----- lists -----

  function ChildStep(depth: nat): (Field, int) -> Option<Decoded<Value>> {
    (f: Field, left: int) => if f.payload.Blob? then DecodeValue(f.payload.data, left, depth + 1) else None
  }

  /** The items of a list are its fields numbered 1, in order. */
  lemma ItemsMean(b: Bytes, budget: int, depth: nat)
    ensures ItemsFrom(b, budget, depth, []) ==
      if Fields(b).None? then None else Thread(Only(Fields(b).value, {1}), budget, ChildStep(depth))
  {
    ItemsRest(b, budget, depth, []);
  }

  function After<T>(items: seq<T>, more: Option<Decoded<seq<T>>>): (r: Option<Decoded<seq<T>>>)
    ensures items == [] ==> r == more
  {
    if more.None? then None
    else
      assert items == [] ==> items + more.value.value == more.value.value;
      Some(Decoded(items + more.value.value, more.value.left))
  }

  lemma {:induction false} ItemsRest(b: Bytes, budget: int, depth: nat, items: seq<Value>)
    ensures ItemsFrom(b, budget, depth, items) ==
      After(items, if Fields(b).None? then None else Thread(Only(Fields(b).value, {1}), budget, ChildStep(depth)))
    decreases |b|
  {
    hide NextField, DecodeValue;
    if b == [] {
      assert items + [] == items;
    } else if NextField(b).Some? {
      var f, rest := NextField(b).value.value, NextField(b).value.rest;
      var v := ChildStep(depth)(f, budget);
      if f.num != 1 {
        ItemsRest(rest, budget, depth, items);
      } else if v.Some? {
        ItemsRest(rest, v.value.left, depth, items + [v.value.value]);
      }
      if Fields(rest).Some? {
        var more := Fields(rest).value;
        OnlyCons(f, more, {1});
        ThreadCons(f, Only(more, {1}), budget, ChildStep(depth));
        if f.num == 1 && v.Some? {
          var last := Thread(Only(more, {1}), v.value.left, ChildStep(depth));
          if last.Some? { assert items + [v.value.value] + last.value.value == items + ([v.value.value] + last.value.value); }
        }
      }
    }
  }

  // ----- dicts -----

  /** A pair has the last key and the last value of its message, and both must occur. */
  function PairMeaning(fs: seq<Field>, budget: int, depth: nat, key: Option<Value>, val: Option<Value>): Option<Decoded<Pair>> {
    var cs := Only(fs, {1, 2});
    var vs := Thread(cs, budget, ChildStep(depth));
    if vs.None? then None
    else
      var k, v := Or(LastOf(cs, vs.value.value, 1), key), Or(LastOf(cs, vs.value.value, 2), val);
      if k.None? || v.None? then None else Some(Decoded(Pair(k.value, v.value), vs.value.left))
  }

  lemma PairMeans(b: Bytes, budget: int, depth: nat)
    ensures PairFrom(b, budget, depth, None, None) ==
      if Fields(b).None? then None else PairMeaning(Fields(b).value, budget, depth, None, None)
  {
    PairRest(b, budget, depth, None, None);
  }

  lemma {:induction false} PairRest(b: Bytes, budget: int, depth: nat, key: Option<Value>, val: Option<Value>)
    ensures PairFrom(b, budget, depth, key, val) ==
      if Fields(b).None? then None else PairMeaning(Fields(b).value, budget, depth, key, val)
    decreases |b|
  {
    hide NextField, DecodeValue, PairMeaning;
    if b == [] {
      NoPair(budget, depth, key, val);
    } else if NextField(b).Some? {
      var f, rest := NextField(b).value.value, NextField(b).value.rest;
      var v := ChildStep(depth)(f, budget);
      if Fields(rest).Some? { PairMeaningCons(f, Fields(rest).value, budget, depth, key, val); }
      if f.num !in {1, 2} {
        PairRest(rest, budget, depth, key, val);
      } else if v.Some? {
        PairRest(rest, v.value.left, depth, if f.num == 1 then Some(v.value.value) else key, if f.num == 2 then Some(v.value.value) else val);
      }
    }
  }

  lemma NoPair(budget: int, depth: nat, key: Option<Value>, val: Option<Value>)
    ensures PairMeaning([], budget, depth, key, val) ==
      if key.None? || val.None? then None else Some(Decoded(Pair(key.value, val.value), budget))
  {
  }

  lemma PairMeaningCons(f: Field, fs: seq<Field>, budget: int, depth: nat, key: Option<Value>, val: Option<Value>)
    ensures PairMeaning([f] + fs, budget, depth, key, val) ==
      if f.num !in {1, 2} then PairMeaning(fs, budget, depth, key, val)
      else
        var v := ChildStep(depth)(f, budget);
        if v.None? then None
        else
          PairMeaning(fs, v.value.left, depth, if f.num == 1 then Some(v.value.value) else key, if f.num == 2 then Some(v.value.value) else val)
  {
    var cs, step := Only(fs, {1, 2}), ChildStep(depth);
    OnlyCons(f, fs, {1, 2});
    if f.num in {1, 2} {
      ThreadCons(f, cs, budget, step);
      var v := step(f, budget);
      if v.Some? {
        var vs := Thread(cs, v.value.left, step);
        hide Thread, LastOf, Only, ChildStep;
        if vs.Some? {
          LastOfCons(f, cs, v.value.value, vs.value.value, 1);
          LastOfCons(f, cs, v.value.value, vs.value.value, 2);
        }
      }
    }
  }

  function PairStep(depth: nat): (Field, int) -> Option<Decoded<Pair>> {
    (f: Field, left: int) => if f.payload.Blob? then PairFrom(f.payload.data, left, depth, None, None) else None
  }

  /** The pairs of a dict are its fields numbered 1, in order. */
  lemma PairsMean(b: Bytes, budget: int, depth: nat)
    ensures PairsFrom(b, budget, depth, []) ==
      if Fields(b).None? then None else Thread(Only(Fields(b).value, {1}), budget, PairStep(depth))
  {
    PairsRest(b, budget, depth, []);
  }

  lemma {:induction false} PairsRest(b: Bytes, budget: int, depth: nat, pairs: seq<Pair>)
    ensures PairsFrom(b, budget, depth, pairs) ==
      After(pairs, if Fields(b).None? then None else Thread(Only(Fields(b).value, {1}), budget, PairStep(depth)))
    decreases |b|
  {
    hide NextField, PairFrom;
    if b == [] {
      assert pairs + [] == pairs;
    } else if NextField(b).Some? {
      var f, rest := NextField(b).value.value, NextField(b).value.rest;
      var v := PairStep(depth)(f, budget);
      if f.num != 1 {
        PairsRest(rest, budget, depth, pairs);
      } else if v.Some? {
        PairsRest(rest, v.value.left, depth, pairs + [v.value.value]);
      }
      if Fields(rest).Some? {
        var more := Fields(rest).value;
        OnlyCons(f, more, {1});
        ThreadCons(f, Only(more, {1}), budget, PairStep(depth));
        if f.num == 1 && v.Some? {
          var last := Thread(Only(more, {1}), v.value.left, PairStep(depth));
          if last.Some? { assert pairs + [v.value.value] + last.value.value == pairs + ([v.value.value] + last.value.value); }
        }
      }
    }
  }

  // ----- named tuples -----

  function Datas(fs: seq<Field>): seq<Bytes> {
    seq(|fs|, i requires 0 <= i < |fs| => if fs[i].payload.Blob? then fs[i].payload.data else [])
  }

  function TextOr(p: Option<Payload>, before: Bytes): Bytes {
    if p.Some? then Text(p) else before
  }

  /** The last name, every field name in order, and every value in order. */
  function TupleMeaning(fs: seq<Field>, budget: int, depth: nat, name: Bytes, fields: seq<Bytes>, values: seq<Value>)
    : Option<Decoded<Value>>
  {
    var vs := Thread(Only(fs, {3}), budget, ChildStep(depth));
    if !AllBlobs(fs, {1, 2}) || vs.None? then None
    else Some(Decoded(NamedTuple(TextOr(Last(fs, 1), name), fields + Datas(Only(fs, {2})), values + vs.value.value), vs.value.left))
  }

  lemma NamedTupleMeans(b: Bytes, budget: int, depth: nat)
    ensures NamedTupleFrom(b, budget, depth, [], [], []) ==
      if Fields(b).None? then None else TupleMeaning(Fields(b).value, budget, depth, [], [], [])
  {
    TupleRest(b, budget, depth, [], [], []);
  }

  lemma {:induction false} TupleRest(b: Bytes, budget: int, depth: nat, name: Bytes, fields: seq<Bytes>, values: seq<Value>)
    ensures NamedTupleFrom(b, budget, depth, name, fields, values) ==
      if Fields(b).None? then None else TupleMeaning(Fields(b).value, budget, depth, name, fields, values)
    decreases |b|
  {
    hide NextField, DecodeValue, TupleMeaning;
    if b == [] {
      NoTuple(budget, depth, name, fields, values);
    } else if NextField(b).Some? {
      var f, rest := NextField(b).value.value, NextField(b).value.rest;
      var v := ChildStep(depth)(f, budget);
      if Fields(rest).Some? { TupleMeaningCons(f, Fields(rest).value, budget, depth, name, fields, values); }
      if f.num !in {1, 2, 3} {
        TupleRest(rest, budget, depth, name, fields, values);
      } else if f.payload.Blob? {
        if f.num == 1 { TupleRest(rest, budget, depth, f.payload.data, fields, values); }
        else if f.num == 2 { TupleRest(rest, budget, depth, name, fields + [f.payload.data], values); }
        else if v.Some? { TupleRest(rest, v.value.left, depth, name, fields, values + [v.value.value]); }
      }
    }
  }

  lemma NoTuple(budget: int, depth: nat, name: Bytes, fields: seq<Bytes>, values: seq<Value>)
    ensures TupleMeaning([], budget, depth, name, fields, values) == Some(Decoded(NamedTuple(name, fields, values), budget))
  {
    assert fields + Datas([]) == fields && values + [] == values;
  }

  lemma TupleMeaningCons(f: Field, fs: seq<Field>, budget: int, depth: nat, name: Bytes, fields: seq<Bytes>, values: seq<Value>)
    ensures TupleMeaning([f] + fs, budget, depth, name, fields, values) ==
      if f.num !in {1, 2, 3} then TupleMeaning(fs, budget, depth, name, fields, values)
      else if !f.payload.Blob? then None
      else if f.num == 1 then TupleMeaning(fs, budget, depth, f.payload.data, fields, values)
      else if f.num == 2 then TupleMeaning(fs, budget, depth, name, fields + [f.payload.data], values)
      else
        var v := ChildStep(depth)(f, budget);
        if v.None? then None else TupleMeaning(fs, v.value.left, depth, name, fields, values + [v.value.value])
  {
    var step := ChildStep(depth);
    BlobsCons(f, fs, {1, 2});
    LastCons(f, fs, 1);
    OnlyCons(f, fs, {2});
    OnlyCons(f, fs, {3});
    if f.num == 2 && f.payload.Blob? { DatasCons(f, Only(fs, {2}), fields); }
    if f.num == 3 {
      ThreadCons(f, Only(fs, {3}), budget, step);
      var v := step(f, budget);
      if v.Some? && Thread(Only(fs, {3}), v.value.left, step).Some? {
        var more := Thread(Only(fs, {3}), v.value.left, step).value.value;
        assert values + [v.value.value] + more == values + ([v.value.value] + more);
      }
    }
  }

  lemma DatasCons(f: Field, fs: seq<Field>, before: seq<Bytes>)
    requires f.payload.Blob?
    ensures before + Datas([f] + fs) == before + [f.payload.data] + Datas(fs)
  {
    assert Datas([f] + fs) == [f.payload.data] + Datas(fs);
  }

  // ----- types and instances -----

  function UuidStep(): (Field, int) -> Option<Decoded<Bytes>> {
    (f: Field, left: int) =>
      if !f.payload.Blob? || DecodeUuid(f.payload.data).None? then None else Some(Decoded(DecodeUuid(f.payload.data).value, left))
  }

  function AttrsStep(depth: nat): (Field, int) -> Option<Decoded<seq<Pair>>> {
    (f: Field, left: int) => if f.payload.Blob? then PairsFrom(f.payload.data, left, depth, []) else None
  }

  /** The last list of attributes that holds any. */
  function LastFull(lists: seq<seq<Pair>>, before: seq<Pair>): seq<Pair> {
    if lists == [] then before else LastFull(lists[1..], if lists[0] == [] then before else lists[0])
  }

  /** Every part of a type is the last one sent; what it must then satisfy depends on its origin. */
  function TypeMeaning(fs: seq<Field>, budget: int, depth: nat, t: TypeInfo, hasID: bool): Option<Decoded<TypeInfo>> {
    var ids := Thread(Only(fs, {2}), budget, UuidStep());
    var attrs := Thread(Only(fs, {5}), budget, AttrsStep(depth));
    if !AllBlobs(fs, {1}) || !AllVarints(fs, {3, 4}) || ids.None? || attrs.None? then None
    else
      var id := LastOf(Only(fs, {2}), ids.value.value, 2);
      var u := TypeInfo(
        TextOr(Last(fs, 1), t.name), if id.Some? then id.value else t.id,
        if Last(fs, 3).Some? then Num(Last(fs, 3)) % 256 else t.origin,
        if Last(fs, 4).Some? then Num(Last(fs, 4)) != 0 else t.isDataclass,
        LastFull(attrs.value.value, t.attrs));
      var named := hasID || id.Some?;
      if (u.origin == 1 && !named) || ((u.origin == 2 || u.origin == 3) && named) then Some(Decoded(u, attrs.value.left)) else None
  }

  lemma TypeMeans(b: Bytes, budget: int, depth: nat)
    ensures TypeFrom(b, budget, depth, TypeInfo([], [], 0, false, []), false) ==
      if Fields(b).None? then None else TypeMeaning(Fields(b).value, budget, depth, TypeInfo([], [], 0, false, []), false)
  {
    TypeRest(b, budget, depth, TypeInfo([], [], 0, false, []), false);
  }

  lemma {:induction false} TypeRest(b: Bytes, budget: int, depth: nat, t: TypeInfo, hasID: bool)
    ensures TypeFrom(b, budget, depth, t, hasID) ==
      if Fields(b).None? then None else TypeMeaning(Fields(b).value, budget, depth, t, hasID)
    decreases |b|
  {
    hide NextField, PairsFrom, DecodeUuid, TypeMeaning;
    if b == [] {
      NoType(budget, depth, t, hasID);
    } else if NextField(b).Some? {
      var f, rest := NextField(b).value.value, NextField(b).value.rest;
      var next := TypeAfter(f, budget, depth, t, hasID);
      if Fields(rest).Some? { TypeMeaningCons(f, Fields(rest).value, budget, depth, t, hasID); }
      if next.Some? { TypeRest(rest, next.value.left, depth, next.value.value.0, next.value.value.1); }
    }
  }

  /** What one field makes of a type. */
  function TypeAfter(f: Field, budget: int, depth: nat, t: TypeInfo, hasID: bool): Option<Decoded<(TypeInfo, bool)>> {
    var id, attrs := UuidStep()(f, budget), AttrsStep(depth)(f, budget);
    if f.num == 1 then (if f.payload.Blob? then Some(Decoded((t.(name := f.payload.data), hasID), budget)) else None)
    else if f.num == 2 then (if id.Some? then Some(Decoded((t.(id := id.value.value), true), budget)) else None)
    else if f.num == 3 then (if f.payload.Varint? then Some(Decoded((t.(origin := f.payload.n % 256), hasID), budget)) else None)
    else if f.num == 4 then (if f.payload.Varint? then Some(Decoded((t.(isDataclass := f.payload.n != 0), hasID), budget)) else None)
    else if f.num == 5 then
      if attrs.None? then None
      else Some(Decoded((if attrs.value.value == [] then t else t.(attrs := attrs.value.value), hasID), attrs.value.left))
    else Some(Decoded((t, hasID), budget))
  }

  lemma NoType(budget: int, depth: nat, t: TypeInfo, hasID: bool)
    ensures TypeMeaning([], budget, depth, t, hasID) == if TypeAccepted(t, hasID) then Some(Decoded(t, budget)) else None
  {
  }

  lemma TypeMeaningCons(f: Field, fs: seq<Field>, budget: int, depth: nat, t: TypeInfo, hasID: bool)
    ensures var next := TypeAfter(f, budget, depth, t, hasID);
      TypeMeaning([f] + fs, budget, depth, t, hasID) ==
        if next.None? then None
        else TypeMeaning(fs, next.value.left, depth, next.value.value.0, next.value.value.1)
  {
    hide Thread, LastOf, Only, Last, LastFull, AllBlobs, AllVarints, PairsFrom, DecodeUuid, UuidStep, AttrsStep;
    BlobsCons(f, fs, {1});
    BlobsCons(f, fs, {3, 4});
    LastCons(f, fs, 1);
    LastCons(f, fs, 3);
    LastCons(f, fs, 4);
    OnlyCons(f, fs, {2});
    OnlyCons(f, fs, {5});
    if f.num == 2 { IdsCons(f, Only(fs, {2}), budget); }
    if f.num == 5 {
      AttrsCons(f, Only(fs, {5}), budget, depth, t.attrs);
      if AttrsStep(depth)(f, budget).Some? { IdsFree(Only(fs, {2}), budget, AttrsStep(depth)(f, budget).value.left); }
    }
  }

  lemma IdsCons(f: Field, cs: seq<Field>, budget: int)
    ensures var first, ids := UuidStep()(f, budget), Thread(cs, budget, UuidStep());
      var all := Thread([f] + cs, budget, UuidStep());
      && (first.Some? ==> first.value.left == budget)
      && (all.Some? <==> first.Some? && ids.Some?)
      && (all.Some? ==> LastOf([f] + cs, all.value.value, 2) ==
                        Or(LastOf(cs, ids.value.value, 2), if f.num == 2 then Some(first.value.value) else None))
  {
    hide DecodeUuid;
    ThreadCons(f, cs, budget, UuidStep());
    var first, ids := UuidStep()(f, budget), Thread(cs, budget, UuidStep());
    if first.Some? && ids.Some? { LastOfCons(f, cs, first.value.value, ids.value.value, 2); }
  }

  /** Ids are not charged. */
  lemma {:induction false} IdsFree(cs: seq<Field>, budget: int, other: int)
    ensures var a, b := Thread(cs, budget, UuidStep()), Thread(cs, other, UuidStep());
      (a.Some? <==> b.Some?) && (a.Some? ==> a.value.value == b.value.value)
    decreases |cs|
  {
    hide DecodeUuid;
    if cs != [] { IdsFree(cs[1..], budget, other); }
  }

  lemma AttrsCons(f: Field, cs: seq<Field>, budget: int, depth: nat, before: seq<Pair>)
    ensures var first, all := AttrsStep(depth)(f, budget), Thread([f] + cs, budget, AttrsStep(depth));
      && (all.Some? <==> first.Some? && Thread(cs, first.value.left, AttrsStep(depth)).Some?)
      && (all.Some? ==>
            var more := Thread(cs, first.value.left, AttrsStep(depth)).value;
            && all.value.left == more.left
            && LastFull(all.value.value, before) == LastFull(more.value, if first.value.value == [] then before else first.value.value))
  {
    hide PairsFrom;
    ThreadCons(f, cs, budget, AttrsStep(depth));
    var first := AttrsStep(depth)(f, budget);
    if first.Some? && Thread(cs, first.value.left, AttrsStep(depth)).Some? {
      var more := Thread(cs, first.value.left, AttrsStep(depth)).value.value;
      assert ([first.value.value] + more)[1..] == more;
    }
  }

  datatype Part = TypePart(t: TypeInfo) | IdPart(id: Bytes) | AttrsPart(attrs: seq<Pair>)

  function PartStep(depth: nat): (Field, int) -> Option<Decoded<Part>> {
    (f: Field, left: int) =>
      if !f.payload.Blob? then None
      else if f.num == 1 then
        var t := TypeFrom(f.payload.data, left, depth + 1, TypeInfo([], [], 0, false, []), false);
        if t.None? then None else Some(Decoded(TypePart(t.value.value), t.value.left))
      else if f.num == 2 then
        var id := DecodeUuid(f.payload.data);
        if id.None? then None else Some(Decoded(IdPart(id.value), left))
      else
        var ps := PairsFrom(f.payload.data, left, depth, []);
        if ps.None? then None else Some(Decoded(AttrsPart(ps.value.value), ps.value.left))
  }

  /** Of an instance the last type, the last id and the last attributes count; type and id must occur. */
  function Parts(cs: seq<Part>, t: Option<TypeInfo>, id: Option<Bytes>, attrs: seq<Pair>): Option<Value> {
    if cs == [] then (if t.None? || id.None? || t.value.origin == 1 then None else Some(Instance(t.value, id.value, attrs)))
    else Parts(cs[1..], TypeOr(cs[0], t), IdOr(cs[0], id), AttrsOr(cs[0], attrs))
  }

  function TypeOr(part: Part, t: Option<TypeInfo>): Option<TypeInfo> {
    if part.TypePart? then Some(part.t) else t
  }

  function IdOr(part: Part, id: Option<Bytes>): Option<Bytes> {
    if part.IdPart? then Some(part.id) else id
  }

  function AttrsOr(part: Part, attrs: seq<Pair>): seq<Pair> {
    if part.AttrsPart? && part.attrs != [] then part.attrs else attrs
  }

  function InstanceMeaning(fs: seq<Field>, budget: int, depth: nat, t: Option<TypeInfo>, id: Option<Bytes>, attrs: seq<Pair>)
    : Option<Decoded<Value>>
  {
    var parts := Thread(Only(fs, {1, 2, 3}), budget, PartStep(depth));
    if parts.None? || Parts(parts.value.value, t, id, attrs).None? then None
    else Some(Decoded(Parts(parts.value.value, t, id, attrs).value, parts.value.left))
  }

  lemma InstanceMeans(b: Bytes, budget: int, depth: nat)
    ensures InstanceFrom(b, budget, depth, None, None, []) ==
      if Fields(b).None? then None else InstanceMeaning(Fields(b).value, budget, depth, None, None, [])
  {
    InstanceRest(b, budget, depth, None, None, []);
  }

  lemma {:induction false} InstanceRest(b: Bytes, budget: int, depth: nat, t: Option<TypeInfo>, id: Option<Bytes>, attrs: seq<Pair>)
    ensures InstanceFrom(b, budget, depth, t, id, attrs) ==
      if Fields(b).None? then None else InstanceMeaning(Fields(b).value, budget, depth, t, id, attrs)
    decreases |b|
  {
    hide NextField, PairsFrom, TypeFrom, DecodeUuid, InstanceMeaning;
    if b == [] {
      NoInstance(budget, depth, t, id, attrs);
    } else if NextField(b).Some? {
      var f, rest := NextField(b).value.value, NextField(b).value.rest;
      var part := PartStep(depth)(f, budget);
      if Fields(rest).Some? { InstanceMeaningCons(f, Fields(rest).value, budget, depth, t, id, attrs); }
      if f.num !in {1, 2, 3} {
        InstanceRest(rest, budget, depth, t, id, attrs);
      } else if part.Some? {
        InstanceRest(rest, part.value.left, depth, TypeOr(part.value.value, t), IdOr(part.value.value, id), AttrsOr(part.value.value, attrs));
      }
    }
  }

  lemma NoInstance(budget: int, depth: nat, t: Option<TypeInfo>, id: Option<Bytes>, attrs: seq<Pair>)
    ensures InstanceMeaning([], budget, depth, t, id, attrs) ==
      if t.None? || id.None? || t.value.origin == 1 then None else Some(Decoded(Instance(t.value, id.value, attrs), budget))
  {
  }

  lemma InstanceMeaningCons(f: Field, fs: seq<Field>, budget: int, depth: nat, t: Option<TypeInfo>, id: Option<Bytes>, attrs: seq<Pair>)
    ensures var part := PartStep(depth)(f, budget);
      InstanceMeaning([f] + fs, budget, depth, t, id, attrs) ==
        if f.num !in {1, 2, 3} then InstanceMeaning(fs, budget, depth, t, id, attrs)
        else if part.None? then None
        else InstanceMeaning(fs, part.value.left, depth, TypeOr(part.value.value, t), IdOr(part.value.value, id), AttrsOr(part.value.value, attrs))
  {
    hide Thread, Only, PartStep, Parts;
    var cs, part := Only(fs, {1, 2, 3}), PartStep(depth)(f, budget);
    OnlyCons(f, fs, {1, 2, 3});
    ThreadCons(f, cs, budget, PartStep(depth));
    if part.Some? && Thread(cs, part.value.left, PartStep(depth)).Some? {
      PartsCons(part.value.value, Thread(cs, part.value.left, PartStep(depth)).value.value, t, id, attrs);
    }
  }

  lemma PartsCons(part: Part, cs: seq<Part>, t: Option<TypeInfo>, id: Option<Bytes>, attrs: seq<Pair>)
    ensures Parts([part] + cs, t, id, attrs) == Parts(cs, TypeOr(part, t), IdOr(part, id), AttrsOr(part, attrs))
  {
    assert ([part] + cs)[1..] == cs;
  }

  // ----- values -----

  function KindStep(depth: nat): (Field, int) -> Option<Decoded<Option<Value>>> {
    (f: Field, left: int) => DecodeKind(f, left, depth)
  }

  /**
    A value message is read if it is shallow enough, its 88 bytes can be paid,
    every field of it can be decoded and the last of them is of a known kind;
    the value is that of the last field.
  */
  lemma ValueMeans(msg: Bytes, budget: int, depth: nat)
    ensures DecodeValue(msg, budget, depth) ==
      if depth > 100 || budget < 88 || Fields(msg).None? then None
      else
        var kinds := Thread(Fields(msg).value, budget - 88, KindStep(depth));
        if kinds.None? || kinds.value.value == [] then None
        else
          var last := kinds.value.value[|kinds.value.value| - 1];
          if last.None? then None else Some(Decoded(last.value, kinds.value.left))
  {
    hide ValueFrom, Fields, Thread;
    if depth <= 100 && budget >= 88 { ValueRest(msg, budget - 88, depth, None); }
  }

  lemma {:induction false} ValueRest(b: Bytes, budget: int, depth: nat, before: Option<Value>)
    ensures ValueFrom(b, budget, depth, before) ==
      if Fields(b).None? then None
      else
        var kinds := Thread(Fields(b).value, budget, KindStep(depth));
        if kinds.None? then None
        else
          var last := if kinds.value.value == [] then before else kinds.value.value[|kinds.value.value| - 1];
          if last.None? then None else Some(Decoded(last.value, kinds.value.left))
    decreases |b|
  {
    hide NextField, DecodeKind;
    if b != [] && NextField(b).Some? {
      var f, rest := NextField(b).value.value, NextField(b).value.rest;
      var k := KindStep(depth)(f, budget);
      if k.Some? { ValueRest(rest, k.value.left, depth, k.value.value); }
      if Fields(rest).Some? { ThreadCons(f, Fields(rest).value, budget, KindStep(depth)); }
    }
  }

  /** Two kinds are only ever received: a text form is a string like any other, and a uuid is refused. */
  lemma OneWayKinds(s: Bytes, budget: int, depth: nat)
    requires |s| < TWO64 && depth <= 100
    ensures DecodeValue(BytesField(29, s), budget, depth) == if budget < 88 + |s| then None else Some(Decoded(Str(s), budget - 88 - |s|))
    ensures DecodeValue(BytesField(10, s), budget, depth) == None
  {
    OneField(29, s, budget, depth);
    OneField(10, s, budget, depth);
    assert DecodeMessage(29, s, budget - 88, depth) == Charge(Str(s), budget - 88, |s|);
    assert DecodeMessage(10, s, budget - 88, depth) == None;
  }

  lemma OneField(num: nat, s: Bytes, budget: int, depth: nat)
    requires 1 <= num <= 30 && num !in {4, 5, 7} && |s| < TWO64 && depth <= 100
    ensures DecodeValue(BytesField(num, s), budget, depth) == if budget < 88 then None else DecodeMessage(num, s, budget - 88, depth)
  {
    hide NextField, BytesField, DecodeMessage;
    var b, f := BytesField(num, s), Field(num, Blob(s));
    NextBlob(num, s, []);
    assert b + [] == b;
    if budget >= 88 {
      var a := DecodeKind(f, budget - 88, depth);
      assert a == Known(DecodeMessage(num, s, budget - 88, depth));
      assert ValueFrom(b, budget - 88, depth, None) == if a.None? then None else ValueFrom([], a.value.left, depth, a.value.value);
    }
  }
}
