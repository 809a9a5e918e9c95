/**
  The grammar of protobuf messages, said on bytes, and that the field reader of
  internal/wire reads exactly it: varints of any length up to ten bytes, fields
  of every wire type, groups within groups.
*/
module WireGrammar {
  import opened Prelude
  import opened ProtoWire

  // ----- varints -----

  /** Up to ten bytes, all but the last marked as continued; a tenth byte holds one bit. */
  predicate IsVarint(c: Bytes) {
    && 1 <= |c| <= 10 && c[|c| - 1] < 128 && (|c| == 10 ==> c[9] <= 1)
    && forall i | 0 <= i < |c| - 1 :: c[i] >= 128
  }

  /** Seven bits a byte, the least significant first. */
  function Number(c: Bytes): nat {
    if c == [] then 0 else c[0] % 128 + 128 * Number(c[1..])
  }

  /** The same after i bytes have been read. */
  predicate IsVarintAt(c: Bytes, i: nat) {
    && 1 <= |c| <= 10 - i && c[|c| - 1] < 128 && (|c| == 10 - i ==> c[|c| - 1] <= 1)
    && forall j | 0 <= j < |c| - 1 :: c[j] >= 128
  }

  lemma {:induction false} VarintRead(c: Bytes, rest: Bytes, i: nat)
    requires i <= 9 && IsVarintAt(c, i)
    ensures ConsumeVarintAt(c + rest, i) == Some(Consumed(Number(c), rest))
    decreases |c|
  {
    assert (c + rest)[1..] == c[1..] + rest;
    if |c| > 1 {
      VarintRead(c[1..], rest, i + 1);
    } else {
      assert c[1..] == [] && [] + rest == rest;
    }
  }

  lemma OneByte(x: Byte, i: nat)
    requires i <= 9 && x < 128 && (i == 9 ==> x <= 1)
    ensures IsVarintAt([x], i) && Number([x]) == x
  {
    assert [x][1..] == [] && Number([]) == 0;
  }

  lemma MoreBytes(x: Byte, c: Bytes, i: nat)
    requires i < 9 && 128 <= x < 256 && IsVarintAt(c, i + 1)
    ensures IsVarintAt([x] + c, i) && Number([x] + c) == x - 128 + 128 * Number(c)
  {
    assert ([x] + c)[1..] == c;
  }

  lemma {:induction false} VarintFound(b: Bytes, i: nat)
    requires i <= 9 && ConsumeVarintAt(b, i).Some?
    ensures var n := |b| - |ConsumeVarintAt(b, i).value.rest|;
      IsVarintAt(b[..n], i) && ConsumeVarintAt(b, i) == Some(Consumed(Number(b[..n]), b[n..]))
    decreases 9 - i
  {
    hide IsVarintAt, Number;
    if i < 9 && b[0] >= 128 {
      VarintFound(b[1..], i + 1);
      var n := |b| - |ConsumeVarintAt(b, i).value.rest|;
      assert b[..n] == [b[0]] + b[1..][..n - 1] && b[1..][n - 1..] == b[n..];
      MoreBytes(b[0], b[1..][..n - 1], i);
    } else {
      OneByte(b[0], i);
      assert b[..1] == [b[0]];
    }
  }

  lemma VarintIs(c: Bytes, rest: Bytes)
    requires IsVarint(c)
    ensures ConsumeVarint(c + rest) == Some(Consumed(Number(c), rest))
  {
    VarintRead(c, rest, 0);
  }

  lemma VarintAt(b: Bytes) returns (c: Bytes)
    requires ConsumeVarint(b).Some?
    ensures IsVarint(c) && b == c + ConsumeVarint(b).value.rest && ConsumeVarint(b).value.value == Number(c)
  {
    VarintFound(b, 0);
    var n := |b| - |ConsumeVarint(b).value.rest|;
    c := b[..n];
    assert b == b[..n] + b[n..];
  }

  /** A varint is read off the front of b exactly when b begins with one, and then its number and the rest are what comes out. */
  lemma VarintExactly(b: Bytes, v: nat, rest: Bytes)
    ensures ConsumeVarint(b) == Some(Consumed(v, rest)) <==> exists c: Bytes :: IsVarint(c) && b == c + rest && v == Number(c)
  {
    hide ConsumeVarint, IsVarint, Number;
    if ConsumeVarint(b) == Some(Consumed(v, rest)) {
      var c := VarintAt(b);
    }
    if c: Bytes :| IsVarint(c) && b == c + rest && v == Number(c) {
      VarintIs(c, rest);
    }
  }

  // ----- fields -----

  /** A field as its bytes fall apart. */
  datatype Chunk =
    | VarintChunk(tag: Bytes, v: Bytes)
    | Fixed64Chunk(tag: Bytes, bits: Bytes)
    | Fixed32Chunk(tag: Bytes, bits: Bytes)
    | BytesChunk(tag: Bytes, size: Bytes, data: Bytes)
    | GroupChunk(tag: Bytes, inner: seq<Chunk>, end: Bytes)

  /** What follows the tag. */
  function Rest(c: Chunk): Bytes
    decreases c, 0
  {
    match c
    case VarintChunk(_, v) => v
    case Fixed64Chunk(_, bits) => bits
    case Fixed32Chunk(_, bits) => bits
    case BytesChunk(_, size, data) => size + data
    case GroupChunk(_, inner, end) => WriteAll(inner) + end
  }

  function Write(c: Chunk): Bytes
    decreases c, 1
  {
    c.tag + Rest(c)
  }

  function WriteAll(cs: seq<Chunk>): Bytes {
    if cs == [] then [] else Write(cs[0]) + WriteAll(cs[1..])
  }

  /** A varint that holds a field number and this wire type. */
  predicate IsTag(tag: Bytes, typ: nat) {
    IsVarint(tag) && 1 <= Number(tag) / 8 <= 0x7FFF_FFFF && Number(tag) % 8 == typ
  }

  /** A field as section "Encoding" of the protobuf documentation has it; groups nest at most as deep as there is room. */
  predicate Legal(c: Chunk, room: int) {
    match c
    case VarintChunk(tag, v) => IsTag(tag, 0) && IsVarint(v)
    case Fixed64Chunk(tag, bits) => IsTag(tag, 1) && |bits| == 8
    case BytesChunk(tag, size, data) => IsTag(tag, 2) && IsVarint(size) && Number(size) == |data|
    case GroupChunk(tag, inner, end) =>
      IsTag(tag, 3) && room >= 0 && IsTag(end, 4) && Number(end) / 8 == Number(tag) / 8 && AllLegal(inner, room - 1)
    case Fixed32Chunk(tag, bits) => IsTag(tag, 5) && |bits| == 4
  }

  predicate AllLegal(cs: seq<Chunk>, room: int) {
    forall i | 0 <= i < |cs| :: Legal(cs[i], room)
  }

  /** The field a reader is given; of a group or a 32-bit number it learns the field number alone. */
  function FieldOf(c: Chunk): Field {
    Field(Number(c.tag) / 8,
          match c
          case VarintChunk(_, v) => Varint(Number(v))
          case Fixed64Chunk(_, bits) => Fixed(FromLittle(bits))
          case BytesChunk(_, _, data) => Blob(data)
          case _ => Skipped)
  }

  // ----- reading what the grammar allows -----

  lemma TagIs(tag: Bytes, typ: nat, rest: Bytes)
    requires IsTag(tag, typ)
    ensures ConsumeTag(tag + rest) == Some(Consumed(Tag(Number(tag) / 8, typ), rest))
  {
    VarintIs(tag, rest);
  }

  lemma BytesAre(size: Bytes, data: Bytes, rest: Bytes)
    requires IsVarint(size) && Number(size) == |data|
    ensures ConsumeBytes(size + data + rest) == Some(Consumed(data, rest))
  {
    VarintIs(size, data + rest);
    assert size + data + rest == size + (data + rest);
    assert (data + rest)[..|data|] == data && (data + rest)[|data|..] == rest;
  }

  function Typ(c: Chunk): nat {
    match c
    case VarintChunk(_, _) => 0
    case Fixed64Chunk(_, _) => 1
    case BytesChunk(_, _, _) => 2
    case GroupChunk(_, _, _) => 3
    case Fixed32Chunk(_, _) => 5
  }

  lemma {:induction false} SkipRead(c: Chunk, rest: Bytes, room: int)
    requires Legal(c, room)
    ensures SkipValue(Tag(Number(c.tag) / 8, Typ(c)), Rest(c) + rest, room) == Some(rest)
    decreases c, 0
  {
    match c
    case VarintChunk(_, v) => VarintIs(v, rest);
    case BytesChunk(_, size, data) => BytesAre(size, data, rest);
    case GroupChunk(tag, inner, end) =>
      GroupRead(c, 0, rest, room);
      assert inner[0..] == inner;
    case _ => assert (Rest(c) + rest)[|Rest(c)|..] == rest;
  }

  lemma LegalIn(cs: seq<Chunk>, i: nat, room: int)
    requires AllLegal(cs, room) && i < |cs|
    ensures Legal(cs[i], room) && IsTag(cs[i].tag, Typ(cs[i]))
  {
    assert Legal(cs[i], room);
  }

  /** The group is read to its end from any chunk in it. */
  lemma {:induction false} GroupRead(c: Chunk, i: nat, rest: Bytes, room: int)
    requires c.GroupChunk? && Legal(c, room) && i <= |c.inner|
    ensures SkipGroup(Number(c.tag) / 8, WriteAll(c.inner[i..]) + c.end + rest, room) == Some(rest)
    decreases c, 0, |c.inner| - i
  {
    hide ConsumeTag, SkipValue, Rest, IsVarint, Number;
    if i == |c.inner| {
      assert WriteAll(c.inner[i..]) + c.end + rest == c.end + rest;
      TagIs(c.end, 4, rest);
    } else {
      var d := c.inner[i];
      LegalIn(c.inner, i, room - 1);
      var more := WriteAll(c.inner[i + 1..]) + c.end + rest;
      assert c.inner[i..] == [d] + c.inner[i + 1..];
      WriteFirst(d, c.inner[i + 1..], c.end, rest);
      TagIs(d.tag, Typ(d), Rest(d) + more);
      SkipRead(d, more, room - 1);
      GroupRead(c, i + 1, rest, room);
    }
  }

  lemma FieldRead(c: Chunk, rest: Bytes)
    requires Legal(c, GROUP_RECURSION_LIMIT)
    ensures NextField(Write(c) + rest) == Some(Consumed(FieldOf(c), rest))
  {
    hide ConsumeVarint, SkipValue;
    var after := Rest(c) + rest;
    assert Write(c) + rest == c.tag + after;
    TagIs(c.tag, Typ(c), after);
    match c
    case VarintChunk(_, v) => VarintIs(v, rest);
    case BytesChunk(_, size, data) => BytesAre(size, data, rest);
    case Fixed64Chunk(_, bits) => assert after[..8] == bits && after[8..] == rest;
    case _ => SkipRead(c, rest, GROUP_RECURSION_LIMIT);
  }

  // ----- nothing else is read -----

  lemma TagAt(b: Bytes) returns (tag: Bytes)
    requires ConsumeTag(b).Some?
    ensures var t := ConsumeTag(b).value;
      IsTag(tag, t.value.typ) && Number(tag) / 8 == t.value.num && b == tag + t.rest
  {
    tag := VarintAt(b);
  }

  lemma BytesFound(tag: Bytes, b: Bytes) returns (c: Chunk)
    requires IsTag(tag, 2) && ConsumeBytes(b).Some?
    ensures Legal(c, 0) && c.BytesChunk? && c.tag == tag && b == Rest(c) + ConsumeBytes(b).value.rest
  {
    hide ConsumeVarint, IsVarint, Number;
    var size := VarintAt(b);
    var after, data, rest := ConsumeVarint(b).value.rest, ConsumeBytes(b).value.value, ConsumeBytes(b).value.rest;
    c := BytesChunk(tag, size, data);
    assert after == data + rest;
    assert b == size + data + rest;
  }

  lemma {:induction false} SkipFound(tag: Bytes, b: Bytes, room: int) returns (c: Chunk)
    requires IsTag(tag, Number(tag) % 8) && SkipValue(Tag(Number(tag) / 8, Number(tag) % 8), b, room).Some?
    ensures var rest := SkipValue(Tag(Number(tag) / 8, Number(tag) % 8), b, room).value;
      Legal(c, room) && c.tag == tag && b == Rest(c) + rest
    decreases |b|, 1
  {
    hide ConsumeVarint, ConsumeBytes, SkipGroup, IsVarint, Number, AllLegal, WriteAll;
    var typ := Number(tag) % 8;
    if typ == VARINT {
      var v := VarintAt(b);
      c := VarintChunk(tag, v);
    } else if typ == FIXED32 {
      c := Fixed32Chunk(tag, b[..4]);
      assert b == b[..4] + b[4..];
    } else if typ == FIXED64 {
      c := Fixed64Chunk(tag, b[..8]);
      assert b == b[..8] + b[8..];
    } else if typ == BYTES {
      c := BytesFound(tag, b);
    } else {
      var inner, end := GroupFound(Number(tag) / 8, b, room);
      c := GroupChunk(tag, inner, end);
    }
  }

  lemma {:induction false} GroupFound(num: nat, b: Bytes, room: int) returns (inner: seq<Chunk>, end: Bytes)
    requires SkipGroup(num, b, room).Some?
    ensures AllLegal(inner, room - 1) && IsTag(end, 4) && Number(end) / 8 == num
    ensures b == WriteAll(inner) + end + SkipGroup(num, b, room).value
    decreases |b|, 0
  {
    hide ConsumeTag, SkipValue, Legal, Write, Rest, WriteAll;
    var tag := TagAt(b);
    var t := ConsumeTag(b).value;
    if t.value.typ == END_GROUP {
      inner, end := [], tag;
      WriteNone();
    } else {
      var first := SkipFound(tag, t.rest, room - 1);
      var after := SkipValue(t.value, t.rest, room - 1).value;
      var more, e := GroupFound(num, after, room);
      inner, end := [first] + more, e;
      WriteFirst(first, more, e, SkipGroup(num, b, room).value);
      assert b == tag + (Rest(first) + after);
    }
  }

  lemma WriteNone()
    ensures WriteAll([]) == []
  {
  }

  lemma WriteFirst(first: Chunk, more: seq<Chunk>, end: Bytes, rest: Bytes)
    ensures WriteAll([first] + more) + end + rest == first.tag + (Rest(first) + (WriteAll(more) + end + rest))
  {
    assert ([first] + more)[1..] == more;
  }

  lemma FieldFound(b: Bytes) returns (c: Chunk)
    requires NextField(b).Some?
    ensures Legal(c, GROUP_RECURSION_LIMIT) && FieldOf(c) == NextField(b).value.value && b == Write(c) + NextField(b).value.rest
  {
    hide SkipValue, SkipGroup, ConsumeVarint;
    var tag := TagAt(b);
    var t := ConsumeTag(b).value;
    SkipsWhatIsRead(b);
    c := SkipFound(tag, t.rest, GROUP_RECURSION_LIMIT);
    FieldRead(c, NextField(b).value.rest);
    assert b == tag + (Rest(c) + NextField(b).value.rest);
    assert Write(c) + NextField(b).value.rest == b;
  }

  /** Reading a field takes as much as passing over it. */
  lemma SkipsWhatIsRead(b: Bytes)
    requires NextField(b).Some?
    ensures var t := ConsumeTag(b).value;
      SkipValue(t.value, t.rest, GROUP_RECURSION_LIMIT) == Some(NextField(b).value.rest)
  {
    hide ConsumeVarint, SkipGroup;
  }

  /**
    The field reader reads a field off the front of b exactly when b begins with
    one that the grammar allows, with groups nested at most ten thousand deep,
    and gives back that field and the rest.
  */
  lemma NextFieldExactly(b: Bytes, f: Field, rest: Bytes)
    ensures NextField(b) == Some(Consumed(f, rest)) <==> exists c :: Legal(c, 10000) && b == Write(c) + rest && FieldOf(c) == f
  {
    hide NextField;
    if NextField(b) == Some(Consumed(f, rest)) {
      var c := FieldFound(b);
    }
    if c :| Legal(c, 10000) && b == Write(c) + rest && FieldOf(c) == f {
      FieldRead(c, rest);
    }
  }
}
