/**
  The Protocol Buffers wire format as far as internal/wire/proto.go uses it:
  varints, tags, length-delimited payloads, and the reader that skips what it
  does not know.
*/
module ProtoWire {
  import opened Prelude

  const VARINT: nat := 0
  const FIXED64: nat := 1
  const BYTES: nat := 2
  const START_GROUP: nat := 3
  const END_GROUP: nat := 4
  const FIXED32: nat := 5

  const TWO64: nat := 0x1_0000_0000_0000_0000
  const MAX_FIELD: nat := 0x7FFF_FFFF
  const GROUP_RECURSION_LIMIT: int := 10000

  // ----- varints -----

  function AppendVarint(v: nat): (b: Bytes)
    ensures b != []
  {
    if v < 128 then [v] else [v % 128 + 128] + AppendVarint(v / 128)
  }

  datatype Consumed<T> = Consumed(value: T, rest: Bytes)

  /** At most ten bytes; the tenth carries the top bit only. */
  function ConsumeVarintAt(b: Bytes, i: nat): (r: Option<Consumed<nat>>)
    requires i <= 9
    ensures r.Some? ==> |r.value.rest| < |b|
    decreases 9 - i
  {
    if b == [] then None
    else if i == 9 then (if b[0] < 2 then Some(Consumed(b[0], b[1..])) else None)
    else if b[0] < 128 then Some(Consumed(b[0], b[1..]))
    else
      var r := ConsumeVarintAt(b[1..], i + 1);
      if r.None? then None else Some(Consumed(b[0] - 128 + 128 * r.value.value, r.value.rest))
  }

  function ConsumeVarint(b: Bytes): (r: Option<Consumed<nat>>)
    ensures r.Some? ==> |r.value.rest| < |b|
  {
    ConsumeVarintAt(b, 0)
  }

  /** What i bytes leave room for: 2^(64 - 7i). */
  function Room(i: nat): nat
    requires i <= 9
    decreases 9 - i
  {
    if i == 9 then 2 else 128 * Room(i + 1)
  }

  lemma RoomIs64Bits()
    ensures Room(0) == TWO64
  {
    assert Room(8) == 256 && Room(7) == 32768 && Room(6) == 4194304 && Room(5) == 536870912;
    assert Room(4) == 68719476736 && Room(3) == 8796093022208 && Room(2) == 1125899906842624;
    assert Room(1) == 144115188075855872;
  }

  lemma {:induction false} VarintRoundTripAt(v: nat, rest: Bytes, i: nat)
    requires i <= 9 && v < Room(i)
    ensures ConsumeVarintAt(AppendVarint(v) + rest, i) == Some(Consumed(v, rest))
    decreases 9 - i
  {
    if v < 128 {
      VarintLast(v, rest, i);
    } else {
      VarintRoom(v, i);
      hide *;
      VarintRoundTripAt(v / 128, rest, i + 1);
      VarintMore(v, v / 128, rest, i);
    }
  }

  lemma VarintRoom(v: nat, i: nat)
    requires i <= 9 && 128 <= v < Room(i)
    ensures i < 9 && v / 128 < Room(i + 1)
  {
  }

  lemma VarintLast(v: nat, rest: Bytes, i: nat)
    requires i <= 9 && v < 128 && v < Room(i)
    ensures ConsumeVarintAt(AppendVarint(v) + rest, i) == Some(Consumed(v, rest))
  {
    assert AppendVarint(v) == [v];
    assert ([v] + rest)[1..] == rest;
  }

  lemma VarintMore(v: nat, high: nat, rest: Bytes, i: nat)
    requires i < 9 && v >= 128 && high == v / 128
    requires ConsumeVarintAt(AppendVarint(high) + rest, i + 1) == Some(Consumed(high, rest))
    ensures ConsumeVarintAt(AppendVarint(v) + rest, i) == Some(Consumed(v, rest))
  {
    var b, tail := AppendVarint(v) + rest, AppendVarint(high);
    assert AppendVarint(v) == [v % 128 + 128] + tail;
    hide AppendVarint;
    assert b[0] == v % 128 + 128 && b[1..] == tail + rest;
  }

  lemma VarintRoundTrip(v: nat, rest: Bytes)
    requires v < TWO64
    ensures ConsumeVarint(AppendVarint(v) + rest) == Some(Consumed(v, rest))
  {
    RoomIs64Bits();
    VarintRoundTripAt(v, rest, 0);
  }

  // ----- zigzag -----

  function EncodeZigZag(x: int): nat {
    if x >= 0 then 2 * x else -2 * x - 1
  }

  function DecodeZigZag(n: nat): int {
    if n % 2 == 0 then n / 2 else -(n / 2) - 1
  }

  lemma ZigZagRoundTrip(x: int)
    ensures DecodeZigZag(EncodeZigZag(x)) == x
    ensures -0x8000_0000_0000_0000 <= x < 0x8000_0000_0000_0000 ==> EncodeZigZag(x) < TWO64
  {
  }

  // ----- fixed width -----

  function Little(v: nat, n: nat): (b: Bytes)
    ensures |b| == n
  {
    if n == 0 then [] else [v % 256] + Little(v / 256, n - 1)
  }

  function FromLittle(b: Bytes): nat {
    if b == [] then 0 else b[0] + 256 * FromLittle(b[1..])
  }

  function Pow256(n: nat): nat {
    if n == 0 then 1 else 256 * Pow256(n - 1)
  }

  lemma {:induction false} LittleRoundTrip(v: nat, n: nat)
    requires v < Pow256(n)
    ensures FromLittle(Little(v, n)) == v
  {
    if n > 0 {
      LittleRoundTrip(v / 256, n - 1);
      assert Little(v, n)[1..] == Little(v / 256, n - 1);
    }
  }

  lemma Pow256Eight()
    ensures Pow256(8) == TWO64
  {
    assert Pow256(2) == 0x1_0000 && Pow256(4) == 0x1_0000_0000 && Pow256(6) == 0x1_0000_0000_0000;
  }

  // ----- big-endian magnitudes (big.Int.Bytes and SetBytes) -----

  function BigBytes(n: nat): (b: Bytes) {
    if n == 0 then [] else BigBytes(n / 256) + [n % 256]
  }

  function FromBig(b: Bytes): nat {
    if b == [] then 0 else 256 * FromBig(b[..|b| - 1]) + b[|b| - 1]
  }

  lemma {:induction false} BigRoundTrip(n: nat)
    ensures FromBig(BigBytes(n)) == n
  {
    if n > 0 {
      BigRoundTrip(n / 256);
      var b := BigBytes(n);
      assert b[..|b| - 1] == BigBytes(n / 256);
    }
  }

  /** A magnitude never needs more bytes than it was sent with. */
  lemma {:induction false} BigMinimal(b: Bytes)
    ensures |BigBytes(FromBig(b))| <= |b|
  {
    if b != [] {
      BigMinimal(b[..|b| - 1]);
      var n := FromBig(b);
      assert n / 256 == FromBig(b[..|b| - 1]);
    }
  }

  // ----- fields -----

  function AppendTag(num: nat, typ: nat): Bytes {
    AppendVarint(num * 8 + typ)
  }

  function VarintField(num: nat, v: nat): Bytes {
    AppendTag(num, VARINT) + AppendVarint(v)
  }

  function Fixed64Field(num: nat, v: nat): Bytes {
    AppendTag(num, FIXED64) + Little(v, 8)
  }

  /** appendMessage, appendStringAlways and appendBytesAlways. */
  function BytesField(num: nat, s: Bytes): Bytes {
    AppendTag(num, BYTES) + AppendVarint(|s|) + s
  }

  /** appendUintField, appendInt32Field and appendBoolField: zero is not sent. */
  function UintField(num: nat, v: nat): Bytes {
    if v == 0 then [] else VarintField(num, v)
  }

  /** appendStringField: the empty string is not sent. */
  function StringField(num: nat, s: Bytes): Bytes {
    if s == [] then [] else BytesField(num, s)
  }

  datatype Payload = Varint(n: nat) | Fixed(bits: nat) | Blob(data: Bytes) | Skipped

  datatype Field = Field(num: nat, payload: Payload)

  datatype Tag = Tag(num: nat, typ: nat)

  function ConsumeTag(b: Bytes): (r: Option<Consumed<Tag>>)
    ensures r.Some? ==> |r.value.rest| < |b|
  {
    var v := ConsumeVarint(b);
    if v.None? || v.value.value / 8 > MAX_FIELD || v.value.value / 8 < 1 then None
    else Some(Consumed(Tag(v.value.value / 8, v.value.value % 8), v.value.rest))
  }

  function ConsumeBytes(b: Bytes): (r: Option<Consumed<Bytes>>)
    ensures r.Some? ==> |r.value.rest| < |b| && |r.value.value| < |b|
  {
    var n := ConsumeVarint(b);
    if n.None? || n.value.value > |n.value.rest| then None
    else Some(Consumed(n.value.rest[..n.value.value], n.value.rest[n.value.value..]))
  }

  /** protowire.ConsumeFieldValue: what is left after the value of a field. */
  function SkipValue(tag: Tag, b: Bytes, depth: int): (r: Option<Bytes>)
    ensures r.Some? ==> |r.value| <= |b|
    decreases |b|, 1
  {
    if tag.typ == VARINT then (var v := ConsumeVarint(b); if v.None? then None else Some(v.value.rest))
    else if tag.typ == FIXED32 then (if |b| < 4 then None else Some(b[4..]))
    else if tag.typ == FIXED64 then (if |b| < 8 then None else Some(b[8..]))
    else if tag.typ == BYTES then (var v := ConsumeBytes(b); if v.None? then None else Some(v.value.rest))
    else if tag.typ == START_GROUP && depth >= 0 then SkipGroup(tag.num, b, depth)
    else None
  }

  function SkipGroup(num: nat, b: Bytes, depth: int): (r: Option<Bytes>)
    ensures r.Some? ==> |r.value| <= |b|
    decreases |b|, 0
  {
    var t := ConsumeTag(b);
    if t.None? then None
    else if t.value.value.typ == END_GROUP then (if t.value.value.num == num then Some(t.value.rest) else None)
    else
      var r := SkipValue(t.value.value, t.value.rest, depth - 1);
      if r.None? then None else SkipGroup(num, r.value, depth)
  }

  /** One field with its value; a field that only skip accepts has no usable payload. */
  function NextField(b: Bytes): (r: Option<Consumed<Field>>)
    ensures r.Some? ==> |r.value.rest| < |b| && (r.value.value.payload.Blob? ==> |r.value.value.payload.data| < |b|)
  {
    var t := ConsumeTag(b);
    if t.None? then None
    else
      var num, rest := t.value.value.num, t.value.rest;
      if t.value.value.typ == VARINT then
        var v := ConsumeVarint(rest);
        if v.None? then None else Some(Consumed(Field(num, Varint(v.value.value)), v.value.rest))
      else if t.value.value.typ == FIXED64 then
        if |rest| < 8 then None else Some(Consumed(Field(num, Fixed(FromLittle(rest[..8]))), rest[8..]))
      else if t.value.value.typ == BYTES then
        var v := ConsumeBytes(rest);
        if v.None? then None else Some(Consumed(Field(num, Blob(v.value.value)), v.value.rest))
      else
        var r := SkipValue(t.value.value, rest, GROUP_RECURSION_LIMIT);
        if r.None? then None else Some(Consumed(Field(num, Skipped), r.value))
  }

  lemma TagRoundTrip(num: nat, typ: nat, rest: Bytes)
    requires 1 <= num <= MAX_FIELD && typ < 8
    ensures ConsumeTag(AppendTag(num, typ) + rest) == Some(Consumed(Tag(num, typ), rest))
  {
    VarintRoundTrip(num * 8 + typ, rest);
  }

  lemma NextVarint(num: nat, v: nat, rest: Bytes)
    requires 1 <= num <= MAX_FIELD && v < TWO64
    ensures VarintField(num, v) != []
    ensures NextField(VarintField(num, v) + rest) == Some(Consumed(Field(num, Varint(v)), rest))
  {
    hide ConsumeVarint, AppendVarint;
    var b := VarintField(num, v) + rest;
    assert b == AppendTag(num, VARINT) + (AppendVarint(v) + rest);
    TagRoundTrip(num, VARINT, AppendVarint(v) + rest);
    VarintRoundTrip(v, rest);
  }

  lemma NextFixed64(num: nat, v: nat, rest: Bytes)
    requires 1 <= num <= MAX_FIELD && v < TWO64
    ensures NextField(Fixed64Field(num, v) + rest) == Some(Consumed(Field(num, Fixed(v)), rest))
  {
    hide ConsumeVarint, AppendVarint, FromLittle, Little;
    var b := Fixed64Field(num, v) + rest;
    var tail := Little(v, 8) + rest;
    assert b == AppendTag(num, FIXED64) + tail;
    TagRoundTrip(num, FIXED64, tail);
    Pow256Eight();
    LittleRoundTrip(v, 8);
    assert tail[..8] == Little(v, 8) && tail[8..] == rest;
  }

  lemma NextBlob(num: nat, s: Bytes, rest: Bytes)
    requires 1 <= num <= MAX_FIELD && |s| < TWO64
    ensures BytesField(num, s) != []
    ensures NextField(BytesField(num, s) + rest) == Some(Consumed(Field(num, Blob(s)), rest))
  {
    hide ConsumeVarint, AppendVarint;
    var b := BytesField(num, s) + rest;
    var tail := AppendVarint(|s|) + (s + rest);
    assert b == AppendTag(num, BYTES) + tail;
    TagRoundTrip(num, BYTES, tail);
    VarintRoundTrip(|s|, s + rest);
    assert (s + rest)[..|s|] == s && (s + rest)[|s|..] == rest;
  }

  // ----- what is read fits its type -----

  lemma {:induction false} VarintBounded(b: Bytes, i: nat)
    requires i <= 9 && ConsumeVarintAt(b, i).Some?
    ensures ConsumeVarintAt(b, i).value.value < Room(i)
    decreases 9 - i
  {
    if i < 9 {
      RoomAtLeast(i + 1);
      if b[0] >= 128 {
        VarintBounded(b[1..], i + 1);
      }
    }
  }

  lemma {:induction false} RoomAtLeast(i: nat)
    requires i <= 9
    ensures Room(i) >= 2
    decreases 9 - i
  {
    if i < 9 {
      RoomAtLeast(i + 1);
    }
  }

  lemma {:induction false} LittleBounded(b: Bytes)
    ensures FromLittle(b) < Pow256(|b|)
  {
    if b != [] {
      LittleBounded(b[1..]);
    }
  }

  lemma NextFieldBounded(b: Bytes)
    requires NextField(b).Some?
    ensures NextField(b).value.value.payload.Varint? ==> NextField(b).value.value.payload.n < TWO64
    ensures NextField(b).value.value.payload.Fixed? ==> NextField(b).value.value.payload.bits < TWO64
  {
    hide SkipValue, ConsumeVarintAt, FromLittle;
    RoomIs64Bits();
    var rest := ConsumeTag(b).value.rest;
    if ConsumeVarint(rest).Some? {
      VarintBounded(rest, 0);
    }
    if |rest| >= 8 {
      LittleBounded(rest[..8]);
      Pow256Eight();
    }
  }
}
