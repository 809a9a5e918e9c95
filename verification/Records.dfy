/**
  The value kinds whose wire form is one flat message of scalars and strings
  (internal/wire/value_codec.go). Their decoders all run the same loop over
  the message: a known field must have its wire type and the last one wins,
  an unknown field is skipped. Flat is that loop and a Schema its switch.
*/
module Records {
  import opened Prelude
  import opened ProtoWire

  // ----- flat messages -----

  /** The fields a decoder switches on: those read as varints and those read as bytes. */
  datatype Schema = Schema(ints: set<nat>, strs: set<nat>)

  type Table = map<nat, Payload>

  function Flat(b: Bytes, schema: Schema, m: Table): (r: Option<Table>)
    decreases |b|
  {
    if b == [] then Some(m)
    else
      var f := NextField(b);
      if f.None? then None
      else
        var num, payload := f.value.value.num, f.value.value.payload;
        if num in schema.ints then
          if payload.Varint? then Flat(f.value.rest, schema, m[num := payload]) else None
        else if num in schema.strs then
          if payload.Blob? then Flat(f.value.rest, schema, m[num := payload]) else None
        else Flat(f.value.rest, schema, m)
  }

  /** The last value met for a field. */
  function At(m: Table, k: nat): Option<Payload> {
    if k in m then Some(m[k]) else None
  }

  /** What a field means to a decoder; an absent one stands for zero or the empty string. */
  function Num(p: Option<Payload>): nat {
    if p.Some? && p.value.Varint? then p.value.n else 0
  }

  function Text(p: Option<Payload>): Bytes {
    if p.Some? && p.value.Blob? then p.value.data else []
  }

  function OptText(p: Option<Payload>): Option<Bytes> {
    if p.Some? && p.value.Blob? then Some(p.value.data) else None
  }

  function OptNum(p: Option<Payload>): Option<nat> {
    if p.Some? && p.value.Varint? then Some(p.value.n) else None
  }

  // appendUintField, appendBoolField, appendInt32Field
  function Uint(k: nat, v: nat): seq<Field> {
    if v == 0 then [] else [Field(k, Varint(v))]
  }

  // appendStringField
  function NonEmpty(k: nat, s: Bytes): seq<Field> {
    if s == [] then [] else [Field(k, Blob(s))]
  }

  function OptionalUint(k: nat, v: Option<nat>): seq<Field> {
    if v.None? then [] else [Field(k, Varint(v.value))]
  }

  function OptionalText(k: nat, s: Option<Bytes>): seq<Field> {
    if s.None? then [] else [Field(k, Blob(s.value))]
  }

  function Emit(f: Field): (b: Bytes)
    ensures f.payload.Blob? ==> |f.payload.data| < |b|
  {
    match f.payload
    case Varint(n) => VarintField(f.num, n)
    case Fixed(n) => Fixed64Field(f.num, n)
    case Blob(s) => BytesField(f.num, s)
    case Skipped => []
  }

  function FlatBody(fs: seq<Field>): Bytes {
    if fs == [] then [] else Emit(fs[0]) + FlatBody(fs[1..])
  }

  function Fold(m: Table, fs: seq<Field>): Table
    decreases |fs|
  {
    if fs == [] then m else Fold(m[fs[0].num := fs[0].payload], fs[1..])
  }

  predicate Fits(f: Field, schema: Schema) {
    && 1 <= f.num <= MAX_FIELD
    && ((f.payload.Varint? && f.num in schema.ints && f.payload.n < TWO64)
        || (f.payload.Blob? && f.num in schema.strs && f.num !in schema.ints))
  }

  /** Reading back a flat message yields the table of its fields. */
  lemma {:induction false} FlatRoundTrip(fs: seq<Field>, schema: Schema, m: Table)
    requires AllFit(fs, schema)
    requires |FlatBody(fs)| < TWO64
    ensures Flat(FlatBody(fs), schema, m) == Some(Fold(m, fs))
  {
    if fs != [] {
      hide NextField, VarintField, BytesField, Fixed64Field;
      var f, rest := fs[0], FlatBody(fs[1..]);
      FlatRoundTrip(fs[1..], schema, m[f.num := f.payload]);
      if f.payload.Varint? {
        NextVarint(f.num, f.payload.n, rest);
      } else {
        NextBlob(f.num, f.payload.data, rest);
      }
    }
  }

  lemma {:induction false} FoldConcat(m: Table, a: seq<Field>, b: seq<Field>)
    ensures Fold(m, a + b) == Fold(Fold(m, a), b)
    decreases |a|
  {
    if a == [] {
      assert a + b == b;
    } else {
      FoldConcat(m[a[0].num := a[0].payload], a[1..], b);
      assert (a + b)[1..] == a[1..] + b;
    }
  }

  predicate AllFit(fs: seq<Field>, schema: Schema) {
    forall i | 0 <= i < |fs| :: Fits(fs[i], schema)
  }

  /** The fields written so far, and what each of them will be read as. */
  function Written(fs: seq<Field>, k: nat): Option<Payload> {
    At(Fold(map[], fs), k)
  }

  lemma Start(schema: Schema)
    ensures AllFit([], schema)
    ensures forall j :: Written([], j) == None
  {
  }

  /** Appending a group of at most one field sets that field and leaves the others. */
  lemma Grow(schema: Schema, pre: seq<Field>, group: seq<Field>, k: nat)
    requires AllFit(pre, schema) && Written(pre, k) == None
    requires |group| <= 1 && (group != [] ==> group[0].num == k && Fits(group[0], schema))
    ensures AllFit(pre + group, schema)
    ensures Written(pre + group, k) == if group == [] then None else Some(group[0].payload)
    ensures forall j | j != k :: Written(pre + group, j) == Written(pre, j)
  {
    FoldConcat(map[], pre, group);
  }

  lemma GrowUint(schema: Schema, pre: seq<Field>, k: nat, v: nat)
    requires AllFit(pre, schema) && Written(pre, k) == None
    requires 1 <= k <= MAX_FIELD && k in schema.ints && v < TWO64
    ensures AllFit(pre + Uint(k, v), schema)
    ensures Num(Written(pre + Uint(k, v), k)) == v
    ensures forall j | j != k :: Written(pre + Uint(k, v), j) == Written(pre, j)
  {
    Grow(schema, pre, Uint(k, v), k);
  }

  lemma GrowText(schema: Schema, pre: seq<Field>, k: nat, s: Bytes)
    requires AllFit(pre, schema) && Written(pre, k) == None
    requires 1 <= k <= MAX_FIELD && k in schema.strs && k !in schema.ints
    ensures AllFit(pre + NonEmpty(k, s), schema)
    ensures Text(Written(pre + NonEmpty(k, s), k)) == s
    ensures forall j | j != k :: Written(pre + NonEmpty(k, s), j) == Written(pre, j)
  {
    Grow(schema, pre, NonEmpty(k, s), k);
  }

  lemma GrowOptionalUint(schema: Schema, pre: seq<Field>, k: nat, v: Option<nat>)
    requires AllFit(pre, schema) && Written(pre, k) == None
    requires 1 <= k <= MAX_FIELD && k in schema.ints && (v.Some? ==> v.value < TWO64)
    ensures AllFit(pre + OptionalUint(k, v), schema)
    ensures OptNum(Written(pre + OptionalUint(k, v), k)) == v
    ensures forall j | j != k :: Written(pre + OptionalUint(k, v), j) == Written(pre, j)
  {
    Grow(schema, pre, OptionalUint(k, v), k);
  }

  lemma GrowOptionalText(schema: Schema, pre: seq<Field>, k: nat, s: Option<Bytes>)
    requires AllFit(pre, schema) && Written(pre, k) == None
    requires 1 <= k <= MAX_FIELD && k in schema.strs && k !in schema.ints
    ensures AllFit(pre + OptionalText(k, s), schema)
    ensures OptText(Written(pre + OptionalText(k, s), k)) == s
    ensures forall j | j != k :: Written(pre + OptionalText(k, s), j) == Written(pre, j)
  {
    Grow(schema, pre, OptionalText(k, s), k);
  }

  // ----- machine integers -----

  const TWO32: nat := 0x1_0000_0000

  /** uint64(int64(v)) */
  function ToWord(v: int): (n: nat)
    ensures n < TWO64
  {
    v % TWO64
  }

  /** int32(n) */
  function ToInt32(n: nat): (v: int)
    ensures -0x8000_0000 <= v < 0x8000_0000
  {
    var low := n % TWO32;
    if low < 0x8000_0000 then low else low - TWO32
  }

  /** uint8(clampU32(n)) */
  function Clamp(n: nat): nat {
    if n > 255 then 255 else n
  }

  lemma Int32RoundTrip(v: int)
    requires -0x8000_0000 <= v < 0x8000_0000
    ensures ToInt32(ToWord(v)) == v
  {
    assert TWO64 == TWO32 * TWO32;
    if v < 0 {
      assert v % TWO64 == TWO64 + v == (TWO32 - 1) * TWO32 + (TWO32 + v);
    }
  }

  // ----- records -----

  datatype Record =
    | Date(year: int, month: nat, day: nat)
    | Time(hour: nat, minute: nat, second: nat, micro: nat, offset: Option<int>, zone: Option<Bytes>, fold: nat)
    | DateTime(year: int, month: nat, day: nat,
               hour: nat, minute: nat, second: nat, micro: nat, offset: Option<int>, zone: Option<Bytes>)
    | TimeDelta(days: int, seconds: int, micros: int)
    | TimeZone(offsetSeconds: int, name: Option<Bytes>)
    | Exception(excType: Bytes, message: Bytes)
    | Function(funcName: Bytes, doc: Option<Bytes>)
    | FileHandle(path: Bytes, mode: Bytes, position: nat)
    | Cycle(identity: nat, placeholder: Bytes)

  predicate LeapYear(year: int) {
    year % 4 == 0 && (year % 100 != 0 || year % 400 == 0)
  }

  function DaysInMonth(year: int, month: nat): nat {
    if month == 2 then (if LeapYear(year) then 29 else 28)
    else if month in {4, 6, 9, 11} then 30
    else 31
  }

  // validateDate
  predicate ValidDate(year: int, month: nat, day: nat) {
    1 <= year <= 9999 && 1 <= month <= 12 && 1 <= day <= DaysInMonth(year, month)
  }

  // validateClock
  predicate ValidClock(hour: nat, minute: nat, second: nat, micro: nat, offset: Option<int>, zone: Option<Bytes>) {
    && hour <= 23 && minute <= 59 && second <= 59 && micro <= 999_999
    && (offset.Some? ==> -86400 < offset.value < 86400)
    && (zone.Some? ==> offset.Some?)
  }

  // validHandleMode: a letter of "rwa", then "b" or nothing, then "+" or nothing
  predicate ValidMode(mode: Bytes) {
    && 1 <= |mode| <= 3
    && mode[0] in {114, 119, 97}
    && (mode[1..] == [] || mode[1..] == [98] || mode[1..] == [43] || mode[1..] == [98, 43])
  }

  /** The checks the decoders make on an assembled record. */
  predicate Accepted(r: Record) {
    match r
    case Date(y, m, d) => ValidDate(y, m, d)
    case Time(h, mi, s, us, off, zone, fold) => ValidClock(h, mi, s, us, off, zone) && fold <= 1
    case DateTime(y, m, d, h, mi, s, us, off, zone) => ValidDate(y, m, d) && ValidClock(h, mi, s, us, off, zone)
    case TimeDelta(d, s, us) => -999_999_999 <= d <= 999_999_999 && 0 <= s < 86400 && 0 <= us < 1_000_000
    case TimeZone(off, _) => -86400 < off < 86400
    case Exception(_, _) => true
    case Function(_, _) => true
    case FileHandle(_, mode, _) => ValidMode(mode)
    case Cycle(_, _) => true
  }

  /** An accepted record whose numbers fit their Go types. */
  predicate WellFormedRecord(r: Record) {
    Accepted(r) && (r.FileHandle? ==> r.position < TWO64) && (r.Cycle? ==> r.identity < TWO64)
  }

  predicate IsInt32(v: int) {
    -0x8000_0000 <= v < 0x8000_0000
  }

  /** Every number fits its Go type: int32, uint8, uint32 or uint64. */
  predicate GoTyped(r: Record) {
    match r
    case Date(y, m, d) => IsInt32(y) && m < 256 && d < 256
    case Time(h, mi, s, us, off, _, fold) =>
      h < 256 && mi < 256 && s < 256 && us < TWO32 && (off.Some? ==> IsInt32(off.value)) && fold < 256
    case DateTime(y, m, d, h, mi, s, us, off, _) =>
      && IsInt32(y) && m < 256 && d < 256
      && h < 256 && mi < 256 && s < 256 && us < TWO32 && (off.Some? ==> IsInt32(off.value))
    case TimeDelta(d, s, us) => IsInt32(d) && IsInt32(s) && IsInt32(us)
    case TimeZone(off, _) => IsInt32(off)
    case FileHandle(_, _, position) => position < TWO64
    case Cycle(identity, _) => identity < TWO64
    case _ => true
  }

  lemma WellFormedTyped(r: Record)
    requires WellFormedRecord(r)
    ensures GoTyped(r)
  {
  }

  /** The field of MontyObject that carries the record. */
  function Number(r: Record): (n: nat)
    ensures 17 <= n <= 30
  {
    match r
    case Date(_, _, _) => 17
    case Time(_, _, _, _, _, _, _) => 18
    case DateTime(_, _, _, _, _, _, _, _, _) => 19
    case TimeDelta(_, _, _) => 20
    case TimeZone(_, _) => 21
    case Exception(_, _) => 22
    case Function(_, _) => 25
    case FileHandle(_, _, _) => 28
    case Cycle(_, _) => 30
  }

  predicate IsRecordNumber(n: nat) {
    n in {17, 18, 19, 20, 21, 22, 25, 28, 30}
  }

  function SchemaOf(n: nat): Schema
    requires IsRecordNumber(n)
  {
    if n == 17 || n == 20 then Schema({1, 2, 3}, {})
    else if n == 18 then Schema({1, 2, 3, 4, 5, 7}, {6})
    else if n == 19 then Schema({1, 2, 3, 4, 5, 6, 7, 8}, {9})
    else if n == 21 || n == 30 then Schema({1}, {2})
    else if n == 28 then Schema({3}, {1, 2})
    else Schema({}, {1, 2})
  }

  function Word(v: Option<int>): Option<nat> {
    if v.None? then None else Some(ToWord(v.value))
  }

  function Offset(n: Option<nat>): Option<int> {
    if n.None? then None else Some(ToInt32(n.value))
  }

  /** The fields AppendValue writes for a record, in order; a cycle marker has no encoding. */
  function FieldsOf(r: Record): seq<Field> {
    match r
    case Date(y, m, d) => Uint(1, ToWord(y)) + Uint(2, m) + Uint(3, d)
    case Time(h, mi, s, us, off, zone, fold) =>
      Uint(1, h) + Uint(2, mi) + Uint(3, s) + Uint(4, us) + OptionalUint(5, Word(off)) + OptionalText(6, zone) + Uint(7, fold)
    case DateTime(y, m, d, h, mi, s, us, off, zone) =>
      Uint(1, ToWord(y)) + Uint(2, m) + Uint(3, d) + Uint(4, h) + Uint(5, mi) + Uint(6, s) + Uint(7, us)
      + OptionalUint(8, Word(off)) + OptionalText(9, zone)
    case TimeDelta(d, s, us) => Uint(1, ToWord(d)) + Uint(2, ToWord(s)) + Uint(3, ToWord(us))
    case TimeZone(off, name) => Uint(1, ToWord(off)) + OptionalText(2, name)
    case Exception(t, msg) => NonEmpty(1, t) + NonEmpty(2, msg)
    case Function(name, doc) => NonEmpty(1, name) + OptionalText(2, doc)
    case FileHandle(path, mode, pos) => NonEmpty(1, path) + NonEmpty(2, mode) + Uint(3, pos)
    case Cycle(_, _) => []
  }

  /** The record a decoder assembles from the fields it met, before it validates it. */
  function Assemble(n: nat, m: Table): Record
    requires IsRecordNumber(n)
  {
    if n == 17 then Date(ToInt32(Num(At(m, 1))), Clamp(Num(At(m, 2))), Clamp(Num(At(m, 3))))
    else if n == 18 then
      Time(Clamp(Num(At(m, 1))), Clamp(Num(At(m, 2))), Clamp(Num(At(m, 3))), Num(At(m, 4)) % TWO32,
           Offset(OptNum(At(m, 5))), OptText(At(m, 6)), Clamp(Num(At(m, 7))))
    else if n == 19 then
      DateTime(ToInt32(Num(At(m, 1))), Clamp(Num(At(m, 2))), Clamp(Num(At(m, 3))), Clamp(Num(At(m, 4))), Clamp(Num(At(m, 5))),
               Clamp(Num(At(m, 6))), Num(At(m, 7)) % TWO32, Offset(OptNum(At(m, 8))), OptText(At(m, 9)))
    else if n == 20 then TimeDelta(ToInt32(Num(At(m, 1))), ToInt32(Num(At(m, 2))), ToInt32(Num(At(m, 3))))
    else if n == 21 then TimeZone(ToInt32(Num(At(m, 1))), OptText(At(m, 2)))
    else if n == 22 then Exception(Text(At(m, 1)), Text(At(m, 2)))
    else if n == 25 then Function(Text(At(m, 1)), OptText(At(m, 2)))
    else if n == 28 then FileHandle(Text(At(m, 1)), Text(At(m, 2)), Num(At(m, 3)))
    else Cycle(Num(At(m, 1)), Text(At(m, 2)))
  }

  function DecodeRecord(n: nat, msg: Bytes): (r: Option<Record>)
    requires IsRecordNumber(n)
  {
    var m := Flat(msg, SchemaOf(n), map[]);
    if m.None? then None
    else
      var rec := Assemble(n, m.value);
      if Accepted(rec) then Some(rec) else None
  }

  /** A record's fields fit its schema and assemble to the record. */
  ghost predicate Faithful(r: Record) {
    && AllFit(FieldsOf(r), SchemaOf(Number(r)))
    && Assemble(Number(r), Fold(map[], FieldsOf(r))) == r
  }

  lemma OffsetRoundTrip(v: Option<int>)
    requires v.Some? ==> -0x8000_0000 <= v.value < 0x8000_0000
    ensures Offset(Word(v)) == v
  {
    if v.Some? {
      Int32RoundTrip(v.value);
    }
  }

  lemma DateFaithful(r: Record)
    requires GoTyped(r) && r.Date?
    ensures Faithful(r)
  {
    hide Fold, AllFit, At, Num, ToInt32, ToWord, Uint;
    var s := SchemaOf(17);
    Start(s);
    GrowUint(s, [], 1, ToWord(r.year));
    var p1 := Uint(1, ToWord(r.year));
    assert [] + p1 == p1;
    GrowUint(s, p1, 2, r.month);
    GrowUint(s, p1 + Uint(2, r.month), 3, r.day);
    Int32RoundTrip(r.year);
  }

  lemma TimeDeltaFaithful(r: Record)
    requires GoTyped(r) && r.TimeDelta?
    ensures Faithful(r)
  {
    hide Fold, AllFit, At, Num, ToInt32, ToWord, Uint;
    var s := SchemaOf(20);
    Start(s);
    GrowUint(s, [], 1, ToWord(r.days));
    var p1 := Uint(1, ToWord(r.days));
    assert [] + p1 == p1;
    GrowUint(s, p1, 2, ToWord(r.seconds));
    GrowUint(s, p1 + Uint(2, ToWord(r.seconds)), 3, ToWord(r.micros));
    Int32RoundTrip(r.days);
    Int32RoundTrip(r.seconds);
    Int32RoundTrip(r.micros);
  }

  lemma TimeFaithful(r: Record)
    requires GoTyped(r) && r.Time?
    ensures Faithful(r)
  {
    hide Fold, AllFit, At, Num, OptNum, OptText, ToInt32, ToWord, Uint, OptionalUint, OptionalText, Offset, Word;
    var s, off := SchemaOf(18), Word(r.offset);
    var p1 := Uint(1, r.hour);
    var p2 := p1 + Uint(2, r.minute);
    var p3 := p2 + Uint(3, r.second);
    var p4 := p3 + Uint(4, r.micro);
    var p5 := p4 + OptionalUint(5, off);
    var p6 := p5 + OptionalText(6, r.zone);
    Start(s);
    GrowUint(s, [], 1, r.hour);
    assert [] + p1 == p1;
    GrowUint(s, p1, 2, r.minute);
    GrowUint(s, p2, 3, r.second);
    GrowUint(s, p3, 4, r.micro);
    WordFits(r.offset);
    GrowOptionalUint(s, p4, 5, off);
    GrowOptionalText(s, p5, 6, r.zone);
    GrowUint(s, p6, 7, r.fold);
    OffsetRoundTrip(r.offset);
  }

  lemma WordFits(v: Option<int>)
    ensures Word(v).Some? ==> Word(v).value < TWO64
  {
  }

  lemma DateTimeFaithful(r: Record)
    requires GoTyped(r) && r.DateTime?
    ensures Faithful(r)
  {
    hide Fold, AllFit, At, Num, OptNum, OptText, ToInt32, ToWord, Uint, OptionalUint, OptionalText, Offset, Word;
    var s, off := SchemaOf(19), Word(r.offset);
    var p1 := Uint(1, ToWord(r.year));
    var p2 := p1 + Uint(2, r.month);
    var p3 := p2 + Uint(3, r.day);
    var p4 := p3 + Uint(4, r.hour);
    var p5 := p4 + Uint(5, r.minute);
    var p6 := p5 + Uint(6, r.second);
    var p7 := p6 + Uint(7, r.micro);
    var p8 := p7 + OptionalUint(8, off);
    Start(s);
    GrowUint(s, [], 1, ToWord(r.year));
    assert [] + p1 == p1;
    GrowUint(s, p1, 2, r.month);
    GrowUint(s, p2, 3, r.day);
    GrowUint(s, p3, 4, r.hour);
    GrowUint(s, p4, 5, r.minute);
    GrowUint(s, p5, 6, r.second);
    GrowUint(s, p6, 7, r.micro);
    WordFits(r.offset);
    GrowOptionalUint(s, p7, 8, off);
    GrowOptionalText(s, p8, 9, r.zone);
    Int32RoundTrip(r.year);
    OffsetRoundTrip(r.offset);
  }

  lemma TextFaithful(r: Record)
    requires GoTyped(r) && (r.Exception? || r.Function? || r.FileHandle? || r.TimeZone?)
    ensures Faithful(r)
  {
    hide Fold, AllFit, At, Num, Text, OptText, ToInt32, ToWord, Uint, NonEmpty, OptionalText;
    var s := SchemaOf(Number(r));
    Start(s);
    match r
    case Exception(t, msg) =>
      var p1 := NonEmpty(1, t);
      GrowText(s, [], 1, t);
      assert [] + p1 == p1;
      GrowText(s, p1, 2, msg);
    case Function(name, doc) =>
      var p1 := NonEmpty(1, name);
      GrowText(s, [], 1, name);
      assert [] + p1 == p1;
      GrowOptionalText(s, p1, 2, doc);
    case FileHandle(path, mode, pos) =>
      var p1 := NonEmpty(1, path);
      GrowText(s, [], 1, path);
      assert [] + p1 == p1;
      GrowText(s, p1, 2, mode);
      GrowUint(s, p1 + NonEmpty(2, mode), 3, pos);
    case TimeZone(off, name) =>
      var p1 := Uint(1, ToWord(off));
      GrowUint(s, [], 1, ToWord(off));
      assert [] + p1 == p1;
      GrowOptionalText(s, p1, 2, name);
      Int32RoundTrip(off);
  }

  /** Every record of Go's types is assembled again from its own encoding, and then stands or falls by the checks. */
  lemma RecordReassembled(r: Record)
    requires GoTyped(r) && !r.Cycle?
    requires |FlatBody(FieldsOf(r))| < TWO64
    ensures DecodeRecord(Number(r), FlatBody(FieldsOf(r))) == if Accepted(r) then Some(r) else None
  {
    hide FieldsOf, Assemble, Accepted, Flat;
    if r.Date? {
      DateFaithful(r);
    } else if r.TimeDelta? {
      TimeDeltaFaithful(r);
    } else if r.Time? {
      TimeFaithful(r);
    } else if r.DateTime? {
      DateTimeFaithful(r);
    } else {
      TextFaithful(r);
    }
    FlatRoundTrip(FieldsOf(r), SchemaOf(Number(r)), map[]);
  }

  /** Every record the checks accept is decoded to itself. */
  lemma RecordRoundTrip(r: Record)
    requires WellFormedRecord(r) && !r.Cycle?
    requires |FlatBody(FieldsOf(r))| < TWO64
    ensures DecodeRecord(Number(r), FlatBody(FieldsOf(r))) == Some(r)
  {
    hide FieldsOf, FlatBody, DecodeRecord, GoTyped;
    WellFormedTyped(r);
    RecordReassembled(r);
  }

  predicate Bounded(m: Table) {
    forall k | k in m :: m[k].Varint? ==> m[k].n < TWO64
  }

  lemma {:induction false} FlatBounded(b: Bytes, schema: Schema, m: Table)
    requires Bounded(m) && Flat(b, schema, m).Some?
    ensures Bounded(Flat(b, schema, m).value)
    decreases |b|
  {
    if b != [] {
      hide NextField;
      var f := NextField(b).value;
      NextFieldBounded(b);
      if f.value.num in schema.ints || f.value.num in schema.strs {
        FlatBounded(f.rest, schema, m[f.value.num := f.value.payload]);
      } else {
        FlatBounded(f.rest, schema, m);
      }
    }
  }

  /** Whatever the bytes, a record that is decoded is well formed. */
  lemma DecodedRecordWellFormed(n: nat, msg: Bytes)
    requires IsRecordNumber(n) && DecodeRecord(n, msg).Some?
    ensures WellFormedRecord(DecodeRecord(n, msg).value)
  {
    hide Flat, Accepted;
    FlatBounded(msg, SchemaOf(n), map[]);
  }
}
