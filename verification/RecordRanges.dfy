/**
  What the checks on decoded records mean (internal/wire/value_codec.go),
  written out on the fields and against a calendar of its own.
*/
module RecordRanges {
  import opened Prelude
  import opened Calendar
  import opened ProtoWire
  import opened Records
  import opened Uuid
  import opened Values
  import opened Codec
  import opened CodecRoundTrip
  import opened CodecBudget

  // r rb r+ rb+ w wb w+ wb+ a ab a+ ab+
  const MODES: seq<Bytes> := [
    [114], [114, 98], [114, 43], [114, 98, 43],
    [119], [119, 98], [119, 43], [119, 98, 43],
    [97], [97, 98], [97, 43], [97, 98, 43]]

  /** A time of day; a zone has a name only with an offset of less than a day. */
  ghost predicate IsClock(hour: int, minute: int, second: int, micro: int, offset: Option<int>, zone: Option<Bytes>) {
    && 0 <= hour <= 23 && 0 <= minute <= 59 && 0 <= second <= 59 && 0 <= micro <= 999_999
    && (offset == None || -86_399 <= offset.value <= 86_399)
    && (zone == None || offset != None)
  }

  ghost predicate InRange(r: Record) {
    match r
    case Date(y, m, d) => IsDate(y, m, d)
    case Time(h, mi, s, us, off, zone, fold) => IsClock(h, mi, s, us, off, zone) && (fold == 0 || fold == 1)
    case DateTime(y, m, d, h, mi, s, us, off, zone) => IsDate(y, m, d) && IsClock(h, mi, s, us, off, zone)
    case TimeDelta(d, s, us) => -999_999_999 <= d <= 999_999_999 && 0 <= s <= 86_399 && 0 <= us <= 999_999
    case TimeZone(off, _) => -86_399 <= off <= 86_399
    case FileHandle(_, mode, _) => mode in MODES
    case Exception(_, _) => true
    case Function(_, _) => true
    case Cycle(_, _) => true
  }

  lemma DateChecked(year: int, month: nat, day: nat)
    ensures ValidDate(year, month, day) <==> IsDate(year, month, day)
  {
    DatesMet(year, month, day);
    YearLengths(year);
  }

  lemma ModeChecked(mode: Bytes)
    ensures ValidMode(mode) <==> mode in MODES
  {
    if ValidMode(mode) {
      assert mode == [mode[0]] + mode[1..];
      var tail := mode[1..];
      var k := if tail == [] then 0 else if tail == [98] then 1 else if tail == [43] then 2 else 3;
      var i := (if mode[0] == 114 then 0 else if mode[0] == 119 then 4 else 8) + k;
      assert mode == MODES[i];
    }
    if mode in MODES {
      var i :| 0 <= i < |MODES| && MODES[i] == mode;
      assert mode[1..] == [] || mode[1..] == [98] || mode[1..] == [43] || mode[1..] == [98, 43];
    }
  }

  /** The checks are the ranges. */
  lemma Checked(r: Record)
    ensures Accepted(r) <==> InRange(r)
  {
    hide IsDate, ValidDate, ValidMode;
    match r
    case Date(y, m, d) => DateChecked(y, m, d);
    case DateTime(y, m, d, _, _, _, _, _, _) => DateChecked(y, m, d);
    case FileHandle(_, mode, _) => ModeChecked(mode);
    case _ =>
  }

  /** Decoding the encoding of any record of Go's types gives the record back if it is in range, and fails otherwise. */
  lemma RecordDecodesExactly(r: Record)
    requires GoTyped(r) && !r.Cycle? && |FlatBody(FieldsOf(r))| < TWO64
    ensures DecodeRecord(Number(r), FlatBody(FieldsOf(r))) == if InRange(r) then Some(r) else None
  {
    hide *;
    RecordReassembled(r);
    Checked(r);
  }

  /** A record of any bytes that is decoded is in range, with its numbers of Go's types. */
  lemma DecodedInRange(n: nat, msg: Bytes)
    requires IsRecordNumber(n) && DecodeRecord(n, msg).Some?
    ensures InRange(DecodeRecord(n, msg).value) && GoTyped(DecodeRecord(n, msg).value)
  {
    DecodedRecordWellFormed(n, msg);
    Checked(DecodeRecord(n, msg).value);
    WellFormedTyped(DecodeRecord(n, msg).value);
  }

  // ----- whole values -----

  /** The canonical text of some sixteen bytes. */
  ghost predicate NamesUuid(id: Bytes) {
    exists b: Bytes | |b| == 16 :: FormatUUID(b) == Some(id)
  }

  lemma UuidChecked(id: Bytes)
    ensures IsUUID(id) <==> NamesUuid(id)
  {
    if IsUUID(id) { FormatParse(id); }
    if b: Bytes :| |b| == 16 && FormatUUID(b) == Some(id) { ParseFormat(b); }
  }

  /** Every record in the value is in range, floats are 64 bits, and types and instances are named as they must be. */
  ghost predicate Proper(v: Value) {
    match v
    case Float(bits) => 0 <= bits <= 0xFFFF_FFFF_FFFF_FFFF
    case Sequence(_, items) => forall i | 0 <= i < |items| :: Proper(items[i])
    case NamedTuple(_, _, values) => forall i | 0 <= i < |values| :: Proper(values[i])
    case Dict(pairs) => ProperPairs(pairs)
    case Plain(rec) => InRange(rec) && GoTyped(rec)
    case Class(t) => ProperType(t)
    case Instance(t, id, attrs) => ProperType(t) && t.origin != 1 && NamesUuid(id) && ProperPairs(attrs)
    case _ => true
  }

  ghost predicate ProperPair(p: Pair) {
    Proper(p.key) && Proper(p.value)
  }

  ghost predicate ProperPairs(pairs: seq<Pair>) {
    forall i | 0 <= i < |pairs| :: ProperPair(pairs[i])
  }

  /** Builtin types have no id, those of the sandbox and the host have one. */
  ghost predicate ProperType(t: TypeInfo) {
    && ((t.origin == 1 && t.id == []) || ((t.origin == 2 || t.origin == 3) && NamesUuid(t.id)))
    && ProperPairs(t.attrs)
  }

  lemma {:induction false} WellFormedIsProper(v: Value)
    ensures WellFormed(v) <==> Proper(v)
    decreases v
  {
    match v
    case Sequence(_, items) =>
      forall i | 0 <= i < |items| ensures WellFormed(items[i]) <==> Proper(items[i]) { WellFormedIsProper(items[i]); }
    case NamedTuple(_, _, values) =>
      forall i | 0 <= i < |values| ensures WellFormed(values[i]) <==> Proper(values[i]) { WellFormedIsProper(values[i]); }
    case Dict(pairs) => PairsProper(pairs);
    case Plain(rec) => RecordProper(rec);
    case Class(t) => TypeProper(t);
    case Instance(t, id, attrs) =>
      hide WellFormedPairs, ProperPairs, WellFormedType, ProperType, IsUUID, NamesUuid;
      InstanceProper(v);
    case _ =>
  }

  lemma RecordProper(rec: Record)
    ensures WellFormedRecord(rec) <==> InRange(rec) && GoTyped(rec)
  {
    hide InRange;
    Checked(rec);
    if WellFormedRecord(rec) { WellFormedTyped(rec); }
  }

  lemma {:induction false} PairsProper(pairs: seq<Pair>)
    ensures WellFormedPairs(pairs) <==> ProperPairs(pairs)
    decreases pairs, 0
  {
    hide WellFormedPair, ProperPair;
    forall i | 0 <= i < |pairs| ensures WellFormedPair(pairs[i]) <==> ProperPair(pairs[i]) { PairProper(pairs[i]); }
  }

  lemma {:induction false} PairProper(p: Pair)
    ensures WellFormedPair(p) <==> ProperPair(p)
    decreases p, 0
  {
    WellFormedIsProper(p.key);
    WellFormedIsProper(p.value);
  }

  lemma {:induction false} TypeProper(t: TypeInfo)
    ensures WellFormedType(t) <==> ProperType(t)
    decreases t, 0
  {
    hide WellFormedPairs, ProperPairs, IsUUID, NamesUuid;
    PairsProper(t.attrs);
    UuidChecked(t.id);
  }

  lemma {:induction false} InstanceProper(v: Value)
    requires v.Instance?
    ensures WellFormedType(v.t) <==> ProperType(v.t)
    ensures (IsUUID(v.id) <==> NamesUuid(v.id)) && (WellFormedPairs(v.attrs) <==> ProperPairs(v.attrs))
    decreases v, 0
  {
    hide WellFormedPairs, ProperPairs, WellFormedType, ProperType, IsUUID, NamesUuid;
    TypeProper(v.t);
    PairsProper(v.attrs);
    UuidChecked(v.id);
  }

  /**
    Which values come back: with enough budget, the encoding of a value without
    cycle markers is decoded to that very value if and only if the value is
    proper and nests no deeper than the depth it sits at leaves room for.
  */
  lemma DecodesToItselfExactly(v: Value, budget: int, depth: nat)
    requires CycleFree(v) && depth <= MAX_DECODE_NESTING && |Body(v)| < TWO64 && budget >= Need(v)
    ensures DecodeValue(Body(v), budget, depth) == Some(Decoded(v, budget - Need(v)))
       <==> Proper(v) && Shallow(v, MAX_DECODE_NESTING - depth)
  {
    hide Proper, WellFormed, CycleFree, Shallow, Body, DecodeValue, Need;
    WellFormedIsProper(v);
    if Proper(v) && Shallow(v, MAX_DECODE_NESTING - depth) { ValueRoundTrip(v, budget, depth); }
    if DecodeValue(Body(v), budget, depth) == Some(Decoded(v, budget - Need(v))) { ValueFacts(Body(v), budget, depth, 0); }
  }

  /** Whatever the bytes, a value that is decoded is proper. */
  lemma DecodedProper(msg: Bytes, budget: int, depth: nat)
    requires DecodeValue(msg, budget, depth).Some?
    ensures Proper(DecodeValue(msg, budget, depth).value.value)
  {
    hide Proper, WellFormed, DecodeValue, Need;
    ValueFacts(msg, budget, depth, 0);
    WellFormedIsProper(DecodeValue(msg, budget, depth).value.value);
  }

  // ----- what can be sent -----

  /** There is no cycle marker in the value, and every id is the text of a uuid, in either case. */
  ghost predicate Sendable(v: Value) {
    match v
    case Sequence(_, items) => forall i | 0 <= i < |items| :: Sendable(items[i])
    case NamedTuple(_, _, values) => forall i | 0 <= i < |values| :: Sendable(values[i])
    case Dict(pairs) => SendablePairs(pairs)
    case Plain(rec) => !rec.Cycle?
    case Class(t) => SendableType(t)
    case Instance(t, id, attrs) => SendableType(t) && IsUuidText(id) && SendablePairs(attrs)
    case _ => true
  }

  ghost predicate SendableType(t: TypeInfo) {
    (t.id == [] || IsUuidText(t.id)) && SendablePairs(t.attrs)
  }

  ghost predicate SendablePair(p: Pair) {
    Sendable(p.key) && Sendable(p.value)
  }

  ghost predicate SendablePairs(pairs: seq<Pair>) {
    forall i | 0 <= i < |pairs| :: SendablePair(pairs[i])
  }

  /** A value is encoded if and only if it is sendable, and the case of its ids does not matter to the bytes. */
  lemma AppendExactly(v: Value, id: Bytes)
    ensures AppendValue(v).Some? <==> Sendable(v)
    ensures UuidMessage(Lower(id)) == UuidMessage(id)
  {
    EncodableIsSendable(v);
    ParseLower(id);
  }

  lemma {:induction false} EncodableIsSendable(v: Value)
    ensures Encodable(v) <==> Sendable(v)
    decreases v
  {
    hide ParseUUID, IsUuidText;
    match v
    case Sequence(_, items) =>
      forall i | 0 <= i < |items| ensures Encodable(items[i]) <==> Sendable(items[i]) { EncodableIsSendable(items[i]); }
    case NamedTuple(_, _, values) =>
      forall i | 0 <= i < |values| ensures Encodable(values[i]) <==> Sendable(values[i]) { EncodableIsSendable(values[i]); }
    case Dict(pairs) => PairsSendable(pairs);
    case Class(t) => TypeSendable(t);
    case Instance(t, id, attrs) =>
      TypeSendable(t);
      PairsSendable(attrs);
      ParseExactly(id);
    case _ =>
  }

  lemma {:induction false} PairsSendable(pairs: seq<Pair>)
    ensures EncodablePairs(pairs) <==> SendablePairs(pairs)
    decreases pairs, 0
  {
    hide EncodablePair, SendablePair;
    forall i | 0 <= i < |pairs| ensures EncodablePair(pairs[i]) <==> SendablePair(pairs[i]) { PairSendable(pairs[i]); }
  }

  lemma {:induction false} PairSendable(p: Pair)
    ensures EncodablePair(p) <==> SendablePair(p)
    decreases p, 0
  {
    EncodableIsSendable(p.key);
    EncodableIsSendable(p.value);
  }

  lemma {:induction false} TypeSendable(t: TypeInfo)
    ensures EncodableType(t) <==> SendableType(t)
    decreases t, 0
  {
    hide EncodablePairs, SendablePairs, ParseUUID, IsUuidText;
    PairsSendable(t.attrs);
    ParseExactly(t.id);
  }
}
