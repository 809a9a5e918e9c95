/**
  What a record message means (internal/wire/value_codec.go), whatever bytes it
  came as: which numbers were sent, and which record that makes.
*/
module RecordMeaning {
  import opened Prelude
  import opened ProtoWire
  import opened Records
  import opened CodecMessages
  import opened RecordRanges

  /** The number last sent in a field; none is zero. */
  function Sent(fs: seq<Field>, k: nat): nat {
    Num(Last(fs, k))
  }

  /** A signed number and an unsigned one agree in their low 32 bits. */
  predicate SameWord(v: int, n: nat) {
    -0x8000_0000 <= v < 0x8000_0000 && (n - v) % 0x1_0000_0000 == 0
  }

  lemma WordIs(v: int, n: nat)
    ensures SameWord(v, n) <==> v == ToInt32(n)
  {
    var q, low := n / TWO32, n % TWO32;
    var w := ToInt32(n);
    assert n == q * TWO32 + low;
    if v == w {
      assert n - v == q * TWO32 || n - v == (q + 1) * TWO32;
    }
    if SameWord(v, n) {
      var k := (n - v) / TWO32;
      assert n - v == k * TWO32;
      assert v - w == (q - k) * TWO32 || v - w == (q + 1 - k) * TWO32;
    }
  }

  predicate SentWord(v: Option<int>, fs: seq<Field>, k: nat) {
    if v.None? then Last(fs, k).None? else Last(fs, k).Some? && SameWord(v.value, Sent(fs, k))
  }

  predicate SentText(s: Option<Bytes>, fs: seq<Field>, k: nat) {
    if s.None? then Last(fs, k).None? else Last(fs, k) == Some(Blob(s.value))
  }

  /** The fields say this record: small numbers as they are, signed ones by their low 32 bits, absent texts as empty. */
  ghost predicate Says(fs: seq<Field>, r: Record) {
    match r
    case Date(y, m, d) => SameWord(y, Sent(fs, 1)) && m == Sent(fs, 2) && d == Sent(fs, 3)
    case Time(h, mi, s, us, off, zone, fold) =>
      && h == Sent(fs, 1) && mi == Sent(fs, 2) && s == Sent(fs, 3) && us == Sent(fs, 4) % 0x1_0000_0000
      && SentWord(off, fs, 5) && SentText(zone, fs, 6) && fold == Sent(fs, 7)
    case DateTime(y, m, d, h, mi, s, us, off, zone) =>
      && SameWord(y, Sent(fs, 1)) && m == Sent(fs, 2) && d == Sent(fs, 3)
      && h == Sent(fs, 4) && mi == Sent(fs, 5) && s == Sent(fs, 6) && us == Sent(fs, 7) % 0x1_0000_0000
      && SentWord(off, fs, 8) && SentText(zone, fs, 9)
    case TimeDelta(d, s, us) => SameWord(d, Sent(fs, 1)) && SameWord(s, Sent(fs, 2)) && SameWord(us, Sent(fs, 3))
    case TimeZone(off, name) => SameWord(off, Sent(fs, 1)) && SentText(name, fs, 2)
    case Exception(t, msg) => t == Text(Last(fs, 1)) && msg == Text(Last(fs, 2))
    case Function(name, doc) => name == Text(Last(fs, 1)) && SentText(doc, fs, 2)
    case FileHandle(path, mode, pos) => path == Text(Last(fs, 1)) && mode == Text(Last(fs, 2)) && pos == Sent(fs, 3)
    case Cycle(id, text) => id == Sent(fs, 1) && text == Text(Last(fs, 2))
  }

  /** The known fields have their wire types. */
  predicate Typed(fs: seq<Field>, n: nat)
    requires IsRecordNumber(n)
  {
    AllVarints(fs, SchemaOf(n).ints) && AllBlobs(fs, SchemaOf(n).strs)
  }

  /** The table a decoder has filled holds the last value of each field it knows. */
  ghost predicate Holds(m: Table, fs: seq<Field>, n: nat)
    requires IsRecordNumber(n)
  {
    forall k | k in SchemaOf(n).ints + SchemaOf(n).strs :: At(m, k) == Last(fs, k)
  }

  lemma {:induction false} LastTyped(fs: seq<Field>, k: nat, nums: set<nat>)
    requires k in nums
    ensures AllVarints(fs, nums) && Last(fs, k).Some? ==> Last(fs, k).value.Varint?
    ensures AllBlobs(fs, nums) && Last(fs, k).Some? ==> Last(fs, k).value.Blob?
  {
    LastIs(fs, k);
  }

  lemma DateMeans(m: Table, fs: seq<Field>, r: Record)
    requires Holds(m, fs, 17)
    ensures Assemble(17, m) == r && Accepted(r) <==> r.Date? && Accepted(r) && Says(fs, r)
  {
    if r.Date? { WordIs(r.year, Sent(fs, 1)); }
  }

  lemma DeltaMeans(m: Table, fs: seq<Field>, r: Record)
    requires Holds(m, fs, 20)
    ensures Assemble(20, m) == r && Accepted(r) <==> r.TimeDelta? && Accepted(r) && Says(fs, r)
  {
    if r.TimeDelta? {
      WordIs(r.days, Sent(fs, 1));
      WordIs(r.seconds, Sent(fs, 2));
      WordIs(r.micros, Sent(fs, 3));
    }
  }

  lemma OffsetMeans(v: Option<int>, m: Table, fs: seq<Field>, k: nat)
    requires At(m, k) == Last(fs, k) && (Last(fs, k).Some? ==> Last(fs, k).value.Varint?)
    ensures v == Offset(OptNum(At(m, k))) <==> SentWord(v, fs, k)
  {
    if v.Some? { WordIs(v.value, Sent(fs, k)); }
  }

  lemma TimeMeans(m: Table, fs: seq<Field>, r: Record)
    requires Holds(m, fs, 18) && Typed(fs, 18)
    ensures Assemble(18, m) == r && Accepted(r) <==> r.Time? && Accepted(r) && Says(fs, r)
  {
    LastTyped(fs, 5, SchemaOf(18).ints);
    LastTyped(fs, 6, SchemaOf(18).strs);
    if r.Time? { OffsetMeans(r.offset, m, fs, 5); }
    hide SentWord, Offset;
  }

  lemma DateTimeMeans(m: Table, fs: seq<Field>, r: Record)
    requires Holds(m, fs, 19) && Typed(fs, 19)
    ensures Assemble(19, m) == r && Accepted(r) <==> r.DateTime? && Accepted(r) && Says(fs, r)
  {
    LastTyped(fs, 8, SchemaOf(19).ints);
    LastTyped(fs, 9, SchemaOf(19).strs);
    if r.DateTime? {
      WordIs(r.year, Sent(fs, 1));
      OffsetMeans(r.offset, m, fs, 8);
    }
    hide SentWord, Offset, SameWord, ToInt32;
  }

  lemma TextMeans(n: nat, m: Table, fs: seq<Field>, r: Record)
    requires n in {21, 22, 25, 28, 30} && Holds(m, fs, n) && Typed(fs, n)
    ensures Assemble(n, m) == r && Accepted(r) <==> Number(r) == n && Accepted(r) && Says(fs, r)
  {
    LastTyped(fs, 2, SchemaOf(n).strs);
    if r.TimeZone? { WordIs(r.offsetSeconds, Sent(fs, 1)); }
    hide ToInt32, SameWord;
  }

  /**
    A message decodes to r if and only if it is a message whose known fields
    have their wire types, r is of its kind and in range, and the last value of
    each field says r.
  */
  lemma RecordMeans(n: nat, msg: Bytes, r: Record)
    requires IsRecordNumber(n)
    ensures DecodeRecord(n, msg) == Some(r) <==>
      Fields(msg).Some? && Typed(Fields(msg).value, n) && Number(r) == n && InRange(r) && Says(Fields(msg).value, r)
  {
    FlatMeans(msg, SchemaOf(n));
    Checked(r);
    hide Says, InRange, Accepted, Fields, Flat, Assemble, SchemaOf, Typed;
    TypedIs(msg, n);
    var m := Flat(msg, SchemaOf(n), map[]);
    if m.Some? {
      var fs := Fields(msg).value;
      if n == 17 { DateMeans(m.value, fs, r); }
      else if n == 18 { TimeMeans(m.value, fs, r); }
      else if n == 19 { DateTimeMeans(m.value, fs, r); }
      else if n == 20 { DeltaMeans(m.value, fs, r); }
      else { TextMeans(n, m.value, fs, r); }
    }
  }

  lemma TypedIs(msg: Bytes, n: nat)
    requires IsRecordNumber(n)
    ensures Flat(msg, SchemaOf(n), map[]).Some? <==> Fields(msg).Some? && Typed(Fields(msg).value, n)
    ensures SchemaOf(n).ints !! SchemaOf(n).strs
  {
    FlatMeans(msg, SchemaOf(n));
  }
}
