/** The uuid text form of internal/wire/proto.go. */
module Uuid {
  import opened Prelude

  const DASH: Byte := 45

  /** The value of a hexadecimal digit of either case. */
  function Digit(c: Byte): (r: Option<Byte>)
    ensures r.Some? ==> r.value < 16
  {
    if 48 <= c <= 57 then Some(c - 48)
    else if 97 <= c <= 102 then Some(c - 87)
    else if 65 <= c <= 70 then Some(c - 55)
    else None
  }

  function LowerDigit(d: Byte): (c: Byte)
    requires d < 16
  {
    if d < 10 then 48 + d else 87 + d
  }

  predicate LowerHex(s: Bytes) {
    forall i | 0 <= i < |s| :: 48 <= s[i] <= 57 || 97 <= s[i] <= 102
  }

  // hex.EncodeToString
  function HexEncode(b: Bytes): (s: Bytes)
    ensures |s| == 2 * |b|
    ensures LowerHex(s)
  {
    if b == [] then [] else [LowerDigit(b[0] / 16), LowerDigit(b[0] % 16)] + HexEncode(b[1..])
  }

  // hex.DecodeString
  function HexDecode(s: Bytes): (r: Option<Bytes>)
    ensures r.Some? ==> 2 * |r.value| == |s|
  {
    if s == [] then Some([])
    else if |s| == 1 then None
    else
      var hi, lo, tail := Digit(s[0]), Digit(s[1]), HexDecode(s[2..]);
      if hi.None? || lo.None? || tail.None? then None
      else Some([hi.value * 16 + lo.value] + tail.value)
  }

  /** strings.ReplaceAll(s, "-", ""). */
  function Strip(s: Bytes): (r: Bytes)
    ensures |r| <= |s|
    ensures |r| == |s| ==> r == s
  {
    if s == [] then [] else if s[0] == DASH then Strip(s[1..]) else [s[0]] + Strip(s[1..])
  }

  function ParseUUID(s: Bytes): (r: Option<Bytes>) {
    if |s| != 36 || s[8] != DASH || s[13] != DASH || s[18] != DASH || s[23] != DASH then None
    else
      var raw := HexDecode(Strip(s));
      if raw.Some? && |raw.value| == 16 then raw else None
  }

  function Dashed(h: Bytes): (s: Bytes)
    requires |h| == 32
    ensures |s| == 36
  {
    h[0..8] + [DASH] + h[8..12] + [DASH] + h[12..16] + [DASH] + h[16..20] + [DASH] + h[20..]
  }

  function FormatUUID(b: Bytes): (r: Option<Bytes>) {
    if |b| != 16 then None else Some(Dashed(HexEncode(b)))
  }

  /** A canonical uuid in lower case. */
  predicate IsUUID(s: Bytes) {
    && |s| == 36
    && forall i | 0 <= i < 36 ::
         if i in {8, 13, 18, 23} then s[i] == DASH else 48 <= s[i] <= 57 || 97 <= s[i] <= 102
  }

  lemma {:induction false} HexRoundTrip(b: Bytes)
    ensures HexDecode(HexEncode(b)) == Some(b)
  {
    if b != [] {
      HexRoundTrip(b[1..]);
      var s := HexEncode(b);
      assert s[2..] == HexEncode(b[1..]);
      assert Digit(s[0]) == Some(b[0] / 16) && Digit(s[1]) == Some(b[0] % 16);
      assert [b[0]] + b[1..] == b;
    }
  }

  lemma {:induction false} HexCanonical(s: Bytes)
    requires LowerHex(s) && |s| % 2 == 0
    ensures HexDecode(s).Some?
    ensures HexEncode(HexDecode(s).value) == s
  {
    if s != [] {
      HexCanonical(s[2..]);
      var raw, tail := HexDecode(s).value, HexDecode(s[2..]).value;
      assert raw[1..] == tail;
      assert LowerDigit(raw[0] / 16) == s[0] && LowerDigit(raw[0] % 16) == s[1];
      assert s == [s[0], s[1]] + s[2..];
    }
  }

  lemma {:induction false} StripConcat(a: Bytes, b: Bytes)
    ensures Strip(a + b) == Strip(a) + Strip(b)
  {
    if a == [] {
      assert a + b == b;
    } else {
      StripConcat(a[1..], b);
      assert (a + b)[1..] == a[1..] + b;
      assert Strip(a + b) == (if a[0] == DASH then [] else [a[0]]) + (Strip(a[1..]) + Strip(b));
    }
  }

  lemma {:induction false} StripHex(h: Bytes)
    requires LowerHex(h)
    ensures Strip(h) == h
  {
    if h != [] {
      StripHex(h[1..]);
    }
  }

  lemma StripGroup(a: Bytes, h: Bytes)
    requires LowerHex(h)
    ensures Strip(a + [DASH] + h) == Strip(a) + h
  {
    StripConcat(a + [DASH], h);
    StripConcat(a, [DASH]);
    StripHex(h);
  }

  lemma StripDashed(h: Bytes)
    requires |h| == 32 && LowerHex(h)
    ensures Strip(Dashed(h)) == h
  {
    hide Strip;
    StripHex(h[0..8]);
    StripGroup(h[0..8], h[8..12]);
    StripGroup(h[0..8] + [DASH] + h[8..12], h[12..16]);
    StripGroup(h[0..8] + [DASH] + h[8..12] + [DASH] + h[12..16], h[16..20]);
    StripGroup(h[0..8] + [DASH] + h[8..12] + [DASH] + h[12..16] + [DASH] + h[16..20], h[20..]);
  }

  lemma DashesAt(h: Bytes)
    requires |h| == 32
    ensures Dashed(h)[8] == DASH && Dashed(h)[13] == DASH && Dashed(h)[18] == DASH && Dashed(h)[23] == DASH
  {
  }

  lemma DashedIsUUID(h: Bytes)
    requires |h| == 32 && LowerHex(h)
    ensures IsUUID(Dashed(h))
  {
  }

  /** Sixteen bytes survive being written as text and read back. */
  lemma ParseFormat(b: Bytes)
    requires |b| == 16
    ensures FormatUUID(b).Some? && IsUUID(FormatUUID(b).value)
    ensures ParseUUID(FormatUUID(b).value) == Some(b)
  {
    hide Strip, HexDecode, Dashed, IsUUID;
    var h := HexEncode(b);
    StripDashed(h);
    DashedIsUUID(h);
    DashesAt(h);
    HexRoundTrip(b);
  }

  function Undashed(s: Bytes): (h: Bytes)
    requires |s| == 36
  {
    s[0..8] + s[9..13] + s[14..18] + s[19..23] + s[24..]
  }

  lemma DashedUndashed(s: Bytes)
    requires IsUUID(s)
    ensures LowerHex(Undashed(s)) && Dashed(Undashed(s)) == s
  {
    var h := Undashed(s);
    assert h[0..8] == s[0..8];
    assert h[8..12] == s[9..13];
    assert h[12..16] == s[14..18];
    assert h[16..20] == s[19..23];
    assert h[20..] == s[24..];
    assert [s[8]] == s[8..9] && [s[13]] == s[13..14] && [s[18]] == s[18..19] && [s[23]] == s[23..24];
    assert s == s[0..8] + s[8..9] + s[9..13] + s[13..14] + s[14..18] + s[18..19] + s[19..23] + s[23..24] + s[24..];
  }

  /** A canonical lower-case uuid is the text of the bytes it parses to. */
  lemma FormatParse(s: Bytes)
    requires IsUUID(s)
    ensures ParseUUID(s).Some? && |ParseUUID(s).value| == 16
    ensures FormatUUID(ParseUUID(s).value) == Some(s)
  {
    hide Strip, HexDecode, HexEncode;
    var h := Undashed(s);
    DashedUndashed(s);
    StripDashed(h);
    HexCanonical(h);
  }

  // ----- texts of either case -----

  predicate IsHex(c: Byte) {
    48 <= c <= 57 || 65 <= c <= 70 || 97 <= c <= 102
  }

  /** Thirty-two hexadecimal digits of either case in groups of 8, 4, 4, 4 and 12. */
  predicate IsUuidText(s: Bytes) {
    |s| == 36 && forall i | 0 <= i < 36 :: if i in {8, 13, 18, 23} then s[i] == DASH else IsHex(s[i])
  }

  function LowerCase(c: Byte): Byte {
    if 65 <= c <= 70 then c + 32 else c
  }

  function Lower(s: Bytes): (l: Bytes)
    ensures |l| == |s|
  {
    seq(|s|, i requires 0 <= i < |s| => LowerCase(s[i]))
  }

  lemma {:induction false} HexLower(s: Bytes)
    ensures HexDecode(Lower(s)) == HexDecode(s)
    ensures HexDecode(s).Some? <==> |s| % 2 == 0 && forall i | 0 <= i < |s| :: IsHex(s[i])
    decreases |s|
  {
    if |s| >= 2 {
      HexLower(s[2..]);
      assert Lower(s)[2..] == Lower(s[2..]);
      assert forall i | 2 <= i < |s| :: s[i] == s[2..][i - 2];
      if forall i | 0 <= i < |s| :: IsHex(s[i]) { assert forall i | 0 <= i < |s[2..]| :: s[2..][i] == s[i + 2]; }
    } else {
      assert s == [] ==> Lower(s) == [];
    }
  }

  lemma {:induction false} StripLower(s: Bytes)
    ensures Strip(Lower(s)) == Lower(Strip(s))
    decreases |s|
  {
    if s == [] {
      assert Lower(s) == [];
    } else {
      StripLower(s[1..]);
      assert Lower(s)[1..] == Lower(s[1..]);
      assert Lower(Strip(s)) == (if s[0] == DASH then [] else [LowerCase(s[0])]) + Lower(Strip(s[1..]));
    }
  }

  lemma StripFive(a: Bytes, b: Bytes, c: Bytes, d: Bytes, e: Bytes)
    ensures Strip(a + [DASH] + b + [DASH] + c + [DASH] + d + [DASH] + e) == Strip(a) + Strip(b) + Strip(c) + Strip(d) + Strip(e)
  {
    var x := a + [DASH] + b + [DASH] + c + [DASH] + d;
    StripAround(a, b);
    StripAround(a + [DASH] + b, c);
    StripAround(a + [DASH] + b + [DASH] + c, d);
    StripAround(x, e);
  }

  lemma StripAround(a: Bytes, b: Bytes)
    ensures Strip(a + [DASH] + b) == Strip(a) + Strip(b)
  {
    StripConcat(a + [DASH], b);
    StripConcat(a, [DASH]);
  }

  lemma GroupsOf(s: Bytes)
    requires |s| == 36 && s[8] == DASH && s[13] == DASH && s[18] == DASH && s[23] == DASH
    ensures s == s[0..8] + [DASH] + s[9..13] + [DASH] + s[14..18] + [DASH] + s[19..23] + [DASH] + s[24..]
  {
  }

  /** The text has thirty-two characters besides its four dashes only if none of them is a dash. */
  lemma StripIsUndashed(s: Bytes)
    requires |s| == 36 && s[8] == DASH && s[13] == DASH && s[18] == DASH && s[23] == DASH && |Strip(s)| == 32
    ensures Strip(s) == Undashed(s)
  {
    hide Strip;
    GroupsOf(s);
    StripFive(s[0..8], s[9..13], s[14..18], s[19..23], s[24..]);
  }

  lemma UndashedHex(s: Bytes)
    requires |s| == 36 && s[8] == DASH && s[13] == DASH && s[18] == DASH && s[23] == DASH
    ensures (forall i | 0 <= i < 32 :: IsHex(Undashed(s)[i])) ==> IsUuidText(s)
  {
    var h := Undashed(s);
    if forall i | 0 <= i < 32 :: IsHex(h[i]) {
      forall i | 0 <= i < 36 && i !in {8, 13, 18, 23} ensures IsHex(s[i]) {
        var j := if i < 8 then i else if i < 13 then i - 1 else if i < 18 then i - 2 else if i < 23 then i - 3 else i - 4;
        assert h[j] == s[i];
      }
    }
  }

  lemma LowerIsUUID(s: Bytes)
    requires IsUuidText(s)
    ensures IsUUID(Lower(s))
  {
    forall i | 0 <= i < 36 && i !in {8, 13, 18, 23} ensures 48 <= Lower(s)[i] <= 57 || 97 <= Lower(s)[i] <= 102 {
      assert IsHex(s[i]);
    }
  }

  lemma ParseLower(s: Bytes)
    ensures ParseUUID(Lower(s)) == ParseUUID(s)
  {
    hide Strip, HexDecode;
    StripLower(s);
    HexLower(Strip(s));
  }

  /** A text is parsed if and only if it has the shape of a uuid, in either case, and means the bytes whose text is its lower case. */
  lemma ParseExactly(s: Bytes)
    ensures ParseUUID(s).Some? <==> IsUuidText(s)
    ensures ParseUUID(s).Some? ==> |ParseUUID(s).value| == 16 && FormatUUID(ParseUUID(s).value) == Some(Lower(s))
  {
    hide Strip, HexDecode, HexEncode, Dashed;
    if ParseUUID(s).Some? {
      HexLower(Strip(s));
      StripIsUndashed(s);
      UndashedHex(s);
    }
    hide ParseUUID, IsUUID;
    if IsUuidText(s) {
      LowerIsUUID(s);
      FormatParse(Lower(s));
      ParseLower(s);
    }
  }
}
