/**
  UTF-8 validation and lossy repair (internal/mountfs/utf8.go), against the
  syntax of section 4 of RFC 3629.
*/
module Utf8 {
  import opened Prelude

  // ----- the grammar -----

  predicate Tail(b: Byte) {
    0x80 <= b <= 0xBF
  }

  predicate Char1(c: Bytes) {
    |c| == 1 && c[0] <= 0x7F
  }

  predicate Char2(c: Bytes) {
    |c| == 2 && 0xC2 <= c[0] <= 0xDF && Tail(c[1])
  }

  predicate Char3(c: Bytes) {
    |c| == 3 && Tail(c[2]) &&
    ((c[0] == 0xE0 && 0xA0 <= c[1] <= 0xBF) || (0xE1 <= c[0] <= 0xEC && Tail(c[1])) ||
     (c[0] == 0xED && 0x80 <= c[1] <= 0x9F) || (0xEE <= c[0] <= 0xEF && Tail(c[1])))
  }

  predicate Char4(c: Bytes) {
    |c| == 4 && Tail(c[2]) && Tail(c[3]) &&
    ((c[0] == 0xF0 && 0x90 <= c[1] <= 0xBF) || (0xF1 <= c[0] <= 0xF3 && Tail(c[1])) ||
     (c[0] == 0xF4 && 0x80 <= c[1] <= 0x8F))
  }

  /** UTF8-char of the RFC. */
  predicate IsChar(c: Bytes) {
    Char1(c) || Char2(c) || Char3(c) || Char4(c)
  }

  /** UTF8-octets: any number of characters. */
  predicate WellFormed(s: Bytes) {
    s == [] || exists n | 1 <= n <= 4 && n <= |s| :: IsChar(s[..n]) && WellFormed(s[n..])
  }

  /** s can still be completed to one character. */
  ghost predicate Incomplete(s: Bytes) {
    s != [] && exists c: Bytes :: IsChar(c) && s < c
  }

  lemma CharsPrefixFree(s: Bytes, n: nat, k: nat)
    requires n <= |s| && k <= |s| && IsChar(s[..n]) && IsChar(s[..k])
    ensures n == k
  {
    assert s[..n][0] == s[..k][0];
  }

  lemma {:induction false} WellFormedConcat(a: Bytes, b: Bytes)
    requires WellFormed(a) && WellFormed(b)
    ensures WellFormed(a + b)
    decreases |a|
  {
    hide IsChar;
    if a == [] {
      assert a + b == b;
    } else {
      var n :| 1 <= n <= 4 && n <= |a| && IsChar(a[..n]) && WellFormed(a[n..]);
      WellFormedConcat(a[n..], b);
      assert (a + b)[..n] == a[..n] && (a + b)[n..] == a[n..] + b;
    }
  }

  // ----- one character of the scan -----

  datatype Step = Char(width: nat) | Bad(length: nat) | Truncated

  function Utf8CharWidth(b: Byte): nat {
    if b < 0x80 then 1 else if b < 0xC2 then 0 else if b < 0xE0 then 2 else if b < 0xF0 then 3
    else if b < 0xF5 then 4 else 0
  }

  predicate SecondOk(first: Byte, s: Byte) {
    if Utf8CharWidth(first) == 3 then
      (first == 0xE0 && 0xA0 <= s <= 0xBF) || (0xE1 <= first <= 0xEC && Tail(s)) ||
      (first == 0xED && 0x80 <= s <= 0x9F) || (0xEE <= first <= 0xEF && Tail(s))
    else
      (first == 0xF0 && 0x90 <= s <= 0xBF) || (0xF1 <= first <= 0xF3 && Tail(s)) ||
      (first == 0xF4 && 0x80 <= s <= 0x8F)
  }

  /** What the loop body decides at one position; v is the rest of the input. */
  function StepAt(v: Bytes): Step
    requires v != []
  {
    match Utf8CharWidth(v[0])
    case 1 => Char(1)
    case 2 => if |v| < 2 then Truncated else if !Tail(v[1]) then Bad(1) else Char(2)
    case 3 =>
      if |v| < 2 then Truncated else if !SecondOk(v[0], v[1]) then Bad(1)
      else if |v| < 3 then Truncated else if !Tail(v[2]) then Bad(2) else Char(3)
    case 4 =>
      if |v| < 2 then Truncated else if !SecondOk(v[0], v[1]) then Bad(1)
      else if |v| < 3 then Truncated else if !Tail(v[2]) then Bad(2)
      else if |v| < 4 then Truncated else if !Tail(v[3]) then Bad(3) else Char(4)
    case _ => Bad(1)
  }

  /** The scan recognises exactly the characters of the grammar. */
  lemma StepRecognises(v: Bytes, n: nat)
    requires v != [] && 1 <= n <= |v|
    ensures IsChar(v[..n]) <==> StepAt(v) == Char(n)
  {
    var c := v[..n];
    assert forall i | 0 <= i < n :: c[i] == v[i];
  }

  /** Input that ends too early is exactly a proper prefix of a character. */
  lemma StepTruncates(v: Bytes)
    requires v != []
    ensures StepAt(v) == Truncated <==> Incomplete(v)
  {
    if StepAt(v) == Truncated {
      var w := Utf8CharWidth(v[0]);
      var second := if v[0] == 0xE0 then 0xA0 else if v[0] == 0xF0 then 0x90 else 0x80;
      var c: Bytes := if |v| == 1 then [v[0], second, 0x80, 0x80][..w]
                      else if |v| == 2 then [v[0], v[1], 0x80, 0x80][..w] else [v[0], v[1], v[2], 0x80];
      assert IsChar(c) && v <= c && |v| < |c|;
      assert v < c;
    }
  }

  /** A rejected sequence is as long as it could still have been completed, and at least one byte. */
  lemma StepRejects(v: Bytes)
    requires v != [] && StepAt(v).Bad?
    ensures var n := StepAt(v).length;
            && 1 <= n <= 3 && n <= |v|
            && (n > 1 ==> Incomplete(v[..n]))
            && !IsChar(v[..n])
            && (n < |v| ==> !Incomplete(v[..n + 1]) && !IsChar(v[..n + 1]))
  {
    var n := StepAt(v).length;
    assert forall k | 1 <= k <= |v| :: v[..k][0] == v[0];
    assert |v| >= 2 ==> forall k | 2 <= k <= |v| :: v[..k][1] == v[1];
    assert |v| >= 3 ==> forall k | 3 <= k <= |v| :: v[..k][2] == v[2];
    StepTruncates(v[..n]);
    StepRecognises(v, n);
    if n < |v| {
      StepTruncates(v[..n + 1]);
      StepRecognises(v, n + 1);
    }
  }

  // ----- the whole scan -----

  datatype Verdict = Verdict(validUpTo: nat, errorLen: nat, ok: bool)

  function Scan(v: Bytes): Verdict
    decreases |v|
  {
    if v == [] then Verdict(0, 0, true)
    else match StepAt(v)
      case Char(n) =>
        if n == 0 || n > |v| then Verdict(0, 1, false)
        else var rest := Scan(v[n..]); rest.(validUpTo := rest.validUpTo + n)
      case Bad(n) => Verdict(0, n, false)
      case Truncated => Verdict(0, 0, false)
  }

  lemma StepWidth(v: Bytes)
    requires v != [] && StepAt(v).Char?
    ensures 1 <= StepAt(v).width <= 4 && StepAt(v).width <= |v|
  {
  }

  /** Accepted strings are exactly the well-formed ones. */
  lemma {:induction false} ScanAccepts(v: Bytes)
    ensures Scan(v).ok <==> WellFormed(v)
    ensures Scan(v).ok ==> Scan(v).validUpTo == |v|
    decreases |v|
  {
    if v != [] {
      if StepAt(v).Char? {
        var n := StepAt(v).width;
        StepWidth(v);
        StepRecognises(v, n);
        ScanAccepts(v[n..]);
        forall k | 1 <= k <= 4 && k <= |v| && IsChar(v[..k]) ensures k == n { CharsPrefixFree(v, n, k); }
      } else {
        forall k | 1 <= k <= 4 && k <= |v| ensures !IsChar(v[..k]) { StepRecognises(v, k); }
      }
    }
  }

  /** validUpTo marks the longest well-formed prefix. */
  lemma {:induction false} ScanLongestPrefix(v: Bytes, k: nat)
    requires k <= |v| && WellFormed(v[..k])
    ensures k <= Scan(v).validUpTo <= |v| && WellFormed(v[..Scan(v).validUpTo])
    decreases |v|
  {
    hide IsChar, StepAt;
    if v != [] {
      if StepAt(v).Char? {
        var n := StepAt(v).width;
        StepWidth(v);
        StepRecognises(v, n);
        var rest := v[n..];
        if k == 0 {
          ScanLongestPrefix(rest, 0);
        } else {
          var c :| 1 <= c <= 4 && c <= k && IsChar(v[..k][..c]) && WellFormed(v[..k][c..]);
          assert v[..k][..c] == v[..c];
          CharsPrefixFree(v, n, c);
          assert v[..k][c..] == rest[..k - n];
          ScanLongestPrefix(rest, k - n);
        }
        var e := Scan(rest).validUpTo;
        assert v[..n + e][..n] == v[..n] && v[..n + e][n..] == rest[..e];
      } else if k > 0 {
        var c :| 1 <= c <= 4 && c <= k && IsChar(v[..k][..c]) && WellFormed(v[..k][c..]);
        assert v[..k][..c] == v[..c];
        StepRecognises(v, c);
      }
    }
  }

  /** Where a scan stops: at a truncated character, or at a maximal ill-formed sequence. */
  lemma {:induction false} ScanStops(v: Bytes)
    requires !Scan(v).ok
    ensures Scan(v).validUpTo < |v|
    ensures StepAt(v[Scan(v).validUpTo..]) == if Scan(v).errorLen == 0 then Truncated else Bad(Scan(v).errorLen)
    decreases |v|
  {
    if StepAt(v).Char? {
      var n := StepAt(v).width;
      StepWidth(v);
      ScanStops(v[n..]);
      assert v[n..][Scan(v[n..]).validUpTo..] == v[Scan(v).validUpTo..];
    } else {
      assert v[0..] == v;
      if StepAt(v).Bad? { StepRejects(v); }
    }
  }

  /** errorLen is 0 exactly when the input ends inside a character. */
  lemma ScanErrorLen(v: Bytes)
    requires !Scan(v).ok
    ensures Scan(v).validUpTo + Scan(v).errorLen <= |v|
    ensures Scan(v).errorLen == 0 <==> Incomplete(v[Scan(v).validUpTo..])
  {
    ScanStops(v);
    var tail := v[Scan(v).validUpTo..];
    StepTruncates(tail);
    if StepAt(tail).Bad? { StepRejects(tail); }
  }

  method Utf8Check(v: Bytes) returns (validUpTo: nat, errorLen: nat, ok: bool)
    ensures Verdict(validUpTo, errorLen, ok) == Scan(v)
  {
    var i := 0;
    while i < |v|
      invariant 0 <= i <= |v|
      invariant Scan(v) == Scan(v[i..]).(validUpTo := Scan(v[i..]).validUpTo + i)
    {
      assert v[i..] != [] && forall k | 0 <= k < |v| - i :: v[i..][k] == v[i + k];
      var width := Utf8CharWidth(v[i]);
      if width == 0 { return i, 1, false; }
      if width > 1 {
        if i + 1 >= |v| { return i, 0, false; }
        if (if width == 2 then !Tail(v[i + 1]) else !SecondOk(v[i], v[i + 1])) { return i, 1, false; }
      }
      if width > 2 {
        if i + 2 >= |v| { return i, 0, false; }
        if !Tail(v[i + 2]) { return i, 2, false; }
      }
      if width > 3 {
        if i + 3 >= |v| { return i, 0, false; }
        if !Tail(v[i + 3]) { return i, 3, false; }
      }
      assert v[i..][width..] == v[i + width..];
      i := i + width;
    }
    assert v[|v|..] == [];
    return |v|, 0, true;
  }

  // ----- lossy repair -----

  /** U+FFFD. */
  const REPLACEMENT: Bytes := [0xEF, 0xBF, 0xBD]

  /** One replacement character per rejected sequence; a truncated tail counts as one. */
  function Lossy(v: Bytes): Bytes
    decreases |v|
  {
    var s := Scan(v);
    if s.ok || s.validUpTo > |v| then v
    else if s.errorLen == 0 || s.validUpTo + s.errorLen > |v| then v[..s.validUpTo] + REPLACEMENT
    else v[..s.validUpTo] + REPLACEMENT + Lossy(v[s.validUpTo + s.errorLen..])
  }

  lemma NothingWellFormed(v: Bytes)
    ensures WellFormed(v[..0]) && Lossy([]) == []
  {
  }

  lemma ReplacementWellFormed()
    ensures WellFormed(REPLACEMENT)
  {
    assert IsChar(REPLACEMENT[..3]) && REPLACEMENT[3..] == [];
  }

  lemma {:induction false} LossyWellFormed(v: Bytes)
    ensures WellFormed(Lossy(v))
    decreases |v|
  {
    hide Scan, WellFormed;
    var s := Scan(v);
    ScanAccepts(v);
    if !s.ok {
      ScanErrorLen(v);
      NothingWellFormed(v);
      ScanLongestPrefix(v, 0);
      ReplacementWellFormed();
      WellFormedConcat(v[..s.validUpTo], REPLACEMENT);
      if s.errorLen != 0 {
        LossyWellFormed(v[s.validUpTo + s.errorLen..]);
        WellFormedConcat(v[..s.validUpTo] + REPLACEMENT, Lossy(v[s.validUpTo + s.errorLen..]));
      }
    }
  }

  /** Valid input is returned as it is, so repairing twice is repairing once. */
  lemma LossyIdempotent(v: Bytes)
    ensures WellFormed(v) <==> Lossy(v) == v
    ensures Lossy(Lossy(v)) == Lossy(v)
  {
    ScanAccepts(v);
    LossyWellFormed(v);
    ScanAccepts(Lossy(v));
  }

  // ----- what repair keeps -----

  lemma {:induction false} ScanAfter(a: Bytes, b: Bytes)
    requires WellFormed(a)
    ensures Scan(a + b) == Scan(b).(validUpTo := |a| + Scan(b).validUpTo)
    decreases |a|
  {
    hide IsChar, StepAt;
    if a == [] {
      assert a + b == b;
    } else {
      var n :| 1 <= n <= 4 && n <= |a| && IsChar(a[..n]) && WellFormed(a[n..]);
      assert (a + b)[..n] == a[..n] && (a + b)[n..] == a[n..] + b;
      StepRecognises(a + b, n);
      ScanAfter(a[n..], b);
    }
  }

  /** What is well formed at the head is kept, and the rest is repaired as on its own. */
  lemma LossyKeeps(a: Bytes, b: Bytes)
    requires WellFormed(a)
    ensures Lossy(a + b) == a + Lossy(b)
  {
    hide Scan, WellFormed;
    ScanAfter(a, b);
    var s := Scan(b);
    if !s.ok { ScanErrorLen(b); } else { ScanAccepts(b); }
    assert s.validUpTo <= |b| ==> (a + b)[..|a| + s.validUpTo] == a + b[..s.validUpTo];
    assert s.validUpTo + s.errorLen <= |b| ==> (a + b)[|a| + s.validUpTo + s.errorLen..] == b[s.validUpTo + s.errorLen..];
    if !s.ok && s.errorLen != 0 {
      var rest := Lossy(b[s.validUpTo + s.errorLen..]);
      assert a + b[..s.validUpTo] + REPLACEMENT + rest == a + (b[..s.validUpTo] + REPLACEMENT + rest);
    }
  }

  /**
    bad, with b after it, starts no character: it is no character itself, it is
    one byte or could still have been completed, and no more of the input could.
  */
  ghost predicate BadHead(bad: Bytes, b: Bytes) {
    && bad != [] && !IsChar(bad) && (|bad| == 1 || Incomplete(bad))
    && if b == [] then !Incomplete(bad) else !IsChar(bad + b[..1]) && !Incomplete(bad + b[..1])
  }

  lemma IncompletePrefix(s: Bytes, t: Bytes)
    requires t != [] && t <= s
    ensures Incomplete(s) ==> Incomplete(t) && !IsChar(t)
    ensures IsChar(s) && t != s ==> Incomplete(t) && !IsChar(t)
  {
    hide IsChar;
    if Incomplete(s) {
      var c :| IsChar(c) && s < c;
      assert t < c;
      if IsChar(t) { assert c[..|t|] == t && c[..|c|] == c; CharsPrefixFree(c, |t|, |c|); }
    }
    if IsChar(s) && t != s {
      assert t < s;
      if IsChar(t) { assert s[..|t|] == t && s[..|s|] == s; CharsPrefixFree(s, |t|, |s|); }
    }
  }

  lemma BadHeadStep(bad: Bytes, b: Bytes)
    requires BadHead(bad, b)
    ensures StepAt(bad + b) == Bad(|bad|)
  {
    hide IsChar, StepAt, Incomplete;
    var v := bad + b;
    assert v[..|bad|] == bad && (b != [] ==> v[..|bad| + 1] == bad + b[..1]);
    if StepAt(v).Char? {
      var n := StepAt(v).width;
      StepWidth(v);
      StepRecognises(v, n);
      NoCharAhead(bad, b, v, n);
    } else if StepAt(v).Truncated? {
      StepTruncates(v);
      NotTruncated(bad, b, v);
    } else {
      StepRejects(v);
      BadLength(bad, b, v, StepAt(v).length);
    }
  }

  lemma NoCharAhead(bad: Bytes, b: Bytes, v: Bytes, n: nat)
    requires BadHead(bad, b) && v == bad + b && 1 <= n <= |v|
    ensures !IsChar(v[..n])
  {
    hide IsChar;
    assert v[..|bad|] == bad && (b != [] ==> v[..|bad| + 1] == bad + b[..1]);
    if n < |bad| {
      assert v[..n] <= bad;
      IncompletePrefix(bad, v[..n]);
    } else if n > |bad| {
      assert v[..|bad| + 1] <= v[..n];
      IncompletePrefix(v[..n], v[..|bad| + 1]);
    }
  }

  lemma NotTruncated(bad: Bytes, b: Bytes, v: Bytes)
    requires BadHead(bad, b) && v == bad + b
    ensures !Incomplete(v)
  {
    hide IsChar, Incomplete;
    if b == [] {
      assert v == bad;
    } else {
      assert v[..|bad| + 1] == bad + b[..1];
      IncompletePrefix(v, v[..|bad| + 1]);
    }
  }

  lemma BadLength(bad: Bytes, b: Bytes, v: Bytes, n: nat)
    requires BadHead(bad, b) && v == bad + b && 1 <= n <= |v|
    requires (n > 1 ==> Incomplete(v[..n])) && (n < |v| ==> !Incomplete(v[..n + 1]))
    ensures n == |bad|
  {
    hide IsChar, Incomplete;
    if n < |bad| {
      assert v[..n + 1] <= bad;
      IncompletePrefix(bad, v[..n + 1]);
    } else if n > |bad| {
      assert v[..|bad| + 1] == bad + b[..1] && v[..|bad| + 1] <= v[..n];
      IncompletePrefix(v[..n], v[..|bad| + 1]);
    }
  }

  lemma LossyHead(v: Bytes)
    requires v != [] && !StepAt(v).Char?
    ensures Lossy(v) == if StepAt(v).Bad? then REPLACEMENT + Lossy(v[StepAt(v).length..]) else REPLACEMENT
  {
    if StepAt(v).Bad? { StepRejects(v); }
    assert v[..0] == [] && [] + REPLACEMENT == REPLACEMENT;
  }

  /** One replacement stands for each rejected sequence, and what follows is repaired as on its own. */
  lemma LossyReplaces(bad: Bytes, b: Bytes)
    requires BadHead(bad, b)
    ensures Lossy(bad + b) == REPLACEMENT + Lossy(b)
  {
    hide IsChar, StepAt, Incomplete, Lossy;
    BadHeadStep(bad, b);
    LossyHead(bad + b);
    assert (bad + b)[|bad|..] == b;
  }

  /** One replacement stands for a character that the end of the input cuts off. */
  lemma LossyTail(t: Bytes)
    requires Incomplete(t)
    ensures Lossy(t) == REPLACEMENT
  {
    StepTruncates(t);
    LossyHead(t);
  }

  /** The laws of repair, for any function on bytes. */
  ghost predicate Repairs(f: Bytes -> Bytes) {
    && f([]) == []
    && (forall a, b | IsChar(a) :: f(a + b) == a + f(b))
    && (forall bad, b | BadHead(bad, b) :: f(bad + b) == REPLACEMENT + f(b))
    && (forall t | Incomplete(t) :: f(t) == REPLACEMENT)
  }

  /** The laws determine repair: nothing else obeys them. */
  lemma {:induction false} LossyDetermined(f: Bytes -> Bytes, v: Bytes)
    requires Repairs(f)
    ensures f(v) == Lossy(v)
    decreases |v|
  {
    hide Lossy, IsChar, StepAt, Incomplete, BadHead, WellFormed;
    if v == [] {
      NothingWellFormed(v);
    } else if StepAt(v).Char? {
      var n := StepAt(v).width;
      StepWidth(v);
      StepRecognises(v, n);
      CharWellFormed(v[..n]);
      assert v == v[..n] + v[n..];
      LossyKeeps(v[..n], v[n..]);
      LossyDetermined(f, v[n..]);
    } else if StepAt(v).Bad? {
      var n := StepAt(v).length;
      StepRejects(v);
      BadHere(v, n);
      assert v == v[..n] + v[n..];
      LossyReplaces(v[..n], v[n..]);
      LossyDetermined(f, v[n..]);
    } else {
      StepTruncates(v);
      LossyTail(v);
    }
  }

  lemma CharWellFormed(c: Bytes)
    requires IsChar(c)
    ensures WellFormed(c)
  {
    assert c[..|c|] == c && c[|c|..] == [];
  }

  lemma BadHere(v: Bytes, n: nat)
    requires v != [] && StepAt(v) == Bad(n)
    ensures 1 <= n <= |v| && BadHead(v[..n], v[n..])
  {
    hide IsChar, Incomplete, StepAt;
    StepRejects(v);
    if n < |v| {
      assert v[..n] + v[n..][..1] == v[..n + 1];
    } else {
      assert v[..n] == v;
      StepTruncates(v);
    }
  }

  /** And repair obeys them. */
  lemma LossyRepairs()
    ensures Repairs(Lossy)
  {
    hide IsChar, Incomplete, BadHead, WellFormed, Lossy;
    NothingWellFormed([]);
    forall a: Bytes, b: Bytes | IsChar(a) ensures Lossy(a + b) == a + Lossy(b) {
      CharWellFormed(a);
      LossyKeeps(a, b);
    }
    forall bad, b | BadHead(bad, b) ensures Lossy(bad + b) == REPLACEMENT + Lossy(b) { LossyReplaces(bad, b); }
    forall t | Incomplete(t) ensures Lossy(t) == REPLACEMENT { LossyTail(t); }
  }

  method LossyUtf8(s: Bytes) returns (out: Bytes)
    ensures out == Lossy(s)
  {
    hide Scan, WellFormed;
    var _, _, valid := Utf8Check(s);
    if valid { return s; }
    out := [];
    var b := s;
    while |b| > 0
      invariant out + Lossy(b) == Lossy(s)
      decreases |b|
    {
      var validUpTo, errorLen, ok := Utf8Check(b);
      if ok {
        ScanAccepts(b);
        return out + b;
      }
      ScanErrorLen(b);
      out := out + b[..validUpTo] + REPLACEMENT;
      if errorLen == 0 { return; }
      b := b[validUpTo + errorLen..];
    }
    NothingWellFormed(b);
  }
}
