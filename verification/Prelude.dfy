/** Types shared by every module of the model. */
module Prelude {

  /** One octet of a Go byte slice or string. */
  type Byte = b: int | 0 <= b < 256 witness 0

  type Bytes = seq<Byte>

  datatype Option<+T> = None | Some(value: T)

  const MAX_UINT64: nat := 0xFFFF_FFFF_FFFF_FFFF

  /** uint64 addition that stops at the largest value instead of wrapping. */
  function SatAdd(a: nat, b: nat): (s: nat)
    ensures a + b <= MAX_UINT64 ==> s == a + b
    ensures a + b >= MAX_UINT64 ==> s == MAX_UINT64
  {
    if a + b <= MAX_UINT64 then a + b else MAX_UINT64
  }

  function SatSub(a: nat, b: nat): (s: nat)
    ensures b <= a ==> s + b == a
    ensures b > a ==> s == 0
  {
    if b > a then 0 else a - b
  }

  function SatMul(a: nat, b: nat): (s: nat)
    ensures a * b <= MAX_UINT64 ==> s == a * b
  {
    if a * b <= MAX_UINT64 then a * b else MAX_UINT64
  }
}
