/** Shared vocabulary: optional values, the panic outcome every Rust `assert!`,
    `expect` or out-of-range `split_at` turns into, and big-endian byte helpers. */
module Common {

  datatype Option<+T> = None | Some(value: T)

  /** A computation that either finishes with a value or panics. */
  datatype Outcome<+T> = Done(value: T) | Panic(reason: string)

  type byte = x: int | 0 <= x < 256

  predicate NoDup<T(==)>(s: seq<T>) {
    forall i, j :: 0 <= i < j < |s| ==> s[i] != s[j]
  }

  function Pow256(n: nat): (r: nat)
    ensures r >= 1
  {
    if n == 0 then 1 else 256 * Pow256(n - 1)
  }

  /** The unsigned value of `bs` read most-significant byte first. */
  function BeValue(bs: seq<byte>): (r: nat)
    ensures r < Pow256(|bs|)
  {
    if |bs| == 0 then 0 else BeValue(bs[..|bs| - 1]) * 256 + bs[|bs| - 1]
  }

  /** `v` written as `width` bytes, most-significant byte first (`to_be_bytes`). */
  function BeBytes(v: nat, width: nat): (r: seq<byte>)
    requires v < Pow256(width)
    ensures |r| == width
  {
    if width == 0 then [] else BeBytes(v / 256, width - 1) + [v % 256]
  }

  lemma {:induction false} BeValueOfBeBytes(v: nat, width: nat)
    requires v < Pow256(width)
    ensures BeValue(BeBytes(v, width)) == v
  {
    if width > 0 {
      var bs := BeBytes(v, width);
      assert bs[..|bs| - 1] == BeBytes(v / 256, width - 1);
      BeValueOfBeBytes(v / 256, width - 1);
    }
  }

  /** 2^(8n-1): the first value a `bytes`-wide signed integer cannot hold. */
  function SignBit(bytes: nat): (r: nat)
    requires bytes > 0
    ensures 2 * r == Pow256(bytes)
  {
    128 * Pow256(bytes - 1)
  }

  /** Two's-complement reading of an unsigned `bits`-wide value (`iN::from_be_bytes`). */
  function ToSigned(v: nat, bytes: nat): (r: int)
    requires v < Pow256(bytes)
    ensures bytes > 0 ==> -(SignBit(bytes) as int) <= r < SignBit(bytes)
  {
    if bytes > 0 && v >= SignBit(bytes) then v - Pow256(bytes) else v
  }

  /** The `bytes`-wide two's-complement bit pattern of `v` (`iN::to_be_bytes`
      before the byte split). */
  function ToUnsigned(v: int, bytes: nat): (r: nat)
    requires FitsSigned(v, bytes)
    ensures r < Pow256(bytes)
    ensures ToSigned(r, bytes) == v
  {
    if v < 0 then v + Pow256(bytes) else v
  }

  /** An `iN` value: between -2^(8n-1) and 2^(8n-1) - 1. */
  predicate FitsSigned(v: int, bytes: nat) {
    bytes > 0 && -(SignBit(bytes) as int) <= v < SignBit(bytes)
  }
}
