/** Machine integers as the backend uses them, and the little-endian bytes they are stored as. */
module Ints {

  const TWO_32: int := 0x1_0000_0000
  const TWO_64: int := 0x1_0000_0000_0000_0000
  const MIN_64: int := -0x8000_0000_0000_0000
  const MAX_64: int := 0x7fff_ffff_ffff_ffff

  type i32 = x: int | -0x8000_0000 <= x < 0x8000_0000
  type i64 = x: int | -0x8000_0000_0000_0000 <= x < 0x8000_0000_0000_0000
  type u32 = x: int | 0 <= x < 0x1_0000_0000
  type byte = x: int | 0 <= x < 256

  /** Two's complement wrap-around to 64 bits. */
  function Wrap64(x: int): i64 {
    if MIN_64 <= x <= MAX_64 then x else Around64(x)
  }

  function Around64(x: int): i64 {
    (x - MIN_64) % TWO_64 + MIN_64
  }

  /** Two's complement wrap-around to 32 bits, which is also the truncating cast. */
  function Wrap32(x: int): i32 {
    (x + 0x8000_0000) % TWO_32 - 0x8000_0000
  }

  /** Division rounding towards zero. */
  function TruncDiv(x: int, y: int): int
    requires y != 0
  {
    if x >= 0 then x / y else -((-x) / y)
  }

  /** The remainder that goes with TruncDiv: it takes the sign of the dividend. */
  function TruncRem(x: int, y: int): int
    requires y != 0
  {
    x - TruncDiv(x, y) * y
  }

  lemma WrapFits(x: int)
    ensures MIN_64 <= x <= MAX_64 ==> Wrap64(x) == x
    ensures Wrap64(x) == x ==> MIN_64 <= x <= MAX_64
  {
  }

  // -- exclusive or ----------------------------------------------------------

  function XorBits(a: nat, b: nat, width: nat): nat
    decreases width
  {
    if width == 0 then 0 else (a % 2 + b % 2) % 2 + 2 * XorBits(a / 2, b / 2, width - 1)
  }

  /** Exclusive or of two 64-bit words. */
  function Xor64(a: i64, b: i64): i64 {
    Wrap64(XorBits(if a >= 0 then a else a + TWO_64, if b >= 0 then b else b + TWO_64, 64))
  }

  // -- little-endian bytes ---------------------------------------------------

  function LeBytes(n: nat, width: nat): (bytes: seq<byte>)
    ensures |bytes| == width
    decreases width
  {
    if width == 0 then [] else [n % 256] + LeBytes(n / 256, width - 1)
  }

  function LeValue(bytes: seq<byte>): nat {
    if bytes == [] then 0 else bytes[0] + 256 * LeValue(bytes[1..])
  }

  function Pow256(width: nat): (p: nat)
    ensures p > 0
  {
    if width == 0 then 1 else 256 * Pow256(width - 1)
  }

  lemma {:induction false} LeValueBound(bytes: seq<byte>)
    ensures LeValue(bytes) < Pow256(|bytes|)
    decreases |bytes|
  {
    if bytes != [] {
      LeValueBound(bytes[1..]);
    }
  }

  lemma {:induction false} LeRoundTrip(n: nat, width: nat)
    requires n < Pow256(width)
    ensures LeValue(LeBytes(n, width)) == n
    decreases width
  {
    if width != 0 {
      LeRoundTrip(n / 256, width - 1);
      assert LeBytes(n, width)[1..] == LeBytes(n / 256, width - 1);
    }
  }

  lemma Pow256Values()
    ensures Pow256(1) == 0x100
    ensures Pow256(2) == 0x1_0000
    ensures Pow256(4) == TWO_32
    ensures Pow256(8) == TWO_64
  {
    assert Pow256(2) == 256 * Pow256(1);
    assert Pow256(3) == 256 * Pow256(2);
    assert Pow256(4) == 256 * Pow256(3);
    assert Pow256(5) == 256 * Pow256(4);
    assert Pow256(6) == 256 * Pow256(5);
    assert Pow256(7) == 256 * Pow256(6);
  }

  /** The eight bytes of a word. */
  function WordBytes(v: i64): (bytes: seq<byte>)
    ensures |bytes| == 8
  {
    LeBytes(if v >= 0 then v else v + TWO_64, 8)
  }

  /** The word eight bytes spell. */
  function BytesWord(bytes: seq<byte>): i64
    requires |bytes| == 8
  {
    WordBound(bytes);
    var n := LeValue(bytes);
    if n <= MAX_64 then n else n - TWO_64
  }

  lemma WordBound(bytes: seq<byte>)
    requires |bytes| == 8
    ensures LeValue(bytes) < TWO_64
  {
    LeValueBound(bytes);
    Pow256Values();
  }

  lemma WordRoundTrip(v: i64)
    ensures BytesWord(WordBytes(v)) == v
  {
    Pow256Values();
    LeRoundTrip(if v >= 0 then v else v + TWO_64, 8);
  }

  lemma ZeroWord()
    ensures BytesWord(seq(8, _ => 0)) == 0
  {
    WordRoundTrip(0);
    assert LeBytes(0, 8) == seq(8, _ => 0) by {
      ZeroBytes(8);
    }
  }

  lemma {:induction false} ZeroBytes(width: nat)
    ensures LeBytes(0, width) == seq(width, _ => 0)
    decreases width
  {
    if width > 0 {
      ZeroBytes(width - 1);
    }
  }

  /** A length or an address as a word: these are 32 bits wide, so they always fit. */
  function AsWord(n: nat): i64 { if n <= MAX_64 then n else 0 }

  lemma WordValue(n: nat)
    requires n <= MAX_64
    ensures LeValue(WordBytes(AsWord(n))) == n
  {
    Pow256Values();
    LeRoundTrip(n, 8);
  }
}
