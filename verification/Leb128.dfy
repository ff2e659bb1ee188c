/**
 * The variable-length integers of the binary format (WebAssembly Core Specification,
 * section 5.2.2): what is written, how it is read back, and how long it can get.
 */
module Leb128 {
  import opened Ints
  import opened Wasm

  function Unsigned(n: nat): (r: seq<byte>)
    ensures r != []
  {
    if n < 128 then [n] else [n % 128 + 128] + Unsigned(n / 128)
  }

  /** Whether these seven bits, with nothing but copies of the sign above them, are the number. */
  predicate Last(low: byte, rest: int) {
    (rest == 0 && low < 64) || (rest == -1 && low >= 64)
  }

  function Signed(v: int): (r: seq<byte>)
    ensures r != []
    decreases if v >= 0 then v else -v - 1
  {
    if Last(v % 128, v / 128) then [v % 128] else [v % 128 + 128] + Signed(v / 128)
  }

  function ReadUnsigned(bytes: seq<byte>): (r: Option<(nat, seq<byte>)>)
    ensures r.Some? ==> |r.value.1| < |bytes|
    decreases |bytes|
  {
    if bytes == [] then None
    else if bytes[0] < 128 then Some((bytes[0], bytes[1..]))
    else
      match ReadUnsigned(bytes[1..])
      case Some((n, rest)) => Some((bytes[0] - 128 + 128 * n, rest))
      case None => None
  }

  function ReadSigned(bytes: seq<byte>): (r: Option<(int, seq<byte>)>)
    ensures r.Some? ==> |r.value.1| < |bytes|
    decreases |bytes|
  {
    if bytes == [] then None
    else if bytes[0] < 128 then
      var low: int := bytes[0];
      Some((if low < 64 then low else low - 128, bytes[1..]))
    else
      match ReadSigned(bytes[1..])
      case Some((n, rest)) => Some((bytes[0] - 128 + 128 * n, rest))
      case None => None
  }

  lemma {:induction false} UnsignedReads(n: nat, rest: seq<byte>)
    ensures ReadUnsigned(Unsigned(n) + rest) == Some((n, rest))
    decreases n
  {
    assert (Unsigned(n) + rest)[0] == Unsigned(n)[0];
    if n < 128 {
      assert (Unsigned(n) + rest)[1..] == rest;
    } else {
      UnsignedReads(n / 128, rest);
      assert (Unsigned(n) + rest)[1..] == Unsigned(n / 128) + rest;
    }
  }

  lemma {:induction false} SignedReads(v: int, rest: seq<byte>)
    ensures ReadSigned(Signed(v) + rest) == Some((v, rest))
    decreases if v >= 0 then v else -v - 1
  {
    assert (Signed(v) + rest)[0] == Signed(v)[0];
    if Last(v % 128, v / 128) {
      assert (Signed(v) + rest)[1..] == rest;
    } else {
      SignedReads(v / 128, rest);
      assert (Signed(v) + rest)[1..] == Signed(v / 128) + rest;
    }
  }

  function Pow128(k: nat): nat { if k == 0 then 1 else 128 * Pow128(k - 1) }

  /** At most as many bytes as there are groups of seven bits. */
  lemma {:induction false} UnsignedShort(n: nat, k: nat)
    requires k > 0 && n < Pow128(k)
    ensures |Unsigned(n)| <= k
    decreases k
  {
    if n >= 128 {
      assert k > 1 by { assert Pow128(1) == 128; }
      UnsignedShort(n / 128, k - 1);
    }
  }

  lemma {:induction false} SignedShort(v: int, k: nat)
    requires k > 0 && -64 * Pow128(k - 1) <= v < 64 * Pow128(k - 1)
    ensures |Signed(v)| <= k
    decreases k
  {
    if !Last(v % 128, v / 128) {
      assert k > 1 by { assert Pow128(0) == 1; }
      SignedShort(v / 128, k - 1);
    }
  }

  /** An index takes at most five bytes, a narrow constant five and a wide one ten. */
  lemma Widths()
    ensures forall n: u32 :: |Unsigned(n)| <= 5
    ensures forall v: i32 :: |Signed(v)| <= 5
    ensures forall v: i64 :: |Signed(v)| <= 10
  {
    Powers();
    forall n: u32 ensures |Unsigned(n)| <= 5 {
      UnsignedShort(n, 5);
    }
    forall v: i32 ensures |Signed(v)| <= 5 {
      SignedShort(v, 5);
    }
    forall v: i64 ensures |Signed(v)| <= 10 {
      SignedShort(v, 10);
    }
  }

  lemma Powers()
    ensures Pow128(4) == 0x1000_0000 && Pow128(5) == 0x8_0000_0000 && Pow128(9) == 0x8000_0000_0000_0000
  {
    assert Pow128(1) == 128 && Pow128(2) == 128 * Pow128(1) && Pow128(3) == 128 * Pow128(2);
    assert Pow128(4) == 128 * Pow128(3) && Pow128(5) == 128 * Pow128(4) && Pow128(6) == 128 * Pow128(5);
    assert Pow128(7) == 128 * Pow128(6) && Pow128(8) == 128 * Pow128(7) && Pow128(9) == 128 * Pow128(8);
  }
}
