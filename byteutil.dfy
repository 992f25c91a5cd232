/** Byte utilities (package `byteutil`): an 8-byte big-endian codec for 64-bit `int`
    and ASCII-only case mapping by bit operations. */
module ByteUtil {
  import opened Arith

  /** Go's `byte` (`uint8`). */
  type byte = x: int | 0 <= x < 0x100
  type int64 = x: int | -0x8000_0000_0000_0000 <= x < 0x8000_0000_0000_0000
  type uint64 = x: int | 0 <= x < 0x1_0000_0000_0000_0000

  /** Go's conversion `uint64(n)`: two's complement. */
  function ToUint64(n: int64): uint64 {
    if n < 0 then n + 0x1_0000_0000_0000_0000 else n
  }

  /** Go's conversion `int(u)` on a 64-bit platform: two's complement. */
  function ToInt64(u: uint64): int64 {
    if u < 0x8000_0000_0000_0000 then u else u - 0x1_0000_0000_0000_0000
  }

  /** The k low base-256 digits of u, most significant first. */
  function BigEndian(u: nat, k: nat): (b: seq<byte>)
    ensures |b| == k
  {
    if k == 0 then [] else BigEndian(u / 256, k - 1) + [u % 256]
  }

  /** The number a byte string denotes read big-endian (`binary.BigEndian.Uint64` when
      the string has 8 bytes). */
  function BigEndianValue(b: seq<byte>): nat {
    if b == [] then 0 else BigEndianValue(b[..|b| - 1]) * 256 + b[|b| - 1]
  }

  /** What `IntToBytes` produces: `uint64(n)` as 8 big-endian bytes. */
  function Encoding(n: int64): seq<byte> {
    BigEndian(ToUint64(n), 8)
  }

  /** `IntToBytes`: allocates an 8-byte buffer and writes `uint64(n)` into it. */
  method IntToBytes(n: int64) returns (b: array<byte>)
    ensures fresh(b) && b.Length == 8
    ensures b[..] == Encoding(n)
  {
    b := new byte[8];
    var v: nat := ToUint64(n);
    var i := 8;
    while i > 0
      invariant 0 <= i <= 8
      invariant BigEndian(v, i) + b[i..] == Encoding(n)
    {
      ghost var rest := b[i..];
      i := i - 1;
      b[i] := v % 256;
      assert b[i..] == [v % 256] + rest;
      v := v / 256;
    }
    assert b[..] == b[0..];
  }

  /** `BytesToInt`: 0 unless the input has exactly 8 bytes, else their big-endian value
      read as a signed 64-bit number. */
  function BytesToInt(bys: seq<byte>): (n: int64)
    ensures |bys| != 8 ==> n == 0
    ensures |bys| == 8 ==> ToUint64(n) == BigEndianValue(bys)
  {
    if |bys| != 8 then 0
    else
      BigEndianValueBound(bys);
      assert Pow(256, 8) == 0x1_0000_0000_0000_0000 by { Pow256Of8(); }
      ToInt64(BigEndianValue(bys))
  }

  lemma Pow256Of8()
    ensures Pow(256, 8) == 0x1_0000_0000_0000_0000
  {
    assert Pow(256, 2) == 0x1_0000;
    assert Pow(256, 4) == 0x1_0000_0000 by {
      assert Pow(256, 3) == 0x100_0000;
    }
    assert Pow(256, 6) == 0x1_0000_0000_0000 by {
      assert Pow(256, 5) == 0x100_0000_0000;
    }
    assert Pow(256, 7) == 0x100_0000_0000_0000;
  }

  /** A k-byte string denotes a number below 256^k. */
  lemma {:induction false} BigEndianValueBound(b: seq<byte>)
    ensures BigEndianValue(b) < Pow(256, |b|)
    decreases |b|
  {
    if b != [] {
      var p := b[..|b| - 1];
      BigEndianValueBound(p);
      assert BigEndianValue(p) <= Pow(256, |p|) - 1;
      assert BigEndianValue(p) * 256 <= (Pow(256, |p|) - 1) * 256;
    }
  }

  /** Digit i of the k-digit big-endian rendering holds bits 8(k-1-i) .. 8(k-1-i)+7. */
  lemma {:induction false} BigEndianAt(u: nat, k: nat, i: nat)
    requires i < k
    ensures BigEndian(u, k)[i] == u / Pow(256, k - 1 - i) % 256
    decreases k
  {
    var b := BigEndian(u, k);
    if i < k - 1 {
      var p := Pow(256, k - 2 - i);
      assert Pow(256, k - 1 - i) == 256 * p;
      assert b[i] == BigEndian(u / 256, k - 1)[i];
      BigEndianAt(u / 256, k - 1, i);
      DivDiv(u, 256, p);
    } else {
      assert b[i] == u % 256;
      assert Pow(256, k - 1 - i) == 1;
    }
  }

  /** Reading back the k-digit rendering of u < 256^k gives u. */
  lemma {:induction false} BigEndianRoundTrip(u: nat, k: nat)
    requires u < Pow(256, k)
    ensures BigEndianValue(BigEndian(u, k)) == u
    decreases k
  {
    if k > 0 {
      var b := BigEndian(u, k);
      var q, r := u / 256, u % 256;
      assert b[..|b| - 1] == BigEndian(q, k - 1);
      assert b[|b| - 1] == r;
      DivBelow(u, 256, Pow(256, k - 1));
      BigEndianRoundTrip(q, k - 1);
      assert BigEndianValue(b) == q * 256 + r;
    } else {
      assert u == 0;
    }
  }

  /** Rendering the value of a byte string with its own width gives it back. */
  lemma {:induction false} BigEndianOfValue(b: seq<byte>)
    ensures BigEndian(BigEndianValue(b), |b|) == b
    decreases |b|
  {
    if b != [] {
      var p, last := b[..|b| - 1], b[|b| - 1];
      var v := BigEndianValue(b);
      DivModUnique(v, 256, BigEndianValue(p), last);
      BigEndianOfValue(p);
      assert b == p + [last];
    }
  }

  /** `IntToBytes` always yields exactly 8 bytes, big-endian: byte i holds bits
      56-8i .. 63-8i of `uint64(n)`, so byte 0 holds the most significant ones. */
  lemma EncodingLayout(n: int64, i: nat)
    requires i < 8
    ensures |Encoding(n)| == 8
    ensures Encoding(n)[i] == ToUint64(n) / Pow(256, 7 - i) % 256
  {
    BigEndianAt(ToUint64(n), 8, i);
  }

  /** `BytesToInt(IntToBytes(n)) == n` for every 64-bit n, negative ones included. */
  lemma DecodeEncode(n: int64)
    ensures BytesToInt(Encoding(n)) == n
  {
    Pow256Of8();
    BigEndianRoundTrip(ToUint64(n), 8);
  }

  /** Every 8-byte string is the encoding of the number it decodes to. */
  lemma EncodeDecode(bys: seq<byte>)
    requires |bys| == 8
    ensures Encoding(BytesToInt(bys)) == bys
  {
    BigEndianOfValue(bys);
  }

  const CaseBit: byte := 0x20
  const CaseMask: byte := 0xDF
  const MaxAscii: byte := 0x7F

  /** Whether bit 5 (value 0x20, the ASCII case bit) of b is set. */
  predicate HasCaseBit(b: byte) {
    b / 0x20 % 2 == 1
  }

  /** `b | caseBit`: sets bit 5. */
  function OrCaseBit(b: byte): byte {
    if HasCaseBit(b) then b else b + CaseBit
  }

  /** `b & caseMask` (0xDF has every bit but bit 5): clears bit 5. */
  function AndCaseMask(b: byte): byte {
    if HasCaseBit(b) then b - CaseBit else b
  }

  predicate IsAsciiUpper(b: byte) {
    0x41 <= b <= 0x5A  // 'A' .. 'Z'
  }

  predicate IsAsciiLower(b: byte) {
    0x61 <= b <= 0x7A  // 'a' .. 'z'
  }

  /** `ByteToLower`: sets the case bit of 'A'..'Z'; every other byte, bytes from 128 on
      included, is returned unchanged. */
  function ByteToLower(b: byte): (r: byte)
    ensures IsAsciiUpper(b) ==> r == b + 0x20 && IsAsciiLower(r)
    ensures !IsAsciiUpper(b) ==> r == b
  {
    if b <= MaxAscii && IsAsciiUpper(b) then OrCaseBit(b) else b
  }

  /** `ByteToUpper`: clears the case bit of 'a'..'z'; every other byte is unchanged. */
  function ByteToUpper(b: byte): (r: byte)
    ensures IsAsciiLower(b) ==> r == b - 0x20 && IsAsciiUpper(r)
    ensures !IsAsciiLower(b) ==> r == b
  {
    if b <= MaxAscii && IsAsciiLower(b) then AndCaseMask(b) else b
  }

  /** Both maps are idempotent, each absorbs the other, and on letters they are inverse. */
  lemma CaseMapLaws(b: byte)
    ensures ByteToLower(ByteToLower(b)) == ByteToLower(b)
    ensures ByteToUpper(ByteToUpper(b)) == ByteToUpper(b)
    ensures ByteToUpper(ByteToLower(b)) == ByteToUpper(b)
    ensures ByteToLower(ByteToUpper(b)) == ByteToLower(b)
    ensures IsAsciiLower(b) ==> ByteToLower(ByteToUpper(b)) == b
    ensures IsAsciiUpper(b) ==> ByteToUpper(ByteToLower(b)) == b
  {
  }
}
