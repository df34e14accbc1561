/** Byte buffers the way Node's `Buffer` treats them in the pool decoder:
    slices whose bounds are clamped to the buffer, bounds-checked
    little-endian reads, and little-endian unsigned integers of any width
    (what `new BN(bytes, 'le')` computes). */
module LittleEndian {
  import opened Wrappers

  type byte = b: int | 0 <= b < 256

  const TWO_16: nat := 0x1_0000
  const TWO_31: nat := 0x8000_0000
  const TWO_32: nat := 0x1_0000_0000
  const TWO_128: nat := 0x1_0000_0000_0000_0000_0000_0000_0000_0000

  /** The error Node raises when a fixed-width read does not fit: a buffer
      shorter than the read itself gives ERR_BUFFER_OUT_OF_BOUNDS, which names
      no offset; a longer one gives ERR_OUT_OF_RANGE for the offset. */
  datatype RangeError = OutOfRange(offset: nat) | OutOfBounds

  function Min(a: int, b: int): int {
    if a <= b then a else b
  }

  function Max(a: int, b: int): int {
    if a <= b then b else a
  }

  /** 256^n: the number of values an n-byte unsigned field can hold. */
  function Pow256(n: nat): (r: nat)
    ensures r >= 1
  {
    if n == 0 then 1 else 256 * Pow256(n - 1)
  }

  /** The widths the pool layout uses: 2, 4 and 16 bytes. */
  lemma Pow256Widths()
    ensures Pow256(2) == TWO_16 && Pow256(4) == TWO_32 && Pow256(16) == TWO_128
  {
    assert Pow256(4) == TWO_32;
    assert Pow256(8) == 0x1_0000_0000_0000_0000;
    assert Pow256(12) == 0x1_0000_0000_0000_0000_0000_0000;
  }

  /** Unsigned little-endian value of s: s[0] is the least significant byte;
      the empty sequence is 0. */
  function LeUnsigned(s: seq<byte>): (r: nat)
    ensures r < Pow256(|s|)
  {
    if |s| == 0 then 0 else s[0] + 256 * LeUnsigned(s[1..])
  }

  /** The n-byte little-endian encoding of v. */
  function LeBytes(v: nat, n: nat): (r: seq<byte>)
    requires v < Pow256(n)
    ensures |r| == n
  {
    if n == 0 then [] else [v % 256] + LeBytes(v / 256, n - 1)
  }

  function Zeros(n: nat): (r: seq<byte>)
    ensures |r| == n
    ensures forall i :: 0 <= i < n ==> r[i] == 0
  {
    if n == 0 then [] else [0] + Zeros(n - 1)
  }

  /** Writing v as n little-endian bytes and reading them back gives v. */
  lemma {:induction false} LeUnsignedOfLeBytes(v: nat, n: nat)
    requires v < Pow256(n)
    ensures LeUnsigned(LeBytes(v, n)) == v
  {
    if n > 0 {
      var s := LeBytes(v, n);
      assert s[1..] == LeBytes(v / 256, n - 1);
      LeUnsignedOfLeBytes(v / 256, n - 1);
    }
  }

  /** Reading n bytes as an unsigned value and writing it back as n bytes
      reproduces them: the encoding loses nothing. */
  lemma {:induction false} LeBytesOfLeUnsigned(s: seq<byte>)
    ensures LeBytes(LeUnsigned(s), |s|) == s
  {
    if |s| > 0 {
      var v := LeUnsigned(s);
      assert v % 256 == s[0] && v / 256 == LeUnsigned(s[1..]);
      LeBytesOfLeUnsigned(s[1..]);
    }
  }

  /** Trailing zero bytes add nothing to a little-endian value. */
  lemma {:induction false} LeUnsignedZeroPadded(s: seq<byte>, n: nat)
    ensures LeUnsigned(s + Zeros(n)) == LeUnsigned(s)
  {
    if |s| == 0 {
      assert s + Zeros(n) == Zeros(n);
      LeUnsignedOfZeros(n);
    } else {
      assert (s + Zeros(n))[1..] == s[1..] + Zeros(n);
      LeUnsignedZeroPadded(s[1..], n);
    }
  }

  lemma {:induction false} LeUnsignedOfZeros(n: nat)
    ensures LeUnsigned(Zeros(n)) == 0
  {
    if n > 0 {
      assert Zeros(n)[1..] == Zeros(n - 1);
      LeUnsignedOfZeros(n - 1);
    }
  }

  /** Node's `buf.slice(start, end)` for non-negative bounds: both bounds are
      clamped to the buffer's length, and an end before the start gives an
      empty slice. Slicing past the end yields fewer bytes, never an error. */
  function Slice(s: seq<byte>, start: nat, end: nat): (r: seq<byte>)
    ensures |r| == if Min(end, |s|) <= Min(start, |s|) then 0 else Min(end, |s|) - Min(start, |s|)
    ensures forall i :: 0 <= i < |r| ==> r[i] == s[start + i]
  {
    var lo, hi := Min(start, |s|), Min(end, |s|);
    if hi <= lo then [] else s[lo..hi]
  }

  /** `buf.readUInt16LE(offset)`: fails unless both bytes exist; the error
      is out of bounds when the buffer has fewer than two bytes. */
  function ReadUInt16LE(s: seq<byte>, offset: nat): (r: Result<nat, RangeError>)
    ensures r.Success? <==> offset + 2 <= |s|
    ensures r.Success? ==> r.value == s[offset] as int + 256 * s[offset + 1] as int && r.value < TWO_16
    ensures r.Failure? ==> r.error == if |s| < 2 then OutOfBounds else OutOfRange(offset)
  {
    if offset + 2 <= |s| then
      var b := s[offset..offset + 2];
      assert LeUnsigned(b[1..]) == b[1] + 256 * LeUnsigned(b[1..][1..]);
      assert b[1..][1..] == [];
      Success(LeUnsigned(b))
    else
      Failure(if |s| < 2 then OutOfBounds else OutOfRange(offset))
  }

  /** The signed 32-bit integer whose two's-complement bit pattern is u. */
  function FromTwosComplement32(u: nat): (r: int)
    requires u < TWO_32
    ensures -(TWO_31 as int) <= r < TWO_31
    ensures r % TWO_32 == u
  {
    if u < TWO_31 then u else u - TWO_32
  }

  /** The two's-complement bit pattern of a signed 32-bit integer. */
  function ToTwosComplement32(v: int): (u: nat)
    requires -(TWO_31 as int) <= v < TWO_31
    ensures u < TWO_32
    ensures FromTwosComplement32(u) == v
  {
    if v < 0 then v + TWO_32 else v
  }

  /** `buf.readInt32LE(offset)`: fails unless all four bytes exist; the
      result is the one signed 32-bit value whose bit pattern is the four
      little-endian bytes. A buffer of fewer than four bytes fails out of
      bounds. */
  function ReadInt32LE(s: seq<byte>, offset: nat): (r: Result<int, RangeError>)
    ensures r.Success? <==> offset + 4 <= |s|
    ensures r.Success? ==> -(TWO_31 as int) <= r.value < TWO_31
    ensures r.Success? ==> r.value % TWO_32 == LeUnsigned(s[offset..offset + 4])
    ensures r.Failure? ==> r.error == if |s| < 4 then OutOfBounds else OutOfRange(offset)
  {
    if offset + 4 <= |s| then
      var u := LeUnsigned(s[offset..offset + 4]);
      assert Pow256(4) == TWO_32;
      Success(FromTwosComplement32(u))
    else
      Failure(if |s| < 4 then OutOfBounds else OutOfRange(offset))
  }

  /** The four bytes `buf.writeInt32LE(v)` would store. */
  function Int32LeBytes(v: int): (r: seq<byte>)
    requires -(TWO_31 as int) <= v < TWO_31
    ensures |r| == 4
  {
    assert Pow256(4) == TWO_32;
    LeBytes(ToTwosComplement32(v), 4)
  }

  /** Reading back the four bytes of a signed 32-bit value gives the value. */
  lemma Int32RoundTrip(v: int)
    requires -(TWO_31 as int) <= v < TWO_31
    ensures ReadInt32LE(Int32LeBytes(v), 0) == Success(v)
  {
    var b := Int32LeBytes(v);
    assert Pow256(4) == TWO_32;
    LeUnsignedOfLeBytes(ToTwosComplement32(v), 4);
    assert b[0..4] == b;
  }

  /** Examples: 01 00 reads as 1, 00 01 as 256, ff ff ff ff as -1; a
      one-byte buffer is out of bounds, a two-byte one read past its end is
      out of range. */
  lemma ReadExamples()
    ensures ReadUInt16LE([7], 0) == Failure(OutOfBounds)
    ensures ReadUInt16LE([7, 7], 1) == Failure(OutOfRange(1))
    ensures ReadUInt16LE([1, 0], 0) == Success(1)
    ensures ReadUInt16LE([0, 1], 0) == Success(256)
    ensures ReadInt32LE([255, 255, 255, 255], 0) == Success(-1)
  {
  }

  /** Two's complement is a bijection between 32-bit patterns and the
      signed 32-bit range. */
  lemma TwosComplementInverse(u: nat)
    requires u < TWO_32
    ensures ToTwosComplement32(FromTwosComplement32(u)) == u
  {
  }
}
