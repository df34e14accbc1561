/** The Raydium CLMM pool account decoder (src/utils/pool-layout.js).

    `Decode` reads a pool record at fixed absolute offsets: an 8-byte
    discriminator that is read and never used, four 32-byte addresses, a
    little-endian u16 tick spacing, a 32-byte tick-array bitmap, two u128
    values, a signed 32-bit current tick and four more u128 values. The last
    field ends at byte 270 (the code adds 262 to a base offset of 8). Only
    the two fixed-width reads are bounds-checked, so a buffer shorter than
    206 bytes fails and a buffer of 206 to 269 bytes decodes its fee fields
    from whatever bytes the clamped slices still hold. */
module PoolLayout {
  import opened Wrappers
  import opened LittleEndian

  /** A public key: the 32 bytes the decoder hands to `new PublicKey`. */
  type Address = seq<byte>

  /** The decoder starts reading after the 8-byte discriminator. */
  const BASE_OFFSET: nat := 8
  /** One past the last byte the decoder reads: 8 + 262. */
  const LAYOUT_END: nat := 270
  /** The shortest buffer that decodes: the i32 read at 202 needs four bytes. */
  const MIN_DECODABLE: nat := 206
  /** 2^53: `BN.toNumber` refuses values at or above this. */
  const TWO_53: nat := 0x20_0000_0000_0000
  const TWO_64: nat := 0x1_0000_0000_0000_0000

  /** The decoded pool record. */
  datatype PoolData = PoolData(
    tokenMintA: Address,
    tokenMintB: Address,
    tokenVaultA: Address,
    tokenVaultB: Address,
    tickSpacing: nat,
    tickArrayBitmap: seq<byte>,
    liquidity: nat,
    sqrtPriceX64: nat,
    tickCurrent: int,
    feeGrowthGlobalA: nat,
    feeGrowthGlobalB: nat,
    protocolFeesTokenA: nat,
    protocolFeesTokenB: nat)

  /** "Pool data decode error": every failure inside the decoder is rewrapped
      as this one error, carrying the read that failed. */
  datatype DecodeError = PoolDataDecodeError(cause: RangeError)

  /** Every field fits the width the layout gives it. */
  predicate WellFormed(p: PoolData) {
    && |p.tokenMintA| == 32 && |p.tokenMintB| == 32
    && |p.tokenVaultA| == 32 && |p.tokenVaultB| == 32
    && p.tickSpacing < TWO_16
    && |p.tickArrayBitmap| == 32
    && p.liquidity < TWO_128 && p.sqrtPriceX64 < TWO_128
    && -(TWO_31 as int) <= p.tickCurrent < TWO_31
    && p.feeGrowthGlobalA < TWO_128 && p.feeGrowthGlobalB < TWO_128
    && p.protocolFeesTokenA < TWO_128 && p.protocolFeesTokenB < TWO_128
  }

  /** `new BN(data.slice(start, start + 16), 'le')`: the unsigned value of
      the (possibly truncated) 16-byte slice; an empty slice is 0. */
  function U128At(data: seq<byte>, start: nat): (r: nat)
    ensures r < TWO_128
    ensures start + 16 <= |data| ==> r == LeUnsigned(data[start..start + 16])
  {
    var b := Slice(data, start, start + 16);
    LeUnsignedZeroPadded(b, 16 - |b|);
    Pow256Widths();
    assert start + 16 <= |data| ==> b == data[start..start + 16];
    LeUnsigned(b)
  }

  /** `PoolDataLayout.decode`. */
  function Decode(data: seq<byte>): (r: Result<PoolData, DecodeError>)
    ensures r.Success? <==> |data| >= MIN_DECODABLE
    ensures |data| < 2 ==> r == Failure(PoolDataDecodeError(OutOfBounds))
    ensures 2 <= |data| < 138 ==> r == Failure(PoolDataDecodeError(OutOfRange(136)))
    ensures 138 <= |data| < MIN_DECODABLE ==> r == Failure(PoolDataDecodeError(OutOfRange(202)))
    ensures r.Success? ==> WellFormed(r.value)
  {
    // the discriminator is sliced off and never looked at again
    var discriminator := Slice(data, 0, 8);
    var offset := BASE_OFFSET;
    match ReadUInt16LE(data, offset + 128)
    case Failure(e) => Failure(PoolDataDecodeError(e))
    case Success(tickSpacing) =>
      match ReadInt32LE(data, offset + 194)
      case Failure(e) => Failure(PoolDataDecodeError(e))
      case Success(tickCurrent) =>
        Success(PoolData(
          tokenMintA := Slice(data, offset, offset + 32),
          tokenMintB := Slice(data, offset + 32, offset + 64),
          tokenVaultA := Slice(data, offset + 64, offset + 96),
          tokenVaultB := Slice(data, offset + 96, offset + 128),
          tickSpacing := tickSpacing,
          tickArrayBitmap := Slice(data, offset + 130, offset + 162),
          liquidity := U128At(data, offset + 162),
          sqrtPriceX64 := U128At(data, offset + 178),
          tickCurrent := tickCurrent,
          feeGrowthGlobalA := U128At(data, offset + 198),
          feeGrowthGlobalB := U128At(data, offset + 214),
          protocolFeesTokenA := U128At(data, offset + 230),
          protocolFeesTokenB := U128At(data, offset + 246)))
  }

  /** Bytes 0-206 of a record's image: the discriminator and every field up
      to the current tick, at the decoder's offsets. */
  function EncodeFixed(discriminator: seq<byte>, p: PoolData): (r: seq<byte>)
    requires |discriminator| == 8 && WellFormed(p)
    ensures |r| == MIN_DECODABLE
  {
    Pow256Widths();
    discriminator
    + p.tokenMintA + p.tokenMintB + p.tokenVaultA + p.tokenVaultB
    + LeBytes(p.tickSpacing, 2) + p.tickArrayBitmap
    + LeBytes(p.liquidity, 16) + LeBytes(p.sqrtPriceX64, 16)
    + Int32LeBytes(p.tickCurrent)
  }

  /** The 270-byte image of a record under the same offset table: the
      inverse of `Decode`, used for round trips. */
  function Encode(discriminator: seq<byte>, p: PoolData): (r: seq<byte>)
    requires |discriminator| == 8 && WellFormed(p)
    ensures |r| == LAYOUT_END
  {
    Pow256Widths();
    EncodeFixed(discriminator, p)
    + LeBytes(p.feeGrowthGlobalA, 16) + LeBytes(p.feeGrowthGlobalB, 16)
    + LeBytes(p.protocolFeesTokenA, 16) + LeBytes(p.protocolFeesTokenB, 16)
  }

  /** The four addresses, the tick spacing, the bitmap, the liquidity, the
      square-root price and the current tick are exactly their byte spans
      (absolute offsets 8 to 206) of any buffer that decodes. */
  lemma DecodeFixedSpans(data: seq<byte>)
    requires |data| >= MIN_DECODABLE
    ensures Decode(data).Success?
    ensures var p := Decode(data).value;
      && p.tokenMintA == data[8..40] && p.tokenMintB == data[40..72]
      && p.tokenVaultA == data[72..104] && p.tokenVaultB == data[104..136]
      && p.tickSpacing == data[136] as int + 256 * data[137] as int
      && p.tickArrayBitmap == data[138..170]
      && p.liquidity == LeUnsigned(data[170..186])
      && p.sqrtPriceX64 == LeUnsigned(data[186..202])
      && p.tickCurrent == FromTwosComplement32(LeUnsigned(data[202..206]))
  {
    var p := Decode(data).value;
    assert p.tokenMintA == data[8..40];
    assert p.tokenMintB == data[40..72];
    assert p.tokenVaultA == data[72..104];
    assert p.tokenVaultB == data[104..136];
    assert p.tickArrayBitmap == data[138..170];
    Pow256Widths();
    var u := LeUnsigned(data[202..206]);
    assert p.tickCurrent % TWO_32 == u;
  }

  /** With the whole layout present, the four fee fields are the unsigned
      little-endian values of bytes 206-222, 222-238, 238-254 and 254-270. */
  lemma DecodeFeeSpans(data: seq<byte>)
    requires |data| >= LAYOUT_END
    ensures Decode(data).Success?
    ensures var p := Decode(data).value;
      && p.feeGrowthGlobalA == LeUnsigned(data[206..222])
      && p.feeGrowthGlobalB == LeUnsigned(data[222..238])
      && p.protocolFeesTokenA == LeUnsigned(data[238..254])
      && p.protocolFeesTokenB == LeUnsigned(data[254..270])
  {
  }

  /** Two buffers that both decode and agree on bytes 8-206 and on the four
      (possibly truncated) fee slices decode to the same record. */
  lemma DecodeAgrees(d1: seq<byte>, d2: seq<byte>)
    requires |d1| >= MIN_DECODABLE && |d2| >= MIN_DECODABLE
    requires forall i :: 8 <= i < MIN_DECODABLE ==> d1[i] == d2[i]
    requires U128At(d1, 206) == U128At(d2, 206) && U128At(d1, 222) == U128At(d2, 222)
    requires U128At(d1, 238) == U128At(d2, 238) && U128At(d1, 254) == U128At(d2, 254)
    ensures Decode(d1) == Decode(d2)
  {
    DecodeFixedSpans(d1);
    DecodeFixedSpans(d2);
    assert d1[8..40] == d2[8..40];
    assert d1[40..72] == d2[40..72];
    assert d1[72..104] == d2[72..104];
    assert d1[104..136] == d2[104..136];
    assert d1[138..170] == d2[138..170];
    assert d1[170..186] == d2[170..186];
    assert d1[186..202] == d2[186..202];
    assert d1[202..206] == d2[202..206];
  }

  /** The discriminator bytes 0-8 influence no output, not even the error. */
  lemma DecodeIgnoresDiscriminator(d1: seq<byte>, d2: seq<byte>)
    requires |d1| == |d2|
    requires forall i :: 8 <= i < |d1| ==> d1[i] == d2[i]
    ensures Decode(d1) == Decode(d2)
  {
    if |d1| >= MIN_DECODABLE {
      U128AtAgree(d1, d2, 206);
      U128AtAgree(d1, d2, 222);
      U128AtAgree(d1, d2, 238);
      U128AtAgree(d1, d2, 254);
      DecodeAgrees(d1, d2);
    }
  }

  lemma U128AtAgree(d1: seq<byte>, d2: seq<byte>, start: nat)
    requires |d1| == |d2| && forall i :: start <= i < |d1| ==> d1[i] == d2[i]
    ensures U128At(d1, start) == U128At(d2, start)
  {
    assert Slice(d1, start, start + 16) == Slice(d2, start, start + 16);
  }

  /** Bytes past offset 270 never affect the result. */
  lemma DecodeIgnoresTail(data: seq<byte>)
    requires |data| >= LAYOUT_END
    ensures Decode(data) == Decode(data[..LAYOUT_END])
  {
    var short := data[..LAYOUT_END];
    assert data[206..222] == short[206..222];
    assert data[222..238] == short[222..238];
    assert data[238..254] == short[238..254];
    assert data[254..270] == short[254..270];
    DecodeAgrees(data, short);
  }

  /** A buffer of 206 to 269 bytes decodes exactly as if it had been padded
      with zero bytes to the full 270: the clamped slices of the fee fields
      lose only high-order bytes, which read as zero. */
  lemma DecodeTruncated(data: seq<byte>)
    requires MIN_DECODABLE <= |data| < LAYOUT_END
    ensures Decode(data) == Decode(data + Zeros(LAYOUT_END - |data|))
  {
    var n := LAYOUT_END - |data|;
    U128AtZeroPadded(data, n, 206);
    U128AtZeroPadded(data, n, 222);
    U128AtZeroPadded(data, n, 238);
    U128AtZeroPadded(data, n, 254);
    DecodeAgrees(data, data + Zeros(n));
  }

  lemma U128AtZeroPadded(data: seq<byte>, n: nat, start: nat)
    requires start + 16 <= |data| + n
    ensures U128At(data + Zeros(n), start) == U128At(data, start)
  {
    var padded := data + Zeros(n);
    var b := Slice(data, start, start + 16);
    assert padded[start..start + 16] == b + Zeros(16 - |b|);
    LeUnsignedZeroPadded(b, 16 - |b|);
  }

  /** A sequence x + y holds x at its start and y right after it. */
  lemma AppendParts(x: seq<byte>, y: seq<byte>)
    ensures (x + y)[..|x|] == x && (x + y)[|x|..|x| + |y|] == y
  {
  }

  /** A slice inside a known prefix of s is the same slice of that prefix. */
  lemma InPrefix(s: seq<byte>, t: seq<byte>, lo: nat, hi: nat)
    requires lo <= hi <= |t| <= |s| && s[..|t|] == t
    ensures s[lo..hi] == t[lo..hi]
  {
    forall i | 0 <= i < hi - lo
      ensures s[lo..hi][i] == t[lo..hi][i]
    {
      assert s[lo + i] == s[..|t|][lo + i];
    }
  }

  /** The fixed part of the image holds each field at its decoder offset. */
  lemma EncodeFixedSpans(discriminator: seq<byte>, p: PoolData)
    requires |discriminator| == 8 && WellFormed(p)
    ensures Pow256(2) == TWO_16 && Pow256(16) == TWO_128
    ensures var f := EncodeFixed(discriminator, p);
      && f[8..40] == p.tokenMintA && f[40..72] == p.tokenMintB
      && f[72..104] == p.tokenVaultA && f[104..136] == p.tokenVaultB
      && f[136..138] == LeBytes(p.tickSpacing, 2) && f[138..170] == p.tickArrayBitmap
      && f[170..186] == LeBytes(p.liquidity, 16) && f[186..202] == LeBytes(p.sqrtPriceX64, 16)
      && f[202..206] == Int32LeBytes(p.tickCurrent)
  {
    Pow256Widths();
    var e1 := discriminator + p.tokenMintA;
    var e2 := e1 + p.tokenMintB;
    var e3 := e2 + p.tokenVaultA;
    var e4 := e3 + p.tokenVaultB;
    var e5 := e4 + LeBytes(p.tickSpacing, 2);
    var e6 := e5 + p.tickArrayBitmap;
    var e7 := e6 + LeBytes(p.liquidity, 16);
    var e8 := e7 + LeBytes(p.sqrtPriceX64, 16);
    var f := e8 + Int32LeBytes(p.tickCurrent);
    assert f == EncodeFixed(discriminator, p);
    AppendParts(e8, Int32LeBytes(p.tickCurrent));
    AppendParts(e7, LeBytes(p.sqrtPriceX64, 16));
    InPrefix(f, e8, 186, 202);
    InPrefix(f, e8, 0, 186);
    AppendParts(e6, LeBytes(p.liquidity, 16));
    InPrefix(f, e7, 170, 186);
    InPrefix(f, e7, 0, 170);
    AppendParts(e5, p.tickArrayBitmap);
    InPrefix(f, e6, 138, 170);
    InPrefix(f, e6, 0, 138);
    AppendParts(e4, LeBytes(p.tickSpacing, 2));
    InPrefix(f, e5, 136, 138);
    InPrefix(f, e5, 0, 136);
    AppendParts(e3, p.tokenVaultB);
    InPrefix(f, e4, 104, 136);
    InPrefix(f, e4, 0, 104);
    AppendParts(e2, p.tokenVaultA);
    InPrefix(f, e3, 72, 104);
    InPrefix(f, e3, 0, 72);
    AppendParts(e1, p.tokenMintB);
    InPrefix(f, e2, 40, 72);
    InPrefix(f, e2, 0, 40);
    AppendParts(discriminator, p.tokenMintA);
    InPrefix(f, e1, 8, 40);
  }

  /** The image is the fixed part followed by the four fee fields. */
  lemma EncodeSpans(discriminator: seq<byte>, p: PoolData)
    requires |discriminator| == 8 && WellFormed(p)
    ensures Pow256(16) == TWO_128
    ensures var e := Encode(discriminator, p);
      && e[..MIN_DECODABLE] == EncodeFixed(discriminator, p)
      && e[206..222] == LeBytes(p.feeGrowthGlobalA, 16) && e[222..238] == LeBytes(p.feeGrowthGlobalB, 16)
      && e[238..254] == LeBytes(p.protocolFeesTokenA, 16) && e[254..270] == LeBytes(p.protocolFeesTokenB, 16)
  {
    Pow256Widths();
    var f := EncodeFixed(discriminator, p);
    var e1 := f + LeBytes(p.feeGrowthGlobalA, 16);
    var e2 := e1 + LeBytes(p.feeGrowthGlobalB, 16);
    var e3 := e2 + LeBytes(p.protocolFeesTokenA, 16);
    var e := e3 + LeBytes(p.protocolFeesTokenB, 16);
    assert e == Encode(discriminator, p);
    AppendParts(e3, LeBytes(p.protocolFeesTokenB, 16));
    AppendParts(e2, LeBytes(p.protocolFeesTokenA, 16));
    InPrefix(e, e3, 238, 254);
    InPrefix(e, e3, 0, 238);
    AppendParts(e1, LeBytes(p.feeGrowthGlobalB, 16));
    InPrefix(e, e2, 222, 238);
    InPrefix(e, e2, 0, 222);
    AppendParts(f, LeBytes(p.feeGrowthGlobalA, 16));
    InPrefix(e, e1, 206, 222);
    InPrefix(e, e1, 0, 206);
  }

  /** Encoding a well-formed record under the offset table and decoding the
      result gives the record back. */
  lemma DecodeEncode(discriminator: seq<byte>, p: PoolData)
    requires |discriminator| == 8 && WellFormed(p)
    ensures Decode(Encode(discriminator, p)) == Success(p)
  {
    var e := Encode(discriminator, p);
    var f := EncodeFixed(discriminator, p);
    Pow256Widths();
    EncodeSpans(discriminator, p);
    EncodeFixedSpans(discriminator, p);
    InPrefix(e, f, 8, 40);
    InPrefix(e, f, 40, 72);
    InPrefix(e, f, 72, 104);
    InPrefix(e, f, 104, 136);
    InPrefix(e, f, 136, 138);
    InPrefix(e, f, 138, 170);
    InPrefix(e, f, 170, 186);
    InPrefix(e, f, 186, 202);
    InPrefix(e, f, 202, 206);
    LeUnsignedOfLeBytes(p.tickSpacing, 2);
    LeUnsignedOfLeBytes(p.liquidity, 16);
    LeUnsignedOfLeBytes(p.sqrtPriceX64, 16);
    LeUnsignedOfLeBytes(ToTwosComplement32(p.tickCurrent), 4);
    LeUnsignedOfLeBytes(p.feeGrowthGlobalA, 16);
    LeUnsignedOfLeBytes(p.feeGrowthGlobalB, 16);
    LeUnsignedOfLeBytes(p.protocolFeesTokenA, 16);
    LeUnsignedOfLeBytes(p.protocolFeesTokenB, 16);
    DecodeFixedSpans(e);
    DecodeFeeSpans(e);
    ReadUInt16LEBytes(e, 136);
  }

  lemma ReadUInt16LEBytes(s: seq<byte>, offset: nat)
    requires offset + 2 <= |s|
    ensures LeUnsigned(s[offset..offset + 2]) == s[offset] as int + 256 * s[offset + 1] as int
  {
    var r := ReadUInt16LE(s, offset);
  }

  /** Slices that meet end to end join into one slice. */
  lemma JoinSlices(s: seq<byte>, j: nat, k: nat)
    requires j <= k <= |s|
    ensures s[..j] + s[j..k] == s[..k]
  {
  }

  /** Decoding the first 270 bytes and encoding the record with the same
      discriminator reproduces those bytes: within the layout the decoder
      loses no information. */
  lemma EncodeDecode(data: seq<byte>)
    requires |data| >= LAYOUT_END
    ensures Decode(data).Success?
    ensures Encode(data[..8], Decode(data).value) == data[..LAYOUT_END]
  {
    var p := Decode(data).value;
    DecodeFixedSpans(data);
    DecodeFeeSpans(data);
    Pow256Widths();
    LeBytesOfLeUnsigned(data[136..138]);
    ReadUInt16LEBytes(data, 136);
    LeBytesOfLeUnsigned(data[170..186]);
    LeBytesOfLeUnsigned(data[186..202]);
    LeBytesOfLeUnsigned(data[202..206]);
    TwosComplementInverse(LeUnsigned(data[202..206]));
    LeBytesOfLeUnsigned(data[206..222]);
    LeBytesOfLeUnsigned(data[222..238]);
    LeBytesOfLeUnsigned(data[238..254]);
    LeBytesOfLeUnsigned(data[254..270]);
    assert Int32LeBytes(p.tickCurrent) == data[202..206];
    JoinSlices(data, 8, 40);
    JoinSlices(data, 40, 72);
    JoinSlices(data, 72, 104);
    JoinSlices(data, 104, 136);
    JoinSlices(data, 136, 138);
    JoinSlices(data, 138, 170);
    JoinSlices(data, 170, 186);
    JoinSlices(data, 186, 202);
    JoinSlices(data, 202, 206);
    JoinSlices(data, 206, 222);
    JoinSlices(data, 222, 238);
    JoinSlices(data, 238, 254);
    JoinSlices(data, 254, 270);
  }

  /** Bytes 01 00 at offset 136 give tick spacing 1; bytes 00 01 give 256. */
  lemma TickSpacingExamples(data: seq<byte>)
    requires |data| >= MIN_DECODABLE
    ensures data[136] == 1 && data[137] == 0 ==> Decode(data).value.tickSpacing == 1
    ensures data[136] == 0 && data[137] == 1 ==> Decode(data).value.tickSpacing == 256
  {
    DecodeFixedSpans(data);
  }

  /** The price `calculatePrice` computes before converting to a number:
      floor(sqrtPriceX64^2 / 2^128), as an exact integer. */
  function Price(sqrtPriceX64: nat): nat {
    sqrtPriceX64 * sqrtPriceX64 / TWO_128
  }

  /** `BN.toNumber` fails with "Number can only safely store up to 53 bits". */
  datatype PriceError = UnsafeNumber

  /** `PoolDataLayout.calculatePrice`: the floor of sqrtPriceX64^2 / 2^128,
      or a failure when that quotient needs more than 53 bits. */
  function CalculatePrice(sqrtPriceX64: nat): (r: Result<nat, PriceError>)
    ensures r.Success? <==> Price(sqrtPriceX64) < TWO_53
    ensures r.Success? ==>
      r.value * TWO_128 <= sqrtPriceX64 * sqrtPriceX64 < (r.value + 1) * TWO_128
  {
    var price := Price(sqrtPriceX64);
    if price < TWO_53 then Success(price) else Failure(UnsafeNumber)
  }

  /** A square-root price below 1.0 in Q64 (2^64) gives price 0. */
  lemma PriceBelowOne(s: nat)
    requires s < TWO_64
    ensures Price(s) == 0
  {
    assert s * s <= s * TWO_64 by { MulLeft(s, s, TWO_64); }
    assert s * TWO_64 < TWO_64 * TWO_64 by { MulLeft(TWO_64, s, TWO_64); }
  }

  /** 1.0 in Q64 gives price 1. */
  lemma PriceAtOne()
    ensures Price(TWO_64) == 1
  {
  }

  /** The price never decreases as the square-root price grows. */
  lemma PriceMonotone(s1: nat, s2: nat)
    requires s1 <= s2
    ensures Price(s1) <= Price(s2)
  {
    MulLeft(s1, s1, s2);
    MulLeft(s2, s1, s2);
    DivMonotone(s1 * s1, s2 * s2);
  }

  /** Every square-root price below 2^90 has a price that fits in 53 bits,
      so `calculatePrice` succeeds. */
  lemma CalculatePriceSucceedsBelow(s: nat)
    requires s < 0x400_0000_0000_0000_0000_0000
    ensures CalculatePrice(s).Success?
  {
    var bound: nat := 0x400_0000_0000_0000_0000_0000;
    PriceMonotone(s, bound);
    assert Price(bound) == 0x10_0000_0000_0000;
  }

  lemma MulLeft(k: nat, a: nat, b: nat)
    requires a <= b
    ensures k * a <= k * b
  {
  }

  lemma DivMonotone(a: nat, b: nat)
    requires a <= b
    ensures a / TWO_128 <= b / TWO_128
  {
    var q1, q2 := a / TWO_128, b / TWO_128;
    assert q1 * TWO_128 <= a;
    assert b < (q2 + 1) * TWO_128;
  }

  /** What `formatForLogging` keeps of a record; the addresses stay bytes and
      the liquidity a number instead of their printed forms. */
  datatype LogView = LogView(tokenA: Address, tokenB: Address, liquidity: nat, currentTick: int, price: nat)

  /** `PoolDataLayout.formatForLogging`: the two mints, the liquidity, the
      current tick and the price; fails exactly when the price does. */
  function FormatForLogging(p: PoolData): (r: Result<LogView, PriceError>)
    ensures r.Success? <==> CalculatePrice(p.sqrtPriceX64).Success?
    ensures r.Success? ==>
      && r.value.tokenA == p.tokenMintA && r.value.tokenB == p.tokenMintB
      && r.value.liquidity == p.liquidity
      && r.value.currentTick == p.tickCurrent
      && r.value.price == Price(p.sqrtPriceX64)
  {
    var price :- CalculatePrice(p.sqrtPriceX64);
    Success(LogView(
      tokenA := p.tokenMintA,
      tokenB := p.tokenMintB,
      liquidity := p.liquidity,
      currentTick := p.tickCurrent,
      price := price))
  }

  /** From raw bytes to the log line: for a buffer that decodes and whose
      square-root price is below 2^90, the logged tick is the signed value of
      bytes 202-206 and the logged price is computed from bytes 186-202. */
  lemma LogViewOfBytes(data: seq<byte>)
    requires |data| >= MIN_DECODABLE
    requires LeUnsigned(data[186..202]) < 0x400_0000_0000_0000_0000_0000
    ensures Decode(data).Success?
    ensures FormatForLogging(Decode(data).value) == Success(LogView(
      data[8..40], data[40..72], LeUnsigned(data[170..186]),
      FromTwosComplement32(LeUnsigned(data[202..206])),
      Price(LeUnsigned(data[186..202]))))
  {
    DecodeFixedSpans(data);
    CalculatePriceSucceedsBelow(LeUnsigned(data[186..202]));
  }
}
