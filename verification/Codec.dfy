/** The hand-made integer codecs of the packet format: ULEB128, qc8, qc5e with its enum tables, zigzag. */
module Codec {
  import opened Basics

  const U64: nat := 0x1_0000_0000_0000_0000

  /** A value read at an offset, and the offset after it. */
  datatype Read<+T> = Read(value: T, next: nat)

  /** `part` stands in `data` at `offset`. */
  predicate StandsAt(data: Bytes, offset: nat, part: Bytes) {
    offset + |part| <= |data| && data[offset..offset + |part|] == part
  }

  lemma StandsInParts(data: Bytes, offset: nat, a: Bytes, b: Bytes)
    ensures StandsAt(data, offset, a + b) <==> StandsAt(data, offset, a) && StandsAt(data, offset + |a|, b)
  {
    if StandsAt(data, offset, a + b) {
      var w := data[offset..offset + |a + b|];
      assert a == w[..|a|] == data[offset..offset + |a|];
      assert b == w[|a|..] == data[offset + |a|..offset + |a| + |b|];
    }
    if StandsAt(data, offset, a) && StandsAt(data, offset + |a|, b) {
      assert data[offset..offset + |a + b|] == data[offset..offset + |a|] + data[offset + |a|..offset + |a| + |b|];
    }
  }

  lemma StandingPart(data: Bytes, offset: nat, part: Bytes)
    requires StandsAt(data, offset, part)
    ensures offset + |part| <= |data| && data[offset..offset + |part|] == part
  {
  }

  /** `2` to the power `n`. */
  function Pow2(n: nat): (p: nat)
    ensures p > 0
  {
    if n == 0 then 1 else 2 * Pow2(n - 1)
  }

  lemma {:induction false} Pow2Monotone(a: nat, b: nat)
    ensures a <= b ==> Pow2(a) <= Pow2(b)
    ensures a < b ==> Pow2(a) < Pow2(b)
    decreases b
  {
    if a < b {
      Pow2Monotone(a, b - 1);
    }
  }

  lemma {:induction false} Pow2Sum(a: nat, b: nat)
    ensures Pow2(a + b) == Pow2(a) * Pow2(b)
    decreases b
  {
    hide Pow2;
    if b == 0 {
      Pow2Zero();
    } else {
      Pow2Sum(a, b - 1);
      Pow2Double(a + (b - 1));
      Pow2Double(b - 1);
      DoubleOne(Pow2(a), Pow2(b - 1));
    }
  }

  lemma Pow2Zero()
    ensures Pow2(0) == 1
  {
  }

  lemma Pow2Double(n: nat)
    ensures Pow2(n + 1) == 2 * Pow2(n)
  {
  }

  lemma DoubleOne(x: nat, y: nat)
    ensures 2 * (x * y) == x * (2 * y)
  {
  }

  lemma Pow2Is64()
    ensures Pow2(64) == U64
  {
    hide Pow2;
    Pow2Is16();
    Pow2Sum(4, 4);
    Pow2Sum(8, 8);
    Pow2Sum(16, 16);
    Pow2Sum(32, 32);
  }

  lemma Pow2Is16()
    ensures Pow2(4) == 16 && Pow2(7) == 128
  {
    assert Pow2(3) == 8;
  }

  // ---------------------------------------------------------------------------------------------
  // Little-endian words
  // ---------------------------------------------------------------------------------------------

  /** The `n` low bytes of a value, lowest first. */
  function LittleEndian(value: nat, n: nat): (r: Bytes)
    ensures |r| == n
    decreases n
  {
    if n == 0 then [] else [value % 256] + LittleEndian(value / 256, n - 1)
  }

  function FromLittleEndian(bytes: Bytes): nat {
    if bytes == [] then 0 else bytes[0] + 256 * FromLittleEndian(bytes[1..])
  }

  /** `256` to the power `n`. */
  function Pow256(n: nat): (p: nat)
    ensures p > 0
  {
    if n == 0 then 1 else 256 * Pow256(n - 1)
  }

  lemma {:induction false} LittleEndianRoundTrip(value: nat, n: nat)
    requires value < Pow256(n)
    ensures FromLittleEndian(LittleEndian(value, n)) == value
    decreases n
  {
    if n > 0 {
      LittleEndianRoundTrip(value / 256, n - 1);
      assert LittleEndian(value, n)[1..] == LittleEndian(value / 256, n - 1);
    }
  }

  function ReadU32(data: Bytes, offset: nat): Result<nat> {
    if offset + 4 <= |data| then Ok(FromLittleEndian(data[offset..offset + 4])) else Err(OutOfBounds)
  }

  // ---------------------------------------------------------------------------------------------
  // ULEB128
  // ---------------------------------------------------------------------------------------------

  /** Seven bits a byte, lowest first, the high bit marking that more follow. */
  function Uleb(value: nat): (r: Bytes)
    ensures r != []
  {
    if value < 128 then [value] else [value % 128 + 128] + Uleb(value / 128)
  }

  method PutUleb128(out: Bytes, value: nat) returns (r: Bytes)
    ensures r == out + Uleb(value)
  {
    r := out;
    var v := value;
    while true
      invariant r + Uleb(v) == out + Uleb(value)
      decreases v
    {
      var byte := v % 128;
      if v / 128 != 0 {
        byte := byte + 128;
      }
      UlebStep(r, v);
      r := r + [byte];
      if v / 128 == 0 {
        return;
      }
      v := v / 128;
    }
  }

  lemma UlebStep(r: Bytes, v: nat)
    ensures v / 128 == 0 ==> r + Uleb(v) == r + [v % 128]
    ensures v / 128 != 0 ==> r + Uleb(v) == (r + [v % 128 + 128]) + Uleb(v / 128)
  {
  }

  method Uleb128Len(value: nat) returns (len: nat)
    ensures len == |Uleb(value)|
  {
    len := 1;
    var v := value;
    while v >= 0x80
      invariant len - 1 + |Uleb(v)| == |Uleb(value)|
    {
      v := v / 128;
      len := len + 1;
    }
  }

  /** The reader from byte `offset`, with `acc` read so far and the next seven bits going to `shift`. */
  function UlebFrom(data: Bytes, offset: nat, shift: nat, acc: nat): Result<Read<nat>>
    decreases |data| - offset
  {
    if offset >= |data| then
      Err(OutOfBounds)
    else
      var byte := data[offset];
      var value := acc + (byte % 128) * Pow2(shift) % U64;
      if byte < 128 then
        Ok(Read(value, offset + 1))
      else if shift + 7 >= 64 then
        Err(Overflow)
      else
        UlebFrom(data, offset + 1, shift + 7, value)
  }

  function ReadUleb(data: Bytes, offset: nat): Result<Read<nat>> {
    UlebFrom(data, offset, 0, 0)
  }

  method ReadUleb128(data: Bytes, offset: nat) returns (r: Result<Read<nat>>)
    ensures r == ReadUleb(data, offset)
  {
    var shift: nat := 0;
    var value: nat := 0;
    var at := offset;
    while true
      invariant UlebFrom(data, at, shift, value) == ReadUleb(data, offset)
      decreases |data| - at
    {
      if at >= |data| {
        return Err(OutOfBounds);
      }
      var byte := data[at];
      at := at + 1;
      value := value + (byte % 128) * Pow2(shift) % U64;
      if byte < 128 {
        return Ok(Read(value, at));
      }
      shift := shift + 7;
      if shift >= 64 {
        return Err(Overflow);
      }
    }
  }

  /** Reading what was written gives the value back and moves past exactly the bytes written. */
  lemma UlebRoundTrip(data: Bytes, offset: nat, value: nat)
    requires value < U64 && StandsAt(data, offset, Uleb(value))
    ensures ReadUleb(data, offset) == Ok(Read(value, offset + |Uleb(value)|))
  {
    UlebReadsBack(data, offset, 0, 0, value);
  }

  lemma {:induction false} UlebReadsBack(data: Bytes, offset: nat, shift: nat, acc: nat, value: nat)
    requires shift < 64 && value * Pow2(shift) < U64
    requires StandsAt(data, offset, Uleb(value))
    ensures UlebFrom(data, offset, shift, acc) == Ok(Read(acc + value * Pow2(shift), offset + |Uleb(value)|))
    decreases value
  {
    hide Pow2, StandsAt, UlebFrom;
    FirstStands(data, offset, Uleb(value));
    if value < 128 {
      LastGroup(data, offset, shift, acc, value);
    } else {
      var low, high := value % 128, value / 128;
      StandsInParts(data, offset, [low + 128], Uleb(high));
      SevenMoreBits(value, low, high, shift);
      GroupBefore(data, offset, shift, acc, low);
      UlebReadsBack(data, offset + 1, shift + 7, acc + low * Pow2(shift), high);
    }
  }

  lemma FirstStands(data: Bytes, offset: nat, part: Bytes)
    requires part != [] && StandsAt(data, offset, part)
    ensures offset < |data| && data[offset] == part[0]
  {
  }

  lemma LastGroup(data: Bytes, offset: nat, shift: nat, acc: nat, value: nat)
    requires offset < |data| && data[offset] == value < 128 && value * Pow2(shift) < U64
    ensures UlebFrom(data, offset, shift, acc) == Ok(Read(acc + value * Pow2(shift), offset + 1))
  {
    hide Pow2;
  }

  lemma GroupBefore(data: Bytes, offset: nat, shift: nat, acc: nat, low: nat)
    requires offset < |data| && low < 128 && data[offset] == low + 128
    requires low * Pow2(shift) < U64 && shift + 7 < 64
    ensures UlebFrom(data, offset, shift, acc) == UlebFrom(data, offset + 1, shift + 7, acc + low * Pow2(shift))
  {
    hide Pow2;
  }

  lemma SevenMoreBits(value: nat, low: nat, high: nat, shift: nat)
    requires value == 128 * high + low && low < 128 && high > 0
    requires shift < 64 && value * Pow2(shift) < U64
    ensures low * Pow2(shift) < U64 && high * Pow2(shift + 7) < U64
    ensures low * Pow2(shift) + high * Pow2(shift + 7) == value * Pow2(shift)
    ensures shift + 7 < 64
  {
    hide Pow2;
    var p := Pow2(shift);
    Pow2Sum(shift, 7);
    Pow2Is16();
    SplitProduct(high, low, p);
    Regroup(high, p);
    Multiplied(high, Pow2(shift + 7));
    Pow2Is64();
    Pow2Monotone(64, shift + 7);
  }

  lemma SplitProduct(high: nat, low: nat, p: nat)
    ensures (128 * high + low) * p == 128 * (high * p) + low * p
  {
  }

  lemma Regroup(high: nat, p: nat)
    ensures high * (p * 128) == 128 * (high * p)
  {
  }

  lemma Multiplied(a: nat, p: nat)
    requires a > 0
    ensures p <= a * p
  {
  }

  lemma MulMonotone(a: nat, b: nat, p: nat)
    requires a <= b
    ensures a * p <= b * p
  {
  }

  // ---------------------------------------------------------------------------------------------
  // Big-endian integers
  // ---------------------------------------------------------------------------------------------

  function FromBigEndian(bytes: Bytes): nat {
    if bytes == [] then 0 else bytes[0] * Pow256(|bytes| - 1) + FromBigEndian(bytes[1..])
  }

  /** The `n` low bytes of a value, highest first. */
  function BigEndian(value: nat, n: nat): (r: Bytes)
    ensures |r| == n
    decreases n
  {
    if n == 0 then [] else [value / Pow256(n - 1) % 256] + BigEndian(value % Pow256(n - 1), n - 1)
  }

  lemma {:induction false} BigEndianRoundTrip(value: nat, n: nat)
    requires value < Pow256(n)
    ensures FromBigEndian(BigEndian(value, n)) == value
    decreases n
  {
    hide Pow256, BigEndian, FromBigEndian;
    if n == 0 {
      NoBigEndian(value);
    } else {
      TopDigit(value, n);
      BigEndianRoundTrip(value % Pow256(n - 1), n - 1);
      FromTopDigit(value / Pow256(n - 1), BigEndian(value % Pow256(n - 1), n - 1));
      QuotientAndRest(value, Pow256(n - 1));
    }
  }

  lemma NoBigEndian(value: nat)
    requires value < Pow256(0)
    ensures FromBigEndian(BigEndian(value, 0)) == value
  {
  }

  /** The first byte is the quotient by the power below, which fits a byte. */
  lemma TopDigit(value: nat, n: nat)
    requires n > 0 && value < Pow256(n)
    ensures value / Pow256(n - 1) < 256
    ensures BigEndian(value, n) == [value / Pow256(n - 1)] + BigEndian(value % Pow256(n - 1), n - 1)
  {
    hide Pow256, BigEndian;
    var p := Pow256(n - 1);
    QuotientAndRest(value, p);
    Pow256Step(n);
    TopByte(value, p, value / p, value % p);
    BigEndianUnfolds(value, n);
  }

  lemma Pow256Step(n: nat)
    requires n > 0
    ensures Pow256(n) == 256 * Pow256(n - 1)
  {
  }

  lemma BigEndianUnfolds(value: nat, n: nat)
    requires n > 0
    ensures BigEndian(value, n) == [value / Pow256(n - 1) % 256] + BigEndian(value % Pow256(n - 1), n - 1)
  {
    hide Pow256;
  }

  lemma FromTopDigit(digit: Byte, rest: Bytes)
    ensures FromBigEndian([digit] + rest) == digit * Pow256(|rest|) + FromBigEndian(rest)
  {
    hide Pow256;
    assert ([digit] + rest)[1..] == rest;
  }

  lemma QuotientAndRest(value: nat, p: nat)
    requires p > 0
    ensures value == (value / p) * p + value % p && value % p < p
  {
  }

  lemma TopByte(value: nat, p: nat, q: nat, r: nat)
    requires p > 0 && value == q * p + r && r < p && value < 256 * p
    ensures q < 256
  {
    if q >= 256 {
      MulMonotone(256, q, p);
    }
  }

  lemma {:induction false} FromBigEndianBounded(bytes: Bytes)
    ensures FromBigEndian(bytes) < Pow256(|bytes|)
  {
    if bytes != [] {
      FromBigEndianBounded(bytes[1..]);
      MulMonotone(bytes[0], 255, Pow256(|bytes| - 1));
    }
  }

  // ---------------------------------------------------------------------------------------------
  // Zigzag
  // ---------------------------------------------------------------------------------------------

  /** A value reduced to 64 bits, and read as a signed 64-bit integer. */
  function Wrap64(x: int): (r: nat)
    ensures r < U64
  {
    x % U64
  }

  function AsSigned(u: nat): int
    requires u < U64
  {
    if u < U64 / 2 then u else u - U64
  }

  predicate IsSigned64(v: int) {
    -(U64 / 2) <= v < U64 / 2
  }

  /** Shift left by one within 64 bits, and flip every bit when the value is negative. */
  function ZigzagEncode(value: int): nat
    requires IsSigned64(value)
  {
    if value < 0 then U64 - 1 - Wrap64(2 * value) else Wrap64(2 * value)
  }

  /** Shift right by one, and flip every bit when the low bit is set. */
  function ZigzagDecode(value: nat): int
    requires value < U64
  {
    if value % 2 == 1 then -(value / 2) - 1 else value / 2
  }

  /** Zigzag is a bijection of the signed and the unsigned 64-bit integers. */
  lemma ZigzagIsBijective(value: int, code: nat)
    requires IsSigned64(value) && code < U64
    ensures ZigzagEncode(value) < U64 && ZigzagDecode(ZigzagEncode(value)) == value
    ensures IsSigned64(ZigzagDecode(code)) && ZigzagEncode(ZigzagDecode(code)) == code
  {
    assert Wrap64(2 * value) == if value < 0 then 2 * value + U64 else 2 * value;
    var v := ZigzagDecode(code);
    assert Wrap64(2 * v) == if v < 0 then 2 * v + U64 else 2 * v;
  }

  /** What the encoder stores for a height: its wrapping signed distance from the block's epoch. */
  function EncodeEpochOffset(epochHeight: nat, blockEpoch: nat): nat
    requires epochHeight < U64 && blockEpoch < U64
  {
    ZigzagEncode(AsSigned(Wrap64(AsSigned(epochHeight) - AsSigned(blockEpoch))))
  }

  function DecodeEpochOffset(code: nat, blockEpoch: nat): nat
    requires code < U64 && blockEpoch < U64
  {
    Wrap64(AsSigned(blockEpoch) + ZigzagDecode(code))
  }

  /** The signed offset survives for every pair of 64-bit heights, wrapping both ways. */
  lemma EpochOffsetRoundTrip(epochHeight: nat, blockEpoch: nat)
    requires epochHeight < U64 && blockEpoch < U64
    ensures EncodeEpochOffset(epochHeight, blockEpoch) < U64
    ensures DecodeEpochOffset(EncodeEpochOffset(epochHeight, blockEpoch), blockEpoch) == epochHeight
  {
    hide ZigzagEncode, ZigzagDecode, Wrap64, AsSigned;
    var a, b := AsSigned(epochHeight), AsSigned(blockEpoch);
    WrapIsSigned(epochHeight);
    WrapIsSigned(Wrap64(a - b));
    ZigzagIsBijective(AsSigned(Wrap64(a - b)), 0);
    WrapAddsBack(a, b);
  }

  lemma WrapIsSigned(u: nat)
    requires u < U64
    ensures IsSigned64(AsSigned(u)) && Wrap64(AsSigned(u)) == u
  {
  }

  /** Adding a wrapped difference back gives the same word. */
  lemma WrapAddsBack(a: int, b: int)
    ensures Wrap64(a - b) < U64 && Wrap64(b + AsSigned(Wrap64(a - b))) == Wrap64(a)
  {
    var d := Wrap64(a - b);
    var k := (a - b) / U64;
    assert a - b == k * U64 + d;
    assert AsSigned(d) == d || AsSigned(d) == d - U64;
  }
}
