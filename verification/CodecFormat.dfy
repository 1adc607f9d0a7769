/** The bytes of the integer codecs, digit by digit. */
module CodecFormat {
  import opened Basics
  import opened Codec
  import opened WideCodec

  /** Byte `i` of a little-endian word is worth 256^i. */
  lemma {:induction false} LittleEndianDigit(value: nat, n: nat, i: nat)
    requires i < n
    ensures LittleEndian(value, n)[i] == (value / Pow256(i)) % 256
    decreases n
  {
    if i > 0 {
      LittleEndianDigit(value / 256, n - 1, i - 1);
      DividedTwice(value, 256, Pow256(i - 1));
    }
  }

  /** A big-endian number grows by a factor of 256 with each byte behind it. */
  lemma {:induction false} BigEndianGrows(bytes: Bytes, last: Byte)
    ensures FromBigEndian(bytes + [last]) == 256 * FromBigEndian(bytes) + last
    ensures FromBigEndian([]) == 0
  {
    hide Pow256;
    Pow256IsOne();
    if bytes == [] {
      assert [] + [last] == [last] && [last][1..] == [];
    } else {
      BigEndianGrows(bytes[1..], last);
      assert (bytes + [last])[1..] == bytes[1..] + [last];
      OneMorePower(|bytes| - 1);
      Shifted(bytes[0], Pow256(|bytes| - 1), FromBigEndian(bytes[1..]), last);
    }
  }

  lemma Pow256IsOne()
    ensures Pow256(0) == 1
  {
  }

  lemma OneMorePower(n: nat)
    ensures Pow256(n + 1) == 256 * Pow256(n)
  {
  }

  lemma Shifted(digit: nat, p: nat, rest: nat, last: nat)
    ensures digit * (256 * p) + (256 * rest + last) == 256 * (digit * p + rest) + last
  {
  }

  // ---------------------------------------------------------------------------------------------
  // ULEB128
  // ---------------------------------------------------------------------------------------------

  /** Byte `i` holds seven bits worth 2^(7i), with the high bit set on every byte but the last. */
  lemma {:induction false} UlebDigit(value: nat, i: nat)
    requires i < |Uleb(value)|
    ensures Uleb(value)[i] % 128 == (value / Pow2(7 * i)) % 128
    ensures Uleb(value)[i] >= 128 <==> i < |Uleb(value)| - 1
    decreases i
  {
    if i > 0 {
      UlebDigit(value / 128, i - 1);
      SevenBits(i - 1);
      DividedTwice(value, 128, Pow2(7 * (i - 1)));
    }
  }

  lemma SevenBits(i: nat)
    ensures Pow2(7 * (i + 1)) == 128 * Pow2(7 * i)
  {
    hide Pow2;
    Pow2Is16();
    Pow2Sum(7, 7 * i);
  }

  /** There are no more bytes than the value needs. */
  lemma {:induction false} UlebLength(value: nat)
    ensures value < Pow2(7 * |Uleb(value)|)
    ensures |Uleb(value)| > 1 ==> value >= Pow2(7 * (|Uleb(value)| - 1))
    decreases value
  {
    hide Pow2;
    Pow2Is16();
    Pow2Zero();
    if value >= 128 {
      UlebLength(value / 128);
      SevenBits(|Uleb(value / 128)|);
      SevenBits(|Uleb(value / 128)| - 1);
    }
  }

  /** `n` bytes from `offset`, all but the last with the high bit set. */
  predicate IsRun(data: Bytes, offset: nat, n: nat) {
    && 0 < n && offset + n <= |data| && data[offset + n - 1] < 128
    && forall i :: offset <= i < offset + n - 1 ==> data[i] >= 128
  }

  lemma {:induction false} UlebFromReads(data: Bytes, offset: nat, left: nat, acc: nat)
    requires 0 < left <= 10
    ensures var r := UlebFrom(data, offset, 7 * (10 - left), acc);
      && (r.Ok? ==> offset < r.value.next <= offset + left && IsRun(data, offset, r.value.next - offset))
      && (r.Err? ==> forall n: nat :: n <= left ==> !IsRun(data, offset, n))
    decreases left
  {
    hide Pow2;
    if offset < |data| && data[offset] >= 128 {
      var value := acc + (data[offset] % 128) * Pow2(7 * (10 - left)) % U64;
      if left > 1 {
        UlebFromReads(data, offset + 1, left - 1, value);
        forall n: nat | IsRun(data, offset, n) ensures n > 1 && IsRun(data, offset + 1, n - 1) {
        }
      }
    }
  }

  /** Any data reads as a number exactly if one of the first ten bytes ends a run, and the reader passes that byte. */
  lemma UlebReads(data: Bytes, offset: nat)
    ensures ReadUleb(data, offset).Ok? <==> exists n: nat :: n <= 10 && IsRun(data, offset, n)
    ensures ReadUleb(data, offset).Ok? ==>
      offset < ReadUleb(data, offset).value.next && IsRun(data, offset, ReadUleb(data, offset).value.next - offset)
  {
    hide UlebFrom;
    UlebFromReads(data, offset, 10, 0);
  }

  /** Twice a value that is not negative, and one less than twice the size of one that is. */
  lemma ZigzagNumber(value: int)
    requires IsSigned64(value)
    ensures ZigzagEncode(value) == if value >= 0 then 2 * value else -2 * value - 1
  {
  }

  // ---------------------------------------------------------------------------------------------
  // The wide integers
  // ---------------------------------------------------------------------------------------------

  /** `p` is a big-endian number of `width` bytes with the mode in its two top bits. */
  predicate IsModed(p: Bytes, width: nat, mode: nat, value: nat) {
    |p| == width && width > 0 && p[0] / 64 == mode && FromBigEndian([p[0] % 64] + p[1..]) == value
  }

  lemma ModedPayload(value: nat, width: nat, mode: nat)
    requires width > 0 && mode < 4 && value < Pow256(32) && value < Pow2(8 * width - 2)
    ensures ModePayload(Compact(value), width, mode).Ok?
    ensures IsModed(ModePayload(Compact(value), width, mode).value, width, mode, value)
  {
    hide Compact, ModePayload, FromBigEndian, Pow2, Pow256;
    PayloadRoundTrip(value, width, mode);
    var p := ModePayload(Compact(value), width, mode).value;
    assert p[1..width] == p[1..];
  }

  /** Eight bytes up to 2^62, then one more byte and mode for every eight bits, up to 2^86. */
  lemma Qc8Bytes(value: nat)
    requires value < Pow2(86)
    ensures PutQc8(value).Ok?
    ensures var mode :=
        if value < Pow2(62) then 0 else if value < Pow2(70) then 1 else if value < Pow2(78) then 2 else 3;
      IsModed(PutQc8(value).value, 8 + mode, mode, value)
  {
    hide Compact, ModePayload, BitLen, IsModed, Pow2, Pow256;
    Below256Bits(value);
    BitLenFits(value, 62);
    BitLenFits(value, 70);
    BitLenFits(value, 78);
    BitLenFits(value, 86);
    var mode := if value < Pow2(62) then 0 else if value < Pow2(70) then 1 else if value < Pow2(78) then 2 else 3;
    ModedPayload(value, 8 + mode, mode);
  }

  lemma Below256Bits(value: nat)
    requires value < Pow2(86)
    ensures value < Pow256(32)
  {
    hide Pow2, Pow256;
    Pow256IsPow2(32);
    Pow2Monotone(86, 256);
  }

  /** A named value is its index in one byte; others take five bytes up to 2^38, six up to 2^46 and seven up to 2^54. */
  lemma Qc5eBytes(value: nat)
    requires value < Pow2(54)
    ensures forall i :: 0 <= i < 64 ==> PutQc5e(value, Some(i)) == Ok([i])
    ensures PutQc5e(value, None).Ok?
    ensures var mode := if value < Pow2(38) then 1 else if value < Pow2(46) then 2 else 3;
      IsModed(PutQc5e(value, None).value, 4 + mode, mode, value)
  {
    hide Compact, ModePayload, BitLen, IsModed, Pow2, Pow256;
    Pow2Monotone(54, 86);
    Below256Bits(value);
    BitLenFits(value, 38);
    BitLenFits(value, 46);
    BitLenFits(value, 54);
    var mode := if value < Pow2(38) then 1 else if value < Pow2(46) then 2 else 3;
    ModedPayload(value, 4 + mode, mode);
  }

  /** The named gas limits and base prices. */
  lemma NamedValues(value: nat, espace: bool)
    ensures PutGasLimit(0) == Ok([0]) && PutGasLimit(30_000_000) == Ok([1]) && PutGasLimit(60_000_000) == Ok([2])
    ensures value !in {0, 30_000_000, 60_000_000} ==> PutGasLimit(value) == PutQc5e(value, None)
    ensures PutBasePrice(0, espace) == Ok([0])
    ensures PutBasePrice(1_000_000_000, false) == Ok([1]) && PutBasePrice(20_000_000_000, true) == Ok([1])
    ensures value !in {0, if espace then 20_000_000_000 else 1_000_000_000} ==>
              PutBasePrice(value, espace) == PutQc5e(value, None)
  {
    hide Compact, ModePayload, BitLen;
  }
}
