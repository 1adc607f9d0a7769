/** The two wide-integer codecs: a two-bit mode in the first byte says how many bytes follow. */
module WideCodec {
  import opened Basics
  import opened Codec

  // ---------------------------------------------------------------------------------------------
  // Compact big-endian form
  // ---------------------------------------------------------------------------------------------

  function LeadingZeros(bytes: Bytes): (n: nat)
    ensures n <= |bytes|
    ensures forall i :: 0 <= i < n ==> bytes[i] == 0
    ensures n < |bytes| ==> bytes[n] != 0
  {
    if bytes == [] || bytes[0] != 0 then 0 else 1 + LeadingZeros(bytes[1..])
  }

  /** The 32 big-endian bytes of a value without their leading zeros. */
  function Compact(value: nat): (c: Bytes)
    ensures |c| <= 32 && (c != [] ==> c[0] != 0)
  {
    var bytes := BigEndian(value, 32);
    bytes[LeadingZeros(bytes)..]
  }

  /** Eight minus the leading zero bits of a byte. */
  function ByteBits(b: Byte): (n: nat)
    ensures n <= 8
    ensures b > 0 ==> n > 0 && Pow2(n - 1) <= b < Pow2(n)
  {
    ByteBitsBounded(b);
    ByteBitsFrom(b)
  }

  function ByteBitsFrom(b: nat): nat {
    if b == 0 then 0 else 1 + ByteBitsFrom(b / 2)
  }

  lemma {:induction false} BitsBracket(b: nat)
    requires b > 0
    ensures ByteBitsFrom(b) > 0 && Pow2(ByteBitsFrom(b) - 1) <= b < Pow2(ByteBitsFrom(b))
  {
    if b > 1 {
      BitsBracket(b / 2);
    } else {
      assert ByteBitsFrom(1) == 1 && Pow2(1) == 2;
    }
  }

  lemma ByteBitsBounded(b: Byte)
    ensures ByteBitsFrom(b) <= 8
    ensures b > 0 ==> ByteBitsFrom(b) > 0 && Pow2(ByteBitsFrom(b) - 1) <= b < Pow2(ByteBitsFrom(b))
  {
    if b > 0 {
      BitsBracket(b);
      Pow2Small();
      Pow2Monotone(8, ByteBitsFrom(b) - 1);
    }
  }

  lemma Pow2Small()
    ensures Pow2(6) == 64 && Pow2(8) == 256
  {
    assert Pow2(4) == 16;
    Pow2Sum(4, 2);
    Pow2Sum(4, 4);
  }

  function BitLen(bytes: Bytes): nat {
    if bytes == [] then 0 else 8 * (|bytes| - 1) + ByteBits(bytes[0])
  }

  lemma {:induction false} Pow256IsPow2(n: nat)
    ensures Pow256(n) == Pow2(8 * n)
  {
    if n > 0 {
      Pow256IsPow2(n - 1);
      Pow2Small();
      Pow2Sum(8, 8 * (n - 1));
    }
  }

  /** Zeros in front do not change a big-endian number. */
  lemma {:induction false} ZerosInFront(bytes: Bytes, n: nat)
    requires n <= |bytes| && forall i :: 0 <= i < n ==> bytes[i] == 0
    ensures FromBigEndian(bytes) == FromBigEndian(bytes[n..])
  {
    if n == 0 {
      assert bytes[0..] == bytes;
    } else {
      ZerosInFront(bytes[1..], n - 1);
      assert bytes[1..][n - 1..] == bytes[n..];
    }
  }

  lemma CompactIsValue(value: nat)
    requires value < Pow256(32)
    ensures FromBigEndian(Compact(value)) == value
  {
    hide Pow256, BigEndian, FromBigEndian;
    var bytes := BigEndian(value, 32);
    BigEndianRoundTrip(value, 32);
    ZerosInFront(bytes, LeadingZeros(bytes));
  }

  /** A big-endian number without leading zeros lies just below two to its bit length. */
  lemma BitLenBrackets(c: Bytes)
    requires c != [] && c[0] != 0
    ensures BitLen(c) > 0 && Pow2(BitLen(c) - 1) <= FromBigEndian(c) < Pow2(BitLen(c))
  {
    hide Pow2, Pow256, ByteBits;
    var n, k := |c| - 1, ByteBits(c[0]);
    FromBigEndianBounded(c[1..]);
    Pow256IsPow2(n);
    Pow2Sum(k - 1, 8 * n);
    Pow2Sum(k, 8 * n);
    Bracketed(c[0], FromBigEndian(c[1..]), Pow2(k - 1), Pow2(k), Pow256(n));
  }

  /** A leading digit between two bounds keeps the whole number between their multiples. */
  lemma Bracketed(digit: nat, rest: nat, low: nat, high: nat, unit: nat)
    requires low <= digit < high && rest < unit
    ensures low * unit <= digit * unit + rest < high * unit
  {
    MulMonotone(low, digit, unit);
    MulMonotone(digit + 1, high, unit);
  }

  /** The bit length fits a bound exactly when the value does. */
  lemma BitLenFits(value: nat, bits: nat)
    requires value < Pow256(32)
    ensures BitLen(Compact(value)) <= bits <==> value < Pow2(bits)
  {
    hide Pow2, Pow256, BigEndian, Compact;
    CompactIsValue(value);
    var c := Compact(value);
    if c != [] {
      BitLenBrackets(c);
      if BitLen(c) <= bits {
        Pow2Monotone(BitLen(c), bits);
      } else {
        Pow2Monotone(bits, BitLen(c) - 1);
      }
    }
  }

  // ---------------------------------------------------------------------------------------------
  // Payloads of a given width
  // ---------------------------------------------------------------------------------------------

  /** The compact bytes right-aligned in `width` bytes, the mode in the two top bits of the first. */
  function ModePayload(compact: Bytes, width: nat, mode: nat): Result<Bytes>
    requires mode < 4
  {
    if |compact| > width || width == 0 then
      Err(Overflow)
    else
      var payload := Zeros(width - |compact|) + compact;
      if payload[0] >= 64 then Err(Overflow) else Ok([payload[0] + 64 * mode] + payload[1..])
  }

  function Zeros(n: nat): (z: Bytes)
    ensures |z| == n && forall i :: 0 <= i < n ==> z[i] == 0
  {
    if n == 0 then [] else [0] + Zeros(n - 1)
  }

  /** The number in `width` bytes at `offset`, the two top bits cleared. */
  function FromPayload(data: Bytes, offset: nat, width: nat): nat
    requires width > 0 && offset + width <= |data|
  {
    FromBigEndian([data[offset] % 64] + data[offset + 1..offset + width])
  }

  /** A value of at most `8 * width - 2` bits has a payload, which reads back and shows its mode. */
  lemma PayloadRoundTrip(value: nat, width: nat, mode: nat)
    requires width > 0 && mode < 4 && value < Pow256(32) && value < Pow2(8 * width - 2)
    ensures ModePayload(Compact(value), width, mode).Ok?
    ensures var p := ModePayload(Compact(value), width, mode).value;
      |p| == width && p[0] / 64 == mode && FromPayload(p, 0, width) == value
  {
    hide Compact, FromBigEndian, Pow2, Pow256;
    var c := Compact(value);
    CompactIsValue(value);
    CompactFits(value, width);
    var payload := Zeros(width - |c|) + c;
    ZerosInFront(payload, width - |c|);
    assert payload[width - |c|..] == c;
    TopBitsFree(payload);
    ModeComesOff(payload, mode);
  }

  /** The mode in the two top bits leaves the rest of the first byte readable. */
  lemma ModeComesOff(payload: Bytes, mode: nat)
    requires payload != [] && payload[0] < 64 && mode < 4
    ensures var p := [payload[0] + 64 * mode] + payload[1..];
      p[0] / 64 == mode && [p[0] % 64] + p[1..|p|] == payload
  {
    var p := [payload[0] + 64 * mode] + payload[1..];
    assert p[1..|p|] == payload[1..];
  }

  lemma CompactFits(value: nat, width: nat)
    requires width > 0 && value < Pow256(32) && value < Pow2(8 * width - 2)
    ensures |Compact(value)| <= width
  {
    hide Pow2, Pow256, Compact;
    BitLenFits(value, 8 * width - 2);
  }

  lemma TopBitsFree(payload: Bytes)
    requires payload != [] && FromBigEndian(payload) < Pow2(8 * |payload| - 2)
    ensures payload[0] < 64
  {
    var n := |payload| - 1;
    Pow256IsPow2(n);
    Pow2Small();
    Pow2Sum(6, 8 * n);
    if payload[0] >= 64 {
      MulMonotone(64, payload[0], Pow256(n));
    }
  }

  lemma PayloadAnywhere(data: Bytes, offset: nat, p: Bytes)
    requires p != [] && StandsAt(data, offset, p)
    ensures data[offset] == p[0] && FromPayload(data, offset, |p|) == FromPayload(p, 0, |p|)
  {
    assert data[offset..offset + |p|][0] == data[offset];
    assert data[offset + 1..offset + |p|] == data[offset..offset + |p|][1..] == p[1..] == p[1..|p|];
  }

  // ---------------------------------------------------------------------------------------------
  // qc8: 8 to 11 bytes
  // ---------------------------------------------------------------------------------------------

  function PutQc8(value: nat): Result<Bytes> {
    var c := Compact(value);
    if BitLen(c) <= 62 then ModePayload(c, 8, 0)
    else if BitLen(c) <= 70 then ModePayload(c, 9, 1)
    else if BitLen(c) <= 78 then ModePayload(c, 10, 2)
    else if BitLen(c) <= 86 then ModePayload(c, 11, 3)
    else Err(Overflow)
  }

  function ReadQc8(data: Bytes, offset: nat): Result<Read<nat>> {
    if offset >= |data| then
      Err(OutOfBounds)
    else
      var width := 8 + data[offset] / 64;
      if offset + width > |data| then
        Err(OutOfBounds)
      else
        Ok(Read(FromPayload(data, offset, width), offset + width))
  }

  /** A value is written exactly when it is below 2^86, and reads back past exactly the bytes written. */
  lemma Qc8RoundTrip(value: nat, data: Bytes, offset: nat)
    requires value < Pow256(32)
    ensures PutQc8(value).Ok? <==> value < Pow2(86)
    ensures PutQc8(value).Ok? && StandsAt(data, offset, PutQc8(value).value) ==>
      ReadQc8(data, offset) == Ok(Read(value, offset + |PutQc8(value).value|))
  {
    hide Compact, ModePayload, BitLen, FromPayload, Pow2, Pow256;
    BitLenFits(value, 62);
    BitLenFits(value, 70);
    BitLenFits(value, 78);
    BitLenFits(value, 86);
    if value < Pow2(86) {
      var mode := if value < Pow2(62) then 0 else if value < Pow2(70) then 1 else if value < Pow2(78) then 2 else 3;
      PayloadRoundTrip(value, 8 + mode, mode);
      var p := PutQc8(value).value;
      if StandsAt(data, offset, p) {
        PayloadAnywhere(data, offset, p);
      }
    }
  }

  // ---------------------------------------------------------------------------------------------
  // qc5e: one byte naming a frequent value, or 5 to 7 bytes
  // ---------------------------------------------------------------------------------------------

  datatype Qc5e = Enum(index: nat) | Integer(value: nat)

  const GAS_LIMIT_LOW: nat := 30_000_000
  const GAS_LIMIT_HIGH: nat := 60_000_000
  const CORE_BASE_PRICE: nat := 1_000_000_000
  const ESPACE_BASE_PRICE: nat := 20_000_000_000

  function GasLimitEnum(value: nat): Option<nat> {
    if value == GAS_LIMIT_LOW then Some(1)
    else if value == GAS_LIMIT_HIGH then Some(2)
    else if value == 0 then Some(0)
    else None
  }

  function GasLimit(q: Qc5e): nat {
    match q
    case Enum(i) => if i == 1 then GAS_LIMIT_LOW else if i == 2 then GAS_LIMIT_HIGH else 0
    case Integer(v) => v
  }

  function DefaultBasePrice(espace: bool): nat {
    if espace then ESPACE_BASE_PRICE else CORE_BASE_PRICE
  }

  function BasePriceEnum(value: nat, espace: bool): Option<nat> {
    if value == 0 then Some(0) else if value == DefaultBasePrice(espace) then Some(1) else None
  }

  function BasePrice(q: Qc5e, espace: bool): nat {
    match q
    case Enum(i) => if i == 1 then DefaultBasePrice(espace) else 0
    case Integer(v) => v
  }

  function PutQc5e(value: nat, index: Option<nat>): Result<Bytes> {
    match index
    case Some(i) => if i < 64 then Ok([i]) else Err(Overflow)
    case None =>
      var c := Compact(value);
      if BitLen(c) <= 38 then ModePayload(c, 5, 1)
      else if BitLen(c) <= 46 then ModePayload(c, 6, 2)
      else if BitLen(c) <= 54 then ModePayload(c, 7, 3)
      else Err(Overflow)
  }

  function PutGasLimit(value: nat): Result<Bytes> {
    PutQc5e(value, GasLimitEnum(value))
  }

  function PutBasePrice(value: nat, espace: bool): Result<Bytes> {
    PutQc5e(value, BasePriceEnum(value, espace))
  }

  function ReadQc5e(data: Bytes, offset: nat): Result<Read<Qc5e>> {
    if offset >= |data| then
      Err(OutOfBounds)
    else
      var mode := data[offset] / 64;
      if mode == 0 then
        Ok(Read(Enum(data[offset] % 64), offset + 1))
      else if offset + 4 + mode > |data| then
        Err(OutOfBounds)
      else
        Ok(Read(Integer(FromPayload(data, offset, 4 + mode)), offset + 4 + mode))
  }

  /** Whether written as an index or as an integer, the same thing is read back. */
  lemma Qc5eReadsBack(value: nat, index: Option<nat>, data: Bytes, offset: nat)
    requires value < Pow256(32) && (index.Some? ==> index.value < 64)
    ensures PutQc5e(value, index).Ok? <==> index.Some? || value < Pow2(54)
    ensures PutQc5e(value, index).Ok? && StandsAt(data, offset, PutQc5e(value, index).value) ==>
      ReadQc5e(data, offset) == Ok(Read(if index.Some? then Enum(index.value) else Integer(value),
                                        offset + |PutQc5e(value, index).value|))
  {
    hide Compact, ModePayload, BitLen, FromPayload, Pow2, Pow256;
    BitLenFits(value, 38);
    BitLenFits(value, 46);
    BitLenFits(value, 54);
    if index.Some? {
      if StandsAt(data, offset, [index.value]) {
        assert data[offset] == data[offset..offset + 1][0];
      }
    } else if value < Pow2(54) {
      var mode := if value < Pow2(38) then 1 else if value < Pow2(46) then 2 else 3;
      PayloadRoundTrip(value, 4 + mode, mode);
      var p := PutQc5e(value, None).value;
      if StandsAt(data, offset, p) {
        PayloadAnywhere(data, offset, p);
      }
    }
  }

  lemma DefaultsFit()
    ensures GAS_LIMIT_HIGH < Pow2(54) && ESPACE_BASE_PRICE < Pow2(54)
  {
    hide Pow2;
    Pow2Small();
    Pow2Sum(8, 8);
    Pow2Sum(16, 16);
    Pow2Sum(32, 16);
    Pow2Sum(48, 6);
  }

  /** What is read back at `offset` is a value that `meaning` maps to `value`, and the reader has passed `part`. */
  ghost predicate ReadsAs(value: nat, meaning: Qc5e -> nat, part: Bytes, data: Bytes, offset: nat) {
    var r := ReadQc5e(data, offset);
    r.Ok? && meaning(r.value.value) == value && r.value.next == offset + |part|
  }

  /** The enum table and the integer form together recover every gas limit below 2^54, and only those are written. */
  lemma GasLimitRoundTrip(value: nat, data: Bytes, offset: nat)
    requires value < Pow256(32)
    ensures PutGasLimit(value).Ok? <==> value < Pow2(54)
    ensures PutGasLimit(value).Ok? && StandsAt(data, offset, PutGasLimit(value).value) ==>
              ReadsAs(value, GasLimit, PutGasLimit(value).value, data, offset)
  {
    hide PutQc5e, ReadQc5e, Pow2, Pow256;
    DefaultsFit();
    Qc5eReadsBack(value, GasLimitEnum(value), data, offset);
  }

  lemma BasePriceRoundTrip(value: nat, espace: bool, data: Bytes, offset: nat)
    requires value < Pow256(32)
    ensures PutBasePrice(value, espace).Ok? <==> value < Pow2(54)
    ensures PutBasePrice(value, espace).Ok? && StandsAt(data, offset, PutBasePrice(value, espace).value) ==>
              ReadsAs(value, q => BasePrice(q, espace), PutBasePrice(value, espace).value, data, offset)
  {
    hide PutQc5e, ReadQc5e, Pow2, Pow256;
    DefaultsFit();
    Qc5eReadsBack(value, BasePriceEnum(value, espace), data, offset);
  }
}
