/** The transaction segment: payloads one behind another at four-byte units, long ones compressed. */
module TxSegment {
  import opened Basics
  import opened Bits
  import opened Codec
  import opened PacketModel
  import opened Sections
  import opened TxPayload

  const COMPRESS_ABOVE: nat := 512

  predicate IsCompressed(payload: Bytes) {
    |payload| > COMPRESS_ABOVE
  }

  /** The flags as they are written: the two transaction bits say what the payload is. */
  function WrittenFlags(flags: Byte, payload: Bytes): (r: Byte)
    ensures Bit(r, HAS_TRANSACTIONS) == (payload != [])
    ensures Bit(r, TX_COMPRESSED) == IsCompressed(payload)
    ensures forall k: nat :: k < 8 && k != HAS_TRANSACTIONS && k != TX_COMPRESSED ==> Bit(r, k) == Bit(flags, k)
  {
    var cleared := ClearBit(ClearBit(flags, HAS_TRANSACTIONS), TX_COMPRESSED);
    if payload == [] then
      cleared
    else if IsCompressed(payload) then
      SetBit(SetBit(cleared, HAS_TRANSACTIONS), TX_COMPRESSED)
    else
      SetBit(cleared, HAS_TRANSACTIONS)
  }

  function Stored(w: Wire, payload: Bytes): Bytes {
    if IsCompressed(payload) then w.compress(payload) else payload
  }

  /** A payload behind its length. */
  function Framed(w: Wire, payload: Bytes): (r: Bytes)
    ensures r != []
  {
    Uleb(|Stored(w, payload)|) + Stored(w, payload)
  }

  function ToUnit(segment: Bytes): (r: Bytes)
    ensures segment <= r && |r| % 4 == 0
  {
    segment + Padding(|segment|, 4)
  }

  /** The segment once the first `n` payloads have been appended. */
  function Segment(w: Wire, payloads: seq<Bytes>, n: nat): Bytes
    requires n <= |payloads|
  {
    if n == 0 then
      []
    else
      var before := Segment(w, payloads, n - 1);
      var payload := payloads[n - 1];
      if payload == [] then before else ToUnit(before) + Framed(w, payload)
  }

  /** Where payload `k` starts, in units of four bytes; zero if there is none. */
  function Units(w: Wire, payloads: seq<Bytes>, k: nat): nat
    requires k < |payloads|
  {
    if payloads[k] == [] then 0 else |ToUnit(Segment(w, payloads, k))| / 4
  }

  lemma {:induction false} SegmentGrows(w: Wire, payloads: seq<Bytes>, k: nat, n: nat)
    requires k <= n <= |payloads|
    ensures Segment(w, payloads, k) <= Segment(w, payloads, n)
    decreases n
  {
    hide ToUnit, Framed;
    if k < n {
      SegmentGrows(w, payloads, k, n - 1);
    }
  }

  /** A payload is in the finished segment where its units say. */
  lemma PayloadStands(w: Wire, payloads: seq<Bytes>, k: nat)
    requires k < |payloads| && payloads[k] != []
    ensures StandsAt(Segment(w, payloads, |payloads|), 4 * Units(w, payloads, k), Framed(w, payloads[k]))
  {
    hide ToUnit, Framed;
    var at := ToUnit(Segment(w, payloads, k));
    SegmentGrows(w, payloads, k + 1, |payloads|);
    var all := Segment(w, payloads, |payloads|);
    var upTo := Segment(w, payloads, k + 1);
    assert upTo == at + Framed(w, payloads[k]);
    assert all[|at|..|upTo|] == upTo[|at|..] == Framed(w, payloads[k]);
    assert 4 * Units(w, payloads, k) == |at|;
  }

  lemma WithinInParts(data: Bytes, start: nat, segment: Bytes, at: nat, part: Bytes)
    requires StandsAt(data, start, segment) && StandsAt(segment, at, part)
    ensures StandsAt(data, start + at, part)
  {
    var a, b := segment[..at], segment[at + |part|..];
    assert segment == a + (part + b);
    StandsInParts(data, start, a, part + b);
    StandsInParts(data, start + at, part, b);
  }

  lemma StoredReadsBack(w: Wire, payload: Bytes)
    requires RoundTrips(w)
    ensures (if IsCompressed(payload) then w.decompress(Stored(w, payload)) else Ok(Stored(w, payload))) == Ok(payload)
  {
  }

  /** Reading at a block's units with its written flags gives its payload back. */
  lemma PayloadReadsBack(w: Wire, payloads: seq<Bytes>, k: nat, flags: Byte, data: Bytes, start: nat)
    requires RoundTrips(w) && k < |payloads| && payloads[k] != [] && IsU64(|data|)
    requires StandsAt(data, start, Segment(w, payloads, |payloads|))
    ensures PayloadAt(w, data, start, Units(w, payloads, k), WrittenFlags(flags, payloads[k])) == Ok(payloads[k])
  {
    hide Uleb, ReadUleb, Segment, Units, WrittenFlags, RoundTrips, Stored, IsCompressed;
    StoredReadsBack(w, payloads[k]);
    var at := 4 * Units(w, payloads, k);
    var stored := Stored(w, payloads[k]);
    PayloadStands(w, payloads, k);
    WithinInParts(data, start, Segment(w, payloads, |payloads|), at, Framed(w, payloads[k]));
    StandsInParts(data, start + at, Uleb(|stored|), stored);
    UlebRoundTrip(data, start + at, |stored|);
  }

  lemma UnitsAreWords(w: Wire, payloads: seq<Bytes>, k: nat)
    requires k < |payloads| && IsU64(|Segment(w, payloads, |payloads|)|)
    ensures IsU64(Units(w, payloads, k))
  {
    hide Segment, ToUnit;
    if payloads[k] != [] {
      PayloadStands(w, payloads, k);
    }
  }
}
