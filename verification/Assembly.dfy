/** Laying the sections into one buffer, and finding them again through the offset table. */
module Assembly {
  import opened Basics
  import opened Codec
  import opened WideCodec
  import opened PacketModel
  import opened Sections

  // ---------------------------------------------------------------------------------------------
  // The layout
  // ---------------------------------------------------------------------------------------------

  function FixedHeader(h: Header, prefixSize: Byte): (r: Bytes)
    ensures |r| == HEADER_FIXED_LEN
  {
    h.prevLastHash + h.prevLastDeferredStateRoot + LittleEndian(h.firstBlockNumber, 8) + LittleEndian(h.minTimestamp, 8)
      + LittleEndian(h.minHeight, 8) + LittleEndian(h.minPosHeight, 4) + [prefixSize]
  }

  /** The block data that follows the tables. */
  datatype BlockData = BlockData(count: nat, bitmap: Bytes, body: Bytes, txSegment: Bytes)

  /** A section and the padding that aligns the next one. */
  function Aligned(start: nat, section: Bytes, alignment: nat): (r: Bytes)
    requires alignment > 0
    ensures section <= r && (start + |r|) % alignment == 0
  {
    section + Padding(start + |section|, alignment)
  }

  function SectionsOf(t: Tables, b: BlockData): (s: seq<Bytes>)
    ensures |s| == HEADER_OFFSET_COUNT
  {
    var addresses := Concat(t.addresses);
    var posEntries := Concat(PosRows(t.posEntries));
    var difficulties := Concat(WideRows(t.difficulties));
    var nonces := Concat(NonceRows(t.senderBaseNonces));
    var gasStart := HEADER_LEN + |addresses| + |posEntries| + |difficulties| + |nonces|;
    var gasPrices := Aligned(gasStart, Concat(WideRows(t.gasPrices)), 32);
    var headerStart := gasStart + |gasPrices|;
    var blockHeader := Aligned(headerStart, LittleEndian(b.count, 4) + b.bitmap, 32);
    var bodyStart := headerStart + |blockHeader|;
    var body := Aligned(bodyStart, b.body, 64);
    [addresses, posEntries, difficulties, nonces, gasPrices, blockHeader, body, b.txSegment]
  }

  /** Where section `i` starts. */
  function Start(s: seq<Bytes>, i: nat): (n: nat)
    requires i <= |s|
    ensures n >= HEADER_LEN
  {
    if i == 0 then HEADER_LEN else Start(s, i - 1) + |s[i - 1]|
  }

  /** The first `i` section offsets, four bytes each. */
  function OffsetTable(s: seq<Bytes>, i: nat): (r: Bytes)
    requires i <= |s|
    ensures |r| == 4 * i
  {
    if i == 0 then [] else OffsetTable(s, i - 1) + LittleEndian(Start(s, i - 1), 4)
  }

  /** The packet; the offsets must fit 32 bits. */
  function Assembled(h: Header, t: Tables, prefixSize: Byte, b: BlockData): Result<Bytes> {
    var s := SectionsOf(t, b);
    if Start(s, 7) < U32 then
      Ok(FixedHeader(h, prefixSize) + OffsetTable(s, 8) + Concat(s))
    else
      Err(Overflow)
  }

  // ---------------------------------------------------------------------------------------------
  // Writing it step by step
  // ---------------------------------------------------------------------------------------------

  /** Copy `part` over the bytes at `at`. */
  function Overwrite(out: Bytes, at: nat, part: Bytes): (r: Bytes)
    requires at + |part| <= |out|
    ensures |r| == |out|
  {
    out[..at] + part + out[at + |part|..]
  }

  lemma OverwriteZeros(done: Bytes, n: nat, part: Bytes, rest: Bytes)
    requires |part| <= n
    ensures Overwrite(done + Zeros(n) + rest, |done|, part) == (done + part) + Zeros(n - |part|) + rest
  {
    var out := done + Zeros(n) + rest;
    assert out[..|done|] == done;
    assert out[|done| + |part|..] == Zeros(n)[|part|..] + rest;
    assert Zeros(n)[|part|..] == Zeros(n - |part|);
  }

  method AppendRows(before: Bytes, rows: seq<Bytes>) returns (out: Bytes)
    ensures out == before + Concat(rows)
  {
    out := before;
    assert rows[0..] == rows;
    for i := 0 to |rows|
      invariant out + Concat(rows[i..]) == before + Concat(rows)
    {
      ConcatAt(rows, i);
      out := out + rows[i];
    }
  }

  method AppendNonces(before: Bytes, nonces: seq<SenderBaseNonce>) returns (out: Bytes)
    ensures out == before + Concat(NonceRows(nonces))
  {
    hide Uleb;
    out := before;
    ghost var rows := NonceRows(nonces);
    assert rows[0..] == rows;
    for i := 0 to |nonces|
      invariant out + Concat(rows[i..]) == before + Concat(rows)
    {
      ConcatAt(rows, i);
      out := PutUleb128(out, nonces[i].senderIndex);
      out := PutUleb128(out, nonces[i].baseNonce);
    }
  }

  method AlignTo(before: Bytes, align: nat) returns (out: Bytes)
    requires align > 0
    ensures out == before + Padding(|before|, align)
  {
    var pad := (align - |before| % align) % align;
    out := before + Zeros(pad);
  }

  method WriteFixedHeader(h: Header, prefixSize: Byte) returns (out: Bytes)
    ensures out == FixedHeader(h, prefixSize) + Zeros(HEADER_LEN - HEADER_FIXED_LEN)
  {
    hide Zeros, LittleEndian, Overwrite;
    out := Zeros(HEADER_LEN);
    ghost var done: Bytes := [];
    assert out == done + Zeros(HEADER_LEN) + [];
    OverwriteZeros(done, 125, h.prevLastHash, []);
    out := Overwrite(out, 0, h.prevLastHash);
    done := done + h.prevLastHash;
    OverwriteZeros(done, 93, h.prevLastDeferredStateRoot, []);
    out := Overwrite(out, 32, h.prevLastDeferredStateRoot);
    done := done + h.prevLastDeferredStateRoot;
    OverwriteZeros(done, 61, LittleEndian(h.firstBlockNumber, 8), []);
    out := Overwrite(out, 64, LittleEndian(h.firstBlockNumber, 8));
    done := done + LittleEndian(h.firstBlockNumber, 8);
    OverwriteZeros(done, 53, LittleEndian(h.minTimestamp, 8), []);
    out := Overwrite(out, 72, LittleEndian(h.minTimestamp, 8));
    done := done + LittleEndian(h.minTimestamp, 8);
    OverwriteZeros(done, 45, LittleEndian(h.minHeight, 8), []);
    out := Overwrite(out, 80, LittleEndian(h.minHeight, 8));
    done := done + LittleEndian(h.minHeight, 8);
    OverwriteZeros(done, 37, LittleEndian(h.minPosHeight, 4), []);
    out := Overwrite(out, 88, LittleEndian(h.minPosHeight, 4));
    done := done + LittleEndian(h.minPosHeight, 4);
    OverwriteZeros(done, 33, [prefixSize], []);
    out := Overwrite(out, 92, [prefixSize]);
    assert done + [prefixSize] == FixedHeader(h, prefixSize);
  }

  lemma StartsAre(s: seq<Bytes>)
    requires |s| == 8
    ensures Start(s, 0) == HEADER_LEN && Start(s, 1) == Start(s, 0) + |s[0]| && Start(s, 2) == Start(s, 1) + |s[1]|
    ensures Start(s, 3) == Start(s, 2) + |s[2]| && Start(s, 4) == Start(s, 3) + |s[3]|
    ensures Start(s, 5) == Start(s, 4) + |s[4]| && Start(s, 6) == Start(s, 5) + |s[5]|
    ensures Start(s, 7) == Start(s, 6) + |s[6]|
  {
  }

  lemma ConcatOfEight(start: Bytes, s: seq<Bytes>)
    requires |s| == 8
    ensures start + s[0] + s[1] + s[2] + s[3] + s[4] + s[5] + s[6] + s[7] == start + Concat(s)
  {
    hide Concat;
    var t1 := start + s[0];
    var t2 := t1 + s[1];
    var t3 := t2 + s[2];
    var t4 := t3 + s[3];
    var t5 := t4 + s[4];
    var t6 := t5 + s[5];
    var t7 := t6 + s[6];
    assert s[0..] == s && s[8..] == [];
    MoveOne(start, s, 0);
    MoveOne(t1, s, 1);
    MoveOne(t2, s, 2);
    MoveOne(t3, s, 3);
    MoveOne(t4, s, 4);
    MoveOne(t5, s, 5);
    MoveOne(t6, s, 6);
    MoveOne(t7, s, 7);
    NothingToConcat();
  }

  lemma MoveOne(before: Bytes, s: seq<Bytes>, i: nat)
    requires i < |s|
    ensures before + Concat(s[i..]) == (before + s[i]) + Concat(s[i + 1..])
  {
    ConcatAt(s, i);
  }

  lemma NothingToConcat()
    ensures Concat([]) == []
  {
  }

  lemma {:induction false} StartsGrow(s: seq<Bytes>, i: nat, j: nat)
    requires i <= j <= |s|
    ensures Start(s, i) <= Start(s, j)
    decreases j
  {
    if i < j {
      StartsGrow(s, i, j - 1);
    }
  }

  /** Write the section offsets over the zeros reserved for them; one that exceeds 32 bits is an error. */
  method BackfillOffsets(ghost header: Bytes, ghost s: seq<Bytes>, offsets: seq<nat>, before: Bytes)
    returns (r: Result<Bytes>)
    requires |header| == HEADER_FIXED_LEN && |s| == |offsets| == 8
    requires forall i :: 0 <= i < 8 ==> offsets[i] == Start(s, i)
    requires before == header + Zeros(HEADER_LEN - HEADER_FIXED_LEN) + Concat(s)
    ensures r == if Start(s, 7) < U32 then Ok(header + OffsetTable(s, 8) + Concat(s)) else Err(Overflow)
  {
    hide Zeros, LittleEndian, Overwrite, Concat, Start;
    var out := before;
    assert header + OffsetTable(s, 0) == header;
    for i := 0 to |offsets|
      invariant out == (header + OffsetTable(s, i)) + Zeros(32 - 4 * i) + Concat(s)
      invariant forall j :: 0 <= j < i ==> offsets[j] < U32
    {
      if offsets[i] >= U32 {
        StartsGrow(s, i, 7);
        return Err(Overflow);
      }
      OverwriteZeros(header + OffsetTable(s, i), 32 - 4 * i, LittleEndian(offsets[i], 4), Concat(s));
      assert (header + OffsetTable(s, i)) + LittleEndian(offsets[i], 4) == header + OffsetTable(s, i + 1);
      out := Overwrite(out, HEADER_FIXED_LEN + i * 4, LittleEndian(offsets[i], 4));
    }
    assert offsets[7] < U32;
    assert Zeros(0) == [];
    assert header + OffsetTable(s, 8) + [] + Concat(s) == header + OffsetTable(s, 8) + Concat(s);
    return Ok(out);
  }

  /** The five tables, each with the offset it starts at, and the offset of what follows. */
  method AppendTables(before: Bytes, t: Tables, ghost b: BlockData) returns (out: Bytes, offsets: seq<nat>)
    requires |before| == HEADER_LEN
    ensures var s := SectionsOf(t, b);
      && out == before + s[0] + s[1] + s[2] + s[3] + s[4]
      && |offsets| == 6 && |out| == offsets[5]
      && forall i :: 0 <= i < 6 ==> offsets[i] == Start(s, i)
  {
    hide Concat, Padding, LittleEndian, PosRows, WideRows, NonceRows, Start;
    StartsAre(SectionsOf(t, b));
    out := before;
    offsets := [|out|];
    out := AppendRows(out, t.addresses);
    offsets := offsets + [|out|];
    out := AppendRows(out, PosRows(t.posEntries));
    offsets := offsets + [|out|];
    out := AppendRows(out, WideRows(t.difficulties));
    offsets := offsets + [|out|];
    out := AppendNonces(out, t.senderBaseNonces);
    offsets := offsets + [|out|];
    out := AppendRows(out, WideRows(t.gasPrices));
    out := AlignTo(out, 32);
    offsets := offsets + [|out|];
  }

  method AppendBlockData(before: Bytes, t: Tables, b: BlockData, tableOffsets: seq<nat>)
    returns (out: Bytes, offsets: seq<nat>)
    requires |tableOffsets| == 6 && |before| == Start(SectionsOf(t, b), 5)
    requires forall i :: 0 <= i < 6 ==> tableOffsets[i] == Start(SectionsOf(t, b), i)
    ensures var s := SectionsOf(t, b);
      && out == before + s[5] + s[6] + s[7]
      && |offsets| == 8
      && forall i :: 0 <= i < 8 ==> offsets[i] == Start(s, i)
  {
    hide Concat, Padding, LittleEndian, PosRows, WideRows, NonceRows, Start;
    StartsAre(SectionsOf(t, b));
    out := before + LittleEndian(b.count, 4);
    out := out + b.bitmap;
    out := AlignTo(out, 32);
    offsets := tableOffsets + [|out|];
    out := out + b.body;
    out := AlignTo(out, 64);
    offsets := offsets + [|out|];
    out := out + b.txSegment;
  }

  method AssemblePacket(h: Header, t: Tables, prefixSize: Byte, b: BlockData) returns (r: Result<Bytes>)
    ensures r == Assembled(h, t, prefixSize, b)
  {
    hide FixedHeader, SectionsOf, Concat, Start;
    var out := WriteFixedHeader(h, prefixSize);
    ghost var start, s := out, SectionsOf(t, b);
    var tables, tableOffsets := AppendTables(out, t, b);
    var all, offsets := AppendBlockData(tables, t, b, tableOffsets);
    ConcatOfEight(start, s);
    r := BackfillOffsets(FixedHeader(h, prefixSize), s, offsets, all);
  }

  // ---------------------------------------------------------------------------------------------
  // Reading it back
  // ---------------------------------------------------------------------------------------------

  /** The eight offsets in the table. */
  function Offsets(data: Bytes): (offsets: seq<nat>)
    requires |data| >= HEADER_LEN
    ensures |offsets| == HEADER_OFFSET_COUNT
  {
    seq(HEADER_OFFSET_COUNT, i requires 0 <= i < HEADER_OFFSET_COUNT =>
      FromLittleEndian(data[HEADER_FIXED_LEN + i * 4..HEADER_FIXED_LEN + i * 4 + 4]))
  }

  /** The offsets do not decrease, start behind the header and stay inside the data. */
  predicate OffsetsOk(offsets: seq<nat>, len: nat) {
    forall i :: 0 <= i < |offsets| ==> OffsetOk(offsets, len, i)
  }

  predicate OffsetOk(offsets: seq<nat>, len: nat, i: nat)
    requires i < |offsets|
  {
    (if i == 0 then HEADER_LEN else offsets[i - 1]) <= offsets[i] <= len
  }

  method ReadOffsets(data: Bytes) returns (offsets: seq<nat>)
    requires |data| >= HEADER_LEN
    ensures offsets == Offsets(data)
  {
    hide FromLittleEndian;
    offsets := [];
    for i := 0 to HEADER_OFFSET_COUNT
      invariant offsets == Offsets(data)[..i]
    {
      var word := FromLittleEndian(data[HEADER_FIXED_LEN + i * 4..HEADER_FIXED_LEN + i * 4 + 4]);
      offsets := offsets + [word];
    }
  }

  method EnsureOffsets(offsets: seq<nat>, len: nat) returns (ok: bool)
    ensures ok == OffsetsOk(offsets, len)
  {
    var previous := HEADER_LEN;
    for i := 0 to |offsets|
      invariant previous == if i == 0 then HEADER_LEN else offsets[i - 1]
      invariant forall j :: 0 <= j < i ==> OffsetOk(offsets, len, j)
    {
      if offsets[i] < previous || offsets[i] > len {
        assert !OffsetOk(offsets, len, i);
        return false;
      }
      previous := offsets[i];
    }
    return true;
  }

  lemma {:induction false} OffsetStands(s: seq<Bytes>, i: nat, n: nat)
    requires i < n <= |s|
    ensures OffsetTable(s, n)[4 * i..4 * i + 4] == LittleEndian(Start(s, i), 4)
    decreases n
  {
    hide LittleEndian, Start;
    var before := OffsetTable(s, n - 1);
    if i < n - 1 {
      OffsetStands(s, i, n - 1);
      assert OffsetTable(s, n)[4 * i..4 * i + 4] == before[4 * i..4 * i + 4];
    }
  }

  lemma {:induction false} SectionStands(data: Bytes, s: seq<Bytes>, i: nat)
    requires i < |s| && StandsAt(data, HEADER_LEN, Concat(s))
    ensures StandsAt(data, Start(s, i), s[i]) && StandsAt(data, Start(s, i), Concat(s[i..]))
    decreases i
  {
    hide StandsAt, Concat;
    ConcatAt(s, i);
    if i == 0 {
      assert s[0..] == s;
    } else {
      SectionStands(data, s, i - 1);
      ConcatAt(s, i - 1);
      StandsInParts(data, Start(s, i - 1), s[i - 1], Concat(s[i..]));
    }
    StandsInParts(data, Start(s, i), s[i], Concat(s[i + 1..]));
  }

  /** The offset table of an assembled packet is valid and leads to each section. */
  lemma SectionsRoundTrip(h: Header, t: Tables, prefixSize: Byte, b: BlockData)
    requires Assembled(h, t, prefixSize, b).Ok?
    ensures var data := Assembled(h, t, prefixSize, b).value; var s := SectionsOf(t, b);
      && |data| >= HEADER_LEN
      && data[..HEADER_FIXED_LEN] == FixedHeader(h, prefixSize)
      && OffsetsOk(Offsets(data), |data|)
      && (forall i :: 0 <= i < 8 ==> Offsets(data)[i] == Start(s, i) && StandsAt(data, Start(s, i), s[i]))
      && (forall i :: 0 <= i < 7 ==> Start(s, i + 1) == Start(s, i) + |s[i]|)
      && Start(s, 7) + |s[7]| == |data|
  {
    hide FixedHeader, SectionsOf, OffsetTable, Concat, Start, LittleEndian, FromLittleEndian;
    var data, s := Assembled(h, t, prefixSize, b).value, SectionsOf(t, b);
    StartsAre(s);
    assert data[HEADER_LEN..] == Concat(s);
    forall i | 0 <= i < 8
      ensures Offsets(data)[i] == Start(s, i) && StandsAt(data, Start(s, i), s[i])
    {
      SectionStands(data, s, i);
      OffsetReadsBack(data, FixedHeader(h, prefixSize), s, i);
    }
    LastSectionEnds(s);
  }

  lemma LastSectionEnds(s: seq<Bytes>)
    requires |s| == 8
    ensures Start(s, 7) + |s[7]| == HEADER_LEN + |Concat(s)|
  {
    hide Concat;
    StartsAre(s);
    ConcatOfEight([], s);
    assert [] + Concat(s) == Concat(s);
  }

  lemma OffsetReadsBack(data: Bytes, header: Bytes, s: seq<Bytes>, i: nat)
    requires |s| == 8 && i < 8 && |header| == HEADER_FIXED_LEN && Start(s, 7) < U32
    requires data == header + OffsetTable(s, 8) + Concat(s)
    ensures Offsets(data)[i] == Start(s, i)
  {
    hide Concat, OffsetTable, LittleEndian, FromLittleEndian, Start;
    OffsetStands(s, i, 8);
    StartsGrow(s, i, 7);
    assert data[HEADER_FIXED_LEN + i * 4..HEADER_FIXED_LEN + i * 4 + 4] == OffsetTable(s, 8)[4 * i..4 * i + 4];
    assert Pow256(4) == U32;
    LittleEndianRoundTrip(Start(s, i), 4);
  }
}
