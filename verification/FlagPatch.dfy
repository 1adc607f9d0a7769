/** Setting the zero-total-reward flag in place in an encoded packet, and in the packet itself. */
module FlagPatch {
  import opened Basics
  import opened Bits
  import opened Codec
  import opened PacketModel
  import opened BlockRecord
  import opened BlockBody
  import opened Sections
  import opened Assembly
  import opened TxItems
  import opened TxPayload
  import opened BackRefs
  import opened TxSegment
  import opened Epochs
  import opened PrefixSize
  import opened PacketCodec
  import opened PacketLaws

  // ---------------------------------------------------------------------------------------------
  // Flag sites
  // ---------------------------------------------------------------------------------------------

  /** Where a block's flags byte lies, and the block's hash. */
  datatype Site = Site(at: nat, hash: H256)

  function SiteAt(data: Bytes, a: Area, k: nat): Site
    requires AreaFits(a, data) && a.size >= 64 && k < a.count
  {
    MulMonotone(k + 1, a.count, a.size);
    assert (k + 1) * a.size == k * a.size + a.size;
    var record := a.body + k * a.size;
    Site(record + FLAGS_AT, data[record..record + 32])
  }

  function SitesIn(data: Bytes, a: Area): (sites: seq<Site>)
    requires AreaFits(a, data) && a.size >= 64
    ensures |sites| == a.count && forall k :: 0 <= k < a.count ==> sites[k] == SiteAt(data, a, k)
  {
    seq(a.count, k requires 0 <= k < a.count => SiteAt(data, a, k))
  }

  /** The block area of a packet, from its fixed header and offset table. */
  function AreaOf(data: Bytes): (r: Result<Area>)
    ensures r.Ok? ==> AreaFits(r.value, data) && r.value.size >= 64
  {
    if |data| < HEADER_LEN || !IsCandidate(data[92]) || !OffsetsOk(Offsets(data), |data|) then
      Err(Malformed)
    else
      var o := Offsets(data);
      OffsetsAreSorted(o, |data|);
      var count :- ReadU32(data, o[5]);
      var a := Area(o[6], o[7], data[92], count);
      if AreaFits(a, data) then Ok(a) else Err(OutOfBounds)
  }

  function Sites(data: Bytes): Result<seq<Site>> {
    var a :- AreaOf(data);
    Ok(SitesIn(data, a))
  }

  method BlockFlagSites(data: Bytes) returns (r: Result<seq<Site>>)
    ensures r == Sites(data)
  {
    hide FromLittleEndian, Offsets, OffsetsOk;
    if |data| < HEADER_LEN || !IsCandidate(data[92]) {
      return Err(Malformed);
    }
    var o := ReadOffsets(data);
    var ordered := EnsureOffsets(o, |data|);
    if !ordered {
      return Err(Malformed);
    }
    OffsetsAreSorted(o, |data|);
    var count :- ReadU32(data, o[5]);
    var a := Area(o[6], o[7], data[92], count);
    if !AreaFits(a, data) {
      return Err(OutOfBounds);
    }
    var sites: seq<Site> := [];
    for index := 0 to count
      invariant |sites| == index && forall k :: 0 <= k < index ==> sites[k] == SiteAt(data, a, k)
    {
      sites := sites + [SiteAt(data, a, index)];
    }
    assert sites == SitesIn(data, a);
    return Ok(sites);
  }

  // ---------------------------------------------------------------------------------------------
  // Setting the flag at a list of places
  // ---------------------------------------------------------------------------------------------

  function Flagged(b: Byte): Byte {
    SetBit(b, ZERO_TOTAL_REWARD)
  }

  /** The flag is bit 6: worth 64. */
  lemma FlaggedInNumbers(b: Byte)
    ensures Flagged(b) == if (b / 64) % 2 == 0 then b + 64 else b
  {
    hide BitOf, WithBit, WithoutBit, Pow2;
    BitInNumbers(b, 6);
    Pow2Is6();
  }

  lemma Pow2Is6()
    ensures Pow2(6) == 64
  {
    assert Pow2(3) == 8;
  }

  predicate AllInside(places: seq<nat>, data: Bytes) {
    forall k :: 0 <= k < |places| ==> places[k] < |data|
  }

  /** The bytes with the flag set at each place in turn. */
  function Patched(data: Bytes, places: seq<nat>): (r: Bytes)
    requires AllInside(places, data)
    ensures |r| == |data|
  {
    if places == [] then
      data
    else
      var last := places[|places| - 1];
      var before := Patched(data, places[..|places| - 1]);
      before[last := Flagged(before[last])]
  }

  lemma FlaggedTwice(b: Byte)
    ensures Flagged(Flagged(b)) == Flagged(b)
  {
    hide SetBit, Bit;
    ByteIsItsBits(Flagged(Flagged(b)), Flagged(b));
  }

  /** Each byte is flagged if its place is listed, however often and wherever in the list. */
  lemma {:induction false} PatchedAt(data: Bytes, places: seq<nat>, i: nat)
    requires AllInside(places, data) && i < |data|
    ensures Patched(data, places)[i] == if i in places then Flagged(data[i]) else data[i]
    decreases |places|
  {
    hide Flagged;
    if places != [] {
      var before := places[..|places| - 1];
      PatchedAt(data, before, i);
      FlaggedTwice(data[i]);
      assert places == before + [places[|places| - 1]];
    }
  }

  /** The threads may report the places in any order. */
  lemma PatchOrderIsInvisible(data: Bytes, places: seq<nat>, others: seq<nat>)
    requires forall i :: i in places <==> i in others
    requires AllInside(places, data) && AllInside(others, data)
    ensures Patched(data, places) == Patched(data, others)
  {
    hide Patched, Flagged;
    forall i | 0 <= i < |data|
      ensures Patched(data, places)[i] == Patched(data, others)[i]
    {
      PatchedAt(data, places, i);
      PatchedAt(data, others, i);
    }
  }

  /** The places to flag: those of the blocks whose total reward is zero. */
  function Flips(sites: seq<Site>, isZero: H256 -> bool): (places: seq<nat>)
    ensures forall i :: i in places ==> exists k :: 0 <= k < |sites| && sites[k].at == i
  {
    if sites == [] then
      []
    else
      var last := sites[|sites| - 1];
      var before := Flips(sites[..|sites| - 1], isZero);
      if isZero(last.hash) then before + [last.at] else before
  }

  // ---------------------------------------------------------------------------------------------
  // The same flag in the packet
  // ---------------------------------------------------------------------------------------------

  function FlaggedBlock(b: Block, isZero: H256 -> bool): Block {
    if isZero(b.hash) then b.(flags := Flagged(b.flags)) else b
  }

  /** The packet with the flag set on the first `n` blocks that have a zero total reward. */
  function FlaggedUpTo(p: Packet, isZero: H256 -> bool, n: nat): (q: Packet)
    requires n <= |p.blocks|
    ensures q.header == p.header && q.tables == p.tables && |q.blocks| == |p.blocks|
    ensures forall k :: 0 <= k < |p.blocks| ==>
              q.blocks[k] == if k < n then FlaggedBlock(p.blocks[k], isZero) else p.blocks[k]
  {
    p.(blocks := seq(|p.blocks|, k requires 0 <= k < |p.blocks| =>
      if k < n then FlaggedBlock(p.blocks[k], isZero) else p.blocks[k]))
  }

  function FlaggedPacket(p: Packet, isZero: H256 -> bool): Packet {
    FlaggedUpTo(p, isZero, |p.blocks|)
  }

  /** One block's flag set. */
  function FlaggedAt(p: Packet, k: nat): Packet
    requires k < |p.blocks|
  {
    p.(blocks := p.blocks[k := p.blocks[k].(flags := Flagged(p.blocks[k].flags))])
  }

  // ---------------------------------------------------------------------------------------------
  // One flag: what changes in the encoding
  // ---------------------------------------------------------------------------------------------

  lemma FlaggedIsWritten(flags: Byte, payload: Bytes)
    ensures WrittenFlags(Flagged(flags), payload) == Flagged(WrittenFlags(flags, payload))
  {
    hide WrittenFlags, SetBit, Bit;
    ByteIsItsBits(WrittenFlags(Flagged(flags), payload), Flagged(WrittenFlags(flags, payload)));
  }

  lemma {:induction false} SeenIgnoresFlags(w: Wire, b: Block, flags: Byte, seen: Seen, n: nat)
    requires n <= |b.transactions|
    ensures SeenAt(w, b.(flags := flags), seen, n) == SeenAt(w, b, seen, n)
    decreases n
  {
    if n > 0 {
      SeenIgnoresFlags(w, b, flags, seen, n - 1);
    }
  }

  lemma ItemIgnoresFlags(w: Wire, b: Block, flags: Byte, t: Tables, seen: Seen, n: nat)
    requires n < |b.transactions|
    ensures ItemAt(w, b.(flags := flags), t, seen, n) == ItemAt(w, b, t, seen, n)
  {
    hide AppendTx, SeenAt;
    SeenIgnoresFlags(w, b, flags, seen, n);
  }

  lemma {:induction false} ItemsIgnoreFlags(w: Wire, b: Block, flags: Byte, t: Tables, seen: Seen, n: nat)
    requires n <= |b.transactions|
    ensures ItemsUpTo(w, b.(flags := flags), t, seen, n) == ItemsUpTo(w, b, t, seen, n)
    decreases n
  {
    hide ItemAt;
    if n > 0 {
      ItemIgnoresFlags(w, b, flags, t, seen, n - 1);
      ItemsIgnoreFlags(w, b, flags, t, seen, n - 1);
    }
  }

  lemma PayloadIgnoresFlags(w: Wire, b: Block, flags: Byte, t: Tables, seen: Seen)
    ensures Payload(w, b.(flags := flags), t, seen) == Payload(w, b, t, seen)
    ensures SeenAfter(w, b.(flags := flags), seen) == SeenAfter(w, b, seen)
  {
    hide ItemsUpTo, SeenAt;
    ItemsIgnoreFlags(w, b, flags, t, seen, |b.transactions|);
    SeenIgnoresFlags(w, b, flags, seen, |b.transactions|);
  }

  predicate SameButFlags(p: Packet, q: Packet) {
    && q.header == p.header && q.tables == p.tables && |q.blocks| == |p.blocks|
    && forall k :: 0 <= k < |p.blocks| ==> q.blocks[k] == p.blocks[k].(flags := q.blocks[k].flags)
  }

  /** The flags do not reach the payloads. */
  lemma {:induction false} PayloadsIgnoreFlags(w: Wire, p: Packet, q: Packet, n: nat)
    requires SameButFlags(p, q) && n <= |p.blocks|
    ensures PayloadsUpTo(w, q, n) == PayloadsUpTo(w, p, n)
    ensures SeenBefore(w, q.blocks, n) == SeenBefore(w, p.blocks, n)
    decreases n
  {
    hide Payload, SeenAfter;
    if n > 0 {
      PayloadsIgnoreFlags(w, p, q, n - 1);
      PayloadIgnoresFlags(w, p.blocks[n - 1], q.blocks[n - 1].flags, p.tables, SeenBefore(w, p.blocks, n - 1));
    }
  }

  function FlaggedRecord(record: Bytes): (r: Bytes)
    requires |record| >= FRONT_LEN
    ensures |r| == |record|
  {
    record[FLAGS_AT := Flagged(record[FLAGS_AT])]
  }

  /** A record with other flags differs in its flags byte only. */
  lemma RecordFlag(b: Block, flags: Byte, units: nat, h: Header, t: Tables)
    ensures EncodeBlockRecord(b.(flags := Flagged(b.flags)), Flagged(flags), units, h, t)
         == match EncodeBlockRecord(b, flags, units, h, t)
            case Ok(r) => Ok(FlaggedRecord(r))
            case Err(e) => Err(e)
  {
    hide IndexOf, FieldBytes, SetBit, Flagged;
    var c := b.(flags := Flagged(b.flags));
    assert FieldsOf(c, units, h, t) == FieldsOf(b, units, h, t);
    if FieldsOf(b, units, h, t).Ok? {
      var f := FieldsOf(b, units, h, t).value;
      FieldBytesIgnoreFlags(b, c.flags, f);
      assert Front(c, Flagged(flags)) == Front(b, flags)[FLAGS_AT := Flagged(flags)];
      if FieldBytes(b, f).Ok? {
        var fields := FieldBytes(b, f).value;
        UpdateInParts(Front(b, flags), fields, FLAGS_AT, Flagged(flags));
      }
    }
  }

  lemma FieldBytesIgnoreFlags(b: Block, flags: Byte, f: Fields)
    ensures FieldBytes(b.(flags := flags), f) == FieldBytes(b, f)
  {
  }

  /** Record `k` flagged, the others as they are. */
  function WithFlag(records: seq<Bytes>, k: nat): (r: seq<Bytes>)
    requires k < |records| ==> |records[k]| >= FRONT_LEN
    ensures |r| == |records|
    ensures forall j :: 0 <= j < |r| ==> |r[j]| == |records[j]|
  {
    if k < |records| then records[k := FlaggedRecord(records[k])] else records
  }

  lemma {:induction false} RecordsFlag(w: Wire, p: Packet, payloads: seq<Bytes>, k: nat, n: nat)
    requires k < |p.blocks| == |payloads| && n <= |p.blocks|
    ensures RecordsUpTo(w, p, payloads, n).Err? ==>
              RecordsUpTo(w, FlaggedAt(p, k), payloads, n) == RecordsUpTo(w, p, payloads, n)
    ensures RecordsUpTo(w, p, payloads, n).Ok? ==>
              var records := RecordsUpTo(w, p, payloads, n).value;
              && (k < n ==> |records[k]| >= FRONT_LEN)
              && RecordsUpTo(w, FlaggedAt(p, k), payloads, n) == Ok(WithFlag(records, k))
    decreases n
  {
    hide EncodeBlockRecord, WrittenFlags, Flagged, Units, FlaggedRecord, WithFlag;
    if n > 0 {
      RecordsFlag(w, p, payloads, k, n - 1);
      if n - 1 == k {
        var b := p.blocks[k];
        FlaggedIsWritten(b.flags, payloads[k]);
        RecordFlag(b, WrittenFlags(b.flags, payloads[k]), Units(w, payloads, k), p.header, p.tables);
      }
      if RecordsUpTo(w, p, payloads, n).Ok? {
        var records := RecordsUpTo(w, p, payloads, n).value;
        assert records == records[..n - 1] + [records[n - 1]];
        FlagLast(records[..n - 1], records[n - 1], k);
      }
    }
  }

  lemma FlagLast(before: seq<Bytes>, record: Bytes, k: nat)
    requires |record| >= FRONT_LEN && (k < |before| ==> |before[k]| >= FRONT_LEN)
    ensures k < |before| ==> WithFlag(before + [record], k) == WithFlag(before, k) + [record]
    ensures k == |before| ==> WithFlag(before + [record], k) == before + [FlaggedRecord(record)]
    ensures k > |before| ==> WithFlag(before + [record], k) == before + [record]
    ensures k >= |before| ==> WithFlag(before, k) == before
  {
    hide Flagged, FlaggedRecord;
  }

  // ---------------------------------------------------------------------------------------------
  // Nothing else depends on the flag
  // ---------------------------------------------------------------------------------------------

  predicate SameLengths(a: seq<Bytes>, b: seq<Bytes>) {
    |a| == |b| && forall k :: 0 <= k < |a| ==> |a[k]| == |b[k]|
  }

  lemma {:induction false} SameFitCount(a: seq<Bytes>, b: seq<Bytes>, n: nat)
    requires SameLengths(a, b)
    ensures FitCount(a, n) == FitCount(b, n)
    decreases |a|
  {
    if a != [] {
      SameFitCount(a[..|a| - 1], b[..|b| - 1], n);
    }
  }

  lemma {:induction false} SameFirstFit(a: seq<Bytes>, b: seq<Bytes>, n: nat)
    requires SameLengths(a, b) && IsCandidate(n)
    ensures FirstFit(a, n) == FirstFit(b, n)
    decreases 96 - n
  {
    SameFitCount(a, b, n);
    if n < 96 {
      SameFirstFit(a, b, n + 8);
    }
  }

  lemma {:induction false} SameBitmap(a: seq<Bytes>, b: seq<Bytes>, size: nat, i: nat)
    requires SameLengths(a, b) && i <= |a|
    ensures Bitmap(a, size, i) == Bitmap(b, size, i)
    decreases i
  {
    if i > 0 {
      SameBitmap(a, b, size, i - 1);
    }
  }

  lemma PrefixFlag(record: Bytes, size: nat)
    requires |record| >= FRONT_LEN && size >= 64
    ensures Prefix(record, size)[FLAGS_AT] == record[FLAGS_AT]
    ensures Prefix(FlaggedRecord(record), size) == Prefix(record, size)[FLAGS_AT := Flagged(record[FLAGS_AT])]
    ensures Tail(FlaggedRecord(record), size) == Tail(record, size)
  {
    hide Flagged, Uleb;
    if Overflows(record, size) {
      assert FlaggedRecord(record)[size..] == record[size..];
    }
  }

  lemma UpdateInParts(a: Bytes, b: Bytes, i: nat, x: Byte)
    ensures i < |a| ==> (a + b)[i := x] == a[i := x] + b
    ensures i < |b| ==> (a + b)[|a| + i := x] == a + b[i := x]
  {
  }

  /** Where the flags of record `k` lie from the start of the body. */
  function FlagsOffset(k: nat, size: nat): nat {
    k * size + FLAGS_AT
  }

  /** In the body, the flagged byte lies in the record's own slot. */
  lemma {:induction false} BodyFlag(records: seq<Bytes>, k: nat, size: nat)
    requires k < |records| && |records[k]| >= FRONT_LEN && size >= 64
    ensures FlagsOffset(k, size) < |Prefixes(records, size)|
    ensures Prefixes(records, size)[FlagsOffset(k, size)] == records[k][FLAGS_AT]
    ensures Prefixes(WithFlag(records, k), size)
         == Prefixes(records, size)[FlagsOffset(k, size) := Flagged(records[k][FLAGS_AT])]
    ensures Tails(WithFlag(records, k), size) == Tails(records, size)
    decreases k
  {
    hide Prefix, Tail, Flagged, FlaggedRecord;
    var rest := records[1..];
    var x := Flagged(records[k][FLAGS_AT]);
    MulMonotone(k + 1, |records|, size);
    assert (k + 1) * size == k * size + size;
    if k == 0 {
      PrefixFlag(records[0], size);
      assert WithFlag(records, 0)[1..] == rest;
      UpdateInParts(Prefix(records[0], size), Prefixes(rest, size), FLAGS_AT, x);
    } else {
      BodyFlag(rest, k - 1, size);
      assert WithFlag(records, k)[1..] == WithFlag(rest, k - 1);
      assert k * size == (k - 1) * size + size;
      UpdateInParts(Prefix(records[0], size), Prefixes(rest, size), FlagsOffset(k - 1, size), x);
    }
  }

  // ---------------------------------------------------------------------------------------------
  // One flag in the assembled packet
  // ---------------------------------------------------------------------------------------------

  /** The sections with one byte of the block body changed. */
  function BodyChanged(s: seq<Bytes>, j: nat, x: Byte): (u: seq<Bytes>)
    requires |s| == 8 && j < |s[6]|
    ensures |u| == 8 && forall k :: 0 <= k < 8 ==> |u[k]| == |s[k]|
  {
    var body: Bytes := s[6][j := x];
    s[6 := body]
  }

  lemma ConcatUpdate(s: seq<Bytes>, j: nat, x: Byte)
    requires |s| == 8 && j < |s[6]|
    ensures var u := BodyChanged(s, j, x); var at := Start(s, 6) - HEADER_LEN + j;
      && at < |Concat(s)| && Concat(s)[at] == s[6][j] && Concat(u) == Concat(s)[at := x]
      && Start(u, 6) == Start(s, 6) && Start(u, 7) == Start(s, 7)
      && OffsetTable(u, 8) == OffsetTable(s, 8)
  {
    hide Concat, Start, OffsetTable;
    var u := BodyChanged(s, j, x);
    var front := [] + s[0] + s[1] + s[2] + s[3] + s[4] + s[5];
    InThree(s);
    InThree(u);
    UpdateInParts(s[6], s[7], j, x);
    UpdateInParts(front, s[6] + s[7], j, x);
    SameOffsets(s, u, 8);
    SameStarts(s, u);
  }

  /** The sections before the body, the body, and the segment. */
  lemma InThree(s: seq<Bytes>)
    requires |s| == 8
    ensures var front := [] + s[0] + s[1] + s[2] + s[3] + s[4] + s[5];
      Concat(s) == front + (s[6] + s[7]) && |front| == Start(s, 6) - HEADER_LEN
  {
    hide Concat, Start;
    StartsAre(s);
    ConcatOfEight([], s);
    assert [] + Concat(s) == Concat(s);
    var front := [] + s[0] + s[1] + s[2] + s[3] + s[4] + s[5];
    assert front + s[6] + s[7] == front + (s[6] + s[7]);
  }

  lemma SameStarts(s: seq<Bytes>, u: seq<Bytes>)
    requires |s| == |u| == 8 && forall k :: 0 <= k < 8 ==> |s[k]| == |u[k]|
    ensures Start(u, 6) == Start(s, 6) && Start(u, 7) == Start(s, 7)
  {
    hide OffsetTable;
    SameOffsets(s, u, 6);
    SameOffsets(s, u, 7);
  }

  lemma {:induction false} SameOffsets(s: seq<Bytes>, u: seq<Bytes>, i: nat)
    requires |s| == |u| && i <= |s| && forall k :: 0 <= k < |s| ==> |s[k]| == |u[k]|
    ensures Start(s, i) == Start(u, i) && OffsetTable(s, i) == OffsetTable(u, i)
    decreases i
  {
    hide LittleEndian;
    if i > 0 {
      SameOffsets(s, u, i - 1);
    }
  }

  /** A byte of the body changed is that byte of the packet changed. */
  lemma AssembledUpdate(h: Header, t: Tables, size: Byte, b: BlockData, j: nat, x: Byte)
    requires j < |b.body| && Assembled(h, t, size, b).Ok?
    ensures var data := Assembled(h, t, size, b).value; var at := Start(SectionsOf(t, b), 6) + j;
      && at < |data| && data[at] == b.body[j]
      && Assembled(h, t, size, b.(body := b.body[j := x])) == Ok(data[at := x])
      && Start(SectionsOf(t, b.(body := b.body[j := x])), 6) == Start(SectionsOf(t, b), 6)
  {
    hide FixedHeader, OffsetTable, Concat, Start, PosRows, WideRows, NonceRows, Padding;
    var c := b.(body := b.body[j := x]);
    var s := SectionsOf(t, b);
    BodySection(t, b, j, x);
    ConcatUpdate(s, j, x);
    var front := FixedHeader(h, size) + OffsetTable(s, 8);
    UpdateInParts(front, Concat(s), Start(s, 6) - HEADER_LEN + j, x);
  }

  lemma BodySection(t: Tables, b: BlockData, j: nat, x: Byte)
    requires j < |b.body|
    ensures j < |SectionsOf(t, b)[6]| && SectionsOf(t, b)[6][j] == b.body[j]
    ensures SectionsOf(t, b.(body := b.body[j := x])) == BodyChanged(SectionsOf(t, b), j, x)
  {
    hide Concat, PosRows, WideRows, NonceRows, Padding;
    var start := HEADER_LEN + |SectionsOf(t, b)[0]| + |SectionsOf(t, b)[1]| + |SectionsOf(t, b)[2]|
                 + |SectionsOf(t, b)[3]| + |SectionsOf(t, b)[4]| + |SectionsOf(t, b)[5]|;
    UpdateInParts(b.body, Padding(start + |b.body|, 64), j, x);
  }

  /** Where block `k`'s flags lie in the encoding of a packet. */
  function PlaceOf(w: Wire, p: Packet, k: nat): nat
    requires BlocksEncoded(w, p).Ok?
  {
    var e := BlocksEncoded(w, p).value;
    Start(SectionsOf(p.tables, BlockDataOf(e)), 6) + FlagsOffset(k, Chosen(e.records))
  }

  lemma BlockDataFlag(e: EncodedBlocks, k: nat)
    requires k < |e.records| && |e.records[k]| >= FRONT_LEN
    ensures var f := EncodedBlocks(WithFlag(e.records, k), e.txSegment);
            var b := BlockDataOf(e); var j := FlagsOffset(k, Chosen(e.records));
      && Chosen(f.records) == Chosen(e.records)
      && j < |b.body| && b.body[j] == e.records[k][FLAGS_AT]
      && BlockDataOf(f) == b.(body := b.body[j := Flagged(b.body[j])])
  {
    hide Bitmap, Prefixes, Tails, Flagged, FlaggedRecord, FlagsOffset, FirstFit, WithFlag;
    var size := Chosen(e.records);
    SameFirstFit(e.records, WithFlag(e.records, k), 64);
    SameBitmap(e.records, WithFlag(e.records, k), size, |e.records|);
    BodyFlag(e.records, k, size);
    UpdateInParts(Prefixes(e.records, size), Tails(e.records, size), FlagsOffset(k, size),
                  Flagged(e.records[k][FLAGS_AT]));
  }

  lemma StaysValid(p: Packet, k: nat)
    requires k < |p.blocks|
    ensures IsValid(FlaggedAt(p, k).blocks) == IsValid(p.blocks)
  {
    hide PivotFrom, SetBit, Bit;
    var blocks := FlaggedAt(p, k).blocks;
    assert SamePivots(blocks, p.blocks);
    forall j | 0 <= j < |p.blocks|
      ensures BlockIsValid(blocks, j) == BlockIsValid(p.blocks, j)
    {
      PivotsAgree(blocks, p.blocks, j);
    }
  }

  /** Setting one block's flag in the packet sets it at that block's place in the bytes, and moves no other place. */
  lemma EncodedFlag(w: Wire, p: Packet, k: nat)
    requires Encoded(w, p).Ok? && k < |p.blocks|
    ensures var data, at := Encoded(w, p).value, PlaceOf(w, p, k);
      && at < |data|
      && Encoded(w, FlaggedAt(p, k)) == Ok(data[at := Flagged(data[at])])
      && forall j :: PlaceOf(w, FlaggedAt(p, k), j) == PlaceOf(w, p, j)
  {
    hide PayloadsUpTo, RecordsUpTo, Segment, IsValid, Flagged, Assembled, SectionsOf, Start, BlockDataOf, Chosen,
      WithFlag, FlagsOffset;
    var n := |p.blocks|;
    var payloads := PayloadsUpTo(w, p, n).value;
    PayloadsIgnoreFlags(w, p, FlaggedAt(p, k), n);
    RecordsFlag(w, p, payloads, k, n);
    StaysValid(p, k);
    var e := BlocksEncoded(w, p).value;
    BlockDataFlag(e, k);
    var b, j := BlockDataOf(e), FlagsOffset(k, Chosen(e.records));
    AssembledUpdate(p.header, p.tables, Chosen(e.records), b, j, Flagged(b.body[j]));
  }

  // ---------------------------------------------------------------------------------------------
  // All flags
  // ---------------------------------------------------------------------------------------------

  lemma FlagOneMore(p: Packet, isZero: H256 -> bool, n: nat)
    requires 0 < n <= |p.blocks|
    ensures FlaggedUpTo(p, isZero, n) ==
      if isZero(p.blocks[n - 1].hash) then FlaggedAt(FlaggedUpTo(p, isZero, n - 1), n - 1)
      else FlaggedUpTo(p, isZero, n - 1)
  {
    hide Flagged;
    var before, after := FlaggedUpTo(p, isZero, n - 1), FlaggedUpTo(p, isZero, n);
    if isZero(p.blocks[n - 1].hash) {
      assert after.blocks == FlaggedAt(before, n - 1).blocks;
    } else {
      assert after.blocks == before.blocks;
    }
  }

  /** The sites of a packet's encoding are its blocks' places and hashes, in order. */
  predicate SitesOf(w: Wire, p: Packet, sites: seq<Site>)
    requires BlocksEncoded(w, p).Ok?
  {
    && |sites| == |p.blocks|
    && forall k :: 0 <= k < |sites| ==> sites[k].at == PlaceOf(w, p, k) && sites[k].hash == p.blocks[k].hash
  }

  lemma {:induction false} FlagsUpTo(w: Wire, p: Packet, isZero: H256 -> bool, sites: seq<Site>, n: nat)
    requires Encoded(w, p).Ok? && SitesOf(w, p, sites) && n <= |p.blocks|
    ensures var q := FlaggedUpTo(p, isZero, n); var flips := Flips(sites[..n], isZero);
      && AllInside(flips, Encoded(w, p).value)
      && Encoded(w, q) == Ok(Patched(Encoded(w, p).value, flips))
      && forall j :: PlaceOf(w, q, j) == PlaceOf(w, p, j)
    decreases n
  {
    hide Encoded, PlaceOf, Flagged, FlaggedAt, BlocksEncoded;
    EncodedHasBlocks(w, p);
    if n == 0 {
      assert FlaggedUpTo(p, isZero, 0).blocks == p.blocks;
    } else {
      FlagsUpTo(w, p, isZero, sites, n - 1);
      FlagOneMore(p, isZero, n);
      var before := FlaggedUpTo(p, isZero, n - 1);
      EncodedHasBlocks(w, before);
      assert sites[..n][..n - 1] == sites[..n - 1];
      if isZero(p.blocks[n - 1].hash) {
        EncodedFlag(w, before, n - 1);
        var flips := Flips(sites[..n - 1], isZero);
        assert (flips + [sites[n - 1].at])[..|flips|] == flips;
      }
    }
  }

  lemma EncodedHasBlocks(w: Wire, p: Packet)
    ensures Encoded(w, p).Ok? ==> BlocksEncoded(w, p).Ok?
  {
    hide IsValid, BlocksEncoded, Assembled;
  }

  // ---------------------------------------------------------------------------------------------
  // Finding the sites again
  // ---------------------------------------------------------------------------------------------

  lemma RecordKeepsHash(w: Wire, p: Packet, payloads: seq<Bytes>, k: nat, size: nat)
    requires k < |p.blocks| == |payloads| && RecordOf(w, p, payloads, k).Ok? && size >= 64
    ensures var prefix := Prefix(RecordOf(w, p, payloads, k).value, size);
      |prefix| >= 32 && prefix[..32] == p.blocks[k].hash
  {
    hide EncodeBlockRecord, WrittenFlags, Units;
    var b := p.blocks[k];
    var record := RecordOf(w, p, payloads, k).value;
    FrontReadsBack(b, WrittenFlags(b.flags, payloads[k]), record);
    assert Prefix(record, size)[..32] == record[..32];
  }

  lemma CountFits(t: Tables, e: EncodedBlocks)
    requires Start(SectionsOf(t, BlockDataOf(e)), 7) < U32
    ensures |e.records| < U32
  {
    hide Concat, PosRows, WideRows, NonceRows, Padding, Chosen, Prefixes, Tails, Start;
    var s := SectionsOf(t, BlockDataOf(e));
    StartsAre(s);
    MulMonotone(1, Chosen(e.records), |e.records|);
  }

  lemma SiteReadsBack(w: Wire, p: Packet, data: Bytes, a: Area, k: nat)
    requires BlocksEncoded(w, p).Ok? && k < |p.blocks|
    requires var e := BlocksEncoded(w, p).value;
      && AreaFits(a, data) && a.size == Chosen(e.records) && a.count == |p.blocks|
      && StandsAt(data, a.body, Prefixes(e.records, a.size))
      && a.body == Start(SectionsOf(p.tables, BlockDataOf(e)), 6)
    ensures a.size >= 64 && SiteAt(data, a, k) == Site(PlaceOf(w, p, k), p.blocks[k].hash)
  {
    hide PayloadsUpTo, RecordsUpTo, Segment, RecordOf, Prefix, Prefixes, SectionsOf, Start, BlockDataOf, Chosen;
    var payloads := PayloadsUpTo(w, p, |p.blocks|).value;
    var records := BlocksEncoded(w, p).value.records;
    RecordsAre(w, p, payloads, |p.blocks|, k);
    RecordKeepsHash(w, p, payloads, k, a.size);
    SlotStands(data, a, records, k);
    assert Slot(data, a, k)[..32] == p.blocks[k].hash;
    var record := a.body + k * a.size;
    assert data[record..record + 32] == Slot(data, a, k)[..32];
  }

  function EncodedArea(t: Tables, e: EncodedBlocks): Area {
    var s := SectionsOf(t, BlockDataOf(e));
    Area(Start(s, 6), Start(s, 7), Chosen(e.records), |e.records|)
  }

  lemma AreaIsFound(h: Header, t: Tables, e: EncodedBlocks)
    requires Assembled(h, t, Chosen(e.records), BlockDataOf(e)).Ok?
    ensures var data := Assembled(h, t, Chosen(e.records), BlockDataOf(e)).value;
      && AreaOf(data) == Ok(EncodedArea(t, e))
      && StandsAt(data, EncodedArea(t, e).body, Prefixes(e.records, Chosen(e.records)))
  {
    hide SectionsOf, Start, OffsetsOk, Offsets, Concat, OffsetTable, BlockDataOf, Chosen, StandsAt, FixedHeader,
      Prefixes, ReadU32;
    var data := Assembled(h, t, Chosen(e.records), BlockDataOf(e)).value;
    SectionsRoundTrip(h, t, Chosen(e.records), BlockDataOf(e));
    SizeReadsBack(h, Chosen(e.records), data);
    CountFits(t, e);
    AreaReadsBack(t, e, data, Offsets(data));
  }

  lemma EncodedIsAssembled(w: Wire, p: Packet)
    requires Encoded(w, p).Ok?
    ensures BlocksEncoded(w, p).Ok?
    ensures var e := BlocksEncoded(w, p).value;
      |e.records| == |p.blocks| && Encoded(w, p) == Assembled(p.header, p.tables, Chosen(e.records), BlockDataOf(e))
  {
    hide IsValid, PayloadsUpTo, RecordsUpTo, Segment, Assembled, BlockDataOf, Chosen;
  }

  /** The sites reported for an encoded packet are exactly its blocks' flags and hashes. */
  lemma SitesReadBack(w: Wire, p: Packet)
    requires Encoded(w, p).Ok?
    ensures BlocksEncoded(w, p).Ok?
    ensures Sites(Encoded(w, p).value).Ok? && SitesOf(w, p, Sites(Encoded(w, p).value).value)
  {
    hide Encoded, BlocksEncoded, Assembled, SectionsOf, Start, BlockDataOf, Chosen, StandsAt, SiteAt, PlaceOf, AreaOf;
    EncodedIsAssembled(w, p);
    var data, e := Encoded(w, p).value, BlocksEncoded(w, p).value;
    AreaIsFound(p.header, p.tables, e);
    var a := EncodedArea(p.tables, e);
    forall k | 0 <= k < |p.blocks|
      ensures SiteAt(data, a, k) == Site(PlaceOf(w, p, k), p.blocks[k].hash)
    {
      SiteReadsBack(w, p, data, a, k);
    }
  }

  lemma SizeReadsBack(h: Header, size: Byte, data: Bytes)
    requires |data| >= HEADER_FIXED_LEN && data[..HEADER_FIXED_LEN] == FixedHeader(h, size)
    ensures data[92] == size
  {
    hide LittleEndian;
    assert data[92] == data[..HEADER_FIXED_LEN][92];
  }

  lemma AreaReadsBack(t: Tables, e: EncodedBlocks, data: Bytes, o: seq<nat>)
    requires |o| == 8 && o[7] <= |data| && |e.records| < U32
    requires forall i :: 0 <= i < 8 ==> StandsAt(data, o[i], SectionsOf(t, BlockDataOf(e))[i])
    requires forall i :: 0 <= i < 7 ==> o[i + 1] == o[i] + |SectionsOf(t, BlockDataOf(e))[i]|
    ensures ReadU32(data, o[5]) == Ok(|e.records|)
    ensures AreaFits(Area(o[6], o[7], Chosen(e.records), |e.records|), data)
    ensures StandsAt(data, o[6], Prefixes(e.records, Chosen(e.records)))
  {
    hide Concat, PosRows, WideRows, NonceRows, LittleEndian, Bitmap, Prefixes, Tails, Chosen, StandsAt, Padding,
      ReadU32;
    var size := Chosen(e.records);
    var s := SectionsOf(t, BlockDataOf(e));
    var bitmap := Bitmap(e.records, size, |e.records|);
    var header := LittleEndian(|e.records|, 4) + bitmap;
    var body := Body(e.records, size);
    assert s[5] == header + s[5][|header|..];
    StandsInParts(data, o[5], header, s[5][|header|..]);
    assert s[6] == body + s[6][|body|..];
    StandsInParts(data, o[6], body, s[6][|body|..]);
    StandsInParts(data, o[6], Prefixes(e.records, size), Tails(e.records, size));
    assert o[7] == o[6] + |s[6]|;
    WordsAre();
    BlockBody.HeaderReadsBack(data, o[5], |e.records|, bitmap);
  }

  /**
   * Patching commutes with encoding: setting the flag at the reported sites of the blocks with a zero
   * total reward gives the bytes of encoding the packet with the flag set on those blocks.
   */
  lemma PatchCommutesWithEncoding(w: Wire, p: Packet, isZero: H256 -> bool)
    requires Encoded(w, p).Ok?
    ensures var data := Encoded(w, p).value;
      && Sites(data).Ok?
      && AllInside(Flips(Sites(data).value, isZero), data)
      && Encoded(w, FlaggedPacket(p, isZero)) == Ok(Patched(data, Flips(Sites(data).value, isZero)))
  {
    hide Encoded, Sites, SitesOf, PlaceOf, Flips, Patched, FlaggedUpTo, BlocksEncoded;
    SitesReadBack(w, p);
    var sites := Sites(Encoded(w, p).value).value;
    SitesAreAll(w, p, sites);
    FlagsUpTo(w, p, isZero, sites, |p.blocks|);
  }

  lemma SitesAreAll(w: Wire, p: Packet, sites: seq<Site>)
    requires BlocksEncoded(w, p).Ok? && SitesOf(w, p, sites)
    ensures sites[..|p.blocks|] == sites
  {
    hide BlocksEncoded, PlaceOf;
  }

  // ---------------------------------------------------------------------------------------------
  // Decoding a patched packet
  // ---------------------------------------------------------------------------------------------

  lemma StaysStorable(w: Wire, p: Packet, q: Packet, enableHeight: nat)
    requires SameButFlags(p, q) && IsStorable(w, p, enableHeight)
    ensures IsStorable(w, q, enableHeight)
  {
    hide HeaderFits, TablesFit, OneBaseEach, Lookup, IsTyped, Survives, Stripped, TxFits, RewardFits;
    forall k | 0 <= k < |p.blocks|
      ensures ContentsFit(q.blocks[k])
    {
      assert ContentsFit(p.blocks[k]);
    }
    forall k | 0 <= k <= |p.blocks|
      ensures Previous(q.blocks, k) == Previous(p.blocks, k)
    {
    }
    forall k | 0 <= k < |p.blocks|
      ensures BlockIsStorable(q, k, enableHeight)
    {
      assert BlockIsStorable(p, k, enableHeight);
      assert Previous(q.blocks, k) == Previous(p.blocks, k);
    }
    HashesStillIdentify(w, p, q);
  }

  lemma HashesStillIdentify(w: Wire, p: Packet, q: Packet)
    requires SameButFlags(p, q) && HashesIdentify(w, p.blocks)
    ensures HashesIdentify(w, q.blocks)
  {
    hide Stripped;
    forall i, j | 0 <= i < |p.blocks| && 0 <= j < |p.blocks|
      ensures HashesTell(w, q.blocks[i], q.blocks[j])
    {
      assert HashesTell(w, p.blocks[i], p.blocks[j]);
    }
  }

  lemma RefsIgnoreFlags(w: Wire, b: Block, flags: Byte, seen: Seen)
    ensures RefsOf(w, b.(flags := flags), seen) == RefsOf(w, b, seen)
    ensures RepeatsAreOld(w, b.(flags := flags), seen) == RepeatsAreOld(w, b, seen)
  {
    hide SeenAt;
    forall i | 0 <= i < |b.transactions|
      ensures RefAt(w, b.(flags := flags), seen, i) == RefAt(w, b, seen, i)
    {
      SeenIgnoresFlags(w, b, flags, seen, i);
    }
  }

  /** Flagging and normalising a block commute. */
  lemma NormalBlockFlag(w: Wire, p: Packet, q: Packet, payloads: seq<Bytes>, isZero: H256 -> bool, k: nat)
    requires q == FlaggedPacket(p, isZero) && SameButFlags(p, q) && k < |p.blocks| == |payloads|
    ensures NormalBlock(w, q, payloads, k) == FlaggedBlock(NormalBlock(w, p, payloads, k), isZero)
    ensures RepeatsAreOld(w, q.blocks[k], SeenBefore(w, q.blocks, k))
         == RepeatsAreOld(w, p.blocks[k], SeenBefore(w, p.blocks, k))
  {
    hide Flagged, WrittenFlags, RefsOf, StrippedAll, SeenBefore, RepeatsAreOld, RootPrefix;
    PayloadsIgnoreFlags(w, p, q, k);
    RefsIgnoreFlags(w, p.blocks[k], q.blocks[k].flags, SeenBefore(w, p.blocks, k));
    FlaggedIsWritten(p.blocks[k].flags, payloads[k]);
  }

  /** Decoding the patched bytes gives the same packet with only those flags changed. */
  lemma PatchChangesOnlyFlags(w: Wire, p: Packet, isZero: H256 -> bool, enableHeight: nat)
    requires RoundTrips(w) && IsStorable(w, p, enableHeight) && RepeatsAreOldBelow(w, p.blocks, |p.blocks|)
    requires Encoded(w, p).Ok? && IsU64(|Encoded(w, p).value|)
    ensures var data := Encoded(w, p).value;
      && Sites(data).Ok? && AllInside(Flips(Sites(data).value, isZero), data)
      && Decoded(w, data, enableHeight) == Ok(Normal(w, p))
      && Decoded(w, Patched(data, Flips(Sites(data).value, isZero)), enableHeight)
           == Ok(FlaggedPacket(Normal(w, p), isZero))
  {
    hide RoundTrips, IsStorable, Encoded, Decoded, Sites, Flips, Patched, Flagged, PayloadsUpTo, NormalBlock,
      SeenBefore, RepeatsAreOld;
    var q := FlaggedPacket(p, isZero);
    PatchCommutesWithEncoding(w, p, isZero);
    PayloadsIgnoreFlags(w, p, q, |p.blocks|);
    StaysStorable(w, p, q, enableHeight);
    PacketRoundTrip(w, p, enableHeight);
    PacketRoundTrip(w, q, enableHeight);
    EncodedHasPayloads(w, p);
    var payloads := PayloadsUpTo(w, p, |p.blocks|).value;
    forall k | 0 <= k < |p.blocks|
      ensures NormalBlock(w, q, payloads, k) == FlaggedBlock(NormalBlock(w, p, payloads, k), isZero)
      ensures RepeatsAreOld(w, q.blocks[k], SeenBefore(w, q.blocks, k))
    {
      NormalBlockFlag(w, p, q, payloads, isZero, k);
    }
    assert Normal(w, q).blocks == FlaggedPacket(Normal(w, p), isZero).blocks;
  }
}
