/** The container file: a header, a directory of groups and their packets, and the reader of that directory. */
module Container {
  import opened Basics
  import opened Codec

  const MAGIC: Bytes := [67, 70, 88, 80, 65, 67, 75, 49]
  const FORMAT_VERSION: nat := 1
  const HEADER_LEN: nat := 24
  const DIR_ENTRY_LEN: nat := 32

  /** One group's encoded packet as a worker hands it over. */
  datatype PacketOut = PacketOut(
    group: nat,
    startEpoch: nat,
    epochCount: nat,
    blockCount: nat,
    transactionCount: nat,
    bytes: Bytes)

  /** One group as the directory describes it. */
  datatype Group = Group(startEpoch: nat, epochCount: nat, offset: nat, length: nat)

  // ---------------------------------------------------------------------------------------------
  // The layout
  // ---------------------------------------------------------------------------------------------

  function Payloads(packets: seq<PacketOut>): Bytes {
    if packets == [] then [] else packets[0].bytes + Payloads(packets[1..])
  }

  function EntryBytes(g: Group): (r: Bytes)
    ensures |r| == DIR_ENTRY_LEN
  {
    LittleEndian(g.startEpoch, 8) + LittleEndian(g.epochCount, 8) + LittleEndian(g.offset, 8)
      + LittleEndian(g.length, 8)
  }

  /** The groups of some packets whose first payload goes to `offset`. */
  function Groups(packets: seq<PacketOut>, offset: nat): (groups: seq<Group>)
    ensures |groups| == |packets|
  {
    if packets == [] then
      []
    else
      var p := packets[0];
      [Group(p.startEpoch, p.epochCount, offset, |p.bytes|)] + Groups(packets[1..], offset + |p.bytes|)
  }

  lemma GroupsUnfold(packets: seq<PacketOut>, offset: nat)
    requires packets != []
    ensures Groups(packets, offset) == [Group(packets[0].startEpoch, packets[0].epochCount, offset, |packets[0].bytes|)]
                                       + Groups(packets[1..], offset + |packets[0].bytes|)
  {
  }

  lemma PayloadsUnfold(packets: seq<PacketOut>)
    ensures Payloads(packets) == if packets == [] then [] else packets[0].bytes + Payloads(packets[1..])
  {
  }

  function Directory(groups: seq<Group>): (r: Bytes)
    ensures |r| == DIR_ENTRY_LEN * |groups|
  {
    if groups == [] then [] else EntryBytes(groups[0]) + Directory(groups[1..])
  }

  function HeaderBytes(groupCount: nat, shardEpochs: nat): (r: Bytes)
    ensures |r| == HEADER_LEN
  {
    MAGIC + LittleEndian(FORMAT_VERSION, 4) + LittleEndian(groupCount, 4) + LittleEndian(shardEpochs, 4)
      + LittleEndian(0, 4)
  }

  function PayloadBase(groupCount: nat): nat {
    HEADER_LEN + DIR_ENTRY_LEN * groupCount
  }

  function ContainerBytes(packets: seq<PacketOut>, shardEpochs: nat): (r: Bytes)
    ensures |r| == PayloadBase(|packets|) + |Payloads(packets)|
  {
    HeaderBytes(|packets|, shardEpochs) + Directory(Groups(packets, PayloadBase(|packets|))) + Payloads(packets)
  }

  // ---------------------------------------------------------------------------------------------
  // The reader
  // ---------------------------------------------------------------------------------------------

  function Word(data: Bytes, offset: nat): nat
    requires offset + 8 <= |data|
  {
    FromLittleEndian(data[offset..offset + 8])
  }

  function GroupAt(data: Bytes, pos: nat): Group
    requires pos + DIR_ENTRY_LEN <= |data|
  {
    Group(Word(data, pos), Word(data, pos + 8), Word(data, pos + 16), Word(data, pos + 24))
  }

  /** The next `count` directory entries from `pos`; a truncated entry or a payload past the end is an error. */
  function GroupsFrom(data: Bytes, pos: nat, count: nat): Result<seq<Group>>
    decreases count
  {
    if count == 0 then
      Ok([])
    else if pos + DIR_ENTRY_LEN > |data| then
      Err(OutOfBounds)
    else
      var g := GroupAt(data, pos);
      if g.offset + g.length > |data| then
        Err(OutOfBounds)
      else
        var rest :- GroupsFrom(data, pos + DIR_ENTRY_LEN, count - 1);
        Ok([g] + rest)
  }

  predicate HasMagic(data: Bytes) {
    |data| >= HEADER_LEN && data[..8] == MAGIC
  }

  function GroupCount(data: Bytes): nat
    requires HasMagic(data)
  {
    FromLittleEndian(data[12..16])
  }

  function Parsed(data: Bytes): Result<seq<Group>> {
    if !HasMagic(data) then Err(Malformed) else GroupsFrom(data, HEADER_LEN, GroupCount(data))
  }

  predicate GroupsInside(groups: seq<Group>, data: Bytes) {
    forall k :: 0 <= k < |groups| ==> groups[k].offset + groups[k].length <= |data|
  }

  lemma {:induction false} GroupsAreInside(data: Bytes, pos: nat, count: nat)
    ensures GroupsFrom(data, pos, count).Ok? ==> GroupsInside(GroupsFrom(data, pos, count).value, data)
    decreases count
  {
    if count > 0 && pos + DIR_ENTRY_LEN <= |data| {
      GroupsAreInside(data, pos + DIR_ENTRY_LEN, count - 1);
    }
  }

  lemma ParsedIsInside(data: Bytes)
    ensures Parsed(data).Ok? ==> GroupsInside(Parsed(data).value, data)
  {
    if HasMagic(data) {
      GroupsAreInside(data, HEADER_LEN, GroupCount(data));
    }
  }

  /** The payloads that the directory's groups point to. */
  function PayloadSlices(data: Bytes): Result<seq<Bytes>> {
    var groups :- Parsed(data);
    ParsedIsInside(data);
    Ok(seq(|groups|, i requires 0 <= i < |groups| => data[groups[i].offset..groups[i].offset + groups[i].length]))
  }

  function Joined(front: seq<Group>, rest: Result<seq<Group>>): Result<seq<Group>> {
    var back :- rest;
    Ok(front + back)
  }

  lemma JoinedToNothing(r: Result<seq<Group>>)
    ensures Joined([], r) == r
  {
    if r.Ok? {
      assert [] + r.value == r.value;
    }
  }

  method ParseDirectory(data: Bytes) returns (r: Result<seq<Group>>)
    ensures r == Parsed(data)
  {
    hide GroupAt, FromLittleEndian;
    if |data| < HEADER_LEN || data[..8] != MAGIC {
      return Err(Malformed);
    }
    var groupCount: nat := FromLittleEndian(data[12..16]);
    var entries: seq<Group> := [];
    var pos: nat := HEADER_LEN;
    JoinedToNothing(GroupsFrom(data, pos, groupCount));
    for i := 0 to groupCount
      invariant Joined(entries, GroupsFrom(data, pos, groupCount - i)) == Parsed(data)
    {
      if pos + DIR_ENTRY_LEN > |data| {
        return Err(OutOfBounds);
      }
      var g := GroupAt(data, pos);
      if g.offset + g.length > |data| {
        return Err(OutOfBounds);
      }
      ghost var rest := GroupsFrom(data, pos + DIR_ENTRY_LEN, groupCount - i - 1);
      if rest.Ok? {
        assert entries + ([g] + rest.value) == (entries + [g]) + rest.value;
      }
      entries := entries + [g];
      pos := pos + DIR_ENTRY_LEN;
    }
    assert entries + [] == entries;
    return Ok(entries);
  }

  // ---------------------------------------------------------------------------------------------
  // Round trip
  // ---------------------------------------------------------------------------------------------

  predicate IsWord(v: nat) {
    v < Pow256(8)
  }

  predicate FitsWords(g: Group) {
    IsWord(g.startEpoch) && IsWord(g.epochCount) && IsWord(g.offset) && IsWord(g.length)
  }

  lemma WordReadsBack(data: Bytes, offset: nat, v: nat)
    requires IsWord(v) && StandsAt(data, offset, LittleEndian(v, 8))
    ensures Word(data, offset) == v
  {
    LittleEndianRoundTrip(v, 8);
  }

  lemma EntryReadsBack(data: Bytes, pos: nat, g: Group)
    requires FitsWords(g) && StandsAt(data, pos, EntryBytes(g))
    ensures GroupAt(data, pos) == g
  {
    hide LittleEndian, StandsAt, IsWord, Word;
    var a, b, c, d := LittleEndian(g.startEpoch, 8), LittleEndian(g.epochCount, 8), LittleEndian(g.offset, 8),
                      LittleEndian(g.length, 8);
    StandsInParts(data, pos, a + b + c, d);
    StandsInParts(data, pos, a + b, c);
    StandsInParts(data, pos, a, b);
    WordReadsBack(data, pos, g.startEpoch);
    WordReadsBack(data, pos + 8, g.epochCount);
    WordReadsBack(data, pos + 16, g.offset);
    WordReadsBack(data, pos + 24, g.length);
  }

  lemma {:induction false} DirectoryReadsBack(data: Bytes, pos: nat, groups: seq<Group>)
    requires StandsAt(data, pos, Directory(groups))
    requires forall i :: 0 <= i < |groups| ==> FitsWords(groups[i]) && groups[i].offset + groups[i].length <= |data|
    ensures GroupsFrom(data, pos, |groups|) == Ok(groups)
    decreases |groups|
  {
    hide EntryBytes, FitsWords, GroupAt;
    if groups != [] {
      assert groups == [groups[0]] + groups[1..];
      StandsInParts(data, pos, EntryBytes(groups[0]), Directory(groups[1..]));
      EntryReadsBack(data, pos, groups[0]);
      DirectoryReadsBack(data, pos + DIR_ENTRY_LEN, groups[1..]);
    }
  }

  /** The packets' payloads follow one another from `offset`, each where its group says. */
  lemma {:induction false} PayloadsStand(data: Bytes, offset: nat, packets: seq<PacketOut>, i: nat)
    requires i < |packets| && StandsAt(data, offset, Payloads(packets))
    ensures var g := Groups(packets, offset)[i];
      && g.startEpoch == packets[i].startEpoch && g.epochCount == packets[i].epochCount
      && g.length == |packets[i].bytes| && StandsAt(data, g.offset, packets[i].bytes)
    decreases i
  {
    var p := packets[0];
    StandsInParts(data, offset, p.bytes, Payloads(packets[1..]));
    if i > 0 {
      PayloadsStand(data, offset + |p.bytes|, packets[1..], i - 1);
    }
  }

  /** Lengths and epochs fit the 64-bit directory words, and the group count its 32 bits. */
  predicate Storable(packets: seq<PacketOut>, shardEpochs: nat) {
    && |packets| < Pow256(4)
    && IsWord(|ContainerBytes(packets, shardEpochs)|)
    && forall i :: 0 <= i < |packets| ==> IsWord(packets[i].startEpoch) && IsWord(packets[i].epochCount)
  }

  /** Parsing a container gives its groups in order, and each payload slice is its packet. */
  lemma ContainerRoundTrip(packets: seq<PacketOut>, shardEpochs: nat)
    requires Storable(packets, shardEpochs)
    ensures var data := ContainerBytes(packets, shardEpochs);
      && Parsed(data) == Ok(Groups(packets, PayloadBase(|packets|)))
      && forall i :: 0 <= i < |packets| ==>
           var g := Parsed(data).value[i];
           && g.startEpoch == packets[i].startEpoch
           && g.epochCount == packets[i].epochCount
           && g.offset + g.length <= |data|
           && data[g.offset..g.offset + g.length] == packets[i].bytes
  {
    hide Pow256, Directory, Payloads, Groups, GroupsFrom, EntryBytes, HeaderBytes, HasMagic, GroupCount, StandsAt;
    var data := ContainerBytes(packets, shardEpochs);
    var base := PayloadBase(|packets|);
    var groups := Groups(packets, base);
    PartsStand(packets, shardEpochs);
    forall i | 0 <= i < |packets|
      ensures FitsWords(groups[i]) && groups[i].offset + groups[i].length <= |data|
      ensures groups[i].startEpoch == packets[i].startEpoch && groups[i].epochCount == packets[i].epochCount
      ensures data[groups[i].offset..groups[i].offset + groups[i].length] == packets[i].bytes
    {
      PayloadsStand(data, base, packets, i);
      StandingPart(data, groups[i].offset, packets[i].bytes);
    }
    DirectoryReadsBack(data, HEADER_LEN, groups);
  }

  lemma StandsWhole(data: Bytes)
    ensures StandsAt(data, 0, data)
  {
  }

  lemma PartsStand(packets: seq<PacketOut>, shardEpochs: nat)
    requires |packets| < Pow256(4)
    ensures var data := ContainerBytes(packets, shardEpochs); var base := PayloadBase(|packets|);
      && HasMagic(data) && GroupCount(data) == |packets|
      && StandsAt(data, HEADER_LEN, Directory(Groups(packets, base)))
      && StandsAt(data, base, Payloads(packets))
  {
    hide Pow256, Directory, Payloads, Groups, HeaderBytes, HasMagic, GroupCount, StandsAt;
    var data := ContainerBytes(packets, shardEpochs);
    var directory := Directory(Groups(packets, PayloadBase(|packets|)));
    var header := HeaderBytes(|packets|, shardEpochs);
    assert data == header + (directory + Payloads(packets));
    StandsWhole(data);
    StandsInParts(data, 0, header, directory + Payloads(packets));
    StandsInParts(data, HEADER_LEN, directory, Payloads(packets));
    HeaderReadsBack(data, |packets|, shardEpochs, directory + Payloads(packets));
  }

  lemma HeaderReadsBack(data: Bytes, groupCount: nat, shardEpochs: nat, rest: Bytes)
    requires groupCount < Pow256(4) && data == HeaderBytes(groupCount, shardEpochs) + rest
    ensures HasMagic(data) && GroupCount(data) == groupCount
  {
    hide Pow256, FromLittleEndian, LittleEndian;
    LittleEndianRoundTrip(groupCount, 4);
    assert data[12..16] == LittleEndian(groupCount, 4);
  }

  function BytesOf(packets: seq<PacketOut>): (r: seq<Bytes>)
    ensures |r| == |packets| && forall i :: 0 <= i < |r| ==> r[i] == packets[i].bytes
  {
    seq(|packets|, i requires 0 <= i < |packets| => packets[i].bytes)
  }

  lemma SlicesArePackets(packets: seq<PacketOut>, shardEpochs: nat)
    requires Storable(packets, shardEpochs)
    ensures PayloadSlices(ContainerBytes(packets, shardEpochs)) == Ok(BytesOf(packets))
  {
    hide ContainerBytes, Parsed, Groups, Storable;
    ContainerRoundTrip(packets, shardEpochs);
    ParsedIsInside(ContainerBytes(packets, shardEpochs));
    assert PayloadSlices(ContainerBytes(packets, shardEpochs)).value == BytesOf(packets);
  }
}
