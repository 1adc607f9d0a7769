/** The bytes of a container file. */
module ContainerFormat {
  import opened Basics
  import opened Codec
  import opened Container

  /** The bytes of the first `g` packets. */
  function BytesBefore(packets: seq<PacketOut>, g: nat): nat
    requires g <= |packets|
  {
    if g == 0 then 0 else BytesBefore(packets, g - 1) + |packets[g - 1].bytes|
  }

  lemma {:induction false} BytesBehind(packets: seq<PacketOut>, g: nat)
    requires 0 < g <= |packets|
    ensures BytesBefore(packets, g) == |packets[0].bytes| + BytesBefore(packets[1..], g - 1)
    decreases g
  {
    if g > 1 {
      BytesBehind(packets, g - 1);
    }
  }

  lemma {:induction false} GroupIs(packets: seq<PacketOut>, offset: nat, g: nat)
    requires g < |packets|
    ensures Groups(packets, offset)[g]
         == Group(packets[g].startEpoch, packets[g].epochCount, offset + BytesBefore(packets, g), |packets[g].bytes|)
    decreases g
  {
    if g > 0 {
      GroupIs(packets[1..], offset + |packets[0].bytes|, g - 1);
      BytesBehind(packets, g);
    }
  }

  lemma {:induction false} EntryStands(groups: seq<Group>, g: nat)
    requires g < |groups|
    ensures StandsAt(Directory(groups), 32 * g, EntryBytes(groups[g]))
    decreases g
  {
    hide EntryBytes;
    if g > 0 {
      EntryStands(groups[1..], g - 1);
      assert Directory(groups)[32 * g..32 * g + 32] == Directory(groups[1..])[32 * (g - 1)..32 * (g - 1) + 32];
    }
  }

  lemma {:induction false} PayloadStands(packets: seq<PacketOut>, g: nat)
    requires g < |packets|
    ensures StandsAt(Payloads(packets), BytesBefore(packets, g), packets[g].bytes)
    decreases g
  {
    if g > 0 {
      PayloadStands(packets[1..], g - 1);
      BytesBehind(packets, g);
      var at, n, first := BytesBefore(packets[1..], g - 1), |packets[g].bytes|, |packets[0].bytes|;
      assert Payloads(packets)[first + at..first + at + n] == Payloads(packets[1..])[at..at + n];
    }
  }

  /** Behind some bytes everything stands that much later. */
  lemma StandsBehind(front: Bytes, data: Bytes, at: nat, part: Bytes)
    requires StandsAt(data, at, part)
    ensures StandsAt(front + data, |front| + at, part)
  {
    assert (front + data)[|front| + at..|front| + at + |part|] == data[at..at + |part|];
  }

  lemma StandsBefore(data: Bytes, at: nat, part: Bytes, back: Bytes)
    requires StandsAt(data, at, part)
    ensures StandsAt(data + back, at, part)
  {
    assert (data + back)[at..at + |part|] == data[at..at + |part|];
  }

  /** "CFXPACK1", the version, the number of groups, the epochs of a shard and a zero: four bytes each. */
  lemma HeaderLayout(groupCount: nat, shardEpochs: nat)
    ensures HeaderBytes(groupCount, shardEpochs)
         == [67, 70, 88, 80, 65, 67, 75, 49] + LittleEndian(1, 4) + LittleEndian(groupCount, 4)
            + LittleEndian(shardEpochs, 4) + LittleEndian(0, 4)
  {
  }

  /** Where packet `g` starts. */
  function At(packets: seq<PacketOut>, g: nat): nat
    requires g <= |packets|
  {
    24 + 32 * |packets| + BytesBefore(packets, g)
  }

  lemma HeaderStands(packets: seq<PacketOut>, shardEpochs: nat)
    ensures StandsAt(ContainerBytes(packets, shardEpochs), 0, HeaderBytes(|packets|, shardEpochs))
  {
    hide HeaderBytes, Groups, Directory, Payloads, StandsAt;
    var directory := Directory(Groups(packets, PayloadBase(|packets|)));
    WholeStands(HeaderBytes(|packets|, shardEpochs), directory);
    StandsBefore(HeaderBytes(|packets|, shardEpochs) + directory, 0, HeaderBytes(|packets|, shardEpochs),
                 Payloads(packets));
  }

  lemma DirectoryStands(packets: seq<PacketOut>, shardEpochs: nat, g: nat)
    requires g < |packets|
    ensures StandsAt(ContainerBytes(packets, shardEpochs), 24 + 32 * g,
                     EntryBytes(Groups(packets, PayloadBase(|packets|))[g]))
  {
    hide HeaderBytes, EntryBytes, Groups, Directory, Payloads, StandsAt;
    var groups := Groups(packets, PayloadBase(|packets|));
    var front, directory := HeaderBytes(|packets|, shardEpochs), Directory(groups);
    EntryStands(groups, g);
    StandsBehind(front, directory, 32 * g, EntryBytes(groups[g]));
    StandsBefore(front + directory, 24 + 32 * g, EntryBytes(groups[g]), Payloads(packets));
  }

  lemma PacketStands(packets: seq<PacketOut>, shardEpochs: nat, g: nat)
    requires g < |packets|
    ensures StandsAt(ContainerBytes(packets, shardEpochs), At(packets, g), packets[g].bytes)
    ensures At(packets, |packets|) == |ContainerBytes(packets, shardEpochs)|
  {
    hide HeaderBytes, Groups, Directory, Payloads, StandsAt, BytesBefore;
    var front := HeaderBytes(|packets|, shardEpochs) + Directory(Groups(packets, PayloadBase(|packets|)));
    PayloadStands(packets, g);
    StandsBehind(front, Payloads(packets), BytesBefore(packets, g), packets[g].bytes);
    AllBytes(packets);
  }

  /**
   * Entry `g` stands at 24 + 32 * g: start epoch, epoch count, where the packet starts, and its length, eight bytes
   * each. The packets follow the directory, one directly behind the other, and nothing follows them.
   */
  lemma ContainerLayout(packets: seq<PacketOut>, shardEpochs: nat, g: nat)
    requires g < |packets|
    ensures var data, p := ContainerBytes(packets, shardEpochs), packets[g];
      && StandsAt(data, 0, HeaderBytes(|packets|, shardEpochs))
      && StandsAt(data, 24 + 32 * g, LittleEndian(p.startEpoch, 8) + LittleEndian(p.epochCount, 8)
                                     + LittleEndian(At(packets, g), 8) + LittleEndian(|p.bytes|, 8))
      && StandsAt(data, At(packets, g), p.bytes)
      && At(packets, 0) == 24 + 32 * |packets| && At(packets, g + 1) == At(packets, g) + |p.bytes|
      && At(packets, |packets|) == |data|
  {
    hide HeaderBytes, EntryBytes, Groups, StandsAt, ContainerBytes;
    HeaderStands(packets, shardEpochs);
    DirectoryStands(packets, shardEpochs, g);
    PacketStands(packets, shardEpochs, g);
    GroupIs(packets, PayloadBase(|packets|), g);
    EntryIs(Groups(packets, PayloadBase(|packets|))[g]);
  }

  lemma EntryIs(e: Group)
    ensures EntryBytes(e) == LittleEndian(e.startEpoch, 8) + LittleEndian(e.epochCount, 8)
                             + LittleEndian(e.offset, 8) + LittleEndian(e.length, 8)
  {
  }

  lemma WholeStands(front: Bytes, back: Bytes)
    ensures StandsAt(front + back, 0, front)
  {
  }

  lemma {:induction false} AllBytes(packets: seq<PacketOut>)
    ensures |Payloads(packets)| == BytesBefore(packets, |packets|)
  {
    if packets != [] {
      AllBytes(packets[1..]);
      BytesBehind(packets, |packets|);
    }
  }

  // ---------------------------------------------------------------------------------------------
  // What the reader accepts
  // ---------------------------------------------------------------------------------------------

  function Number(data: Bytes, at: nat, n: nat): nat
    requires at + n <= |data|
  {
    FromLittleEndian(data[at..at + n])
  }

  function EntryRead(data: Bytes, at: nat): Group
    requires at + 32 <= |data|
  {
    Group(Number(data, at, 8), Number(data, at + 8, 8), Number(data, at + 16, 8), Number(data, at + 24, 8))
  }

  /** The payload of the entry at `at` lies inside the data. */
  predicate PayloadInside(data: Bytes, at: nat)
    requires at + 32 <= |data|
  {
    Number(data, at + 16, 8) + Number(data, at + 24, 8) <= |data|
  }

  /** `n` whole directory entries from `at`, each with a payload inside the data. */
  predicate EntriesFit(data: Bytes, at: nat, n: nat) {
    at + 32 * n <= |data| && forall g :: 0 <= g < n ==> PayloadInside(data, at + 32 * g)
  }

  lemma FirstFits(data: Bytes, at: nat, n: nat)
    requires n > 0 && at + 32 <= |data|
    ensures EntriesFit(data, at, n) <==> PayloadInside(data, at) && EntriesFit(data, at + 32, n - 1)
  {
    hide PayloadInside;
    if EntriesFit(data, at, n) {
      assert PayloadInside(data, at + 32 * 0);
      forall g | 0 <= g < n - 1 ensures PayloadInside(data, at + 32 + 32 * g) {
        assert PayloadInside(data, at + 32 * (g + 1));
      }
    }
    if PayloadInside(data, at) && EntriesFit(data, at + 32, n - 1) {
      forall g | 0 <= g < n ensures PayloadInside(data, at + 32 * g) {
        if g > 0 {
          assert PayloadInside(data, at + 32 + 32 * (g - 1));
        }
      }
    }
  }

  lemma {:induction false} GroupsRead(data: Bytes, at: nat, n: nat)
    requires at <= |data|
    ensures GroupsFrom(data, at, n).Ok? <==> EntriesFit(data, at, n)
    ensures EntriesFit(data, at, n) ==> var groups := GroupsFrom(data, at, n).value;
      && |groups| == n
      && forall g :: 0 <= g < n ==> at + 32 * g + 32 <= |data| && groups[g] == EntryRead(data, at + 32 * g)
    decreases n
  {
    hide EntriesFit;
    if n == 0 {
      NoEntries(data, at);
    } else if at + 32 <= |data| {
      FirstFits(data, at, n);
      GroupsRead(data, at + 32, n - 1);
      assert GroupAt(data, at) == EntryRead(data, at);
      if EntriesFit(data, at, n) {
        var groups := GroupsFrom(data, at, n).value;
        forall g | 0 <= g < n ensures at + 32 * g + 32 <= |data| && groups[g] == EntryRead(data, at + 32 * g) {
          EntryInside(data, at, n, g);
          if g > 0 {
            assert groups[g] == GroupsFrom(data, at + 32, n - 1).value[g - 1];
            assert at + 32 * g == at + 32 + 32 * (g - 1);
          }
        }
      }
    } else {
      TooShort(data, at, n);
    }
  }

  lemma NoEntries(data: Bytes, at: nat)
    requires at <= |data|
    ensures EntriesFit(data, at, 0)
  {
  }

  lemma EntryInside(data: Bytes, at: nat, n: nat, g: nat)
    requires EntriesFit(data, at, n) && g < n
    ensures at + 32 * g + 32 <= |data|
  {
  }

  lemma TooShort(data: Bytes, at: nat, n: nat)
    requires n > 0 && at + 32 > |data|
    ensures !EntriesFit(data, at, n)
  {
  }

  /** Exactly the files that begin with the magic and hold as many whole entries as they say, with payloads inside. */
  lemma ParsedExactlyWhen(data: Bytes)
    ensures Parsed(data).Ok? <==>
      |data| >= 24 && data[..8] == [67, 70, 88, 80, 65, 67, 75, 49] && EntriesFit(data, 24, Number(data, 12, 4))
  {
    hide FromLittleEndian, EntriesFit, GroupsFrom;
    if HasMagic(data) {
      GroupsRead(data, 24, GroupCount(data));
    }
  }
}
