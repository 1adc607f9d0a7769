/** The writer thread: packets arrive in any order, are put back in group order and flushed container by container. */
module PackWriter {
  import opened Basics
  import opened Container
  import opened Packing

  // ---------------------------------------------------------------------------------------------
  // Files and totals
  // ---------------------------------------------------------------------------------------------

  /** One written container: the epochs its name carries, and its bytes. */
  datatype File = File(startEpoch: nat, endEpoch: int, bytes: Bytes)

  datatype Totals = Totals(epochs: nat, blocks: nat, transactions: nat) {
    function Plus(other: Totals): Totals {
      Totals(epochs + other.epochs, blocks + other.blocks, transactions + other.transactions)
    }
  }

  datatype DirEntry = DirEntry(startEpoch: nat, epochCount: nat, length: nat)

  function EndEpoch(p: PacketOut): int {
    p.startEpoch + p.epochCount - 1
  }

  function TotalsOf(packets: seq<PacketOut>): Totals {
    if packets == [] then
      Totals(0, 0, 0)
    else
      var p := packets[|packets| - 1];
      TotalsOf(packets[..|packets| - 1]).Plus(Totals(p.epochCount, p.blockCount, p.transactionCount))
  }

  function EntryOf(p: PacketOut): DirEntry {
    DirEntry(p.startEpoch, p.epochCount, |p.bytes|)
  }

  function FileOf(packets: seq<PacketOut>, shardEpochs: nat): File
    requires packets != []
  {
    File(packets[0].startEpoch, EndEpoch(packets[|packets| - 1]), ContainerBytes(packets, shardEpochs))
  }

  function FileBytes(files: seq<File>): nat {
    if files == [] then 0 else FileBytes(files[..|files| - 1]) + |files[|files| - 1].bytes|
  }

  lemma {:induction false} TotalsAdd(a: seq<PacketOut>, b: seq<PacketOut>)
    ensures TotalsOf(a + b) == TotalsOf(a).Plus(TotalsOf(b))
    decreases |b|
  {
    if b == [] {
      assert a + b == a;
    } else {
      assert (a + b)[..|a + b| - 1] == a + b[..|b| - 1];
      TotalsAdd(a, b[..|b| - 1]);
    }
  }

  lemma LastPacket(packets: seq<PacketOut>, p: PacketOut)
    ensures PayloadBytes(packets + [p]) == PayloadBytes(packets) + |p.bytes|
    ensures TotalsOf(packets + [p]) == TotalsOf(packets).Plus(Totals(p.epochCount, p.blockCount, p.transactionCount))
  {
    assert (packets + [p])[..|packets|] == packets;
  }

  lemma {:induction false} PayloadLengths(packets: seq<PacketOut>)
    ensures |Payloads(packets)| == PayloadBytes(packets)
  {
    if packets != [] {
      var n := |packets| - 1;
      PayloadLengths(packets[..n]);
      LastPayload(packets[..n], packets[n]);
      assert packets == packets[..n] + [packets[n]];
    }
  }

  lemma {:induction false} LastPayload(packets: seq<PacketOut>, p: PacketOut)
    ensures Payloads(packets + [p]) == Payloads(packets) + p.bytes
  {
    hide Payloads;
    PayloadsUnfold(packets + [p]);
    PayloadsUnfold(packets);
    if packets == [] {
      assert (packets + [p])[1..] == packets;
      assert p.bytes + [] == [] + p.bytes;
    } else {
      LastPayload(packets[1..], p);
      assert (packets + [p])[1..] == packets[1..] + [p];
      Regrouped(packets[0].bytes, Payloads(packets[1..]), p.bytes);
    }
  }

  lemma Regrouped(a: Bytes, b: Bytes, c: Bytes)
    ensures a + (b + c) == (a + b) + c
  {
  }

  // ---------------------------------------------------------------------------------------------
  // The container being filled
  // ---------------------------------------------------------------------------------------------

  lemma NothingToLay(packets: seq<PacketOut>)
    ensures packets == [] ==> Payloads(packets) == []
  {
  }

  lemma NoEntries(packets: seq<PacketOut>, offset: nat)
    ensures packets == [] ==> Directory(Groups(packets, offset)) == []
  {
  }

  lemma LayEntry(packets: seq<PacketOut>, i: nat, offset: nat, out: Bytes)
    requires i < |packets|
    ensures var p := packets[i]; var g := Group(p.startEpoch, p.epochCount, offset, |p.bytes|);
      out + Directory(Groups(packets[i..], offset))
        == (out + EntryBytes(g)) + Directory(Groups(packets[i + 1..], offset + |p.bytes|))
  {
    hide EntryBytes, Groups;
    GroupsUnfold(packets[i..], offset);
    assert packets[i..][0] == packets[i] && packets[i..][1..] == packets[i + 1..];
    var p := packets[i];
    var g := Group(p.startEpoch, p.epochCount, offset, |p.bytes|);
    var rest := Groups(packets[i + 1..], offset + |p.bytes|);
    assert ([g] + rest)[1..] == rest;
    Regrouped(out, EntryBytes(g), Directory(rest));
  }

  lemma LayPayload(packets: seq<PacketOut>, i: nat, out: Bytes)
    requires i < |packets|
    ensures out + Payloads(packets[i..]) == (out + packets[i].bytes) + Payloads(packets[i + 1..])
  {
    hide Payloads;
    PayloadsUnfold(packets[i..]);
    assert packets[i..][0] == packets[i] && packets[i..][1..] == packets[i + 1..];
    Regrouped(out, packets[i].bytes, Payloads(packets[i + 1..]));
  }

  /** One directory entry and one payload a packet. */
  ghost predicate Mirrors(entries: seq<DirEntry>, payloads: seq<Bytes>, packets: seq<PacketOut>) {
    && |entries| == |packets| == |payloads|
    && (forall i :: 0 <= i < |packets| ==> entries[i] == EntryOf(packets[i]))
    && (forall i :: 0 <= i < |packets| ==> payloads[i] == packets[i].bytes)
  }

  lemma MirrorsLength(entries: seq<DirEntry>, payloads: seq<Bytes>, packets: seq<PacketOut>)
    requires Mirrors(entries, payloads, packets)
    ensures |entries| == |packets|
  {
  }

  lemma MirrorsOneMore(entries: seq<DirEntry>, payloads: seq<Bytes>, packets: seq<PacketOut>, p: PacketOut)
    requires Mirrors(entries, payloads, packets)
    ensures Mirrors(entries + [EntryOf(p)], payloads + [p.bytes], packets + [p])
  {
  }

  class ContainerBuilder {
    var startEpoch: Option<nat>
    var endEpoch: int
    var entries: seq<DirEntry>
    var payloads: seq<Bytes>
    var payloadBytes: nat
    var epochCount: nat
    var blockCount: nat
    var transactionCount: nat
    ghost var packets: seq<PacketOut>

    ghost predicate Valid()
      reads this
    {
      && Mirrors(entries, payloads, packets)
      && payloadBytes == PayloadBytes(packets)
      && Totals(epochCount, blockCount, transactionCount) == TotalsOf(packets)
      && startEpoch == (if packets == [] then None else Some(packets[0].startEpoch))
      && (packets != [] ==> endEpoch == EndEpoch(packets[|packets| - 1]))
    }

    constructor ()
      ensures Valid() && packets == []
    {
      startEpoch := None;
      endEpoch := 0;
      entries := [];
      payloads := [];
      payloadBytes := 0;
      epochCount := 0;
      blockCount := 0;
      transactionCount := 0;
      packets := [];
    }

    predicate IsEmpty()
      requires Valid()
      reads this
      ensures IsEmpty() <==> packets == []
    {
      entries == []
    }

    method Push(packet: PacketOut)
      requires Valid()
      modifies this
      ensures Valid() && packets == old(packets) + [packet]
    {
      hide PayloadBytes, TotalsOf, Mirrors;
      LastPacket(packets, packet);
      MirrorsOneMore(entries, payloads, packets, packet);
      if startEpoch == None {
        startEpoch := Some(packet.startEpoch);
      }
      endEpoch := packet.startEpoch + packet.epochCount - 1;
      var length := |packet.bytes|;
      entries := entries + [DirEntry(packet.startEpoch, packet.epochCount, length)];
      payloadBytes := payloadBytes + length;
      epochCount := epochCount + packet.epochCount;
      blockCount := blockCount + packet.blockCount;
      transactionCount := transactionCount + packet.transactionCount;
      payloads := payloads + [packet.bytes];
      packets := packets + [packet];
    }

    predicate Reaches(target: nat)
      requires Valid()
      reads this
      ensures Reaches(target) <==> PayloadBytes(packets) >= target
    {
      payloadBytes >= target
    }

    method Reset()
      modifies this
      ensures Valid() && packets == []
    {
      startEpoch := None;
      endEpoch := 0;
      entries, payloads, payloadBytes := [], [], 0;
      epochCount, blockCount, transactionCount := 0, 0, 0;
      packets := [];
    }

    /** The bytes of the container file for the packets held. */
    method Layout(shardEpochs: nat) returns (out: Bytes)
      requires Valid()
      ensures out == ContainerBytes(packets, shardEpochs)
    {
      hide HeaderBytes, EntryBytes, PayloadBytes, TotalsOf, Groups, Directory, Payloads;
      ghost var header := HeaderBytes(|packets|, shardEpochs);
      ghost var directory := Directory(Groups(packets, PayloadBase(|packets|)));
      out := HeaderBytes(|entries|, shardEpochs);
      var offset: nat := PayloadBase(|entries|);
      assert packets[0..] == packets;
      ghost var laid := packets[|packets|..];
      NothingToLay(laid);
      for i := 0 to |entries|
        invariant out + Directory(Groups(packets[i..], offset)) == header + directory
      {
        LayEntry(packets, i, offset, out);
        out := out + EntryBytes(Group(entries[i].startEpoch, entries[i].epochCount, offset, entries[i].length));
        offset := offset + entries[i].length;
      }
      NoEntries(laid, offset);
      assert out == header + directory;
      for i := 0 to |payloads|
        invariant out + Payloads(packets[i..]) == header + directory + Payloads(packets)
      {
        LayPayload(packets, i, out);
        out := out + payloads[i];
      }
    }
  }

  // ---------------------------------------------------------------------------------------------
  // What has been written
  // ---------------------------------------------------------------------------------------------

  /** Each file is the layout of its container. */
  ghost predicate HoldContainers(files: seq<File>, containers: seq<seq<PacketOut>>, shardEpochs: nat) {
    && |files| == |containers|
    && (forall i :: 0 <= i < |files| ==> containers[i] != [] && files[i] == FileOf(containers[i], shardEpochs))
  }

  lemma HoldOneMore(files: seq<File>, containers: seq<seq<PacketOut>>, packets: seq<PacketOut>, shardEpochs: nat)
    requires HoldContainers(files, containers, shardEpochs) && packets != []
    ensures HoldContainers(files + [FileOf(packets, shardEpochs)], containers + [packets], shardEpochs)
  {
    hide FileOf;
  }

  class PackSummary {
    var groupCount: nat
    var epochCount: nat
    var blockCount: nat
    var transactionCount: nat
    var totalBytes: nat
    var files: seq<File>
    ghost var containers: seq<seq<PacketOut>>

    /** The files are the containers' layouts, and every total is that of the packets in them. */
    ghost predicate Valid(shardEpochs: nat)
      reads this
    {
      && HoldContainers(files, containers, shardEpochs)
      && groupCount == |Flatten(containers)|
      && Totals(epochCount, blockCount, transactionCount) == TotalsOf(Flatten(containers))
      && totalBytes == FileBytes(files)
    }

    constructor (shardEpochs: nat)
      ensures Valid(shardEpochs) && containers == []
    {
      groupCount, epochCount, blockCount, transactionCount, totalBytes := 0, 0, 0, 0, 0;
      files := [];
      containers := [];
    }

    /** Write the builder's container and start the next one. */
    method FlushContainer(builder: ContainerBuilder, shardEpochs: nat)
      requires Valid(shardEpochs) && builder.Valid() && builder.packets != []
      modifies this, builder
      ensures Valid(shardEpochs) && builder.Valid()
      ensures containers == old(containers) + [old(builder.packets)]
      ensures builder.packets == []
    {
      hide ContainerBytes, Groups, Directory, Payloads, PayloadBytes, Flatten, FileBytes, TotalsOf, HoldContainers,
        Mirrors;
      ghost var packets := builder.packets;
      HoldOneMore(files, containers, packets, shardEpochs);
      MirrorsLength(builder.entries, builder.payloads, packets);
      var bytes := builder.Layout(shardEpochs);
      PayloadLengths(packets);
      ContainerLength(packets, shardEpochs);
      TotalsAdd(Flatten(containers), packets);
      var written := File(builder.startEpoch.value, builder.endEpoch, bytes);
      files := files + [written];
      LastFile(old(files), written);
      groupCount := groupCount + |builder.entries|;
      epochCount := epochCount + builder.epochCount;
      blockCount := blockCount + builder.blockCount;
      transactionCount := transactionCount + builder.transactionCount;
      totalBytes := totalBytes + PayloadBase(|builder.entries|) + builder.payloadBytes;
      containers := containers + [packets];
      LastContainer(old(containers), packets);
      builder.Reset();
    }
  }

  lemma LastFile(files: seq<File>, f: File)
    ensures FileBytes(files + [f]) == FileBytes(files) + |f.bytes|
  {
    assert (files + [f])[..|files|] == files;
  }

  lemma LastContainer(containers: seq<seq<PacketOut>>, c: seq<PacketOut>)
    ensures Flatten(containers + [c]) == Flatten(containers) + c
  {
    assert (containers + [c])[..|containers|] == containers;
  }

  lemma ContainerLength(packets: seq<PacketOut>, shardEpochs: nat)
    ensures |ContainerBytes(packets, shardEpochs)| == PayloadBase(|packets|) + |Payloads(packets)|
  {
  }

  // ---------------------------------------------------------------------------------------------
  // Reading the files again
  // ---------------------------------------------------------------------------------------------

  /** The payloads of all files, one file after the other. */
  function AllSlices(files: seq<File>): Result<seq<Bytes>> {
    if files == [] then
      Ok([])
    else
      var front :- AllSlices(files[..|files| - 1]);
      var last :- PayloadSlices(files[|files| - 1].bytes);
      Ok(front + last)
  }

  predicate AllStorable(containers: seq<seq<PacketOut>>, shardEpochs: nat) {
    forall i :: 0 <= i < |containers| ==> Storable(containers[i], shardEpochs)
  }

  lemma NoBytes()
    ensures BytesOf([]) == []
  {
  }

  lemma BytesOfBoth(a: seq<PacketOut>, b: seq<PacketOut>)
    ensures BytesOf(a + b) == BytesOf(a) + BytesOf(b)
  {
  }

  /** Parsing every file and joining the slices gives the packets of all containers, in order. */
  lemma {:induction false} FilesHoldPackets(files: seq<File>, containers: seq<seq<PacketOut>>, shardEpochs: nat)
    requires HoldContainers(files, containers, shardEpochs) && AllStorable(containers, shardEpochs)
    ensures AllSlices(files) == Ok(BytesOf(Flatten(containers)))
    decreases |files|
  {
    hide Storable, PayloadSlices, ContainerBytes, BytesOf, EndEpoch;
    if files == [] {
      NoBytes();
    } else {
      var n := |files| - 1;
      FilesHoldPackets(files[..n], containers[..n], shardEpochs);
      SlicesArePackets(containers[n], shardEpochs);
      BytesOfBoth(Flatten(containers[..n]), containers[n]);
    }
  }

  // ---------------------------------------------------------------------------------------------
  // The reorder buffer
  // ---------------------------------------------------------------------------------------------

  /** What has arrived is either in the run already emitted or waiting under its group number. */
  ghost predicate Buffered(pending: map<nat, PacketOut>, run: seq<PacketOut>, seen: seq<PacketOut>) {
    && (forall g :: g in pending ==> g >= |run| && pending[g].group == g && pending[g] in seen)
    && (forall g :: 0 <= g < |run| ==> run[g].group == g && run[g] in seen)
    && (forall p :: p in seen ==> p.group < |run| || (p.group in pending && pending[p.group] == p))
  }

  lemma EmittedWasSeen(pending: map<nat, PacketOut>, run: seq<PacketOut>, seen: seq<PacketOut>, g: nat)
    requires Buffered(pending, run, seen)
    ensures g < |run| ==> exists q :: q in seen && q.group == g
  {
    if g < |run| {
      assert run[g] in seen && run[g].group == g;
    }
  }

  lemma ArrivalIsBuffered(pending: map<nat, PacketOut>, run: seq<PacketOut>, arrivals: seq<PacketOut>, i: nat)
    requires i < |arrivals| && DistinctGroups(arrivals) && Buffered(pending, run, arrivals[..i])
    ensures Buffered(pending[arrivals[i].group := arrivals[i]], run, arrivals[..i + 1])
  {
    var p := arrivals[i];
    var seen := arrivals[..i];
    EmittedWasSeen(pending, run, seen, p.group);
    assert arrivals[..i + 1] == seen + [p];
    forall q | q in seen
      ensures q.group != p.group
    {
      var j :| 0 <= j < i && arrivals[j] == q;
    }
  }

  lemma NextIsEmitted(pending: map<nat, PacketOut>, run: seq<PacketOut>, seen: seq<PacketOut>)
    requires Buffered(pending, run, seen) && |run| in pending
    ensures Buffered(pending - {|run|}, run + [pending[|run|]], seen)
  {
  }

  lemma BufferedRun(pending: map<nat, PacketOut>, run: seq<PacketOut>, arrivals: seq<PacketOut>)
    requires Buffered(pending, run, arrivals) && |run| !in pending
    ensures IsRun(run, arrivals)
  {
  }

  /**
   * Packets in any arrival order: the files written are the containers of the groups in task order,
   * each once, up to the first group that never arrived.
   */
  method WriteContainers(arrivals: seq<PacketOut>, shardEpochs: nat, targetBytes: nat)
    returns (summary: PackSummary, ghost run: seq<PacketOut>)
    requires DistinctGroups(arrivals)
    ensures fresh(summary) && summary.Valid(shardEpochs)
    ensures IsRun(run, arrivals)
    ensures summary.containers == Containers(run, targetBytes)
    ensures |summary.files| == |summary.containers|
    ensures forall i :: 0 <= i < |summary.files| ==> NamesEpochs(summary.files[i], summary.containers[i])
    ensures AllStorable(summary.containers, shardEpochs) ==> AllSlices(summary.files) == Ok(BytesOf(run))
  {
    hide Buffered, IsRun, ContainerBuilder.Valid, PackSummary.Valid, PayloadBytes, AllStorable, AllSlices, NamesEpochs;
    summary := new PackSummary(shardEpochs);
    var builder := new ContainerBuilder();
    var pending: map<nat, PacketOut> := map[];
    var nextGroup := 0;
    run := [];
    NothingBuffered(arrivals);
    for i := 0 to |arrivals|
      invariant fresh(summary) && fresh(builder)
      invariant summary.Valid(shardEpochs) && builder.Valid()
      invariant nextGroup == |run| && nextGroup !in pending && Buffered(pending, run, arrivals[..i])
      invariant Fill(run, targetBytes) == Filling(summary.containers, builder.packets)
    {
      ArrivalIsBuffered(pending, run, arrivals, i);
      pending := pending[arrivals[i].group := arrivals[i]];
      while nextGroup in pending
        invariant fresh(summary) && fresh(builder)
        invariant summary.Valid(shardEpochs) && builder.Valid()
        invariant nextGroup == |run| && Buffered(pending, run, arrivals[..i + 1])
        invariant Fill(run, targetBytes) == Filling(summary.containers, builder.packets)
        decreases |pending.Keys|
      {
        NextIsEmitted(pending, run, arrivals[..i + 1]);
        ghost var emitted := run;
        run := run + [pending[nextGroup]];
        assert run[..|run| - 1] == emitted;
        assert (pending - {nextGroup}).Keys == pending.Keys - {nextGroup};
        builder.Push(pending[nextGroup]);
        pending := pending - {nextGroup};
        nextGroup := nextGroup + 1;
        if builder.Reaches(targetBytes) {
          summary.FlushContainer(builder, shardEpochs);
        }
      }
    }
    assert arrivals[..|arrivals|] == arrivals;
    BufferedRun(pending, run, arrivals);
    if !builder.IsEmpty() {
      summary.FlushContainer(builder, shardEpochs);
    }
    RunIsRead(summary, run, shardEpochs, targetBytes);
  }

  lemma RunIsRead(summary: PackSummary, run: seq<PacketOut>, shardEpochs: nat, targetBytes: nat)
    requires summary.Valid(shardEpochs) && summary.containers == Containers(run, targetBytes)
    ensures |summary.files| == |summary.containers|
    ensures forall i :: 0 <= i < |summary.files| ==> NamesEpochs(summary.files[i], summary.containers[i])
    ensures AllStorable(summary.containers, shardEpochs) ==> AllSlices(summary.files) == Ok(BytesOf(run))
  {
    hide AllStorable, AllSlices, Containers, Flatten, FileOf, FileBytes, TotalsOf, HoldContainers, NamesEpochs;
    FilesNameEpochs(summary.files, summary.containers, shardEpochs);
    if AllStorable(summary.containers, shardEpochs) {
      FilesHoldPackets(summary.files, summary.containers, shardEpochs);
      ContainersPartition(run, targetBytes);
    }
  }

  /** A file is named by the first epoch of its packets and by the last, the one before its packets' end. */
  ghost predicate NamesEpochs(f: File, packets: seq<PacketOut>) {
    && packets != []
    && f.startEpoch == packets[0].startEpoch
    && f.endEpoch + 1 == packets[|packets| - 1].startEpoch + packets[|packets| - 1].epochCount
  }

  lemma FilesNameEpochs(files: seq<File>, containers: seq<seq<PacketOut>>, shardEpochs: nat)
    requires HoldContainers(files, containers, shardEpochs)
    ensures |files| == |containers| && forall i :: 0 <= i < |files| ==> NamesEpochs(files[i], containers[i])
  {
    hide ContainerBytes;
  }

  lemma NothingBuffered(arrivals: seq<PacketOut>)
    ensures Buffered(map[], [], arrivals[..0])
  {
  }
}
