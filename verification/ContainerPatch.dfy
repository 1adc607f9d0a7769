/** Patching a whole container in memory: every packet's sites, reward look-ups in any order, flags set in place. */
module ContainerPatch {
  import opened Basics
  import opened Bits
  import opened Codec
  import opened Container
  import opened PacketModel
  import opened TxPayload
  import opened PacketCodec
  import opened FlagPatch

  function Shifted(sites: seq<Site>, offset: nat): (r: seq<Site>)
    ensures |r| == |sites|
    ensures forall i :: 0 <= i < |r| ==> r[i] == Site(sites[i].at + offset, sites[i].hash)
  {
    seq(|sites|, i requires 0 <= i < |sites| => Site(sites[i].at + offset, sites[i].hash))
  }

  /** The sites of the first `n` groups, counted from the start of the container. */
  function SitesUpTo(data: Bytes, groups: seq<Group>, n: nat): Result<seq<Site>>
    requires n <= |groups| && GroupsInside(groups, data)
  {
    if n == 0 then
      Ok([])
    else
      var before :- SitesUpTo(data, groups, n - 1);
      var g := groups[n - 1];
      var sites :- Sites(data[g.offset..g.offset + g.length]);
      Ok(before + Shifted(sites, g.offset))
  }

  function ContainerSites(data: Bytes): Result<seq<Site>> {
    var groups :- Parsed(data);
    ParsedIsInside(data);
    SitesUpTo(data, groups, |groups|)
  }

  predicate SitesInside(sites: seq<Site>, data: Bytes) {
    forall k :: 0 <= k < |sites| ==> sites[k].at < |data|
  }

  lemma SiteIsInside(data: Bytes)
    ensures Sites(data).Ok? ==> SitesInside(Sites(data).value, data)
  {
    if Sites(data).Ok? {
      var a := AreaOf(data).value;
      forall k | 0 <= k < a.count
        ensures SiteAt(data, a, k).at < |data|
      {
        MulMonotone(k + 1, a.count, a.size);
        assert (k + 1) * a.size == k * a.size + a.size;
      }
    }
  }

  lemma {:induction false} SitesAreInside(data: Bytes, groups: seq<Group>, n: nat)
    requires n <= |groups| && GroupsInside(groups, data)
    ensures SitesUpTo(data, groups, n).Ok? ==>
              SitesInside(SitesUpTo(data, groups, n).value, data)
    decreases n
  {
    hide Sites;
    if n > 0 {
      SitesAreInside(data, groups, n - 1);
      SiteIsInside(data[groups[n - 1].offset..groups[n - 1].offset + groups[n - 1].length]);
    }
  }

  lemma {:induction false} SitesStop(data: Bytes, groups: seq<Group>, i: nat, n: nat)
    requires i <= n <= |groups| && GroupsInside(groups, data) && SitesUpTo(data, groups, i).Err?
    ensures SitesUpTo(data, groups, n) == SitesUpTo(data, groups, i)
    decreases n
  {
    hide Sites;
    if i < n {
      SitesStop(data, groups, i, n - 1);
    }
  }

  lemma NoSites(data: Bytes, groups: seq<Group>)
    requires GroupsInside(groups, data)
    ensures SitesUpTo(data, groups, 0) == Ok([])
  {
  }

  lemma SitesStep(data: Bytes, groups: seq<Group>, n: nat)
    requires n < |groups| && GroupsInside(groups, data)
    ensures groups[n].offset + groups[n].length <= |data|
    ensures var g := groups[n]; var before := SitesUpTo(data, groups, n);
      var sites := Sites(data[g.offset..g.offset + g.length]);
      SitesUpTo(data, groups, n + 1) == (
        if before.Err? then before
        else if sites.Err? then Err(sites.error)
        else Ok(before.value + Shifted(sites.value, g.offset)))
  {
    hide Sites, Shifted;
  }

  // ---------------------------------------------------------------------------------------------
  // In place
  // ---------------------------------------------------------------------------------------------

  /** A block's total reward as the database gives it; an absent record counts as zero. */
  type Rewards = H256 -> Result<nat>

  predicate IsZero(rewards: Rewards, hash: H256) {
    rewards(hash) == Ok(0)
  }

  function ZeroTest(rewards: Rewards): H256 -> bool {
    (hash: H256) => IsZero(rewards, hash)
  }

  predicate AllRead(rewards: Rewards, sites: seq<Site>) {
    forall k :: 0 <= k < |sites| ==> rewards(sites[k].hash).Ok?
  }

  lemma {:induction false} FlipsAre(sites: seq<Site>, isZero: H256 -> bool, i: nat)
    ensures i in Flips(sites, isZero) <==> exists k :: 0 <= k < |sites| && isZero(sites[k].hash) && sites[k].at == i
    decreases |sites|
  {
    if sites != [] {
      var before := sites[..|sites| - 1];
      FlipsAre(before, isZero, i);
      assert sites == before + [sites[|sites| - 1]];
      if k :| 0 <= k < |sites| && isZero(sites[k].hash) && sites[k].at == i {
        assert k < |sites| - 1 ==> before[k] == sites[k];
      }
    }
  }

  function Indices(n: nat): (s: set<nat>)
    ensures forall k: nat :: k in s <==> k < n
  {
    if n == 0 then {} else Indices(n - 1) + {n - 1}
  }

  /** The zero blocks by index: as many as there are places to flag. */
  ghost function ZeroIndices(sites: seq<Site>, isZero: H256 -> bool): (s: set<nat>)
    ensures forall k: nat :: k in s <==> k < |sites| && isZero(sites[k].hash)
    ensures |s| == |Flips(sites, isZero)|
  {
    if sites == [] then
      {}
    else
      var before := ZeroIndices(sites[..|sites| - 1], isZero);
      if isZero(sites[|sites| - 1].hash) then before + {|sites| - 1} else before
  }

  /** `flips` are the places of the sites `from`, which are the indices in `done`. */
  ghost predicate Traced(sites: seq<Site>, flips: seq<nat>, from: seq<nat>, done: set<nat>) {
    && |from| == |flips|
    && (forall k: nat :: k in done ==> k < |sites| && sites[k].at in flips)
    && (forall n :: 0 <= n < |flips| ==> from[n] in done && from[n] < |sites| && flips[n] == sites[from[n]].at)
  }

  lemma NothingTraced(sites: seq<Site>)
    ensures Traced(sites, [], [], {})
  {
  }

  lemma OneMoreTraced(sites: seq<Site>, flips: seq<nat>, from: seq<nat>, done: set<nat>, k: nat)
    requires Traced(sites, flips, from, done) && k < |sites|
    ensures Traced(sites, flips + [sites[k].at], from + [k], done + {k})
  {
    assert sites[k].at in flips + [sites[k].at];
  }

  /** The worker threads look the rewards up in any order; each reports its zero blocks' places. */
  method CollectFlips(sites: seq<Site>, rewards: Rewards) returns (r: Result<seq<nat>>)
    ensures r.Ok? <==> AllRead(rewards, sites)
    ensures r.Ok? ==> |r.value| == |Flips(sites, ZeroTest(rewards))|
    ensures r.Ok? ==> forall i: nat :: i in r.value <==> i in Flips(sites, ZeroTest(rewards))
    ensures r.Ok? ==> forall i: nat :: i in r.value <==> HoldsZeroSite(sites, rewards, i)
    ensures r.Ok? ==> |r.value| == |set k: nat | k < |sites| && rewards(sites[k].hash) == Ok(0)|
  {
    hide Flips, Indices, ZeroIndices, Traced, HoldsZeroSite;
    var remaining: set<nat> := Indices(|sites|);
    var flips: seq<nat> := [];
    ghost var zero, done := ZeroIndices(sites, ZeroTest(rewards)), {};
    ghost var from: seq<nat> := [];
    assert Traced(sites, [], [], {}) by {
      NothingTraced(sites);
    }
    while remaining != {}
      invariant forall k: nat :: k in remaining ==> k < |sites|
      invariant forall k :: 0 <= k < |sites| && k !in remaining ==> rewards(sites[k].hash).Ok?
      invariant done == zero - remaining && |from| == |flips| == |done|
      invariant Traced(sites, flips, from, done)
      decreases |remaining|
    {
      var k: nat :| k in remaining;
      var reward := rewards(sites[k].hash);
      if reward.Err? {
        return Err(reward.error);
      }
      OneLookedUp(zero, remaining, k);
      if reward.value == 0 {
        OneMoreTraced(sites, flips, from, done, k);
        flips := flips + [sites[k].at];
        done := done + {k};
        from := from + [k];
      }
      remaining := remaining - {k};
    }
    assert done == zero;
    SamePlaces(sites, ZeroTest(rewards), flips, from);
    FlipsAreZero(sites, rewards);
    return Ok(flips);
  }

  lemma OneLookedUp(zero: set<nat>, remaining: set<nat>, k: nat)
    requires k in remaining
    ensures k !in zero - remaining
    ensures zero - (remaining - {k}) == if k in zero then (zero - remaining) + {k} else zero - remaining
  {
  }

  lemma SamePlaces(sites: seq<Site>, isZero: H256 -> bool, flips: seq<nat>, from: seq<nat>)
    requires Traced(sites, flips, from, ZeroIndices(sites, isZero))
    ensures forall i: nat :: i in flips <==> i in Flips(sites, isZero)
  {
    hide Flips;
    forall i: nat
      ensures i in flips <==> i in Flips(sites, isZero)
    {
      FlipsAre(sites, isZero, i);
      if i in flips {
        var n :| 0 <= n < |flips| && flips[n] == i;
        assert from[n] in ZeroIndices(sites, isZero);
      }
    }
  }

  datatype PatchReport = PatchReport(blocksSeen: nat, blocksFlagged: nat, changed: bool)

  /** Flags set at the sites of all zero blocks; nothing is written when the container or a reward cannot be read. */
  method PatchContainerBytes(data: array<Byte>, rewards: Rewards) returns (r: Result<PatchReport>)
    modifies data
    ensures r.Ok? <==> ContainerSites(old(data[..])).Ok? && AllRead(rewards, ContainerSites(old(data[..])).value)
    ensures r.Err? ==> data[..] == old(data[..])
    ensures r.Ok? ==>
      var was := old(data[..]); var flips := Flips(ContainerSites(was).value, ZeroTest(rewards));
      && AllInside(flips, was)
      && data[..] == Patched(was, flips)
      && r.value.blocksSeen == |ContainerSites(was).value|
      && r.value.blocksFlagged == |flips|
      && (r.value.changed <==> data[..] != was)
    ensures r.Ok? ==>
      var was := old(data[..]); var sites := ContainerSites(was).value;
      && (forall i :: 0 <= i < data.Length ==>
            data[i] == if HoldsZeroSite(sites, rewards, i) && (was[i] / 64) % 2 == 0 then was[i] + 64 else was[i])
      && r.value.blocksFlagged == |set k: nat | k < |sites| && rewards(sites[k].hash) == Ok(0)|
  {
    hide Sites, Parsed, Flips, Flagged, SitesUpTo, Patched, AllRead, HoldsZeroSite;
    ghost var was := data[..];
    var entries :- ParseDirectory(data[..]);
    ParsedIsInside(was);
    var sites: seq<Site> := [];
    NoSites(was, entries);
    for n := 0 to |entries|
      invariant data[..] == was && SitesUpTo(was, entries, n) == Ok(sites)
    {
      var g := entries[n];
      var found := BlockFlagSites(data[g.offset..g.offset + g.length]);
      SitesStep(was, entries, n);
      if found.Err? {
        SitesStop(was, entries, n + 1, |entries|);
        return Err(found.error);
      }
      sites := sites + Shifted(found.value, g.offset);
    }
    SitesAreInside(was, entries, |entries|);
    var flips :- CollectFlips(sites, rewards);
    FlipsInside(sites, ZeroTest(rewards), was);
    FlipsComeFrom(flips, Flips(sites, ZeroTest(rewards)), was);
    var changed := SetFlags(data, flips);
    PatchOrderIsInvisible(was, flips, Flips(sites, ZeroTest(rewards)));
    PatchInNumbers(was, sites, rewards);
    return Ok(PatchReport(|sites|, |flips|, changed));
  }

  /** Byte `i` is the flags byte of a block whose total reward is found to be zero. */
  ghost predicate HoldsZeroSite(sites: seq<Site>, rewards: Rewards, i: int) {
    exists k :: 0 <= k < |sites| && sites[k].at == i && rewards(sites[k].hash) == Ok(0)
  }

  lemma FlipsAreZero(sites: seq<Site>, rewards: Rewards)
    ensures forall i: nat :: i in Flips(sites, ZeroTest(rewards)) <==> HoldsZeroSite(sites, rewards, i)
    ensures |Flips(sites, ZeroTest(rewards))| == |set k: nat | k < |sites| && rewards(sites[k].hash) == Ok(0)|
  {
    hide Flips;
    forall i: nat
      ensures i in Flips(sites, ZeroTest(rewards)) <==> HoldsZeroSite(sites, rewards, i)
    {
      FlipsAre(sites, ZeroTest(rewards), i);
    }
    assert ZeroIndices(sites, ZeroTest(rewards)) == set k: nat | k < |sites| && rewards(sites[k].hash) == Ok(0);
  }

  /** Exactly the zero blocks' bytes gain bit 6, and no byte changes otherwise. */
  lemma PatchInNumbers(data: Bytes, sites: seq<Site>, rewards: Rewards)
    requires AllInside(Flips(sites, ZeroTest(rewards)), data)
    ensures forall i :: 0 <= i < |data| ==>
      Patched(data, Flips(sites, ZeroTest(rewards)))[i]
        == if HoldsZeroSite(sites, rewards, i) && (data[i] / 64) % 2 == 0 then data[i] + 64 else data[i]
    ensures |Flips(sites, ZeroTest(rewards))| == |set k: nat | k < |sites| && rewards(sites[k].hash) == Ok(0)|
  {
    hide Flips, Patched, Flagged, HoldsZeroSite;
    FlipsAreZero(sites, rewards);
    var flips := Flips(sites, ZeroTest(rewards));
    forall i | 0 <= i < |data|
      ensures Patched(data, flips)[i]
           == if HoldsZeroSite(sites, rewards, i) && (data[i] / 64) % 2 == 0 then data[i] + 64 else data[i]
    {
      PatchedAt(data, flips, i);
      FlaggedInNumbers(data[i]);
    }
  }

  lemma FlipsInside(sites: seq<Site>, isZero: H256 -> bool, data: Bytes)
    requires SitesInside(sites, data)
    ensures AllInside(Flips(sites, isZero), data)
  {
    hide Flips;
    var flips := Flips(sites, isZero);
    forall k | 0 <= k < |flips|
      ensures flips[k] < |data|
    {
      assert flips[k] in flips;
    }
  }

  lemma FlipsComeFrom(flips: seq<nat>, others: seq<nat>, data: Bytes)
    requires AllInside(others, data) && forall i: nat :: i in flips <==> i in others
    ensures AllInside(flips, data)
  {
    forall k | 0 <= k < |flips|
      ensures flips[k] < |data|
    {
      assert flips[k] in flips;
    }
  }

  /** The serial loop over the reported places. */
  method SetFlags(data: array<Byte>, flips: seq<nat>) returns (changed: bool)
    requires AllInside(flips, data[..])
    modifies data
    ensures data[..] == Patched(old(data[..]), flips)
    ensures changed <==> data[..] != old(data[..])
  {
    hide Bit, WithBit;
    ghost var was := data[..];
    changed := false;
    for n := 0 to |flips|
      invariant data[..] == Patched(was, flips[..n])
      invariant changed <==> data[..] != was
    {
      var at := flips[n];
      ghost var before := data[..];
      PatchedAt(was, flips[..n], at);
      assert flips[..n + 1][..n] == flips[..n];
      if !Bit(data[at], ZERO_TOTAL_REWARD) {
        data[at] := SetBit(data[at], ZERO_TOTAL_REWARD);
        changed := true;
        assert data[..] == before[at := Flagged(before[at])];
        assert data[..][at] != was[at];
      } else {
        FlaggedAlready(data[at]);
        assert data[..] == before[at := Flagged(before[at])];
      }
    }
    assert flips[..|flips|] == flips;
  }

  lemma FlaggedAlready(b: Byte)
    requires Bit(b, ZERO_TOTAL_REWARD)
    ensures Flagged(b) == b
  {
    hide SetBit, Bit;
    ByteIsItsBits(Flagged(b), b);
  }

  // ---------------------------------------------------------------------------------------------
  // Patching a container is patching its packets
  // ---------------------------------------------------------------------------------------------

  function Moved(places: seq<nat>, offset: nat): (r: seq<nat>)
    ensures |r| == |places| && forall i :: 0 <= i < |r| ==> r[i] == places[i] + offset
  {
    seq(|places|, i requires 0 <= i < |places| => places[i] + offset)
  }

  lemma {:induction false} FlipsOfShifted(sites: seq<Site>, offset: nat, isZero: H256 -> bool)
    ensures Flips(Shifted(sites, offset), isZero) == Moved(Flips(sites, isZero), offset)
    decreases |sites|
  {
    if sites != [] {
      var n := |sites| - 1;
      FlipsOfShifted(sites[..n], offset, isZero);
      assert Shifted(sites, offset)[..n] == Shifted(sites[..n], offset);
    }
  }

  lemma {:induction false} FlipsOfBoth(a: seq<Site>, b: seq<Site>, isZero: H256 -> bool)
    ensures Flips(a + b, isZero) == Flips(a, isZero) + Flips(b, isZero)
    decreases |b|
  {
    if b == [] {
      assert a + b == a;
    } else {
      assert (a + b)[..|a + b| - 1] == a + b[..|b| - 1];
      FlipsOfBoth(a, b[..|b| - 1], isZero);
    }
  }

  lemma {:induction false} PatchedBoth(data: Bytes, a: seq<nat>, b: seq<nat>)
    requires AllInside(a, data) && AllInside(b, data)
    ensures AllInside(a + b, data) && Patched(data, a + b) == Patched(Patched(data, a), b)
    decreases |b|
  {
    hide Flagged;
    if b == [] {
      assert a + b == a;
    } else {
      assert (a + b)[..|a + b| - 1] == a + b[..|b| - 1];
      PatchedBoth(data, a, b[..|b| - 1]);
    }
  }

  /** Patches inside one part of the bytes leave the parts around it alone. */
  lemma {:induction false} PatchedInside(front: Bytes, part: Bytes, back: Bytes, places: seq<nat>)
    requires AllInside(places, part)
    ensures AllInside(Moved(places, |front|), front + part + back)
    ensures Patched(front + part + back, Moved(places, |front|)) == front + Patched(part, places) + back
    decreases |places|
  {
    hide Flagged;
    if places != [] {
      var n := |places| - 1;
      PatchedInside(front, part, back, places[..n]);
      assert Moved(places, |front|)[..n] == Moved(places[..n], |front|);
      var before := Patched(part, places[..n]);
      var x := Flagged(before[places[n]]);
      UpdateInParts(before, back, places[n], x);
      UpdateInParts(front, before + back, places[n], x);
      assert front + before + back == front + (before + back);
    }
  }

  predicate HasSites(p: PacketOut) {
    Sites(p.bytes).Ok?
  }

  function PatchedPacket(p: PacketOut, isZero: H256 -> bool): (r: PacketOut)
    requires HasSites(p)
    ensures |r.bytes| == |p.bytes|
  {
    SiteIsInside(p.bytes);
    FlipsInside(Sites(p.bytes).value, isZero, p.bytes);
    p.(bytes := Patched(p.bytes, Flips(Sites(p.bytes).value, isZero)))
  }

  /** The first `n` packets patched. */
  function PatchedUpTo(packets: seq<PacketOut>, isZero: H256 -> bool, n: nat): (r: seq<PacketOut>)
    requires n <= |packets| && forall k :: 0 <= k < |packets| ==> HasSites(packets[k])
    ensures |r| == |packets|
    ensures forall k :: 0 <= k < |r| ==> r[k] == if k < n then PatchedPacket(packets[k], isZero) else packets[k]
  {
    seq(|packets|, k requires 0 <= k < |packets| => if k < n then PatchedPacket(packets[k], isZero) else packets[k])
  }

  /** One packet's bytes replaced by as many others. */
  function WithBytes(packets: seq<PacketOut>, k: nat, bytes: Bytes): seq<PacketOut>
    requires k < |packets|
  {
    packets[k := packets[k].(bytes := bytes)]
  }

  lemma {:induction false} GroupsStay(packets: seq<PacketOut>, offset: nat, k: nat, bytes: Bytes)
    requires k < |packets| && |bytes| == |packets[k].bytes|
    ensures Groups(WithBytes(packets, k, bytes), offset) == Groups(packets, offset)
    decreases k
  {
    if k > 0 {
      GroupsStay(packets[1..], offset + |packets[0].bytes|, k - 1, bytes);
      assert WithBytes(packets, k, bytes)[1..] == WithBytes(packets[1..], k - 1, bytes);
    }
  }

  /** The payload of packet `k` stands where its group says, and only it changes with the packet's bytes. */
  lemma {:induction false} PayloadReplaced(packets: seq<PacketOut>, offset: nat, k: nat, bytes: Bytes)
    requires k < |packets| && |bytes| == |packets[k].bytes|
    ensures var at := Groups(packets, offset)[k].offset - offset;
      && 0 <= at && at + |bytes| <= |Payloads(packets)|
      && Groups(packets, offset)[k].length == |bytes|
      && Payloads(packets)[at..at + |bytes|] == packets[k].bytes
      && Payloads(WithBytes(packets, k, bytes)) == Payloads(packets)[..at] + bytes + Payloads(packets)[at + |bytes|..]
    decreases k
  {
    hide Groups, Payloads, WithBytes;
    var first, rest := packets[0].bytes, packets[1..];
    PayloadsUnfold(packets);
    GroupBehind(packets, offset, k);
    BytesBehind(packets, k, bytes);
    if k == 0 {
      PartInFront(first, Payloads(rest), bytes);
    } else {
      PayloadReplaced(rest, offset + |first|, k - 1, bytes);
      PartBehind(first, Payloads(rest), Groups(rest, offset + |first|)[k - 1].offset - offset - |first|, bytes);
    }
  }

  lemma GroupBehind(packets: seq<PacketOut>, offset: nat, k: nat)
    requires k < |packets|
    ensures Groups(packets, offset)[k]
         == if k == 0 then Group(packets[0].startEpoch, packets[0].epochCount, offset, |packets[0].bytes|)
            else Groups(packets[1..], offset + |packets[0].bytes|)[k - 1]
  {
    hide Groups;
    GroupsUnfold(packets, offset);
  }

  lemma BytesBehind(packets: seq<PacketOut>, k: nat, bytes: Bytes)
    requires k < |packets|
    ensures Payloads(WithBytes(packets, k, bytes))
         == if k == 0 then bytes + Payloads(packets[1..])
            else packets[0].bytes + Payloads(WithBytes(packets[1..], k - 1, bytes))
  {
    hide Payloads;
    PayloadsUnfold(WithBytes(packets, k, bytes));
    assert WithBytes(packets, k, bytes)[1..] ==
           if k == 0 then packets[1..] else WithBytes(packets[1..], k - 1, bytes);
  }

  lemma PartInFront(first: Bytes, rest: Bytes, bytes: Bytes)
    requires |bytes| == |first|
    ensures var all := first + rest;
      all[0..0 + |bytes|] == first && all[..0] + bytes + all[0 + |bytes|..] == bytes + rest
  {
  }

  lemma PartBehind(first: Bytes, rest: Bytes, at: nat, bytes: Bytes)
    requires at + |bytes| <= |rest|
    ensures var all := first + rest; var from := |first| + at;
      && all[from..from + |bytes|] == rest[at..at + |bytes|]
      && all[..from] + bytes + all[from + |bytes|..] == first + (rest[..at] + bytes + rest[at + |bytes|..])
  {
  }

  /** In the container too, one packet's bytes replaced by as many others change nothing else. */
  lemma {:induction false} ContainerReplaced(packets: seq<PacketOut>, shardEpochs: nat, k: nat, bytes: Bytes)
    requires k < |packets| && |bytes| == |packets[k].bytes|
    ensures var data := ContainerBytes(packets, shardEpochs); var g := Groups(packets, PayloadBase(|packets|))[k];
      && Groups(WithBytes(packets, k, bytes), PayloadBase(|packets|)) == Groups(packets, PayloadBase(|packets|))
      && g.length == |bytes| && g.offset + |bytes| <= |data|
      && data[g.offset..g.offset + |bytes|] == packets[k].bytes
      && ContainerBytes(WithBytes(packets, k, bytes), shardEpochs)
           == data[..g.offset] + bytes + data[g.offset + |bytes|..]
  {
    hide HeaderBytes, Directory, Payloads, Groups;
    var base := PayloadBase(|packets|);
    GroupsStay(packets, base, k, bytes);
    PayloadReplaced(packets, base, k, bytes);
    PartBehind(HeaderBytes(|packets|, shardEpochs) + Directory(Groups(packets, base)), Payloads(packets),
               Groups(packets, base)[k].offset - base, bytes);
  }

  /** The first `n` groups patched in the container's bytes are the first `n` packets patched. */
  lemma {:induction false} PatchesUpTo(packets: seq<PacketOut>, shardEpochs: nat, isZero: H256 -> bool, n: nat)
    requires n <= |packets| && forall k :: 0 <= k < |packets| ==> HasSites(packets[k])
    requires Parsed(ContainerBytes(packets, shardEpochs)) == Ok(Groups(packets, PayloadBase(|packets|)))
    ensures var data, groups := ContainerBytes(packets, shardEpochs), Groups(packets, PayloadBase(|packets|));
      && GroupsInside(groups, data)
      && SitesUpTo(data, groups, n).Ok?
      && AllInside(Flips(SitesUpTo(data, groups, n).value, isZero), data)
      && Patched(data, Flips(SitesUpTo(data, groups, n).value, isZero))
           == ContainerBytes(PatchedUpTo(packets, isZero, n), shardEpochs)
      && Groups(PatchedUpTo(packets, isZero, n), PayloadBase(|packets|)) == groups
    decreases n
  {
    hide ContainerBytes, Groups, Parsed, Sites, Flips, Patched, PatchedUpTo, PatchedPacket, WithBytes;
    var data, groups := ContainerBytes(packets, shardEpochs), Groups(packets, PayloadBase(|packets|));
    ParsedIsInside(data);
    if n == 0 {
      NothingPatched(data, isZero);
      assert PatchedUpTo(packets, isZero, 0) == packets;
    } else {
      PatchesUpTo(packets, shardEpochs, isZero, n - 1);
      OneMorePatched(packets, shardEpochs, isZero, n);
    }
  }

  lemma NothingPatched(data: Bytes, isZero: H256 -> bool)
    ensures Flips([], isZero) == [] && AllInside([], data) && Patched(data, []) == data
  {
  }

  lemma OneMorePatched(packets: seq<PacketOut>, shardEpochs: nat, isZero: H256 -> bool, n: nat)
    requires 0 < n <= |packets| && forall k :: 0 <= k < |packets| ==> HasSites(packets[k])
    requires var data, groups := ContainerBytes(packets, shardEpochs), Groups(packets, PayloadBase(|packets|));
      && GroupsInside(groups, data)
      && SitesUpTo(data, groups, n - 1).Ok?
      && AllInside(Flips(SitesUpTo(data, groups, n - 1).value, isZero), data)
      && Patched(data, Flips(SitesUpTo(data, groups, n - 1).value, isZero))
           == ContainerBytes(PatchedUpTo(packets, isZero, n - 1), shardEpochs)
      && Groups(PatchedUpTo(packets, isZero, n - 1), PayloadBase(|packets|)) == groups
    ensures var data, groups := ContainerBytes(packets, shardEpochs), Groups(packets, PayloadBase(|packets|));
      && SitesUpTo(data, groups, n).Ok?
      && AllInside(Flips(SitesUpTo(data, groups, n).value, isZero), data)
      && Patched(data, Flips(SitesUpTo(data, groups, n).value, isZero))
           == ContainerBytes(PatchedUpTo(packets, isZero, n), shardEpochs)
      && Groups(PatchedUpTo(packets, isZero, n), PayloadBase(|packets|)) == groups
  {
    hide ContainerBytes, Groups, Sites, Flips, Patched, PatchedUpTo, PatchedPacket;
    var data, groups := ContainerBytes(packets, shardEpochs), Groups(packets, PayloadBase(|packets|));
    var p, g := packets[n - 1], groups[n - 1];
    var before, sites := SitesUpTo(data, groups, n - 1).value, Sites(p.bytes).value;
    var done, flips := Flips(before, isZero), Flips(sites, isZero);
    var q := PatchedUpTo(packets, isZero, n - 1);
    assert HasSites(p) && q[n - 1] == p;
    // The group's slice of the container is its packet, before and after the earlier patches.
    ContainerReplaced(packets, shardEpochs, n - 1, p.bytes);
    assert SitesUpTo(data, groups, n) == Ok(before + Shifted(sites, g.offset));
    FlipsOfBoth(before, Shifted(sites, g.offset), isZero);
    FlipsOfShifted(sites, g.offset, isZero);
    // Patching it there is replacing it by its patched bytes.
    SiteIsInside(p.bytes);
    FlipsInside(sites, isZero, p.bytes);
    var patched := Patched(p.bytes, flips);
    ContainerReplaced(q, shardEpochs, n - 1, patched);
    var now := ContainerBytes(q, shardEpochs);
    var front, back := now[..g.offset], now[g.offset + g.length..];
    assert now == front + p.bytes + back;
    PatchedInside(front, p.bytes, back, flips);
    PatchedBoth(data, done, Moved(flips, g.offset));
    assert PatchedPacket(p, isZero) == p.(bytes := patched) by {
      PatchedPacketIs(p, isZero);
    }
    assert PatchedUpTo(packets, isZero, n) == WithBytes(q, n - 1, patched);
  }

  lemma PatchedPacketIs(p: PacketOut, isZero: H256 -> bool)
    requires HasSites(p)
    ensures AllInside(Flips(Sites(p.bytes).value, isZero), p.bytes)
    ensures PatchedPacket(p, isZero) == p.(bytes := Patched(p.bytes, Flips(Sites(p.bytes).value, isZero)))
  {
    SiteIsInside(p.bytes);
    FlipsInside(Sites(p.bytes).value, isZero, p.bytes);
  }

  /** Patching a container gives the container of its patched packets, byte for byte. */
  lemma PatchCommutesWithPacking(packets: seq<PacketOut>, shardEpochs: nat, isZero: H256 -> bool)
    requires Storable(packets, shardEpochs) && forall k :: 0 <= k < |packets| ==> HasSites(packets[k])
    ensures var data := ContainerBytes(packets, shardEpochs);
      && ContainerSites(data).Ok?
      && AllInside(Flips(ContainerSites(data).value, isZero), data)
      && Patched(data, Flips(ContainerSites(data).value, isZero))
           == ContainerBytes(PatchedUpTo(packets, isZero, |packets|), shardEpochs)
  {
    hide ContainerBytes, Groups, Parsed, SitesUpTo, Flips, Patched, PatchedUpTo, HasSites;
    ContainerRoundTrip(packets, shardEpochs);
    PatchesUpTo(packets, shardEpochs, isZero, |packets|);
  }

  // ---------------------------------------------------------------------------------------------
  // Containers of encoded packets
  // ---------------------------------------------------------------------------------------------

  predicate AllEncode(w: Wire, ps: seq<Packet>) {
    forall k :: 0 <= k < |ps| ==> Encoded(w, ps[k]).Ok?
  }

  /** What the packer is handed when `ps` have been encoded: the same groups and epochs, with these bytes. */
  function Extracted(w: Wire, packets: seq<PacketOut>, ps: seq<Packet>): (r: seq<PacketOut>)
    requires |packets| == |ps| && AllEncode(w, ps)
    ensures |r| == |ps|
    ensures forall k :: 0 <= k < |r| ==> r[k] == packets[k].(bytes := Encoded(w, ps[k]).value)
  {
    seq(|ps|, k requires 0 <= k < |ps| => packets[k].(bytes := Encoded(w, ps[k]).value))
  }

  function AllFlagged(ps: seq<Packet>, isZero: H256 -> bool): (r: seq<Packet>)
    ensures |r| == |ps| && forall k :: 0 <= k < |r| ==> r[k] == FlaggedPacket(ps[k], isZero)
  {
    seq(|ps|, k requires 0 <= k < |ps| => FlaggedPacket(ps[k], isZero))
  }

  lemma FlaggedEncode(w: Wire, ps: seq<Packet>, isZero: H256 -> bool)
    requires AllEncode(w, ps)
    ensures AllEncode(w, AllFlagged(ps, isZero))
  {
    hide Encoded, Sites, Flips, Patched, FlaggedPacket;
    forall k | 0 <= k < |ps|
      ensures Encoded(w, AllFlagged(ps, isZero)[k]).Ok?
    {
      PatchCommutesWithEncoding(w, ps[k], isZero);
    }
  }

  lemma PatchedIsFlagged(w: Wire, p: PacketOut, packet: Packet, isZero: H256 -> bool)
    requires Encoded(w, packet) == Ok(p.bytes)
    ensures HasSites(p) && Encoded(w, FlaggedPacket(packet, isZero)) == Ok(PatchedPacket(p, isZero).bytes)
    ensures PatchedPacket(p, isZero) == p.(bytes := PatchedPacket(p, isZero).bytes)
  {
    hide Encoded, Sites, Flips, Patched, FlaggedPacket;
    PatchCommutesWithEncoding(w, packet, isZero);
  }

  /**
   * From packets to patched containers: encoding, packing and patching gives the container of the encodings of the
   * same packets with the flag set on every block with a zero total reward.
   */
  lemma PatchFlagsPackets(w: Wire, packets: seq<PacketOut>, ps: seq<Packet>, shardEpochs: nat, isZero: H256 -> bool)
    requires |packets| == |ps| && AllEncode(w, ps) && Storable(Extracted(w, packets, ps), shardEpochs)
    ensures AllEncode(w, AllFlagged(ps, isZero))
    ensures var data := ContainerBytes(Extracted(w, packets, ps), shardEpochs);
      && ContainerSites(data).Ok?
      && AllInside(Flips(ContainerSites(data).value, isZero), data)
      && Patched(data, Flips(ContainerSites(data).value, isZero))
           == ContainerBytes(Extracted(w, packets, AllFlagged(ps, isZero)), shardEpochs)
  {
    hide ContainerBytes, ContainerSites, Storable, Flips, Patched, Encoded, HasSites, FlaggedPacket, PatchedPacket,
      AllEncode;
    FlaggedEncode(w, ps, isZero);
    var outs, flagged := Extracted(w, packets, ps), Extracted(w, packets, AllFlagged(ps, isZero));
    forall k | 0 <= k < |outs|
      ensures HasSites(outs[k]) && PatchedPacket(outs[k], isZero) == flagged[k]
    {
      EncodesAt(w, ps, k);
      PatchedIsFlagged(w, outs[k], ps[k], isZero);
    }
    PatchCommutesWithPacking(outs, shardEpochs, isZero);
    assert PatchedUpTo(outs, isZero, |outs|) == flagged;
  }

  lemma EncodesAt(w: Wire, ps: seq<Packet>, k: nat)
    requires AllEncode(w, ps) && k < |ps|
    ensures Encoded(w, ps[k]).Ok?
  {
  }
}
