/** Epoch groups: a run of blocks up to its pivot, whose height is the epoch of every block in it. */
module Epochs {
  import opened Basics
  import opened Bits
  import opened Codec
  import opened PacketModel

  predicate IsPivot(b: Block) {
    Bit(b.flags, PIVOT)
  }

  /** The first pivot at or after block `k`. */
  function PivotFrom(blocks: seq<Block>, k: nat): (r: Option<nat>)
    requires k <= |blocks|
    ensures r.Some? ==> k <= r.value < |blocks| && IsPivot(blocks[r.value])
    decreases |blocks| - k
  {
    if k == |blocks| then None else if IsPivot(blocks[k]) then Some(k) else PivotFrom(blocks, k + 1)
  }

  lemma {:induction false} PivotOfGroup(blocks: seq<Block>, start: nat, pivot: nat, k: nat)
    requires start <= k <= pivot < |blocks| && PivotFrom(blocks, start) == Some(pivot)
    ensures PivotFrom(blocks, k) == Some(pivot)
    decreases k - start
  {
    if start < k {
      PivotOfGroup(blocks, start + 1, pivot, k);
    }
  }

  /** The position of the first pivot counted from `start`, as a search finds it. */
  method FindPivot(blocks: seq<Block>, start: nat) returns (relative: Option<nat>)
    requires start <= |blocks|
    ensures relative.None? ==> PivotFrom(blocks, start).None?
    ensures relative.Some? ==> PivotFrom(blocks, start) == Some(start + relative.value)
  {
    var i := start;
    while i < |blocks|
      invariant start <= i <= |blocks|
      invariant PivotFrom(blocks, start) == PivotFrom(blocks, i)
    {
      if IsPivot(blocks[i]) {
        return Some(i - start);
      }
      i := i + 1;
    }
    return None;
  }

  // ---------------------------------------------------------------------------------------------
  // Validation before encoding
  // ---------------------------------------------------------------------------------------------

  /** Block `k` has its place as index, no reserved flag, and the height of its group's pivot as epoch. */
  predicate BlockIsValid(blocks: seq<Block>, k: nat)
    requires k < |blocks|
  {
    && PivotFrom(blocks, k).Some?
    && blocks[k].index == k
    && !Bit(blocks[k].flags, RESERVED)
    && blocks[k].epoch == blocks[PivotFrom(blocks, k).value].height
  }

  predicate IsValid(blocks: seq<Block>) {
    && blocks != []
    && blocks[0].epoch + PACKET_EPOCHS < U64
    && forall k :: 0 <= k < |blocks| ==> BlockIsValid(blocks, k)
  }

  method ValidateInput(blocks: seq<Block>) returns (ok: bool)
    ensures ok == IsValid(blocks)
  {
    if blocks == [] {
      return false;
    }
    if blocks[0].epoch + PACKET_EPOCHS >= U64 {
      return false;
    }
    var groupStart := 0;
    var expectedIndex := 0;
    while groupStart < |blocks|
      invariant groupStart <= |blocks| && expectedIndex == groupStart
      invariant forall k :: 0 <= k < groupStart ==> BlockIsValid(blocks, k)
    {
      var relativePivot := FindPivot(blocks, groupStart);
      if relativePivot.None? {
        assert !BlockIsValid(blocks, groupStart);
        return false;
      }
      var pivotIndex := groupStart + relativePivot.value;
      var epoch := blocks[pivotIndex].height;
      for i := groupStart to pivotIndex + 1
        invariant expectedIndex == i
        invariant forall k :: 0 <= k < i ==> BlockIsValid(blocks, k)
      {
        PivotOfGroup(blocks, groupStart, pivotIndex, i);
        var block := blocks[i];
        if block.index != expectedIndex || Bit(block.flags, RESERVED) || block.epoch != epoch {
          assert !BlockIsValid(blocks, i);
          return false;
        }
        expectedIndex := expectedIndex + 1;
      }
      groupStart := pivotIndex + 1;
    }
    return true;
  }

  // ---------------------------------------------------------------------------------------------
  // Epochs after decoding
  // ---------------------------------------------------------------------------------------------

  predicate AllPivoted(blocks: seq<Block>) {
    forall k :: 0 <= k < |blocks| ==> PivotFrom(blocks, k).Some?
  }

  /** Every block with the height of its group's pivot as epoch. */
  function WithEpochs(blocks: seq<Block>): (r: seq<Block>)
    requires AllPivoted(blocks)
    ensures |r| == |blocks|
    ensures forall k :: 0 <= k < |r| ==> r[k] == blocks[k].(epoch := blocks[PivotFrom(blocks, k).value].height)
  {
    seq(|blocks|, k requires 0 <= k < |blocks| => blocks[k].(epoch := blocks[PivotFrom(blocks, k).value].height))
  }

  /** Blocks that agree on flags and heights, whatever their epochs. */
  predicate SamePivots(a: seq<Block>, b: seq<Block>) {
    && |a| == |b|
    && forall k :: 0 <= k < |a| ==> IsPivot(a[k]) == IsPivot(b[k]) && a[k].height == b[k].height
  }

  lemma {:induction false} PivotsAgree(a: seq<Block>, b: seq<Block>, k: nat)
    requires SamePivots(a, b) && k <= |a|
    ensures PivotFrom(a, k) == PivotFrom(b, k)
    decreases |a| - k
  {
    if k < |a| {
      PivotsAgree(a, b, k + 1);
    }
  }

  /** What has been assigned below `n`; the rest is as it was. */
  predicate AssignedUpTo(now: seq<Block>, was: seq<Block>, n: nat) {
    && |now| == |was| && n <= |was|
    && (forall k :: n <= k < |was| ==> now[k] == was[k])
    && (forall k :: 0 <= k < n ==>
          && PivotFrom(was, k).Some?
          && now[k] == was[k].(epoch := was[PivotFrom(was, k).value].height))
  }

  lemma AssignOne(now: seq<Block>, was: seq<Block>, i: nat, epoch: nat)
    requires AssignedUpTo(now, was, i) && i < |was|
    requires PivotFrom(was, i).Some? && epoch == was[PivotFrom(was, i).value].height
    ensures AssignedUpTo(now[i := now[i].(epoch := epoch)], was, i + 1)
  {
    hide PivotFrom;
  }

  lemma EverythingAssigned(now: seq<Block>, was: seq<Block>)
    requires AssignedUpTo(now, was, |was|)
    ensures AllPivoted(was) && now == WithEpochs(was)
  {
    hide PivotFrom;
  }

  lemma NothingAssigned(was: seq<Block>)
    ensures AssignedUpTo(was, was, 0)
  {
  }

  lemma AssignedKeepsPivots(now: seq<Block>, was: seq<Block>, n: nat)
    requires AssignedUpTo(now, was, n)
    ensures SamePivots(now, was)
  {
  }

  method AssignEpochFromPivots(blocks: array<Block>) returns (ok: bool)
    modifies blocks
    ensures ok == AllPivoted(old(blocks[..]))
    ensures ok ==> blocks[..] == WithEpochs(old(blocks[..]))
  {
    hide PivotFrom, IsPivot, AssignedUpTo, SamePivots;
    ghost var was := blocks[..];
    var groupStart := 0;
    NothingAssigned(was);
    while groupStart < blocks.Length
      invariant groupStart <= blocks.Length && AssignedUpTo(blocks[..], was, groupStart)
    {
      AssignedKeepsPivots(blocks[..], was, groupStart);
      PivotsAgree(blocks[..], was, groupStart);
      var relativePivot := FindPivot(blocks[..], groupStart);
      if relativePivot.None? {
        assert PivotFrom(was, groupStart).None?;
        return false;
      }
      var pivotIndex := groupStart + relativePivot.value;
      var epoch := blocks[pivotIndex].height;
      assert epoch == was[pivotIndex].height;
      for i := groupStart to pivotIndex + 1
        invariant AssignedUpTo(blocks[..], was, i)
      {
        PivotOfGroup(was, groupStart, pivotIndex, i);
        AssignOne(blocks[..], was, i, epoch);
        ghost var before := blocks[..];
        blocks[i] := blocks[i].(epoch := epoch);
        assert blocks[..] == before[i := before[i].(epoch := epoch)];
      }
      groupStart := pivotIndex + 1;
    }
    EverythingAssigned(blocks[..], was);
    return true;
  }
}
