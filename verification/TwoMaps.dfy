/**
 * The state as two flat maps: the visible values, and those below the delta. A deletion by an address prefix empties
 * the whole delta, so it cannot be told on the visible map alone; on the two together every run can be.
 */
module TwoMaps {
  import opened Basics
  import opened KeyCodec
  import opened StateSpec
  import opened StateLaws
  import opened PrefixLaws
  import opened StateRuns

  type FlatMap = map<SpacedKey, Bytes>

  /** The two maps and what decides when the lower one moves. */
  datatype Two = Two(visible: FlatMap, below: FlatMap, height: nat, period: nat)

  function Emptied(s: Layers): Layers {
    s.(delta := map[])
  }

  function TwoOf(K: Keccak, s: Layers): Two {
    Two(Flat(K, s), Flat(K, Emptied(s)), s.height, s.epochCount)
  }

  /** The key that a writable key stands for. */
  function Effective(k: SpacedKey): SpacedKey {
    if IsCodeAlias(k) then Unaliased(k) else k
  }

  function Put(m: FlatMap, k: SpacedKey, v: Bytes): FlatMap {
    if v == [] then m - {k} else m[k := v]
  }

  /** One operation on the two maps. */
  function After(t: Two, op: Op): Two {
    match op
    case SetOp(k, v) => if HasBadAddress(k) then t else t.(visible := Put(t.visible, Effective(k), v))
    case DeleteOp(p) =>
      if HasBadAddress(p) then t
      else t.(visible := Without(if p.key.AddressPrefix? then t.below else t.visible, p))
    case CommitOp =>
      Two(t.visible, if t.period > 0 && Divides(t.period, t.height + 1) then t.visible else t.below,
          t.height + 1, t.period)
    case _ => t
  }

  ghost predicate Answered(t: Two, op: Op, out: Output) {
    match op
    case SetOp(k, _) => out == if HasBadAddress(k) then Failed else Done
    case GetOp(k) => out == if HasBadAddress(k) then Failed else Value(Lookup(t.visible, Effective(k)))
    case ReadOp(p) => if HasBadAddress(p) then out == Failed else out.Listing? && ListsFlat(t.visible, p, out.list)
    case DeleteOp(p) => if HasBadAddress(p) then out == Failed else out.Listing? && ListsFlat(t.visible, p, out.list)
    case CommitOp => out.Root?
    case RestartOp => out == Done
  }

  predicate IsExact(s: Layers, p: SpacedKey) {
    HasBadAddress(p) || IsComplete(s, p) || p.key.AddressPrefix?
  }

  /** Keys that can be written, and prefixes whose scans are exact, address prefixes among them. */
  predicate IsTold(s: Layers, op: Op) {
    match op
    case SetOp(k, _) => Writable(k)
    case GetOp(k) => Writable(k)
    case ReadOp(p) => IsExact(s, p)
    case DeleteOp(p) => IsExact(s, p)
    case _ => true
  }

  // ---------------------------------------------------------------------------------------------
  // One step
  // ---------------------------------------------------------------------------------------------

  lemma EmptiedView(K: Keccak, s: Layers, k: SpacedKey)
    requires WellFormed(k)
    ensures View(K, Emptied(s), k) == Below(K, s, k)
  {
  }

  /** A map that answers as the layers below the delta do is the lower map. */
  lemma BelowEquals(K: Keccak, s: Layers, m: FlatMap)
    requires forall k :: k in m ==> WellFormed(k)
    requires forall k :: WellFormed(k) ==> Lookup(m, k) == Below(K, s, k)
    ensures Flat(K, Emptied(s)) == m
  {
    hide View, Below, Flat;
    forall k | WellFormed(k)
      ensures Lookup(m, k) == View(K, Emptied(s), k)
    {
      EmptiedView(K, s, k);
    }
    FlatEquals(K, Emptied(s), m);
  }

  lemma LowerIsBelow(K: Keccak, s: Layers, k: SpacedKey)
    requires WellFormed(k)
    ensures Lookup(Flat(K, Emptied(s)), k) == Below(K, s, k)
  {
    hide View, Below, Flat;
    FlatIsView(K, Emptied(s), k);
    EmptiedView(K, s, k);
  }

  lemma SetTold(K: Keccak, s: Layers, k: SpacedKey, v: Bytes)
    requires Inv(K, s) && Writable(k)
    ensures Answered(TwoOf(K, s), SetOp(k, v), Answer(K, s, SetOp(k, v)))
    ensures TwoOf(K, Step(K, s, SetOp(k, v))) == After(TwoOf(K, s), SetOp(k, v))
  {
    hide Inv, Flat, Set, HasBadAddress, WellFormed;
    SetChangesOnlyDelta(K, s, k, v);
    if HasBadAddress(k) {
      RejectedSet(K, s, k, v);
    } else if IsCodeAlias(k) {
      AliasedSet(K, s, k, v);
      SetActsOnFlat(K, s, Unaliased(k), v);
    } else {
      SetActsOnFlat(K, s, k, v);
    }
  }

  lemma GetTold(K: Keccak, s: Layers, k: SpacedKey)
    requires Writable(k)
    ensures Answered(TwoOf(K, s), GetOp(k), Answer(K, s, GetOp(k)))
  {
    hide Flat, Get, HasBadAddress, WellFormed;
    GetFailsExactlyWhen(K, s, k);
    if IsCodeAlias(k) {
      AliasedGet(K, s, k);
      GetAnswersFlat(K, s, Unaliased(k));
    } else if !HasBadAddress(k) {
      GetAnswersFlat(K, s, k);
    }
  }

  lemma AliasedGet(K: Keccak, s: Layers, k: SpacedKey)
    requires IsCodeAlias(k)
    ensures Get(K, s, k) == Get(K, s, Unaliased(k))
  {
    hide ToKeyBytes, ToDeltaKeyBytes;
    AliasEncodesAlike(K, k, s.deltaPadding);
    AliasEncodesAlike(K, k, s.intermediatePadding);
  }

  lemma ReadTold(K: Keccak, s: Layers, p: SpacedKey)
    requires Inv(K, s) && IsExact(s, p)
    ensures Answered(TwoOf(K, s), ReadOp(p), Answer(K, s, ReadOp(p)))
    ensures Answered(TwoOf(K, s), DeleteOp(p), Answer(K, s, DeleteOp(p)))
  {
    hide Inv, Sound, Flat, ReadPrefix, DeletePrefix, AfterFailedDelete, HasBadAddress, IsComplete, ListsExactly,
      ListsFlat, ScanAgrees;
    InvIsSound(K, s);
    PrefixFailsExactlyWhen(K, s, p);
    if !HasBadAddress(p) {
      if IsComplete(s, p) {
        ReadCompletePrefix(K, s, p);
        CompleteAgrees(K, s, p);
      } else {
        ReadAddressPrefix(K, s, p);
        AddressPrefixAgrees(K, s.delta, s.deltaPadding, p);
        AddressPrefixAgrees(K, s.intermediate, s.intermediatePadding, p);
      }
      DeleteDefined(K, s, p);
      ExactListIsFlat(K, s, p, ReadPrefix(K, s, p).value);
    }
  }

  /** An address deletion leaves what lies below the delta, the matching keys excepted. */
  lemma AddressDeletion(K: Keccak, s: Layers, p: SpacedKey)
    requires Inv(K, s) && p.key.AddressPrefix?
    ensures DeletePrefix(K, s, p).Ok?
    ensures Flat(K, DeletePrefix(K, s, p).value.after) == Without(Flat(K, Emptied(s)), p)
  {
    hide Inv, Sound, View, Flat, Below, DeletePrefix, AfterFailedDelete, ReadPrefix, Selects;
    InvIsSound(K, s);
    PrefixFailsExactlyWhen(K, s, p);
    var t, lower := DeletePrefix(K, s, p).value.after, Flat(K, Emptied(s));
    FlatHasWellFormedKeys(K, Emptied(s));
    forall q | WellFormed(q)
      ensures Lookup(Without(lower, p), q) == View(K, t, q)
    {
      DeleteAddressPrefix(K, s, p, q);
      LowerIsBelow(K, s, q);
    }
    FlatEquals(K, t, Without(lower, p));
  }

  lemma DeleteTold(K: Keccak, s: Layers, p: SpacedKey)
    requires Inv(K, s) && IsExact(s, p)
    ensures TwoOf(K, Step(K, s, DeleteOp(p))) == After(TwoOf(K, s), DeleteOp(p))
  {
    hide Inv, Sound, Flat, ReadPrefix, DeletePrefix, AfterFailedDelete, HasBadAddress, Without, ListsExactly,
      IsComplete;
    InvIsSound(K, s);
    PrefixFailsExactlyWhen(K, s, p);
    DeleteChangesOnlyDelta(K, s, p);
    if !HasBadAddress(p) {
      if p.key.AddressPrefix? {
        AddressDeletion(K, s, p);
      } else {
        DeleteCompletePrefix(K, s, p);
      }
    }
  }

  /** What lies below the delta moves only with a rotation, and then it is all that was visible. */
  lemma CommitMovesBelow(K: Keccak, s: Layers)
    requires Inv(K, s)
    ensures Flat(K, Emptied(Committed(K, s))) == if Rotates(s, CommitOp) then Flat(K, s) else Flat(K, Emptied(s))
  {
    hide Inv, Flat, View, Below, InSnapshot, Committed, Rotates, Emptied;
    var lower := if Rotates(s, CommitOp) then Flat(K, s) else Flat(K, Emptied(s));
    FlatHasWellFormedKeys(K, s);
    FlatHasWellFormedKeys(K, Emptied(s));
    forall k | WellFormed(k)
      ensures Lookup(lower, k) == Below(K, Committed(K, s), k)
    {
      CommitBelow(K, s, k);
      CommitKeepsView(K, s, k);
      FlatIsView(K, s, k);
      LowerIsBelow(K, s, k);
    }
    BelowEquals(K, Committed(K, s), lower);
  }

  lemma CommitTold(K: Keccak, s: Layers)
    requires Inv(K, s)
    ensures Answered(TwoOf(K, s), CommitOp, Answer(K, s, CommitOp))
    ensures TwoOf(K, Step(K, s, CommitOp)) == After(TwoOf(K, s), CommitOp)
  {
    hide Inv, Flat, Step, Answer, Commit, Committed, RootToCommit, Divides, Emptied;
    CommitKeepsFlat(K, s);
    CommitAnswers(K, s);
    CommitCounts(K, s);
    CommitMovesBelow(K, s);
  }

  lemma CommitAnswers(K: Keccak, s: Layers)
    requires Commit(K, s).Ok?
    ensures Answer(K, s, CommitOp).Root?
  {
    hide Commit;
  }

  /** One operation answers and acts as on the two maps. */
  lemma StepIsTold(K: Keccak, s: Layers, op: Op)
    requires Inv(K, s) && IsTold(s, op)
    ensures Answered(TwoOf(K, s), op, Answer(K, s, op))
    ensures TwoOf(K, Step(K, s, op)) == After(TwoOf(K, s), op)
  {
    hide Inv, Sound, Answered, After, TwoOf, Answer, Step, IsExact, Writable;
    match op
    case SetOp(k, v) =>
      SetTold(K, s, k, v);
    case GetOp(k) =>
      GetTold(K, s, k);
      QuietlyRead(K, s, op);
    case ReadOp(p) =>
      ReadTold(K, s, p);
      QuietlyRead(K, s, op);
    case DeleteOp(p) =>
      ReadTold(K, s, p);
      DeleteTold(K, s, p);
    case CommitOp =>
      CommitTold(K, s);
    case RestartOp =>
      InvIsSound(K, s);
      RestartStays(K, s);
      QuietlyRead(K, s, op);
  }

  /** What reads and restarts leave: everything. */
  lemma QuietlyRead(K: Keccak, s: Layers, op: Op)
    requires op.GetOp? || op.ReadOp? || (op.RestartOp? && Step(K, s, op) == s)
    ensures Step(K, s, op) == s
    ensures forall t :: After(t, op) == t
    ensures op.RestartOp? ==> forall t :: Answered(t, op, Answer(K, s, op))
  {
  }

  // ---------------------------------------------------------------------------------------------
  // Runs
  // ---------------------------------------------------------------------------------------------

  ghost predicate IsToldRun(K: Keccak, s: Layers, ops: seq<Op>)
    decreases |ops|
  {
    ops == [] || (IsTold(s, ops[0]) && IsToldRun(K, Step(K, s, ops[0]), ops[1..]))
  }

  ghost predicate RunsAsTwo(t: Two, ops: seq<Op>, outs: seq<Output>)
    requires |outs| == |ops|
    decreases |ops|
  {
    ops == [] || (Answered(t, ops[0], outs[0]) && RunsAsTwo(After(t, ops[0]), ops[1..], outs[1..]))
  }

  function AfterAll(t: Two, ops: seq<Op>): Two
    decreases |ops|
  {
    if ops == [] then t else AfterAll(After(t, ops[0]), ops[1..])
  }

  lemma ToldIsAdmissible(s: Layers, op: Op)
    requires IsTold(s, op)
    ensures Admissible(op)
  {
    hide Writable, IsExact;
  }

  /**
   * The layered, re-keyed, rotating state cannot be told from the two flat maps on any run, deletions by address
   * prefixes included, and it ends where they end.
   */
  lemma {:induction false} RunIsTwoMaps(K: Keccak, s: Layers, ops: seq<Op>)
    requires Inv(K, s) && IsToldRun(K, s, ops)
    ensures RunsAsTwo(TwoOf(K, s), ops, Answers(K, s, ops))
    ensures TwoOf(K, Final(K, s, ops)) == AfterAll(TwoOf(K, s), ops)
    decreases |ops|
  {
    hide Inv, TwoOf, After, Answered, IsTold, Step, Answer, Admissible;
    if ops != [] {
      ToldIsAdmissible(s, ops[0]);
      StepKeepsInv(K, s, ops[0]);
      StepIsTold(K, s, ops[0]);
      RunIsTwoMaps(K, Step(K, s, ops[0]), ops[1..]);
      assert Answers(K, s, ops)[1..] == Answers(K, Step(K, s, ops[0]), ops[1..]);
    }
  }
}
