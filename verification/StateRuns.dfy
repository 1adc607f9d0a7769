/** Whole histories of the state: sets, gets, prefix reads and deletions, commits and checkpoint restarts. */
module StateRuns {
  import opened Basics
  import opened TrieSpec
  import opened KeyCodec
  import opened StateSpec
  import opened StateLaws
  import opened PrefixLaws

  datatype Op =
    | SetOp(key: SpacedKey, value: Bytes)
    | GetOp(key: SpacedKey)
    | ReadOp(prefix: SpacedKey)
    | DeleteOp(prefix: SpacedKey)
    | CommitOp
    | RestartOp

  datatype Output =
    | Done
    | Failed
    | Value(value: Option<Bytes>)
    | Listing(list: seq<KeyValue>)
    | Root(root: CommitRoot)

  /** Writes go to keys stored under a well-formed key's encoding, or to keys that are rejected. */
  predicate Admissible(op: Op) {
    op.SetOp? ==> Writable(op.key)
  }

  ghost function Step(K: Keccak, s: Layers, op: Op): Layers {
    match op
    case SetOp(k, v) => (match Set(K, s, k, v) case Ok(t) => t case Err(_) => s)
    case GetOp(_) => s
    case ReadOp(_) => s
    case DeleteOp(p) => (match DeletePrefix(K, s, p) case Ok(d) => d.after case Err(_) => AfterFailedDelete(K, s, p))
    case CommitOp => Committed(K, s)
    case RestartOp => Restore(K, Persist(s))
  }

  ghost function Answer(K: Keccak, s: Layers, op: Op): Output {
    match op
    case SetOp(k, v) => if Set(K, s, k, v).Ok? then Done else Failed
    case GetOp(k) => (match Get(K, s, k) case Ok(v) => Value(v) case Err(_) => Failed)
    case ReadOp(p) => (match ReadPrefix(K, s, p) case Ok(list) => Listing(list) case Err(_) => Failed)
    case DeleteOp(p) => (match DeletePrefix(K, s, p) case Ok(d) => Listing(d.list) case Err(_) => Failed)
    case CommitOp => (match Commit(K, s) case Ok(root) => Root(root) case Err(_) => Failed)
    case RestartOp => Done
  }

  /** Exactly the admissible operations keep the invariant; prefix deletions by any prefix are among them. */
  lemma StepKeepsInv(K: Keccak, s: Layers, op: Op)
    requires Inv(K, s)
    ensures Inv(K, Step(K, s, op)) <==> Admissible(op)
  {
    hide Inv, Sound, Set, DeletePrefix, AfterFailedDelete, Committed, Restore, Writable;
    InvIsSound(K, s);
    match op
    case SetOp(k, v) =>
      SetKeepsInvExactlyWhen(K, s, k, v);
    case DeleteOp(p) =>
      PrefixFailsExactlyWhen(K, s, p);
      if DeletePrefix(K, s, p).Ok? {
        DeleteKeepsInv(K, s, p);
      }
    case CommitOp =>
      CommitKeepsFlat(K, s);
    case RestartOp =>
      RestartStays(K, s);
    case _ =>
  }

  /** The key or the prefix of the operation is one that every encoder rejects. */
  predicate IsRejected(op: Op) {
    match op
    case SetOp(k, _) => HasBadAddress(k)
    case GetOp(k) => HasBadAddress(k)
    case ReadOp(p) => HasBadAddress(p)
    case DeleteOp(p) => HasBadAddress(p)
    case _ => false
  }

  /** Every operation at all leaves a sound state sound, and it fails for nothing but a bad address. */
  lemma StepKeepsSound(K: Keccak, s: Layers, op: Op)
    requires Sound(K, s)
    ensures Sound(K, Step(K, s, op))
    ensures Answer(K, s, op) == Failed <==> IsRejected(op)
  {
    hide Sound, Set, Get, ReadPrefix, DeletePrefix, AfterFailedDelete, Committed, Commit, Restore, HasBadAddress;
    match op
    case SetOp(k, v) =>
      SetKeepsSound(K, s, k, v);
    case GetOp(k) =>
      GetFailsExactlyWhen(K, s, k);
    case ReadOp(p) =>
      PrefixFailsExactlyWhen(K, s, p);
    case DeleteOp(p) =>
      PrefixFailsExactlyWhen(K, s, p);
      if DeletePrefix(K, s, p).Ok? {
        DeleteKeepsSound(K, s, p);
      }
    case CommitOp =>
      CommitKeepsSound(K, s);
    case RestartOp =>
      RestartStays(K, s);
  }

  lemma GetFailsExactlyWhen(K: Keccak, s: Layers, k: SpacedKey)
    ensures Get(K, s, k).Err? <==> HasBadAddress(k)
  {
    hide HasBadAddress, ToKeyBytes, ToDeltaKeyBytes;
    RejectedExactlyWhen(K, k, s.deltaPadding);
    RejectedExactlyWhen(K, k, s.intermediatePadding);
  }

  lemma RestartStays(K: Keccak, s: Layers)
    requires Sound(K, s)
    ensures Step(K, s, RestartOp) == s
  {
    hide Persist, Restore, RootsHold;
    RestartIsUnobservable(K, s);
  }

  ghost predicate AllAdmissible(ops: seq<Op>) {
    forall i :: 0 <= i < |ops| ==> Admissible(ops[i])
  }

  ghost function Final(K: Keccak, s: Layers, ops: seq<Op>): (t: Layers)
    decreases |ops|
  {
    if ops == [] then s else Final(K, Step(K, s, ops[0]), ops[1..])
  }

  ghost function Answers(K: Keccak, s: Layers, ops: seq<Op>): (outs: seq<Output>)
    ensures |outs| == |ops|
    decreases |ops|
  {
    if ops == [] then [] else [Answer(K, s, ops[0])] + Answers(K, Step(K, s, ops[0]), ops[1..])
  }

  /** Runs of any operations keep a sound state sound. */
  lemma {:induction false} RunKeepsSound(K: Keccak, s: Layers, ops: seq<Op>)
    requires Sound(K, s)
    ensures Sound(K, Final(K, s, ops))
    decreases |ops|
  {
    hide Sound, Step, Answer;
    if ops != [] {
      StepKeepsSound(K, s, ops[0]);
      RunKeepsSound(K, Step(K, s, ops[0]), ops[1..]);
    }
  }

  /**
   * In every run of any operations, writes of any keys included, an operation fails exactly if its key or prefix has
   * a bad address. No commit fails: what a write stores can always be re-keyed when it reaches the snapshot.
   */
  lemma {:induction false} FailsExactlyWhen(K: Keccak, s: Layers, ops: seq<Op>, i: nat)
    requires Sound(K, s) && i < |ops|
    ensures Answers(K, s, ops)[i] == Failed <==> IsRejected(ops[i])
    decreases i
  {
    hide Sound, Step, Answer, IsRejected;
    StepKeepsSound(K, s, ops[0]);
    if i > 0 {
      FailsExactlyWhen(K, Step(K, s, ops[0]), ops[1..], i - 1);
    }
  }

  // ---------------------------------------------------------------------------------------------
  // Against one flat map
  // ---------------------------------------------------------------------------------------------

  function FlatAfter(flat: map<SpacedKey, Bytes>, op: Op): map<SpacedKey, Bytes> {
    match op
    case SetOp(k, v) => if !WellFormed(k) then flat else if v == [] then flat - {k} else flat[k := v]
    case DeleteOp(p) => Without(flat, p)
    case _ => flat
  }

  /** The list holds each entry of the flat map under the prefix once, and nothing else. */
  ghost predicate ListsFlat(flat: map<SpacedKey, Bytes>, p: SpacedKey, list: seq<KeyValue>) {
    && (forall i, j :: 0 <= i < j < |list| ==> list[i].key != list[j].key)
    && (forall k, v :: WellFormed(k) ==>
          (Lists(list, k, v) <==> Selects(p, k) && Lookup(flat, k) == Some(v)))
    && (forall i :: 0 <= i < |list| ==> IsCanonicalKey(list[i].key))
  }

  ghost predicate AnswersAsFlat(flat: map<SpacedKey, Bytes>, op: Op, out: Output) {
    match op
    case SetOp(k, _) => out == if WellFormed(k) then Done else Failed
    case GetOp(k) => out == Value(Lookup(flat, k))
    case ReadOp(p) => out.Listing? && ListsFlat(flat, p, out.list)
    case DeleteOp(p) => out.Listing? && ListsFlat(flat, p, out.list)
    case CommitOp => out.Root?
    case RestartOp => out == Done
  }

  /** Where the flat answer is promised: well-formed keys, complete prefixes, address prefixes for reads. */
  predicate PromisedFlat(s: Layers, op: Op) {
    match op
    case SetOp(k, _) => WellFormed(k) || HasBadAddress(k)
    case GetOp(k) => WellFormed(k)
    case ReadOp(p) => IsComplete(s, p) || p.key.AddressPrefix?
    case DeleteOp(p) => IsComplete(s, p)
    case _ => true
  }

  lemma ExactListIsFlat(K: Keccak, s: Layers, p: SpacedKey, list: seq<KeyValue>)
    requires ListsExactly(K, s, p, list)
    ensures ListsFlat(Flat(K, s), p, list)
  {
    hide View, Flat, Lists, Selects, IsCanonicalKey;
    forall k, v | WellFormed(k)
      ensures Lists(list, k, v) <==> Selects(p, k) && Lookup(Flat(K, s), k) == Some(v)
    {
      FlatIsView(K, s, k);
    }
  }

  /** One operation answers and acts as the flat map would. */
  lemma StepIsFlat(K: Keccak, s: Layers, op: Op)
    requires Inv(K, s) && PromisedFlat(s, op)
    ensures AnswersAsFlat(Flat(K, s), op, Answer(K, s, op))
    ensures Flat(K, Step(K, s, op)) == FlatAfter(Flat(K, s), op)
  {
    hide Inv, Sound, Set, Get, ReadPrefix, DeletePrefix, Committed, Restore, WellFormed, HasBadAddress, IsComplete,
      Flat, Without, ListsFlat, ListsExactly, AfterFailedDelete;
    match op
    case SetOp(k, v) =>
      if WellFormed(k) {
        SetActsOnFlat(K, s, k, v);
      } else {
        RejectedSet(K, s, k, v);
      }
    case GetOp(k) =>
      GetAnswersFlat(K, s, k);
    case ReadOp(p) =>
      if IsComplete(s, p) {
        ReadCompletePrefix(K, s, p);
      } else {
        ReadAddressPrefix(K, s, p);
      }
      ExactListIsFlat(K, s, p, ReadPrefix(K, s, p).value);
    case DeleteOp(p) =>
      DeleteCompletePrefix(K, s, p);
      ExactListIsFlat(K, s, p, DeletePrefix(K, s, p).value.list);
    case CommitOp =>
      CommitKeepsFlat(K, s);
    case RestartOp =>
      InvIsSound(K, s);
      RestartStays(K, s);
  }

  /** Every operation of the run is one for which the flat answer is promised in the state it meets. */
  ghost predicate PromisedRun(K: Keccak, s: Layers, ops: seq<Op>)
    decreases |ops|
  {
    ops == [] || (PromisedFlat(s, ops[0]) && PromisedRun(K, Step(K, s, ops[0]), ops[1..]))
  }

  lemma PromisedIsAdmissible(s: Layers, op: Op)
    requires PromisedFlat(s, op)
    ensures Admissible(op)
  {
    hide WellFormed, HasBadAddress, IsComplete;
  }

  ghost predicate RunsAsFlat(flat: map<SpacedKey, Bytes>, ops: seq<Op>, outs: seq<Output>)
    requires |outs| == |ops|
    decreases |ops|
  {
    ops == [] || (AnswersAsFlat(flat, ops[0], outs[0]) && RunsAsFlat(FlatAfter(flat, ops[0]), ops[1..], outs[1..]))
  }

  /** The layered, re-keyed, rotating state cannot be told from one flat map on any run. */
  lemma {:induction false} RunIsFlat(K: Keccak, s: Layers, ops: seq<Op>)
    requires Inv(K, s) && PromisedRun(K, s, ops)
    ensures RunsAsFlat(Flat(K, s), ops, Answers(K, s, ops))
    decreases |ops|
  {
    hide Inv, Flat, FlatAfter, AnswersAsFlat, PromisedFlat, Step, Answer, Admissible;
    if ops != [] {
      PromisedIsAdmissible(s, ops[0]);
      StepKeepsInv(K, s, ops[0]);
      StepIsFlat(K, s, ops[0]);
      RunIsFlat(K, Step(K, s, ops[0]), ops[1..]);
      assert Answers(K, s, ops)[1..] == Answers(K, Step(K, s, ops[0]), ops[1..]);
    }
  }

  // ---------------------------------------------------------------------------------------------
  // Committed roots
  // ---------------------------------------------------------------------------------------------

  /** The stateless roots of the three layers, the hash over them, and the padding that the lower two give. */
  ghost predicate HoldsStatelessRoots(K: Keccak, s: Layers, r: CommitRoot) {
    && r.snapshotRoot == TrieRoot(K, LiveEntries(s.snapshot))
    && r.intermediateDeltaRoot == TrieRoot(K, s.intermediate)
    && r.deltaRoot == TrieRoot(K, s.delta)
    && r.stateRootHash == K(r.snapshotRoot + r.intermediateDeltaRoot + r.deltaRoot)
    && r.deltaMptKeyPadding == K(r.snapshotRoot + r.intermediateDeltaRoot)
  }

  /** In any run at all, each commit answers the stateless roots of the layers as the operations before it left them. */
  lemma {:induction false} CommitsAnswerStatelessRoots(K: Keccak, s: Layers, ops: seq<Op>, i: nat)
    requires Sound(K, s) && i < |ops| && ops[i].CommitOp?
    ensures Answers(K, s, ops)[i].Root?
    ensures HoldsStatelessRoots(K, Final(K, s, ops[..i]), Answers(K, s, ops)[i].root)
    decreases i
  {
    hide Sound, Step, Answer, HoldsStatelessRoots;
    StepKeepsSound(K, s, ops[0]);
    if i == 0 {
      CommitHoldsRoots(K, s);
    } else {
      var t := Step(K, s, ops[0]);
      CommitsAnswerStatelessRoots(K, t, ops[1..], i - 1);
      assert ops[..i][0] == ops[0] && ops[..i][1..] == ops[1..][..i - 1];
      assert Answers(K, s, ops)[i] == Answers(K, t, ops[1..])[i - 1];
    }
  }

  lemma CommitHoldsRoots(K: Keccak, s: Layers)
    requires Sound(K, s)
    ensures Answer(K, s, CommitOp) == Root(RootToCommit(K, s)) && HoldsStatelessRoots(K, s, RootToCommit(K, s))
  {
    hide TrieRoot, LiveEntries, AllRekey, AllDecode, Commit;
    CommitKeepsSound(K, s);
    CommitReturnsStatelessRoots(K, s);
  }

  /** So from any snapshot whose keys decode: no invariant need be asked for. */
  lemma RootsFromSnapshot(K: Keccak, snapshot: Snapshot, epochCount: nat, ops: seq<Op>, i: nat)
    requires AllDecode(snapshot.Keys) && epochCount > 0
    requires i < |ops| && ops[i].CommitOp?
    ensures var start := FromSnapshot(K, snapshot, epochCount); var outs := Answers(K, start, ops);
      outs[i].Root? && HoldsStatelessRoots(K, Final(K, start, ops[..i]), outs[i].root)
  {
    hide Sound, FromSnapshot, Answers, Final, HoldsStatelessRoots;
    FreshStateIsSound(K, snapshot, epochCount);
    CommitsAnswerStatelessRoots(K, FromSnapshot(K, snapshot, epochCount), ops, i);
  }

  predicate SameLayers(s: Layers, t: Layers) {
    s.snapshot == t.snapshot && s.intermediate == t.intermediate && s.delta == t.delta
  }

  lemma RootsAgree(K: Keccak, s: Layers, t: Layers, r: CommitRoot, q: CommitRoot)
    requires SameLayers(s, t) && HoldsStatelessRoots(K, s, r) && HoldsStatelessRoots(K, t, q)
    ensures r == q
  {
    hide TrieRoot, LiveEntries;
  }

  /** The root that a commit after the run would answer. */
  ghost function NextRoot(K: Keccak, s: Layers, ops: seq<Op>): Output {
    Answers(K, s, ops + [CommitOp])[|ops|]
  }

  lemma NextRootHolds(K: Keccak, s: Layers, ops: seq<Op>)
    requires Sound(K, s)
    ensures NextRoot(K, s, ops).Root? && HoldsStatelessRoots(K, Final(K, s, ops), NextRoot(K, s, ops).root)
  {
    hide Sound, Answers, Final, HoldsStatelessRoots;
    CommitsAnswerStatelessRoots(K, s, ops + [CommitOp], |ops|);
    assert (ops + [CommitOp])[..|ops|] == ops;
  }

  /** Two histories from any two states that end in the same layers commit the same root next, whatever the order. */
  lemma HistoriesCommitAlike(K: Keccak, s: Layers, ops: seq<Op>, t: Layers, others: seq<Op>)
    requires Sound(K, s) && Sound(K, t) && SameLayers(Final(K, s, ops), Final(K, t, others))
    ensures NextRoot(K, s, ops) == NextRoot(K, t, others)
  {
    hide Sound, Final, NextRoot, HoldsStatelessRoots, SameLayers;
    NextRootHolds(K, s, ops);
    NextRootHolds(K, t, others);
    RootsAgree(K, Final(K, s, ops), Final(K, t, others), NextRoot(K, s, ops).root, NextRoot(K, t, others).root);
  }

  // ---------------------------------------------------------------------------------------------
  // Restarts
  // ---------------------------------------------------------------------------------------------

  function WithoutRestarts(ops: seq<Op>): seq<Op> {
    if ops == [] then [] else (if ops[0].RestartOp? then [] else [ops[0]]) + WithoutRestarts(ops[1..])
  }

  /** The answers of a run, those of its restarts left out. */
  ghost function Observed(K: Keccak, s: Layers, ops: seq<Op>): seq<Output>
    decreases |ops|
  {
    if ops == [] then
      []
    else
      (if ops[0].RestartOp? then [] else [Answer(K, s, ops[0])]) + Observed(K, Step(K, s, ops[0]), ops[1..])
  }

  /** Restarting from a checkpoint anywhere in a run of any operations changes no answer and no later state. */
  lemma {:induction false} RestartsCannotBeObserved(K: Keccak, s: Layers, ops: seq<Op>)
    requires Sound(K, s)
    ensures Observed(K, s, ops) == Answers(K, s, WithoutRestarts(ops))
    ensures Final(K, s, ops) == Final(K, s, WithoutRestarts(ops))
    decreases |ops|
  {
    hide Sound, Answer, Step, Answers, Final;
    if ops == [] {
      RunOfNothing(K, s);
    } else {
      var op, t := ops[0], Step(K, s, ops[0]);
      var rest := WithoutRestarts(ops[1..]);
      StepKeepsSound(K, s, op);
      RunFrom(K, s, op, ops[1..]);
      assert [op] + ops[1..] == ops;
      RestartsCannotBeObserved(K, t, ops[1..]);
      if op.RestartOp? {
        RestartStays(K, s);
        assert WithoutRestarts(ops) == rest && Observed(K, s, ops) == Observed(K, t, ops[1..]);
      } else {
        RunFrom(K, s, op, rest);
      }
    }
  }

  lemma RunOfNothing(K: Keccak, s: Layers)
    ensures Answers(K, s, []) == [] && Final(K, s, []) == s
  {
  }

  /** A run is its first operation and then the run from the state that leaves. */
  lemma RunFrom(K: Keccak, s: Layers, op: Op, rest: seq<Op>)
    ensures Answers(K, s, [op] + rest) == [Answer(K, s, op)] + Answers(K, Step(K, s, op), rest)
    ensures Final(K, s, [op] + rest) == Final(K, Step(K, s, op), rest)
  {
    hide Answer, Step;
    assert ([op] + rest)[1..] == rest;
  }

  // ---------------------------------------------------------------------------------------------
  // Rotations
  // ---------------------------------------------------------------------------------------------

  predicate Rotates(s: Layers, op: Op) {
    op.CommitOp? && s.epochCount > 0 && Divides(s.epochCount, s.height + 1)
  }

  predicate Divides(n: nat, h: nat)
    requires n > 0
  {
    h % n == 0
  }

  /** The states right after each rotation of a run. */
  ghost function Rotations(K: Keccak, s: Layers, ops: seq<Op>): seq<Layers>
    decreases |ops|
  {
    if ops == [] then
      []
    else
      var t := Step(K, s, ops[0]);
      (if Rotates(s, ops[0]) then [t] else []) + Rotations(K, t, ops[1..])
  }

  lemma RotationsUnfold(K: Keccak, s: Layers, ops: seq<Op>)
    requires ops != []
    ensures !Rotates(s, ops[0]) ==> Rotations(K, s, ops) == Rotations(K, Step(K, s, ops[0]), ops[1..])
    ensures Rotates(s, ops[0]) ==>
      Rotations(K, s, ops) == [Step(K, s, ops[0])] + Rotations(K, Step(K, s, ops[0]), ops[1..])
  {
    hide Step;
  }

  lemma NoRotations(K: Keccak, s: Layers)
    ensures Rotations(K, s, []) == []
  {
  }

  function Commits(ops: seq<Op>): nat {
    if ops == [] then 0 else (if ops[0].CommitOp? then 1 else 0) + Commits(ops[1..])
  }

  /** How many whole periods fit into a height. */
  function Periods(h: nat, n: nat): nat
    requires n > 0
  {
    h / n
  }

  lemma NextQuotient(h: nat, n: nat)
    requires n > 0
    ensures Periods(h + 1, n) == Periods(h, n) + if Divides(n, h + 1) then 1 else 0
  {
    var q, r := h / n, h % n;
    assert h == q * n + r;
    if r + 1 == n {
      QuotientIs(h + 1, n, q + 1, 0);
    } else {
      QuotientIs(h + 1, n, q, r + 1);
    }
  }

  /** Only a commit reaches below the delta or moves the counters. */
  lemma QuietStep(K: Keccak, s: Layers, op: Op)
    requires Sound(K, s) && !op.CommitOp?
    ensures Step(K, s, op) == s.(delta := Step(K, s, op).delta)
  {
    hide Sound, Set, DeletePrefix, AfterFailedDelete, Persist, Restore;
    match op
    case SetOp(k, v) => SetChangesOnlyDelta(K, s, k, v);
    case DeleteOp(p) => DeleteChangesOnlyDelta(K, s, p);
    case RestartOp => RestartStays(K, s);
    case _ =>
  }

  lemma SetChangesOnlyDelta(K: Keccak, s: Layers, k: SpacedKey, v: Bytes)
    ensures Set(K, s, k, v).Ok? ==> Set(K, s, k, v).value == s.(delta := Set(K, s, k, v).value.delta)
  {
  }

  lemma DeleteChangesOnlyDelta(K: Keccak, s: Layers, p: SpacedKey)
    ensures DeletePrefix(K, s, p).Ok? ==>
      DeletePrefix(K, s, p).value.after == s.(delta := DeletePrefix(K, s, p).value.after.delta)
    ensures AfterFailedDelete(K, s, p) == s.(delta := AfterFailedDelete(K, s, p).delta)
  {
    hide ToKeyBytes, ToDeltaKeyBytes, RekeyAll, DecodeAll, ListFound, ScanKeys, HideIntermediate, HideSnapshot,
      Decodable, Rekeyable, DeltaAfterDelete;
  }

  lemma CommitCounts(K: Keccak, s: Layers)
    ensures Step(K, s, CommitOp) == Committed(K, s)
    ensures Committed(K, s).epochCount == s.epochCount && Committed(K, s).height == s.height + 1
  {
    hide TrieRoot, Merged, Rotation, AtBoundary;
  }

  lemma StepKeepsCounters(K: Keccak, s: Layers, op: Op)
    requires Sound(K, s)
    ensures Step(K, s, op).epochCount == s.epochCount
    ensures Step(K, s, op).height == s.height + if op.CommitOp? then 1 else 0
  {
    hide Sound, Step, Committed;
    if op.CommitOp? {
      CommitCounts(K, s);
    } else {
      QuietStep(K, s, op);
    }
  }

  /** After every run the number of rotations is what the heights say: one each time a period is completed. */
  lemma {:induction false} RotationCount(K: Keccak, s: Layers, ops: seq<Op>)
    requires Sound(K, s)
    ensures s.epochCount > 0
    ensures |Rotations(K, s, ops)| == Periods(s.height + Commits(ops), s.epochCount) - Periods(s.height, s.epochCount)
    decreases |ops|
  {
    hide Sound, Step, Answer, Rotations, Periods, Divides;
    PeriodIsPositive(K, s);
    if ops == [] {
      NoRotations(K, s);
      return;
    }
    RotationsUnfold(K, s, ops);
    StepKeepsSound(K, s, ops[0]);
    StepKeepsCounters(K, s, ops[0]);
    NextQuotient(s.height, s.epochCount);
    RotationCount(K, Step(K, s, ops[0]), ops[1..]);
  }

  /** From height 0, exactly floor(h/n) rotations follow h commits of period n. */
  lemma RotationsFromStart(K: Keccak, s: Layers, ops: seq<Op>)
    requires Sound(K, s) && s.height == 0
    ensures s.epochCount > 0 && |Rotations(K, s, ops)| == Commits(ops) / s.epochCount
  {
    hide Sound, Rotations;
    RotationCount(K, s, ops);
    QuotientIs(0, s.epochCount, 0, 0);
  }

  lemma PeriodIsPositive(K: Keccak, s: Layers)
    requires Sound(K, s)
    ensures s.epochCount > 0
  {
  }

  /** Between rotations nothing below the delta changes; a rotation moves it into the snapshot. */
  lemma StepBelow(K: Keccak, s: Layers, op: Op, k: SpacedKey)
    requires Inv(K, s) && WellFormed(k)
    ensures var t := Step(K, s, op);
      if Rotates(s, op)
      then InSnapshot(t.snapshot, k) == Below(K, s, k) && Below(K, t, k) == View(K, t, k) == View(K, s, k)
      else Below(K, t, k) == Below(K, s, k)
  {
    hide Inv, Sound, Step, Committed, View, InSnapshot, InLayer;
    InvIsSound(K, s);
    if op.CommitOp? {
      CommitCounts(K, s);
      CommitBelow(K, s, k);
    } else {
      QuietStep(K, s, op);
      SameBelow(K, s, Step(K, s, op).delta, k);
    }
  }

  lemma SameBelow(K: Keccak, s: Layers, delta: EntryMap, k: SpacedKey)
    requires WellFormed(k)
    ensures Below(K, s.(delta := delta), k) == Below(K, s, k)
  {
  }

  lemma InvGivesKeys(K: Keccak, s: Layers)
    requires Inv(K, s)
    ensures DeltaKeys(K, s.intermediate.Keys, s.intermediatePadding) && s.epochCount > 0
    ensures Rotation(Counted(K, s)).Ok?
  {
    hide Sound, DeltaKeys, CanonicalKeys, TrieRoot, LiveEntries;
    CommitKeepsInv(K, s);
  }

  lemma CommitBelow(K: Keccak, s: Layers, k: SpacedKey)
    requires Inv(K, s) && WellFormed(k)
    ensures var t := Committed(K, s);
      if Rotates(s, CommitOp)
      then InSnapshot(t.snapshot, k) == Below(K, s, k) && Below(K, t, k) == View(K, t, k) == View(K, s, k)
      else Below(K, t, k) == Below(K, s, k)
  {
    hide Inv, Merged, InSnapshot, Canonical, Delta, TrieRoot, LiveEntries, Rotation;
    CommitKeepsView(K, s, k);
    InvGivesKeys(K, s);
    MergedAnswersBelow(K, Counted(K, s), k);
  }

  /**
   * Right after the r-th rotation the snapshot alone is the whole logical state of the rotation before it;
   * right after the first one it is what lay below the delta at the start.
   */
  lemma {:induction false} SnapshotLagsOnePeriod(K: Keccak, s: Layers, ops: seq<Op>, k: SpacedKey, r: nat)
    requires Inv(K, s) && AllAdmissible(ops) && WellFormed(k)
    requires r < |Rotations(K, s, ops)|
    ensures InSnapshot(Rotations(K, s, ops)[r].snapshot, k)
         == if r == 0 then Below(K, s, k) else View(K, Rotations(K, s, ops)[r - 1], k)
    decreases |ops|
  {
    hide Inv, Admissible, Step, View, Below, InSnapshot, Rotations, Rotates;
    if ops == [] {
      NoRotations(K, s);
      return;
    }
    RotationsUnfold(K, s, ops);
    StepKeepsInv(K, s, ops[0]);
    StepBelow(K, s, ops[0], k);
    var t := Step(K, s, ops[0]);
    if !Rotates(s, ops[0]) {
      SnapshotLagsOnePeriod(K, t, ops[1..], k, r);
    } else if r == 0 {
      assert Rotations(K, s, ops)[0] == t;
    } else {
      SnapshotLagsOnePeriod(K, t, ops[1..], k, r - 1);
      assert Rotations(K, s, ops)[r] == Rotations(K, t, ops[1..])[r - 1];
      assert Rotations(K, s, ops)[r - 1] == if r == 1 then t else Rotations(K, t, ops[1..])[r - 2];
    }
  }

  /** With nothing in the delta at the start, the first snapshot is the initial state itself. */
  lemma FirstSnapshotIsInitialState(K: Keccak, s: Layers, ops: seq<Op>, k: SpacedKey)
    requires Inv(K, s) && AllAdmissible(ops) && WellFormed(k) && s.delta == map[]
    requires Rotations(K, s, ops) != []
    ensures InSnapshot(Rotations(K, s, ops)[0].snapshot, k) == View(K, s, k)
  {
    hide Inv, InSnapshot, Delta, Rotations;
    SnapshotLagsOnePeriod(K, s, ops, k, 0);
  }
}
